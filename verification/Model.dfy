/**
  The rows the control plane keeps in PostgreSQL, and the questions its code asks of one row.

  Identifiers and images are only ever compared, so they are natural numbers here. The `CHECK (... > 0)`
  and `CHECK (... >= 0)` constraints of the schema are the subset types `pos` and `nat`.
 */
module Model {

  datatype Option<+T> = None | Some(value: T)

  type pos = n: nat | n > 0 witness 1

  type NodeId = nat
  type ServiceId = nat
  type WorkloadId = nat
  type ContainerId = nat
  type Image = nat

  datatype NodeStatus = Ready | Unhealthy | Draining
  datatype WorkloadState = Pending | Scheduled | Running | Failed | Stopped
  datatype ServiceStatus = Active | Deleting | Deleted
  datatype DeploymentStatus = DeploymentPending | Progressing | Available | DeploymentFailed

  /** The two resources that are reserved. */
  datatype Dim = Cpu | Memory

  datatype Node = Node(
    cpuCapacity: pos, memoryCapacity: pos,
    cpuAllocated: nat, memoryAllocated: nat,
    status: NodeStatus)
  {
    function Capacity(d: Dim): pos {
      if d.Cpu? then cpuCapacity else memoryCapacity
    }

    function Allocated(d: Dim): nat {
      if d.Cpu? then cpuAllocated else memoryAllocated
    }

    predicate Fits(cpu: nat, memory: nat) {
      cpu <= cpuCapacity - cpuAllocated && memory <= memoryCapacity - memoryAllocated
    }
  }

  /** `held` is not a column: it records that the row's request has been charged and not yet given back. */
  datatype Workload = Workload(
    id: WorkloadId, service: ServiceId,
    node: Option<NodeId>, container: Option<ContainerId>,
    image: Image, cpu: pos, memory: pos, version: int,
    desired: WorkloadState, actual: WorkloadState,
    held: bool)
  {
    function Need(d: Dim): pos {
      if d.Cpu? then cpu else memory
    }
  }

  datatype AutoscalingConfig = AutoscalingConfig(
    enabled: bool, minReplicas: int, maxReplicas: int, targetCpu: real,
    scaleUpCooldown: int, scaleDownCooldown: int, requiredObservations: int, maxScaleStep: int)

  datatype Service = Service(
    id: ServiceId, image: Image, desiredReplicas: nat, cpu: pos, memory: pos, version: int,
    maxSurge: int, maxUnavailable: int,
    deployment: DeploymentStatus, startedAt: Option<int>,
    autoscaling: AutoscalingConfig, lastScaledAt: Option<int>,
    status: ServiceStatus, createdAt: int)

  type Rows = map<WorkloadId, Workload>
  type NodeRows = map<NodeId, Node>

  /** The three actual states in which a workload occupies its node. */
  predicate InUse(s: WorkloadState) {
    s.Pending? || s.Scheduled? || s.Running?
  }

  /** `isActive` of the deployment controller: occupying, and not asked to stop. */
  predicate IsActive(w: Workload) {
    InUse(w.actual) && w.desired != Stopped
  }

  /** The row every controller inserts for one more replica of a service. */
  function PendingRow(s: Service, id: WorkloadId): Workload {
    Workload(id, s.id, None, None, s.image, s.cpu, s.memory, s.version, Pending, Pending, false)
  }

  function Max(a: int, b: int): int {
    if a > b then a else b
  }

  function Min(a: int, b: int): int {
    if a < b then a else b
  }
}
