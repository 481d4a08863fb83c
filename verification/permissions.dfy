/** The role-to-capability table. Only the role information card component
    reads it, and no page or layout renders that card; no gate consults it. */
module Permissions {
  import opened Auth

  datatype Permission =
    | ViewIncidents
    | CreateIncident
    | EditIncident
    | DeleteIncident
    | UpdateStatus
    | AssignHandler
    | AddNotes
    | ViewReports

  /** The supervisor's list, which names every permission once. */
  const AllPermissions: seq<Permission> :=
    [ViewIncidents, CreateIncident, EditIncident, DeleteIncident,
     UpdateStatus, AssignHandler, AddNotes, ViewReports]

  lemma AllPermissionsListed()
    ensures forall p :: p in AllPermissions
  {
    forall p ensures p in AllPermissions {
      match p
      case ViewIncidents => assert AllPermissions[0] == p;
      case CreateIncident => assert AllPermissions[1] == p;
      case EditIncident => assert AllPermissions[2] == p;
      case DeleteIncident => assert AllPermissions[3] == p;
      case UpdateStatus => assert AllPermissions[4] == p;
      case AssignHandler => assert AllPermissions[5] == p;
      case AddNotes => assert AllPermissions[6] == p;
      case ViewReports => assert AllPermissions[7] == p;
    }
  }

  /** No permission is listed twice. */
  predicate NoDuplicates(ps: seq<Permission>) {
    forall i, j :: 0 <= i < j < |ps| ==> ps[i] != ps[j]
  }

  /** The hierarchy the table encodes, stated independently of the lists:
      supervisors hold everything, coordinators everything except creating
      and deleting incidents, handlers only viewing, updating status and
      adding notes. */
  predicate Grants(r: Role, p: Permission) {
    match r
    case Supervisor => true
    case Coordinator => p != CreateIncident && p != DeleteIncident
    case Handler => p == ViewIncidents || p == UpdateStatus || p == AddNotes
  }

  /** `rolePermissions[r]`, in the order the table lists it. */
  function RolePermissions(r: Role): (ps: seq<Permission>)
    ensures NoDuplicates(ps)
    ensures forall p :: p in ps <==> Grants(r, p)
  {
    match r
    case Supervisor =>
      AllPermissionsListed();
      AllPermissions
    case Coordinator =>
      [ViewIncidents, EditIncident, UpdateStatus, AssignHandler, AddNotes, ViewReports]
    case Handler =>
      [ViewIncidents, UpdateStatus, AddNotes]
  }

  /** The supervisor's list holds all eight permissions. */
  lemma SupervisorHasAll()
    ensures |RolePermissions(Supervisor)| == 8
    ensures forall p :: p in RolePermissions(Supervisor)
  {
  }

  /** The coordinator holds six permissions: all but creating and deleting. */
  lemma CoordinatorHasSix()
    ensures |RolePermissions(Coordinator)| == 6
    ensures CreateIncident !in RolePermissions(Coordinator)
    ensures DeleteIncident !in RolePermissions(Coordinator)
  {
  }

  /** The handler holds exactly viewing, status updates and notes. */
  lemma HandlerHasThree()
    ensures |RolePermissions(Handler)| == 3
    ensures (set p | p in RolePermissions(Handler)) == {ViewIncidents, UpdateStatus, AddNotes}
  {
  }

  /** Every role's list is contained in the supervisor's. */
  lemma SubsetOfSupervisor(r: Role)
    ensures forall p :: p in RolePermissions(r) ==> p in RolePermissions(Supervisor)
  {
  }
}
