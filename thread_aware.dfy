/** Records visible to the current user (common_core/managers/thread_aware.py).
    The thread-local lookup of the current user is replaced by a parameter. */
module ThreadAware {
  import opened Wrappers
  import opened Seqs

  /** The current user: none, or a user object with its pk and, when the
      object has one, its is_admin attribute. */
  datatype CurrentUser = NoUser | User(pk: Option<nat>, isAdmin: Option<bool>)

  /** A row of a table with a nullable created_by foreign key. */
  datatype Record = Record(id: nat, createdBy: Option<nat>)

  /** Q(created_by=user.pk) | Q(created_by=None); a null pk matches null rows,
      as filter(created_by=None) does. */
  function CreatedByOrShared(pk: Option<nat>): Record -> bool
  {
    (r: Record) => r.createdBy == pk || r.createdBy == None
  }

  /** all_by_current_user over the manager's queryset. */
  function AllByCurrentUser(records: seq<Record>, user: CurrentUser): (r: seq<Record>)
    ensures user.NoUser? ==> r == []
    ensures user.User? && user.isAdmin == None ==> r == []
    ensures user.User? && user.isAdmin == Some(true) ==> r == records
    ensures user.User? && user.isAdmin == Some(false) ==>
      forall x :: x in r <==> x in records && (x.createdBy == user.pk || x.createdBy == None)
    ensures |r| <= |records| && forall x :: x in r ==> x in records
  {
    match user
    case NoUser => []
    case User(pk, isAdmin) =>
      match isAdmin
      case None => []
      case Some(admin) => if admin then records else Filter(records, CreatedByOrShared(pk))
  }

  /** A non-admin sees the same rows in the same order as the filter. */
  lemma NonAdminKeepsOrder(records: seq<Record>, pk: Option<nat>)
    ensures AllByCurrentUser(records, User(pk, Some(false))) == Filter(records, CreatedByOrShared(pk))
  {
  }

  /** Rows created by nobody are visible to every user that gets a
      queryset at all. */
  lemma SharedRowsVisible(records: seq<Record>, user: CurrentUser, x: Record)
    requires user.User? && user.isAdmin.Some? && x in records && x.createdBy == None
    ensures x in AllByCurrentUser(records, user)
  {
  }
}
