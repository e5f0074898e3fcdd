/** The Account model (accounts/models/account/models.py): its permission
    predicates and the column constraints of its table. */
module AccountModels {
  import opened Wrappers

  /** A permission as the module roles hold it; has_perms matches on the codename. */
  datatype Permission = Permission(codename: string)

  /** A module role with its permissions. */
  datatype Role = Role(permissions: seq<Permission>)

  /** One module membership of an account, with the role it grants. */
  datatype Membership = Membership(role: Role)

  /** An account row. The primary key is kept by the tables that hold accounts. */
  datatype Account = Account(
    username: string,
    email: Option<string>,
    isActive: bool,
    isAdmin: bool,
    memberships: seq<Membership>)

  const MaxUsernameLength: nat := 50
  const MaxEmailLength: nat := 255

  /** A new account: active, not an administrator (the column defaults). */
  function NewAccount(username: string, email: Option<string>): (a: Account)
    ensures a.isActive && !a.isAdmin
    ensures a.username == username && a.email == email && a.memberships == []
  {
    Account(username, email, true, false, [])
  }

  /** has_perm: every permission on every object is granted, to every account. */
  function HasPerm(a: Account, perm: string, obj: Option<string>): (r: bool)
    ensures r
  {
    true
  }

  /** has_module_perms: granted for administrators only, whatever the module. */
  function HasModulePerms(a: Account, moduleSlug: string): (r: bool)
    ensures r <==> a.isAdmin
  {
    if a.isAdmin then true else false
  }

  /** The number of (membership, permission) rows the join
      membership -> module_role -> permissions yields for this codename,
      which is what len(...filter(module_role__permissions__codename=...)) counts. */
  function MatchingRows(ms: seq<Membership>, codename: string): nat
  {
    if ms == [] then 0
    else MatchingRows(ms[..|ms| - 1], codename) + CountCodename(ms[|ms| - 1].role.permissions, codename)
  }

  /** How many of the permissions carry the codename. */
  function CountCodename(ps: seq<Permission>, codename: string): nat
  {
    if ps == [] then 0
    else CountCodename(ps[..|ps| - 1], codename) + (if ps[|ps| - 1].codename == codename then 1 else 0)
  }

  /** Some permission in the list carries the codename. */
  predicate HoldsCodename(ps: seq<Permission>, codename: string)
  {
    exists j :: 0 <= j < |ps| && ps[j].codename == codename
  }

  lemma {:induction false} CountCodenamePositive(ps: seq<Permission>, codename: string)
    ensures CountCodename(ps, codename) > 0 <==> HoldsCodename(ps, codename)
  {
    if ps != [] {
      var init := ps[..|ps| - 1];
      CountCodenamePositive(init, codename);
      if HoldsCodename(init, codename) {
        var j :| 0 <= j < |init| && init[j].codename == codename;
        assert ps[j] == init[j];
      }
      if HoldsCodename(ps, codename) && ps[|ps| - 1].codename != codename {
        var j :| 0 <= j < |ps| && ps[j].codename == codename;
        assert init[j] == ps[j];
      }
    }
  }

  lemma {:induction false} MatchingRowsPositive(ms: seq<Membership>, codename: string)
    ensures MatchingRows(ms, codename) > 0 <==>
      exists i :: 0 <= i < |ms| && HoldsCodename(ms[i].role.permissions, codename)
  {
    if ms != [] {
      var init := ms[..|ms| - 1];
      MatchingRowsPositive(init, codename);
      CountCodenamePositive(ms[|ms| - 1].role.permissions, codename);
      if exists i :: 0 <= i < |init| && HoldsCodename(init[i].role.permissions, codename) {
        var i :| 0 <= i < |init| && HoldsCodename(init[i].role.permissions, codename);
        assert ms[i] == init[i];
      }
      if exists i :: 0 <= i < |ms| && HoldsCodename(ms[i].role.permissions, codename) {
        var i :| 0 <= i < |ms| && HoldsCodename(ms[i].role.permissions, codename);
        if i < |init| {
          assert init[i] == ms[i];
        }
      }
    }
  }

  /** has_perms: administrators hold every permission; anyone else holds a
      codename exactly when one of their memberships' roles grants it. */
  function HasPerms(a: Account, perms: string): (r: bool)
    ensures r <==> (a.isAdmin ||
      exists i :: 0 <= i < |a.memberships| && HoldsCodename(a.memberships[i].role.permissions, perms))
  {
    MatchingRowsPositive(a.memberships, perms);
    if a.isAdmin then true else MatchingRows(a.memberships, perms) > 0
  }

  /** is_staff: exactly the administrators. */
  function IsStaff(a: Account): (r: bool)
    ensures r == a.isAdmin
  {
    a.isAdmin
  }

  /** is_superuser: exactly the administrators, like is_staff. */
  function IsSuperuser(a: Account): (r: bool)
    ensures r == a.isAdmin
    ensures r == IsStaff(a)
  {
    a.isAdmin
  }

  /** The declared column constraints of one row: a username of at most 50
      characters; an email, when present, of at most 255. */
  predicate RowFits(a: Account)
  {
    |a.username| <= MaxUsernameLength &&
    (a.email.Some? ==> |a.email.value| <= MaxEmailLength)
  }

  /** The constraints of the whole table: every row fits, usernames are unique,
      and so are the emails that are not null (null emails may repeat). */
  predicate ValidAccounts(t: seq<Account>)
  {
    (forall i :: 0 <= i < |t| ==> RowFits(t[i])) &&
    (forall i, j :: 0 <= i < j < |t| ==> t[i].username != t[j].username) &&
    (forall i, j :: 0 <= i < j < |t| && t[i].email.Some? ==> t[i].email != t[j].email)
  }

  datatype InsertError = ValueTooLong | DuplicateUsername | DuplicateEmail

  /** Inserting a row as a length-enforcing backend does under these column definitions:
      refused when a value is too long or a unique column would repeat. */
  function Insert(t: seq<Account>, a: Account): (r: Result<seq<Account>, InsertError>)
    ensures r.Success? <==>
      RowFits(a) &&
      (forall i :: 0 <= i < |t| ==> t[i].username != a.username) &&
      (a.email.Some? ==> forall i :: 0 <= i < |t| ==> t[i].email != a.email)
    ensures r.Success? ==> r.value == t + [a]
    ensures r.Success? && ValidAccounts(t) ==> ValidAccounts(r.value)
  {
    if !RowFits(a) then Failure(ValueTooLong)
    else if exists i :: 0 <= i < |t| && t[i].username == a.username then Failure(DuplicateUsername)
    else if a.email.Some? && exists i :: 0 <= i < |t| && t[i].email == a.email then Failure(DuplicateEmail)
    else Success(t + [a])
  }
}
