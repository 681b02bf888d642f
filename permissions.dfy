/** The merge step of `getCompanyUsers` in src/lib/permissions.ts. */
module Permissions {
  import opened Wrappers

  datatype Role = Admin | User

  datatype CompanyUser = CompanyUser(userId: string, email: string, fullName: string)

  datatype PermissionRow = PermissionRow(userId: string, role: Role, canViewAllTasks: bool)

  datatype MergedUser = MergedUser(userId: string, email: string, fullName: string, role: Role, canViewAllTasks: bool)

  /** Row `i` is the first row for `userId`. */
  predicate FirstWith(permissions: seq<PermissionRow>, userId: string, i: nat) {
    i < |permissions| && permissions[i].userId == userId &&
    forall k :: 0 <= k < i ==> permissions[k].userId != userId
  }

  /** `permissions.find(p => p.user_id === userId)`: the first row for the user. */
  function FindPermission(permissions: seq<PermissionRow>, userId: string): (found: Option<PermissionRow>)
    ensures found.None? <==> forall i :: 0 <= i < |permissions| ==> permissions[i].userId != userId
    ensures found.Some? ==>
      exists i: nat :: FirstWith(permissions, userId, i) && permissions[i] == found.value
    ensures found.Some? ==> found.value.userId == userId
  {
    if permissions == [] then None
    else if permissions[0].userId == userId then Some(permissions[0])
    else
      var rest := FindPermission(permissions[1..], userId);
      if rest.Some? then
        ghost var i: nat :| FirstWith(permissions[1..], userId, i) && permissions[1..][i] == rest.value;
        assert permissions[i + 1] == rest.value && FirstWith(permissions, userId, i + 1);
        rest
      else rest
  }

  /** The user with the permissions of their first row, or role 'user' and full visibility without one. */
  function MergeUser(user: CompanyUser, permissions: seq<PermissionRow>): MergedUser {
    var found := FindPermission(permissions, user.userId);
    var role := if found.Some? then found.value.role else User;
    var canViewAll := if found.Some? then found.value.canViewAllTasks else true;
    MergedUser(user.userId, user.email, user.fullName, role, canViewAll)
  }

  /** `companyUsers.map(...)`: one merged entry per company user, in the same order. */
  function MergeUsers(users: seq<CompanyUser>, permissions: seq<PermissionRow>): (merged: seq<MergedUser>)
    ensures |merged| == |users|
    ensures forall i :: 0 <= i < |users| ==> merged[i] == MergeUser(users[i], permissions)
  {
    seq(|users|, i requires 0 <= i < |users| => MergeUser(users[i], permissions))
  }

  /** Each entry copies the user's fields and takes role and visibility from the first matching row, or the defaults. */
  lemma MergedEntry(users: seq<CompanyUser>, permissions: seq<PermissionRow>, i: nat)
    requires i < |users|
    ensures var m := MergeUsers(users, permissions)[i];
      m.userId == users[i].userId && m.email == users[i].email && m.fullName == users[i].fullName
    ensures var m := MergeUsers(users, permissions)[i];
      (exists j: nat :: FirstWith(permissions, users[i].userId, j) &&
         m.role == permissions[j].role && m.canViewAllTasks == permissions[j].canViewAllTasks)
      || ((forall j :: 0 <= j < |permissions| ==> permissions[j].userId != users[i].userId) &&
          m.role == User && m.canViewAllTasks)
  {
  }

  /** Rows of users outside the company list produce no entry. */
  lemma NoEntryWithoutCompanyUser(users: seq<CompanyUser>, permissions: seq<PermissionRow>, m: MergedUser)
    requires m in MergeUsers(users, permissions)
    ensures exists u :: u in users && u.userId == m.userId
  {
    var merged := MergeUsers(users, permissions);
    var i :| 0 <= i < |merged| && merged[i] == m;
    assert users[i].userId == m.userId;
  }

  /**
   * `getCompanyUsers` given the results of its two queries: the first error
   * is thrown, otherwise the merged list is returned.
   */
  function GetCompanyUsers(companyUsers: Result<seq<CompanyUser>>, permissions: Result<seq<PermissionRow>>): (r: Result<seq<MergedUser>>)
    ensures companyUsers.Err? ==> r == Err(companyUsers.message)
    ensures companyUsers.Ok? && permissions.Err? ==> r == Err(permissions.message)
    ensures companyUsers.Ok? && permissions.Ok? ==>
      r.Ok? && |r.value| == |companyUsers.value| &&
      forall i :: 0 <= i < |r.value| ==> r.value[i].userId == companyUsers.value[i].userId
    ensures companyUsers.Ok? && permissions.Ok? ==> r == Ok(MergeUsers(companyUsers.value, permissions.value))
  {
    if companyUsers.Err? then Err(companyUsers.message)
    else if permissions.Err? then Err(permissions.message)
    else Ok(MergeUsers(companyUsers.value, permissions.value))
  }
}
