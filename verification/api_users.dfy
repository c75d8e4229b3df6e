/** Administration of accounts and their roles through the API: creating and
    editing accounts, deleting them, and granting and revoking roles, with the
    guards that keep an administrator in place. Passwords are stored through a
    hashing function given as a parameter. */
module UserAdmin {
  import opened Wrappers

  datatype Role = Role(id: nat, name: string, displayName: string, description: Option<string>, isActive: bool)

  /** An account; `grants` maps the id of each role the account holds to the
      id of the administrator who granted it. */
  datatype Account = Account(name: string, email: string, password: string, grants: map<nat, nat>)

  datatype Directory = Directory(users: map<nat, Account>, roles: seq<Role>)

  const Admin: string := "admin"

  /** Laravel's string|max:255 on a required field: present, not empty, at
      most 255 characters. */
  predicate FilledUpTo255(s: string) {
    0 < |s| <= 255
  }

  /** The position of the first role with this name, if any. */
  function FindRole(roles: seq<Role>, name: string): (r: Option<nat>)
    ensures r.Some? ==> r.value < |roles| && roles[r.value].name == name
    ensures r.Some? ==> forall i :: 0 <= i < r.value ==> roles[i].name != name
    ensures r.None? ==> forall i :: 0 <= i < |roles| ==> roles[i].name != name
  {
    if roles == [] then None
    else if roles[0].name == name then Some(0)
    else
      match FindRole(roles[1..], name)
      case Some(k) => Some(k + 1)
      case None => None
  }

  /** Role `id` is a role called `name`. */
  predicate NamedRole(roles: seq<Role>, id: nat, name: string) {
    exists i :: 0 <= i < |roles| && roles[i].id == id && roles[i].name == name
  }

  predicate HasRole(roles: seq<Role>, a: Account, name: string) {
    exists id :: id in a.grants && NamedRole(roles, id, name)
  }

  /** The accounts holding the admin role. */
  function Admins(dir: Directory): set<nat> {
    set u | u in dir.users && HasRole(dir.roles, dir.users[u], Admin)
  }

  predicate UniqueRoleIds(roles: seq<Role>) {
    forall i, j :: 0 <= i < j < |roles| ==> roles[i].id != roles[j].id
  }

  predicate UniqueRoleNames(roles: seq<Role>) {
    forall i, j :: 0 <= i < j < |roles| ==> roles[i].name != roles[j].name
  }

  predicate UniqueEmails(users: map<nat, Account>) {
    forall u, v :: u in users && v in users && u != v ==> users[u].email != users[v].email
  }

  /** No other account uses this email. */
  predicate EmailFree(users: map<nat, Account>, email: string, except: Option<nat>) {
    forall u :: u in users && Some(u) != except ==> users[u].email != email
  }

  /** The keys the roles and users tables hold. */
  predicate WellFormed(dir: Directory) {
    UniqueRoleIds(dir.roles) && UniqueRoleNames(dir.roles) && UniqueEmails(dir.users)
  }

  // ---- granting and revoking ----

  /** UserController::assignRole. */
  function AssignRole(dir: Directory, actor: nat, userId: nat, role: Option<string>): (r: Result<Directory>)
    ensures userId !in dir.users ==> r == Err(NotFound)
    ensures userId in dir.users && (role.None? || FindRole(dir.roles, role.value).None?) ==> r == Err(ValidationFailed)
    ensures userId in dir.users && role.Some? && FindRole(dir.roles, role.value).Some? ==>
      (r == Err(BadRequest) <==> HasRole(dir.roles, dir.users[userId], role.value))
    ensures r.Ok? <==>
      userId in dir.users && role.Some? && FindRole(dir.roles, role.value).Some?
      && !HasRole(dir.roles, dir.users[userId], role.value)
    ensures r.Ok? ==>
      && userId in r.value.users
      && r.value.roles == dir.roles
      && r.value.users.Keys == dir.users.Keys
      && (forall u :: u in dir.users && u != userId ==> r.value.users[u] == dir.users[u])
      && HasRole(dir.roles, r.value.users[userId], role.value)
      && r.value.users[userId] == dir.users[userId].(grants := r.value.users[userId].grants)
      && dir.users[userId].grants.Keys <= r.value.users[userId].grants.Keys
    ensures r.Ok? ==>
      var id := dir.roles[FindRole(dir.roles, role.value).value].id;
      var before, after := dir.users[userId].grants, r.value.users[userId].grants;
      && id !in before
      && after.Keys == before.Keys + {id}
      && after[id] == actor
      && (forall g :: g in before ==> after[g] == before[g])
  {
    if userId !in dir.users then Err(NotFound)
    else if role.None? || FindRole(dir.roles, role.value).None? then Err(ValidationFailed)
    else
      var a := dir.users[userId];
      if HasRole(dir.roles, a, role.value) then Err(BadRequest)
      else
        var k := FindRole(dir.roles, role.value).value;
        var id := dir.roles[k].id;
        assert NamedRole(dir.roles, id, role.value);
        var granted := a.(grants := a.grants[id := actor]);
        assert id in granted.grants;
        Ok(dir.(users := dir.users[userId := granted]))
  }

  /** A role cannot be granted twice: the second grant is refused. */
  lemma {:induction false} AssignTwiceRefused(dir: Directory, actor: nat, userId: nat, role: string)
    requires AssignRole(dir, actor, userId, Some(role)).Ok?
    ensures AssignRole(AssignRole(dir, actor, userId, Some(role)).value, actor, userId, Some(role)) == Err(BadRequest)
  {
  }

  /** Every grant of the account except those of roles called `name`. */
  function WithoutRole(roles: seq<Role>, a: Account, name: string): (r: Account)
    ensures !HasRole(roles, r, name)
    ensures r.grants.Keys <= a.grants.Keys
    ensures forall id :: id in a.grants && !NamedRole(roles, id, name) ==> id in r.grants
    ensures r == a.(grants := r.grants)
  {
    a.(grants := map id | id in a.grants && !NamedRole(roles, id, name) :: a.grants[id])
  }

  /** UserController::removeRole. */
  function RemoveRole(dir: Directory, userId: nat, role: Option<string>): (r: Result<Directory>)
    ensures userId !in dir.users ==> r == Err(NotFound)
    ensures userId in dir.users && (role.None? || FindRole(dir.roles, role.value).None?) ==> r == Err(ValidationFailed)
    ensures userId in dir.users && role.Some? && FindRole(dir.roles, role.value).Some? ==>
      (r == Err(BadRequest) <==>
        !HasRole(dir.roles, dir.users[userId], role.value) || (role.value == Admin && |Admins(dir)| <= 1))
    ensures r.Ok? <==>
      userId in dir.users && role.Some? && FindRole(dir.roles, role.value).Some?
      && HasRole(dir.roles, dir.users[userId], role.value) && !(role.value == Admin && |Admins(dir)| <= 1)
    ensures r.Ok? ==>
      && userId in r.value.users
      && r.value.roles == dir.roles
      && r.value.users.Keys == dir.users.Keys
      && (forall u :: u in dir.users && u != userId ==> r.value.users[u] == dir.users[u])
      && !HasRole(dir.roles, r.value.users[userId], role.value)
      && r.value.users[userId] == WithoutRole(dir.roles, dir.users[userId], role.value)
  {
    if userId !in dir.users then Err(NotFound)
    else if role.None? || FindRole(dir.roles, role.value).None? then Err(ValidationFailed)
    else
      var a := dir.users[userId];
      if !HasRole(dir.roles, a, role.value) then Err(BadRequest)
      else if role.value == Admin && |Admins(dir)| <= 1 then Err(BadRequest)
      else Ok(dir.(users := dir.users[userId := WithoutRole(dir.roles, a, role.value)]))
  }

  /** Revoking a role other than admin leaves the admin role where it was,
      provided role ids are unique. */
  lemma {:induction false} WithoutOtherRoleKeepsAdmin(roles: seq<Role>, a: Account, name: string)
    requires UniqueRoleIds(roles)
    requires name != Admin
    ensures HasRole(roles, WithoutRole(roles, a, name), Admin) == HasRole(roles, a, Admin)
  {
    if HasRole(roles, a, Admin) {
      var id :| id in a.grants && NamedRole(roles, id, Admin);
      var i :| 0 <= i < |roles| && roles[i].id == id && roles[i].name == Admin;
      assert forall j :: 0 <= j < |roles| && roles[j].id == id ==> j == i;
      assert !NamedRole(roles, id, name);
      assert id in WithoutRole(roles, a, name).grants;
    }
  }

  /** removeRole never takes away the last administrator: with at least one
      admin before, there is at least one after. */
  lemma {:induction false} RemoveRoleKeepsAnAdmin(dir: Directory, userId: nat, role: Option<string>)
    requires WellFormed(dir)
    requires |Admins(dir)| >= 1
    requires RemoveRole(dir, userId, role).Ok?
    ensures |Admins(RemoveRole(dir, userId, role).value)| >= 1
  {
    if role.value == Admin {
      RemoveAdminAdmins(dir, userId, role);
    } else {
      RemoveOtherAdmins(dir, userId, role);
    }
  }

  /** Revoking admin removes exactly that account from the administrators,
      and only when there were at least two. */
  lemma {:induction false} RemoveAdminAdmins(dir: Directory, userId: nat, role: Option<string>)
    requires RemoveRole(dir, userId, role).Ok? && role == Some(Admin)
    ensures Admins(RemoveRole(dir, userId, role).value) == Admins(dir) - {userId}
    ensures |Admins(dir)| >= 2
  {
    var after := RemoveRole(dir, userId, role).value;
    forall u ensures u in Admins(after) <==> u in Admins(dir) - {userId} {
      if u != userId && u in dir.users {
        assert after.users[u] == dir.users[u];
      }
    }
  }

  /** Revoking another role leaves the administrators as they were. */
  lemma {:induction false} RemoveOtherAdmins(dir: Directory, userId: nat, role: Option<string>)
    requires WellFormed(dir)
    requires RemoveRole(dir, userId, role).Ok? && role.value != Admin
    ensures Admins(RemoveRole(dir, userId, role).value) == Admins(dir)
  {
    var after := RemoveRole(dir, userId, role).value;
    WithoutOtherRoleKeepsAdmin(dir.roles, dir.users[userId], role.value);
    forall u ensures u in Admins(after) <==> u in Admins(dir) {
      if u != userId && u in dir.users {
        assert after.users[u] == dir.users[u];
      }
    }
  }

  // ---- deleting accounts ----

  /** UserController::destroy: anyone but the caller can be deleted. */
  function Destroy(dir: Directory, actor: nat, userId: nat): (r: Result<Directory>)
    ensures userId !in dir.users ==> r == Err(NotFound)
    ensures userId in dir.users ==> (r == Err(BadRequest) <==> userId == actor)
    ensures r.Ok? <==> userId in dir.users && userId != actor
    ensures r.Ok? ==> r.value.users.Keys == dir.users.Keys - {userId} && r.value.roles == dir.roles
    ensures r.Ok? ==> forall u :: u in r.value.users ==> r.value.users[u] == dir.users[u]
  {
    if userId !in dir.users then Err(NotFound)
    else if userId == actor then Err(BadRequest)
    else Ok(dir.(users := dir.users - {userId}))
  }

  /** When the caller is an administrator, deleting someone else leaves the
      caller's admin role in place. */
  lemma {:induction false} DestroyByAdminKeepsAnAdmin(dir: Directory, actor: nat, userId: nat)
    requires actor in Admins(dir)
    requires Destroy(dir, actor, userId).Ok?
    ensures actor in Admins(Destroy(dir, actor, userId).value)
  {
  }

  /** destroy itself does not count administrators: a caller without the
      admin role can delete the only administrator. */
  lemma {:induction false} DestroyCanRemoveLastAdmin()
    ensures var admin := Role(1, Admin, "Administrador", None, true);
      var dir := Directory(map[1 := Account("a", "a@x", "h", map[1 := 1]), 2 := Account("b", "b@x", "h", map[])], [admin]);
      && |Admins(dir)| == 1
      && Destroy(dir, 2, 1).Ok?
      && |Admins(Destroy(dir, 2, 1).value)| == 0
  {
    var admin := Role(1, Admin, "Administrador", None, true);
    var dir := Directory(map[1 := Account("a", "a@x", "h", map[1 := 1]), 2 := Account("b", "b@x", "h", map[])], [admin]);
    assert dir.roles[0].id == 1 && dir.roles[0].name == Admin;
    assert NamedRole(dir.roles, 1, Admin);
    assert HasRole(dir.roles, dir.users[1], Admin);
    assert !HasRole(dir.roles, dir.users[2], Admin);
    assert Admins(dir) == {1};
    assert Admins(Destroy(dir, 2, 1).value) == {};
  }

  // ---- creating and editing accounts ----

  datatype NewAccount = NewAccount(name: Option<string>, email: Option<string>, password: Option<string>, roles: Option<seq<string>>)

  predicate StoreValid(dir: Directory, req: NewAccount) {
    && req.name.Some? && FilledUpTo255(req.name.value)
    && req.email.Some? && FilledUpTo255(req.email.value) && EmailFree(dir.users, req.email.value, None)
    && req.password.Some? && |req.password.value| >= 8
    && (req.roles.Some? ==> forall i :: 0 <= i < |req.roles.value| ==> FindRole(dir.roles, req.roles.value[i]).Some?)
  }

  /** The ids of the named roles, in the order of the names. */
  function RoleIds(roles: seq<Role>, names: seq<string>): (r: seq<nat>)
    requires forall i :: 0 <= i < |names| ==> FindRole(roles, names[i]).Some?
    ensures |r| == |names|
    ensures forall i :: 0 <= i < |names| ==> NamedRole(roles, r[i], names[i])
  {
    if names == [] then []
    else
      var k := FindRole(roles, names[|names| - 1]).value;
      NamedAt(roles, k);
      RoleIds(roles, names[..|names| - 1]) + [roles[k].id]
  }

  /** UserController::store; `id` is the key the database assigns. Every
      listed role is granted by `actor`. */
  function Store(dir: Directory, actor: nat, id: nat, req: NewAccount, hash: string -> string): (r: Result<Directory>)
    requires id !in dir.users
    ensures r.Err? <==> !StoreValid(dir, req)
    ensures r.Err? ==> r.error == ValidationFailed
    ensures r.Ok? ==>
      && r.value.users.Keys == dir.users.Keys + {id}
      && r.value.roles == dir.roles
      && (forall u :: u in dir.users ==> r.value.users[u] == dir.users[u])
    ensures r.Ok? ==>
      var a, names := r.value.users[id], req.roles.GetOr([]);
      && a.name == req.name.value && a.email == req.email.value && a.password == hash(req.password.value)
      && (forall i :: 0 <= i < |names| ==> HasRole(dir.roles, a, names[i]))
  {
    if !StoreValid(dir, req) then Err(ValidationFailed)
    else
      var names := req.roles.GetOr([]);
      var ids := RoleIds(dir.roles, names);
      var a := Account(req.name.value, req.email.value, hash(req.password.value), GrantedBy(ids, actor));
      NewAccountRoles(dir.roles, names, ids, a);
      Ok(dir.(users := dir.users[id := a]))
  }

  /** The role relation rows for `ids`, each recording `actor` as granter. */
  function GrantedBy(ids: seq<nat>, actor: nat): (g: map<nat, nat>)
    ensures g.Keys == set x | x in ids
    ensures forall x :: x in g ==> g[x] == actor
  {
    map x | x in ids :: actor
  }

  /** An account granted the ids of the named roles holds each named role. */
  lemma {:induction false} NewAccountRoles(roles: seq<Role>, names: seq<string>, ids: seq<nat>, a: Account)
    requires |ids| == |names| && forall i :: 0 <= i < |names| ==> NamedRole(roles, ids[i], names[i])
    requires a.grants.Keys == set g | g in ids
    ensures forall i :: 0 <= i < |names| ==> HasRole(roles, a, names[i])
  {
    forall i | 0 <= i < |names| ensures HasRole(roles, a, names[i]) {
      assert ids[i] in a.grants;
    }
  }

  /** A created account holds no role beyond those listed. */
  lemma {:induction false} StoreGrantsOnlyListed(dir: Directory, actor: nat, id: nat, req: NewAccount, hash: string -> string)
    requires id !in dir.users
    requires Store(dir, actor, id, req, hash).Ok?
    ensures var a, names := Store(dir, actor, id, req, hash).value.users[id], req.roles.GetOr([]);
      forall g :: g in a.grants ==> exists i :: 0 <= i < |names| && NamedRole(dir.roles, g, names[i])
  {
    var names := req.roles.GetOr([]);
    var ids := RoleIds(dir.roles, names);
    var a := Store(dir, actor, id, req, hash).value.users[id];
    assert a.grants == GrantedBy(ids, actor);
    forall g | g in a.grants ensures exists i :: 0 <= i < |names| && NamedRole(dir.roles, g, names[i]) {
      var i :| 0 <= i < |ids| && ids[i] == g;
      assert NamedRole(dir.roles, ids[i], names[i]);
    }
  }

  lemma {:induction false} NamedAt(roles: seq<Role>, k: nat)
    requires k < |roles|
    ensures NamedRole(roles, roles[k].id, roles[k].name)
  {
  }

  datatype AccountPatch = AccountPatch(name: Option<string>, email: Option<string>, password: Option<string>)

  predicate UpdateValid(dir: Directory, userId: nat, p: AccountPatch) {
    && (p.name.Some? ==> FilledUpTo255(p.name.value))
    && (p.email.Some? ==> FilledUpTo255(p.email.value) && EmailFree(dir.users, p.email.value, Some(userId)))
    && (p.password.Some? ==> |p.password.value| >= 8)
  }

  /** UserController::update: the supplied fields are replaced, nothing else. */
  function Update(dir: Directory, userId: nat, p: AccountPatch, hash: string -> string): (r: Result<Directory>)
    ensures userId !in dir.users ==> r == Err(NotFound)
    ensures userId in dir.users ==> (r.Err? <==> !UpdateValid(dir, userId, p))
    ensures userId in dir.users && r.Err? ==> r.error == ValidationFailed
    ensures r.Ok? ==>
      && userId in dir.users
      && r.value.users.Keys == dir.users.Keys
      && r.value.roles == dir.roles
      && (forall u :: u in dir.users && u != userId ==> r.value.users[u] == dir.users[u])
    ensures r.Ok? ==>
      var before, after := dir.users[userId], r.value.users[userId];
      && after.name == p.name.GetOr(before.name)
      && after.email == p.email.GetOr(before.email)
      && after.password == (if p.password.Some? then hash(p.password.value) else before.password)
      && after.grants == before.grants
  {
    if userId !in dir.users then Err(NotFound)
    else if !UpdateValid(dir, userId, p) then Err(ValidationFailed)
    else
      var a := dir.users[userId];
      var pw := if p.password.Some? then hash(p.password.value) else a.password;
      Ok(dir.(users := dir.users[userId := Account(p.name.GetOr(a.name), p.email.GetOr(a.email), pw, a.grants)]))
  }

  /** An empty patch changes nothing. */
  lemma {:induction false} EmptyPatchChangesNothing(dir: Directory, userId: nat, hash: string -> string)
    requires userId in dir.users
    ensures Update(dir, userId, AccountPatch(None, None, None), hash) == Ok(dir)
  {
    var a := dir.users[userId];
    assert dir.users[userId := Account(a.name, a.email, a.password, a.grants)] == dir.users;
  }

  /** Emails stay unique through every successful store, update and grant. */
  lemma {:induction false} StoreKeepsUniqueEmails(dir: Directory, actor: nat, id: nat, req: NewAccount, hash: string -> string)
    requires UniqueEmails(dir.users) && id !in dir.users
    requires Store(dir, actor, id, req, hash).Ok?
    ensures UniqueEmails(Store(dir, actor, id, req, hash).value.users)
  {
  }

  lemma {:induction false} UpdateKeepsUniqueEmails(dir: Directory, userId: nat, p: AccountPatch, hash: string -> string)
    requires UniqueEmails(dir.users)
    requires Update(dir, userId, p, hash).Ok?
    ensures UniqueEmails(Update(dir, userId, p, hash).value.users)
  {
    var after := Update(dir, userId, p, hash).value.users;
    forall u, v | u in after && v in after && u != v ensures after[u].email != after[v].email {
      if u != userId && v != userId {
        assert after[u] == dir.users[u] && after[v] == dir.users[v];
      }
    }
  }
}
