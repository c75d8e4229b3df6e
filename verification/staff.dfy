/** Staff accounts of the point of sale: creating and editing them, the soft
    delete that only deactivates, the status toggle with its self guard, and
    the single role name shown for each account. Passwords are stored through
    a hashing function given as a parameter. */
module Staff {
  import opened Wrappers
  import opened UserAdmin
  import opened RoleAdmin

  /** A staff account; `roles` lists the ids of the roles it holds in the
      order the role relation yields them. */
  datatype Member = Member(name: string, email: string, password: string, active: bool, roles: seq<nat>)

  datatype Staff = Staff(users: map<nat, Member>, roles: seq<Role>)

  /** Shown when an account holds no role. */
  const NoRole: string := "sin_rol"

  /** The role shown for an account: the name of the first role it holds
      that exists, or `sin_rol`. */
  function DisplayRole(roles: seq<Role>, held: seq<nat>): (r: string)
    ensures r == NoRole || exists i :: 0 <= i < |roles| && roles[i].name == r
    ensures (forall i :: 0 <= i < |held| ==> FindRoleId(roles, held[i]).None?) ==> r == NoRole
    ensures (exists i :: 0 <= i < |held| && FindRoleId(roles, held[i]).Some?) ==>
      exists i :: 0 <= i < |held| && FindRoleId(roles, held[i]).Some?
        && r == roles[FindRoleId(roles, held[i]).value].name
        && forall j :: 0 <= j < i ==> FindRoleId(roles, held[j]).None?
  {
    if held == [] then NoRole
    else
      match FindRoleId(roles, held[0])
      case Some(k) => roles[k].name
      case None => DisplayRole(roles, held[1..])
  }

  /** An account holding the one role `id` shows that role's name. */
  lemma {:induction false} DisplaySingleRole(roles: seq<Role>, k: nat)
    requires k < |roles| && UniqueRoleIds(roles)
    ensures DisplayRole(roles, [roles[k].id]) == roles[k].name
  {
    assert forall i :: 0 <= i < |roles| && roles[i].id == roles[k].id ==> i == k;
  }

  /** The characters PHP's trim() strips by default. */
  predicate TrimmedChar(c: char) {
    c == ' ' || c == '\t' || c == '\n' || c == '\r' || c == '\0' || c == '\U{000B}'
  }

  /** Laravel's notion of an empty string: nothing is left once trimmed. A
      required rule fails on it and the other rules skip it. */
  predicate Blank(s: string) {
    forall i :: 0 <= i < |s| ==> TrimmedChar(s[i])
  }

  predicate EmailUnused(users: map<nat, Member>, email: string, except: Option<nat>) {
    forall u :: u in users && Some(u) != except ==> users[u].email != email
  }

  predicate UniqueStaffEmails(users: map<nat, Member>) {
    forall u, v :: u in users && v in users && u != v ==> users[u].email != users[v].email
  }

  /** Present, not empty, and the name of an existing role. */
  predicate ExistingRole(roles: seq<Role>, name: string) {
    |name| > 0 && FindRole(roles, name).Some?
  }

  datatype NewMember = NewMember(name: Option<string>, email: Option<string>, password: Option<string>, role: Option<string>)

  predicate StoreValid(s: Staff, req: NewMember) {
    && req.name.Some? && FilledUpTo255(req.name.value)
    && req.email.Some? && FilledUpTo255(req.email.value) && EmailUnused(s.users, req.email.value, None)
    && req.password.Some? && !Blank(req.password.value) && |req.password.value| >= 6
    && req.role.Some? && ExistingRole(s.roles, req.role.value)
  }

  /** UserController::store; `id` is the key the database assigns. */
  function Store(s: Staff, id: nat, req: NewMember, hash: string -> string): (r: Result<Staff>)
    requires id !in s.users
    ensures r.Err? <==> !StoreValid(s, req)
    ensures r.Err? ==> r.error == ValidationFailed
    ensures r.Ok? ==>
      var k := FindRole(s.roles, req.role.value).value;
      && r.value.roles == s.roles
      && r.value.users == s.users[id := Member(req.name.value, req.email.value, hash(req.password.value), true, [s.roles[k].id])]
  {
    if !StoreValid(s, req) then Err(ValidationFailed)
    else
      var k := FindRole(s.roles, req.role.value).value;
      Ok(s.(users := s.users[id := Member(req.name.value, req.email.value, hash(req.password.value), true, [s.roles[k].id])]))
  }

  /** A created account is active, shows the requested role, and emails
      stay unique. */
  lemma {:induction false} StoreActiveWithRole(s: Staff, id: nat, req: NewMember, hash: string -> string)
    requires id !in s.users
    requires UniqueRoleIds(s.roles) && UniqueStaffEmails(s.users)
    requires Store(s, id, req, hash).Ok?
    ensures var m := Store(s, id, req, hash).value.users[id];
      m.active && DisplayRole(s.roles, m.roles) == req.role.value
    ensures UniqueStaffEmails(Store(s, id, req, hash).value.users)
  {
    var k := FindRole(s.roles, req.role.value).value;
    DisplaySingleRole(s.roles, k);
  }

  /** The fields of an edit request; `password` is None when it is absent or
      null. */
  datatype MemberPatch = MemberPatch(name: Option<string>, email: Option<string>, password: Option<string>, role: Option<string>)

  /** The password is replaced only when one is sent that is not blank;
      a blank one also skips the length rule. */
  predicate PasswordFilled(p: MemberPatch) {
    p.password.Some? && !Blank(p.password.value)
  }

  predicate UpdateValid(s: Staff, userId: nat, p: MemberPatch) {
    && (p.name.Some? ==> FilledUpTo255(p.name.value))
    && (p.email.Some? ==> FilledUpTo255(p.email.value) && EmailUnused(s.users, p.email.value, Some(userId)))
    && (PasswordFilled(p) ==> |p.password.value| >= 6)
    && (p.role.Some? ==> ExistingRole(s.roles, p.role.value))
  }

  /** UserController::update. */
  function Update(s: Staff, userId: nat, p: MemberPatch, hash: string -> string): (r: Result<Staff>)
    ensures userId !in s.users ==> r == Err(NotFound)
    ensures userId in s.users ==> (r.Err? <==> !UpdateValid(s, userId, p))
    ensures r.Err? ==> r.error in {NotFound, ValidationFailed}
    ensures r.Ok? ==>
      && userId in s.users
      && r.value.roles == s.roles
      && r.value.users.Keys == s.users.Keys
      && (forall u :: u in s.users && u != userId ==> r.value.users[u] == s.users[u])
    ensures r.Ok? ==>
      var before, after := s.users[userId], r.value.users[userId];
      && after.name == p.name.GetOr(before.name)
      && after.email == p.email.GetOr(before.email)
      && after.active == before.active
      && (after.password == if PasswordFilled(p) then hash(p.password.value) else before.password)
      && (p.role.None? ==> after.roles == before.roles)
      && (p.role.Some? ==> after.roles == [s.roles[FindRole(s.roles, p.role.value).value].id])
  {
    if userId !in s.users then Err(NotFound)
    else if !UpdateValid(s, userId, p) then Err(ValidationFailed)
    else
      var m := s.users[userId];
      var password := if PasswordFilled(p) then hash(p.password.value) else m.password;
      var roles := if p.role.Some? then [s.roles[FindRole(s.roles, p.role.value).value].id] else m.roles;
      Ok(s.(users := s.users[userId := Member(p.name.GetOr(m.name), p.email.GetOr(m.email), password, m.active, roles)]))
  }

  /** Sending a role leaves the account with exactly that role, whatever it
      held before, and that is the role shown. */
  lemma {:induction false} UpdateReplacesRoles(s: Staff, userId: nat, p: MemberPatch, hash: string -> string)
    requires UniqueRoleIds(s.roles)
    requires p.role.Some?
    requires Update(s, userId, p, hash).Ok?
    ensures |Update(s, userId, p, hash).value.users[userId].roles| == 1
    ensures DisplayRole(s.roles, Update(s, userId, p, hash).value.users[userId].roles) == p.role.value
  {
    DisplaySingleRole(s.roles, FindRole(s.roles, p.role.value).value);
  }

  /** A missing, empty or whitespace-only password never changes the stored
      one, and is never too short. */
  lemma {:induction false} BlankPasswordKept(s: Staff, userId: nat, p: MemberPatch, hash: string -> string)
    requires p.password.None? || Blank(p.password.value)
    requires userId in s.users && UpdateValid(s, userId, p)
    ensures Update(s, userId, p, hash).Ok?
    ensures Update(s, userId, p, hash).value.users[userId].password == s.users[userId].password
  {
  }

  /** UserController::destroy: a soft delete. `actor` is the signed-in
      account. */
  function Destroy(s: Staff, actor: nat, userId: nat): (r: Result<Staff>)
    ensures userId !in s.users ==> r == Err(NotFound)
    ensures userId in s.users ==> (r == Err(Refused) <==> userId == actor)
    ensures r.Ok? <==> userId in s.users && userId != actor
    ensures r.Ok? ==>
      && userId in s.users
      && r.value.roles == s.roles
      && r.value.users == s.users[userId := s.users[userId].(active := false)]
  {
    if userId !in s.users then Err(NotFound)
    else if userId == actor then Err(Refused)
    else Ok(s.(users := s.users[userId := s.users[userId].(active := false)]))
  }

  /** Deleting never removes an account, never touches the caller, and
      deleting twice is the same as once. */
  lemma {:induction false} DestroyOnlyDeactivates(s: Staff, actor: nat, userId: nat)
    requires Destroy(s, actor, userId).Ok?
    ensures var after := Destroy(s, actor, userId).value;
      && after.users.Keys == s.users.Keys
      && !after.users[userId].active
      && (actor in s.users ==> after.users[actor] == s.users[actor])
      && Destroy(after, actor, userId) == Ok(after)
  {
    var after := Destroy(s, actor, userId).value;
    assert after.users[userId := after.users[userId].(active := false)] == after.users;
  }

  /** UserController::toggleStatus. */
  function ToggleStatus(s: Staff, actor: nat, userId: nat): (r: Result<Staff>)
    ensures userId !in s.users ==> r == Err(NotFound)
    ensures userId in s.users ==> (r == Err(Refused) <==> userId == actor && s.users[userId].active)
    ensures r.Ok? <==> userId in s.users && !(userId == actor && s.users[userId].active)
    ensures r.Ok? ==>
      && userId in s.users
      && r.value.roles == s.roles
      && r.value.users == s.users[userId := s.users[userId].(active := !s.users[userId].active)]
  {
    if userId !in s.users then Err(NotFound)
    else if userId == actor && s.users[userId].active then Err(Refused)
    else Ok(s.(users := s.users[userId := s.users[userId].(active := !s.users[userId].active)]))
  }

  /** Toggling someone else twice restores the directory. */
  lemma {:induction false} ToggleTwiceRestores(s: Staff, actor: nat, userId: nat)
    requires userId in s.users && userId != actor
    ensures ToggleStatus(s, actor, userId).Ok?
    ensures ToggleStatus(ToggleStatus(s, actor, userId).value, actor, userId) == Ok(s)
  {
    var once := ToggleStatus(s, actor, userId).value;
    assert once.users[userId := once.users[userId].(active := !once.users[userId].active)] == s.users;
  }

  /** The caller may re-activate themself but can never end up inactive
      through their own toggle. */
  lemma {:induction false} SelfToggleOnlyActivates(s: Staff, actor: nat)
    requires actor in s.users
    ensures !s.users[actor].active ==> ToggleStatus(s, actor, actor).Ok?
    ensures ToggleStatus(s, actor, actor).Ok? ==> ToggleStatus(s, actor, actor).value.users[actor].active
  {
  }
}
