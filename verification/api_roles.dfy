/** Administration of the roles themselves: the fixed catalogue shown to the
    point of sale, creating, editing and deleting roles, and the guards that
    protect the system roles and roles still held by someone. */
module RoleAdmin {
  import opened Wrappers
  import opened UserAdmin

  /** The roles deletion never touches. */
  const SystemRoles: set<string> := {"admin", "user"}

  datatype RoleCard = RoleCard(id: string, name: string, description: string)

  /** RoleController::index: a fixed catalogue, whatever the roles table
      holds. */
  function Catalogue(): (r: seq<RoleCard>)
    ensures |r| == 3
    ensures r[0].id == "administrador" && r[1].id == "gerente" && r[2].id == "cajero"
  {
    [
      RoleCard("administrador", "Administrador", "Acceso completo al sistema"),
      RoleCard("gerente", "Gerente", "Gestión de productos, ventas y reportes"),
      RoleCard("cajero", "Cajero", "Procesamiento de ventas y consulta de productos")
    ]
  }

  /** The catalogue ids are distinct, and none of them is a system role, so
      none of the listed roles is protected from deletion by name. */
  lemma {:induction false} CatalogueIds()
    ensures forall i, j :: 0 <= i < j < |Catalogue()| ==> Catalogue()[i].id != Catalogue()[j].id
    ensures forall i :: 0 <= i < |Catalogue()| ==> Catalogue()[i].id !in SystemRoles
  {
    var c := Catalogue();
    assert c[0].id[0] == 'a' && c[1].id[0] == 'g' && c[2].id[0] == 'c';
    assert c[0].id != "admin" && c[0].id != "user";
  }

  /** The position of the role with this id, if any. */
  function FindRoleId(roles: seq<Role>, id: nat): (r: Option<nat>)
    ensures r.Some? ==> r.value < |roles| && roles[r.value].id == id
    ensures r.None? ==> forall i :: 0 <= i < |roles| ==> roles[i].id != id
  {
    if roles == [] then None
    else if roles[0].id == id then Some(0)
    else
      match FindRoleId(roles[1..], id)
      case Some(k) => Some(k + 1)
      case None => None
  }

  /** Some account holds role `id`. */
  predicate HeldBySomeone(users: map<nat, Account>, id: nat) {
    exists u :: u in users && id in users[u].grants
  }

  /** The roles left once every row with this id is deleted, in order. */
  function WithoutId(roles: seq<Role>, id: nat): (r: seq<Role>)
    ensures |r| <= |roles|
    ensures forall x :: x in r <==> x in roles && x.id != id
    ensures (exists i :: 0 <= i < |roles| && roles[i].id == id) ==> |r| < |roles|
  {
    if roles == [] then []
    else if roles[0].id == id then WithoutId(roles[1..], id)
    else [roles[0]] + WithoutId(roles[1..], id)
  }

  /** RoleController::destroy. */
  function Destroy(dir: Directory, roleId: nat): (r: Result<Directory>)
    ensures FindRoleId(dir.roles, roleId).None? ==> r == Err(NotFound)
    ensures FindRoleId(dir.roles, roleId).Some? ==>
      var role := dir.roles[FindRoleId(dir.roles, roleId).value];
      (r == Err(BadRequest) <==> role.name in SystemRoles || HeldBySomeone(dir.users, roleId))
    ensures r.Ok? <==>
      && FindRoleId(dir.roles, roleId).Some?
      && dir.roles[FindRoleId(dir.roles, roleId).value].name !in SystemRoles
      && !HeldBySomeone(dir.users, roleId)
    ensures r.Ok? ==>
      && r.value.users == dir.users
      && |r.value.roles| < |dir.roles|
      && (forall x :: x in r.value.roles <==> x in dir.roles && x.id != roleId)
  {
    match FindRoleId(dir.roles, roleId)
    case None => Err(NotFound)
    case Some(k) =>
      if dir.roles[k].name in SystemRoles then Err(BadRequest)
      else if HeldBySomeone(dir.users, roleId) then Err(BadRequest)
      else Ok(dir.(roles := WithoutId(dir.roles, roleId)))
  }

  /** The system roles survive every deletion. */
  lemma {:induction false} SystemRolesSurvive(dir: Directory, roleId: nat, name: string)
    requires name in SystemRoles
    requires UniqueRoleIds(dir.roles)
    requires FindRole(dir.roles, name).Some?
    requires Destroy(dir, roleId).Ok?
    ensures FindRole(Destroy(dir, roleId).value.roles, name).Some?
  {
    var k := FindRoleId(dir.roles, roleId).value;
    var j := FindRole(dir.roles, name).value;
    var after := WithoutId(dir.roles, roleId);
    assert Destroy(dir, roleId).value.roles == after;
    assert j != k;
    assert dir.roles[j].id != roleId;
    assert dir.roles[j] in after;
    var i :| 0 <= i < |after| && after[i] == dir.roles[j];
    assert after[i].name == name;
  }

  /** Every grant still points at an existing role. */
  predicate GrantsResolve(dir: Directory) {
    forall u, id :: u in dir.users && id in dir.users[u].grants ==> FindRoleId(dir.roles, id).Some?
  }

  /** A role someone holds is never deleted, so grants keep resolving. */
  lemma {:induction false} DestroyKeepsGrantsResolving(dir: Directory, roleId: nat)
    requires GrantsResolve(dir)
    requires Destroy(dir, roleId).Ok?
    ensures GrantsResolve(Destroy(dir, roleId).value)
  {
    var after := Destroy(dir, roleId).value;
    forall u, id | u in after.users && id in after.users[u].grants
      ensures FindRoleId(after.roles, id).Some?
    {
      var k := FindRoleId(dir.roles, id).value;
      assert id != roleId;
      assert dir.roles[k] in after.roles;
      var j :| 0 <= j < |after.roles| && after.roles[j] == dir.roles[k];
      assert after.roles[j].id == id;
    }
  }

  datatype NewRole = NewRole(name: Option<string>, displayName: Option<string>, description: Option<string>)

  predicate RoleNameFree(roles: seq<Role>, name: string, except: Option<nat>) {
    forall i :: 0 <= i < |roles| && Some(roles[i].id) != except ==> roles[i].name != name
  }

  predicate StoreValid(dir: Directory, req: NewRole) {
    && req.name.Some? && FilledUpTo255(req.name.value) && RoleNameFree(dir.roles, req.name.value, None)
    && req.displayName.Some? && FilledUpTo255(req.displayName.value)
  }

  /** RoleController::store; `id` is the key the database assigns. A new role
      is active. */
  function Store(dir: Directory, id: nat, req: NewRole): (r: Result<Directory>)
    ensures r.Err? <==> !StoreValid(dir, req)
    ensures r.Err? ==> r.error == ValidationFailed
    ensures r.Ok? ==>
      && r.value.users == dir.users
      && r.value.roles == dir.roles + [Role(id, req.name.value, req.displayName.value, req.description, true)]
  {
    if !StoreValid(dir, req) then Err(ValidationFailed)
    else Ok(dir.(roles := dir.roles + [Role(id, req.name.value, req.displayName.value, req.description, true)]))
  }

  /** Names stay unique, and so do ids when the new id is unused. */
  lemma {:induction false} StoreKeepsKeys(dir: Directory, id: nat, req: NewRole)
    requires UniqueRoleIds(dir.roles) && UniqueRoleNames(dir.roles)
    requires FindRoleId(dir.roles, id).None?
    requires Store(dir, id, req).Ok?
    ensures UniqueRoleIds(Store(dir, id, req).value.roles)
    ensures UniqueRoleNames(Store(dir, id, req).value.roles)
    ensures FindRole(Store(dir, id, req).value.roles, req.name.value).Some?
    ensures Store(dir, id, req).value.roles[|dir.roles|].isActive
  {
    var roles := Store(dir, id, req).value.roles;
    assert roles[|dir.roles|].name == req.name.value;
  }

  datatype RolePatch = RolePatch(name: Option<string>, displayName: Option<string>, description: Option<Option<string>>, isActive: Option<bool>)

  predicate UpdateValid(dir: Directory, roleId: nat, p: RolePatch) {
    && (p.name.Some? ==> FilledUpTo255(p.name.value) && RoleNameFree(dir.roles, p.name.value, Some(roleId)))
    && (p.displayName.Some? ==> FilledUpTo255(p.displayName.value))
  }

  /** The fields request->only keeps; the id never changes, and a patch
      that supplies nothing changes nothing. */
  function Patched(role: Role, p: RolePatch): (r: Role)
    ensures r.id == role.id
    ensures p == RolePatch(None, None, None, None) ==> r == role
  {
    Role(role.id, p.name.GetOr(role.name), p.displayName.GetOr(role.displayName),
      p.description.GetOr(role.description), p.isActive.GetOr(role.isActive))
  }

  /** One patch after another: the later patch's fields win, the earlier
      patch's fill in what the later one omits. */
  function ThenPatch(p: RolePatch, q: RolePatch): RolePatch {
    RolePatch(
      if q.name.Some? then q.name else p.name,
      if q.displayName.Some? then q.displayName else p.displayName,
      if q.description.Some? then q.description else p.description,
      if q.isActive.Some? then q.isActive else p.isActive)
  }

  /** Patching twice is patching once with the later values, so sending the
      same patch again changes nothing. */
  lemma {:induction false} PatchedTwice(role: Role, p: RolePatch, q: RolePatch)
    ensures Patched(Patched(role, p), q) == Patched(role, ThenPatch(p, q))
    ensures Patched(Patched(role, p), p) == Patched(role, p)
  {
    assert ThenPatch(p, p) == p;
  }

  /** RoleController::update. */
  function Update(dir: Directory, roleId: nat, p: RolePatch): (r: Result<Directory>)
    ensures FindRoleId(dir.roles, roleId).None? ==> r == Err(NotFound)
    ensures FindRoleId(dir.roles, roleId).Some? ==> (r.Err? <==> !UpdateValid(dir, roleId, p))
    ensures FindRoleId(dir.roles, roleId).Some? && r.Err? ==> r.error == ValidationFailed
    ensures r.Ok? <==> FindRoleId(dir.roles, roleId).Some? && UpdateValid(dir, roleId, p)
    ensures r.Ok? ==>
      var k := FindRoleId(dir.roles, roleId).value;
      && FindRoleId(dir.roles, roleId).Some?
      && r.value.users == dir.users
      && r.value.roles == dir.roles[k := Patched(dir.roles[k], p)]
  {
    match FindRoleId(dir.roles, roleId)
    case None => Err(NotFound)
    case Some(k) =>
      if !UpdateValid(dir, roleId, p) then Err(ValidationFailed)
      else Ok(dir.(roles := dir.roles[k := Patched(dir.roles[k], p)]))
  }

  /** Updates keep role ids and names unique and leave every other role as
      it was. */
  lemma {:induction false} UpdateKeepsKeys(dir: Directory, roleId: nat, p: RolePatch)
    requires UniqueRoleIds(dir.roles) && UniqueRoleNames(dir.roles)
    requires Update(dir, roleId, p).Ok?
    ensures UniqueRoleIds(Update(dir, roleId, p).value.roles)
    ensures UniqueRoleNames(Update(dir, roleId, p).value.roles)
    ensures forall i :: 0 <= i < |dir.roles| && dir.roles[i].id != roleId ==> Update(dir, roleId, p).value.roles[i] == dir.roles[i]
  {
    var k := FindRoleId(dir.roles, roleId).value;
    var roles := Update(dir, roleId, p).value.roles;
    forall i, j | 0 <= i < j < |roles| ensures roles[i].name != roles[j].name {
      if i == k || j == k {
        var other := if i == k then j else i;
        assert dir.roles[other].id != roleId;
      }
    }
  }
}
