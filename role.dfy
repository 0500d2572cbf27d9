/** The admin role service over an abstract admin store: creating and
    updating roles under a unique-name rule, the guard and the loop that
    delete roles, and the assignment of a role's permissions.

    Ids given to the deletion functions are strings (they come from a
    request); they are compared with the stored numeric ids by their decimal
    form, as the source's `stringIncludes` and the store's id filter do. */
module RoleService {
  import opened Common
  import opened Permissions

  datatype Role = Role(id: nat, name: string, code: string, description: Option<string>)

  /** An admin user and the ids of its roles. */
  datatype StoredUser = StoredUser(id: nat, roles: seq<nat>)

  /** The attributes `create` receives; `code` may be missing or empty. */
  datatype RoleAttributes = RoleAttributes(name: string, code: Option<string>, description: Option<string>)

  /** A partial role for `update`: only the present fields change. */
  datatype RoleChanges = RoleChanges(name: Option<string>, code: Option<string>, description: Option<string>)

  /** A role query: every present field must match; `idNot` is `{ $ne }`. */
  datatype RoleFilter = RoleFilter(id: Option<nat>, name: Option<string>, code: Option<string>, idNot: Option<nat>)

  datatype RoleError =
    | ValidationError(name: string)
    | SuperAdminDeletion
    | RolesStillAssigned
    | InvalidPermissions

  predicate Matches(f: RoleFilter, role: Role) {
    (f.id.Some? ==> role.id == f.id.value) &&
    (f.name.Some? ==> role.name == f.name.value) &&
    (f.code.Some? ==> role.code == f.code.value) &&
    (f.idNot.Some? ==> role.id != f.idNot.value)
  }

  /** `count({ where })` on the roles. */
  function CountMatching(roles: seq<Role>, f: RoleFilter): (n: nat)
    ensures n <= |roles|
    ensures n > 0 <==> exists i :: 0 <= i < |roles| && Matches(f, roles[i])
  {
    if |roles| == 0 then 0
    else
      var init := roles[..|roles| - 1];
      assert forall i :: 0 <= i < |init| ==> init[i] == roles[i];
      CountMatching(init, f) + if Matches(f, roles[|roles| - 1]) then 1 else 0
  }

  /** `findOne({ where })`: the position of the first matching role. */
  function FirstMatch(roles: seq<Role>, f: RoleFilter): (r: Option<nat>)
    ensures r.Some? ==> r.value < |roles| && Matches(f, roles[r.value]) &&
                        forall j :: 0 <= j < r.value ==> !Matches(f, roles[j])
    ensures r.None? ==> forall j :: 0 <= j < |roles| ==> !Matches(f, roles[j])
  {
    if |roles| == 0 then None
    else if Matches(f, roles[0]) then Some(0)
    else
      match FirstMatch(roles[1..], f)
      case None => None
      case Some(k) => Some(k + 1)
  }

  const SuperAdminFilter := RoleFilter(None, None, Some(SuperAdminCode), None)

  /** `getSuperAdmin`: the first role with the super-admin code. */
  function SuperAdmin(roles: seq<Role>): (r: Option<Role>)
    ensures r.Some? ==> r.value in roles && r.value.code == SuperAdminCode
    ensures r.None? ==> forall role :: role in roles ==> role.code != SuperAdminCode
  {
    match FirstMatch(roles, SuperAdminFilter)
    case None => None
    case Some(k) => Some(roles[k])
  }

  /** `getUsersCount(roleId)`: the users holding a role with that id. */
  function UsersCount(users: seq<StoredUser>, roleId: string): (n: nat)
    ensures n == 0 <==> forall u :: u in users ==> forall id :: id in u.roles ==> NatToString(id) != roleId
  {
    if |users| == 0 then 0
    else
      var init := users[..|users| - 1];
      var last := users[|users| - 1];
      assert users == init + [last];
      UsersCount(init, roleId) + if exists id :: id in last.roles && NatToString(id) == roleId then 1 else 0
  }

  // ---------------------------------------------------------------------
  // create and update

  /** The stored code: the given one when it is not empty, otherwise the
      kebab-cased name followed by a timestamp code. */
  function RoleCode(attributes: RoleAttributes, kebabCase: string -> string, timestampCode: string): (code: string)
    ensures attributes.code.Some? && attributes.code.value != "" ==> code == attributes.code.value
    ensures attributes.code.None? || attributes.code.value == "" ==> code == kebabCase(attributes.name) + "-" + timestampCode
  {
    var autoGeneratedCode := kebabCase(attributes.name) + "-" + timestampCode;
    if attributes.code.Some? && attributes.code.value != "" then attributes.code.value else autoGeneratedCode
  }

  /** `_.omit(attributes, ['code'])` */
  function OmitCode(changes: RoleChanges): RoleChanges {
    changes.(code := None)
  }

  /** What the store writes into a role for a partial update. */
  function ApplyChanges(role: Role, changes: RoleChanges): Role {
    Role(role.id,
         changes.name.GetOr(role.name),
         changes.code.GetOr(role.code),
         if changes.description.Some? then changes.description else role.description)
  }

  /** An update never writes the code, and changes exactly the present
      name and description. */
  lemma UpdateKeepsCode(role: Role, changes: RoleChanges)
    ensures var r := ApplyChanges(role, OmitCode(changes));
            r.id == role.id && r.code == role.code &&
            (changes.name.Some? ==> r.name == changes.name.value) &&
            (changes.name.None? ==> r.name == role.name) &&
            (changes.description.Some? ==> r.description == changes.description) &&
            (changes.description.None? ==> r.description == role.description)
  {
  }

  /** The uniqueness test `update` runs: only when the query names an id
      and the change names a name, and then against the other roles. */
  function UpdateNameClash(roles: seq<Role>, where: RoleFilter, changes: RoleChanges): (clash: bool)
    ensures clash <==> where.id.Some? && changes.name.Some? &&
                       exists i :: 0 <= i < |roles| && roles[i].name == changes.name.value && roles[i].id != where.id.value
  {
    var sanitized := OmitCode(changes);
    if where.id.Some? && sanitized.name.Some? then
      CountMatching(roles, RoleFilter(None, sanitized.name, None, where.id)) > 0
    else false
  }

  // ---------------------------------------------------------------------
  // Deleting roles

  /** The position of the role whose id has the given decimal form. */
  function IndexOfId(roles: seq<Role>, id: string): (r: Option<nat>)
    ensures r.Some? ==> r.value < |roles| && NatToString(roles[r.value].id) == id
    ensures r.None? ==> forall j :: 0 <= j < |roles| ==> NatToString(roles[j].id) != id
  {
    if |roles| == 0 then None
    else if NatToString(roles[0].id) == id then Some(0)
    else
      match IndexOfId(roles[1..], id)
      case None => None
      case Some(k) => Some(k + 1)
  }

  /** The roles deleted so far, in deletion order, and those still stored. */
  datatype Deletion = Deletion(deleted: seq<Role>, remaining: seq<Role>)

  /** The loop of `deleteByIds`: for each id in turn, delete the role with
      that id if there still is one, and record it. */
  function DeleteInOrder(roles: seq<Role>, ids: seq<string>): (d: Deletion)
    ensures |d.deleted| <= |ids|
    ensures |d.deleted| + |d.remaining| == |roles|
  {
    if |ids| == 0 then Deletion([], roles)
    else
      var d := DeleteInOrder(roles, ids[..|ids| - 1]);
      match IndexOfId(d.remaining, ids[|ids| - 1])
      case None => d
      case Some(k) => Deletion(d.deleted + [d.remaining[k]], d.remaining[..k] + d.remaining[k + 1..])
  }

  predicate DistinctRoleIds(roles: seq<Role>) {
    forall i, j :: 0 <= i < j < |roles| ==> roles[i].id != roles[j].id
  }

  /** Taking one element out of a list and adding it back gives the same
      multiset. */
  lemma RemoveAtMultiset<T>(s: seq<T>, k: nat)
    requires k < |s|
    ensures multiset(s[..k] + s[k + 1..]) + multiset{s[k]} == multiset(s)
  {
    assert s == s[..k] + [s[k]] + s[k + 1..];
  }

  /** Deletion only moves roles: the deleted and the remaining roles make up
      the original ones. */
  lemma {:induction false} DeleteInOrderMoves(roles: seq<Role>, ids: seq<string>)
    ensures var d := DeleteInOrder(roles, ids);
            multiset(d.deleted) + multiset(d.remaining) == multiset(roles)
  {
    if |ids| > 0 {
      var init := ids[..|ids| - 1];
      DeleteInOrderMoves(roles, init);
      var d := DeleteInOrder(roles, init);
      var found := IndexOfId(d.remaining, ids[|ids| - 1]);
      if found.Some? {
        RemoveAtMultiset(d.remaining, found.value);
      }
    }
  }

  /** Every deleted role was asked for. */
  lemma {:induction false} DeletedWereAsked(roles: seq<Role>, ids: seq<string>)
    ensures forall r :: r in DeleteInOrder(roles, ids).deleted ==> NatToString(r.id) in ids
  {
    if |ids| > 0 {
      var init := ids[..|ids| - 1];
      DeletedWereAsked(roles, init);
      assert forall s :: s in init ==> s in ids;
    }
  }

  /** Removing one role keeps the ids distinct, and keeps only roles that
      were there. */
  lemma RemoveKeepsDistinct(roles: seq<Role>, k: nat)
    requires k < |roles| && DistinctRoleIds(roles)
    ensures DistinctRoleIds(roles[..k] + roles[k + 1..])
    ensures forall r :: r in roles[..k] + roles[k + 1..] ==> r in roles
  {
    var rest := roles[..k] + roles[k + 1..];
    forall i, j | 0 <= i < j < |rest| ensures rest[i].id != rest[j].id {
      var i' := if i < k then i else i + 1;
      var j' := if j < k then j else j + 1;
      assert rest[i] == roles[i'] && rest[j] == roles[j'];
    }
  }

  /** Only the removed role carried its id. */
  lemma RemoveUniqueId(roles: seq<Role>, k: nat)
    requires k < |roles| && DistinctRoleIds(roles)
    ensures forall r :: r in roles[..k] + roles[k + 1..] ==> NatToString(r.id) != NatToString(roles[k].id)
  {
    var rest := roles[..k] + roles[k + 1..];
    forall r | r in rest ensures NatToString(r.id) != NatToString(roles[k].id) {
      var j :| 0 <= j < |rest| && rest[j] == r;
      var j' := if j < k then j else j + 1;
      assert r == roles[j'] && j' != k;
      if NatToString(r.id) == NatToString(roles[k].id) {
        NatToStringInjective(r.id, roles[k].id);
      }
    }
  }

  /** With distinct role ids, no role asked for remains. */
  lemma {:induction false} DeleteInOrderLeavesNoneAsked(roles: seq<Role>, ids: seq<string>)
    requires DistinctRoleIds(roles)
    ensures var d := DeleteInOrder(roles, ids);
            DistinctRoleIds(d.remaining) &&
            (forall r :: r in d.remaining ==> r in roles) &&
            (forall r :: r in d.remaining ==> NatToString(r.id) !in ids)
  {
    if |ids| > 0 {
      var init := ids[..|ids| - 1];
      var id := ids[|ids| - 1];
      assert ids == init + [id];
      DeleteInOrderLeavesNoneAsked(roles, init);
      var d := DeleteInOrder(roles, init);
      var found := IndexOfId(d.remaining, id);
      if found.Some? {
        var k := found.value;
        var rest := d.remaining[..k] + d.remaining[k + 1..];
        RemoveKeepsDistinct(d.remaining, k);
        RemoveUniqueId(d.remaining, k);
        assert DeleteInOrder(roles, ids).remaining == rest;
        forall r | r in rest ensures NatToString(r.id) !in ids {
          assert r in d.remaining;
        }
      } else {
        assert DeleteInOrder(roles, ids) == d;
      }
    }
  }

  /** With distinct role ids, every role asked for is deleted. */
  lemma DeleteInOrderComplete(roles: seq<Role>, ids: seq<string>)
    requires DistinctRoleIds(roles)
    ensures forall r :: r in roles && NatToString(r.id) in ids ==> r in DeleteInOrder(roles, ids).deleted
  {
    var d := DeleteInOrder(roles, ids);
    DeleteInOrderMoves(roles, ids);
    DeleteInOrderLeavesNoneAsked(roles, ids);
    forall r | r in roles && NatToString(r.id) in ids ensures r in d.deleted {
      assert r in multiset(d.deleted) + multiset(d.remaining);
    }
  }

  // ---------------------------------------------------------------------
  // Assigning permissions

  /** `permission.findMany({ where: { role: { id } } })` */
  function OfRole(permissions: seq<Permission>, roleId: nat): (r: seq<Permission>)
    ensures forall p :: p in r <==> p in permissions && p.role == Some(roleId)
  {
    if |permissions| == 0 then []
    else
      var last := permissions[|permissions| - 1];
      OfRole(permissions[..|permissions| - 1], roleId) + if last.role == Some(roleId) then [last] else []
  }

  /** Ids `start`, `start + 1`, … given by the store to created permissions. */
  function WithIds(permissions: seq<Permission>, start: nat): (r: seq<Permission>)
    ensures |r| == |permissions|
    ensures forall i :: 0 <= i < |r| ==> r[i] == permissions[i].(id := Some(start + i))
  {
    seq(|permissions|, i requires 0 <= i < |permissions| => permissions[i].(id := Some(start + i)))
  }

  function IdsOf(permissions: seq<Permission>): seq<Option<nat>> {
    seq(|permissions|, i requires 0 <= i < |permissions| => permissions[i].id)
  }

  /** Every id is set, below `bound`, and used once. */
  predicate IdsBelow(permissions: seq<Permission>, bound: nat) {
    (forall p :: p in permissions ==> p.id.Some? && p.id.value < bound) && DistinctIds(permissions)
  }

  lemma {:induction false} OfRoleKeepsDistinct(permissions: seq<Permission>, roleId: nat)
    requires DistinctIds(permissions)
    ensures DistinctIds(OfRole(permissions, roleId))
  {
    if |permissions| > 0 {
      var init := permissions[..|permissions| - 1];
      OfRoleKeepsDistinct(init, roleId);
      SuffixIdFresh(init, OfRole(init, roleId), permissions[|permissions| - 1]);
    }
  }

  lemma {:induction false} DifferenceByIdKeepsDistinct(a: seq<Permission>, b: seq<Permission>)
    requires DistinctIds(a)
    ensures DistinctIds(DifferenceById(a, b))
  {
    if |a| > 0 {
      var init := a[..|a| - 1];
      DifferenceByIdKeepsDistinct(init, b);
      SuffixIdFresh(init, DifferenceById(init, b), a[|a| - 1]);
    }
  }

  /** Appending the last element of a list with distinct ids to a
      selection from the rest keeps the ids distinct. */
  lemma SuffixIdFresh(init: seq<Permission>, picked: seq<Permission>, last: Permission)
    requires DistinctIds(init + [last]) && DistinctIds(picked)
    requires forall p :: p in picked ==> p in init
    ensures DistinctIds(picked + [last])
  {
    var whole := init + [last];
    forall p | p in picked ensures p.id != last.id {
      var i :| 0 <= i < |init| && init[i] == p;
      assert whole[i] == p && whole[|init|] == last;
    }
    var s := picked + [last];
    forall i, j | 0 <= i < |s| && 0 <= j < |s| && i != j ensures s[i].id != s[j].id {
      if i < |picked| && j < |picked| {
      } else if i < |picked| {
        assert s[i] in picked;
      } else {
        assert s[j] in picked;
      }
    }
  }

  /** Fresh ids on top of ids below `start` stay distinct. */
  lemma AppendFreshIds(kept: seq<Permission>, toAdd: seq<Permission>, start: nat)
    requires IdsBelow(kept, start)
    ensures IdsBelow(kept + WithIds(toAdd, start), start + |toAdd|)
  {
    var s := kept + WithIds(toAdd, start);
    forall i, j | 0 <= i < |s| && 0 <= j < |s| && i != j ensures s[i].id != s[j].id {
      if i < |kept| && j >= |kept| {
        assert s[i] in kept;
      } else if j < |kept| && i >= |kept| {
        assert s[j] in kept;
      }
    }
  }

  /** Giving ids to the added permissions keeps a match for `p`. */
  lemma HasEqualUnderIds(kept: seq<Permission>, toAdd: seq<Permission>, start: nat, p: Permission)
    requires HasEqual(kept + toAdd, p)
    ensures HasEqual(kept + WithIds(toAdd, start), p)
  {
    var created := WithIds(toAdd, start);
    var q :| q in kept + toAdd && ArePermissionsEqual(p, q);
    if q in kept {
      assert q in kept + created;
    } else {
      var i :| 0 <= i < |toAdd| && toAdd[i] == q;
      assert created[i] in kept + created;
      assert ArePermissionsEqual(p, created[i]);
    }
  }

  /** A permission with a store-given id matches what its id-less form
      matched. */
  lemma RequestedUnderIds(desired: seq<Permission>, kept: seq<Permission>, toAdd: seq<Permission>, start: nat,
                          p: Permission)
    requires forall x :: x in kept + toAdd ==> HasEqual(desired, x)
    requires p in kept + WithIds(toAdd, start)
    ensures HasEqual(desired, p)
  {
    var created := WithIds(toAdd, start);
    if p in kept {
      assert p in kept + toAdd;
    } else {
      assert p in created;
      var i :| 0 <= i < |created| && created[i] == p;
      assert toAdd[i] in kept + toAdd;
      var q :| q in desired && ArePermissionsEqual(toAdd[i], q);
      assert ArePermissionsEqual(p, q);
    }
  }

  /** The corrected return value of `assignPermissions` lists what the role
      now has: every requested permission has an equal one in it ... */
  lemma AssignedPermissionsCoverRequest(desired: seq<Permission>, existing: seq<Permission>, start: nat)
    requires DistinctIds(existing)
    ensures var created := WithIds(PermissionsToAdd(desired, existing), start);
            forall p :: p in desired ==> HasEqual(AssignedPermissions(desired, existing, created), p)
  {
    var toAdd := PermissionsToAdd(desired, existing);
    var kept := DifferenceById(existing, PermissionsToDelete(desired, existing));
    ReconciledCoversDesired(desired, existing);
    forall p | p in desired ensures HasEqual(kept + WithIds(toAdd, start), p) {
      HasEqualUnderIds(kept, toAdd, start, p);
    }
  }

  /** ... and everything in it was requested. */
  lemma AssignedPermissionsWereRequested(desired: seq<Permission>, existing: seq<Permission>, start: nat)
    ensures var created := WithIds(PermissionsToAdd(desired, existing), start);
            forall p :: p in AssignedPermissions(desired, existing, created) ==> HasEqual(desired, p)
  {
    var toAdd := PermissionsToAdd(desired, existing);
    var kept := DifferenceById(existing, PermissionsToDelete(desired, existing));
    ReconciledOnlyDesired(desired, existing);
    forall p | p in kept + WithIds(toAdd, start) ensures HasEqual(desired, p) {
      RequestedUnderIds(desired, kept, toAdd, start, p);
    }
  }

  // ---------------------------------------------------------------------
  // The store

  /** The admin tables the service reads and writes, and the observable
      side effects it causes. */
  class AdminStore {
    var roles: seq<Role>
    var users: seq<StoredUser>
    var permissions: seq<Permission>
    var nextRoleId: nat
    var nextPermissionId: nat
    /** The id lists passed to the permission service's `deleteByIds`. */
    var permissionDeletions: seq<seq<Option<nat>>>
    /** How many times `sendDidUpdateRolePermissions` was called. */
    var metricsSent: nat

    ghost predicate Valid()
      reads this
    {
      DistinctRoleIds(roles) && (forall r :: r in roles ==> r.id < nextRoleId) &&
      IdsBelow(permissions, nextPermissionId)
    }

    constructor(roles: seq<Role>, users: seq<StoredUser>, permissions: seq<Permission>,
                nextRoleId: nat, nextPermissionId: nat)
      requires DistinctRoleIds(roles) && (forall r :: r in roles ==> r.id < nextRoleId)
      requires IdsBelow(permissions, nextPermissionId)
      ensures Valid()
      ensures this.roles == roles && this.users == users && this.permissions == permissions
      ensures this.nextRoleId == nextRoleId && this.nextPermissionId == nextPermissionId
      ensures permissionDeletions == [] && metricsSent == 0
    {
      this.roles := roles;
      this.users := users;
      this.permissions := permissions;
      this.nextRoleId := nextRoleId;
      this.nextPermissionId := nextPermissionId;
      permissionDeletions := [];
      metricsSent := 0;
    }

    /** `exists(params)`: some role matches. */
    method Exists(f: RoleFilter) returns (b: bool)
      ensures b <==> exists i :: 0 <= i < |roles| && Matches(f, roles[i])
    {
      var count := CountMatching(roles, f);
      b := count > 0;
    }

    /** `create(attributes)`: refuse a taken name, otherwise store the role
        with its code settled. */
    method Create(attributes: RoleAttributes, kebabCase: string -> string, timestampCode: string)
      returns (r: Result<Role, RoleError>)
      requires Valid()
      modifies this
      ensures Valid()
      ensures (exists role :: role in old(roles) && role.name == attributes.name) ==>
                r == Err(ValidationError(attributes.name)) && unchanged(this)
      ensures (forall role :: role in old(roles) ==> role.name != attributes.name) ==>
                r == Ok(Role(old(nextRoleId), attributes.name, RoleCode(attributes, kebabCase, timestampCode),
                             attributes.description)) &&
                roles == old(roles) + [r.value] && nextRoleId == old(nextRoleId) + 1 &&
                users == old(users) && permissions == old(permissions) && nextPermissionId == old(nextPermissionId) &&
                permissionDeletions == old(permissionDeletions) && metricsSent == old(metricsSent)
    {
      var alreadyExists := Exists(RoleFilter(None, Some(attributes.name), None, None));
      if alreadyExists {
        return Err(ValidationError(attributes.name));
      }
      var role := Role(nextRoleId, attributes.name, RoleCode(attributes, kebabCase, timestampCode), attributes.description);
      roles := roles + [role];
      nextRoleId := nextRoleId + 1;
      r := Ok(role);
    }

    /** `update(params, attributes)`: drop `code`, refuse a name held by
        another role when the query names an id, then update the first
        matching role (`None` when there is none). */
    method Update(where: RoleFilter, changes: RoleChanges) returns (r: Result<Option<Role>, RoleError>)
      requires Valid()
      modifies this
      ensures Valid()
      ensures UpdateNameClash(old(roles), where, changes) ==>
                r == Err(ValidationError(changes.name.value)) && unchanged(this)
      ensures !UpdateNameClash(old(roles), where, changes) ==>
                match FirstMatch(old(roles), where)
                case None => r == Ok(None) && unchanged(this)
                case Some(k) =>
                  r == Ok(Some(ApplyChanges(old(roles)[k], OmitCode(changes)))) &&
                  roles == old(roles)[k := r.value.value] &&
                  users == old(users) && permissions == old(permissions) &&
                  nextRoleId == old(nextRoleId) && nextPermissionId == old(nextPermissionId) &&
                  permissionDeletions == old(permissionDeletions) && metricsSent == old(metricsSent)
    {
      var sanitizedAttributes := OmitCode(changes);
      if where.id.Some? && sanitizedAttributes.name.Some? {
        var alreadyExists := Exists(RoleFilter(None, sanitizedAttributes.name, None, where.id));
        if alreadyExists {
          return Err(ValidationError(sanitizedAttributes.name.value));
        }
      }
      var found := FirstMatch(roles, where);
      if found.None? {
        return Ok(None);
      }
      var k := found.value;
      var updated := ApplyChanges(roles[k], sanitizedAttributes);
      assert updated.id == roles[k].id;
      roles := roles[k := updated];
      assert forall i :: 0 <= i < |roles| && i != k ==> roles[i] == old(roles)[i];
      r := Ok(Some(updated));
    }

    /** `checkRolesIdForDeletion(ids)`: refuse when the super-admin role is
        listed, then when any listed role still has a user. */
    method CheckRolesIdForDeletion(ids: seq<string>) returns (r: Result<(), RoleError>)
      ensures var superAdmin := SuperAdmin(roles);
              (superAdmin.Some? && NatToString(superAdmin.value.id) in ids ==> r == Err(SuperAdminDeletion)) &&
              (r.Ok? <==> (superAdmin.None? || NatToString(superAdmin.value.id) !in ids) &&
                          forall id :: id in ids ==> UsersCount(users, id) == 0) &&
              ((superAdmin.None? || NatToString(superAdmin.value.id) !in ids) && r.Err? ==> r == Err(RolesStillAssigned))
    {
      var superAdminRole := SuperAdmin(roles);
      if superAdminRole.Some? && NatToString(superAdminRole.value.id) in ids {
        return Err(SuperAdminDeletion);
      }
      for i := 0 to |ids|
        invariant forall j :: 0 <= j < i ==> UsersCount(users, ids[j]) == 0
      {
        var usersCount := UsersCount(users, ids[i]);
        if usersCount != 0 {
          assert ids[i] in ids;
          return Err(RolesStillAssigned);
        }
      }
      r := Ok(());
    }

    /** `deleteByIds(ids)`: check, drop the permissions of the listed roles,
        then delete the listed roles one id at a time and return those the
        store actually deleted, in id order. */
    method DeleteByIds(ids: seq<string>) returns (r: Result<seq<Role>, RoleError>)
      requires Valid()
      modifies this
      ensures Valid()
      ensures var superAdmin := SuperAdmin(old(roles));
              var allowed := (superAdmin.None? || NatToString(superAdmin.value.id) !in ids) &&
                             forall id :: id in ids ==> UsersCount(old(users), id) == 0;
              (superAdmin.Some? && NatToString(superAdmin.value.id) in ids ==>
                 r == Err(SuperAdminDeletion) && unchanged(this)) &&
              ((superAdmin.None? || NatToString(superAdmin.value.id) !in ids) && !allowed ==>
                 r == Err(RolesStillAssigned) && unchanged(this)) &&
              (allowed ==>
                 var d := DeleteInOrder(old(roles), ids);
                 r == Ok(d.deleted) && roles == d.remaining &&
                 permissions == PermissionsNotOfRoles(old(permissions), ids) &&
                 users == old(users) && nextRoleId == old(nextRoleId) && nextPermissionId == old(nextPermissionId) &&
                 permissionDeletions == old(permissionDeletions) && metricsSent == old(metricsSent))
    {
      var check := CheckRolesIdForDeletion(ids);
      if check.Err? {
        return Err(check.error);
      }
      PermissionsNotOfRolesSubset(permissions, ids);
      permissions := PermissionsNotOfRoles(permissions, ids);
      var deletedRoles := [];
      for k := 0 to |ids|
        invariant DeleteInOrder(old(roles), ids[..k]) == Deletion(deletedRoles, roles)
        invariant permissions == PermissionsNotOfRoles(old(permissions), ids)
        invariant users == old(users) && nextRoleId == old(nextRoleId) && nextPermissionId == old(nextPermissionId)
        invariant permissionDeletions == old(permissionDeletions) && metricsSent == old(metricsSent)
      {
        assert ids[..k + 1][..k] == ids[..k];
        var found := IndexOfId(roles, ids[k]);
        if found.Some? {
          var deletedRole := roles[found.value];
          roles := roles[..found.value] + roles[found.value + 1..];
          deletedRoles := deletedRoles + [deletedRole];
        }
      }
      assert ids[..|ids|] == ids;
      DeleteInOrderLeavesNoneAsked(old(roles), ids);
      r := Ok(deletedRoles);
    }

    /** The permission service's `deleteByIds` for the given permissions. */
    method DeletePermissions(toDelete: seq<Permission>)
      requires Valid()
      modifies this
      ensures Valid()
      ensures permissions == DifferenceById(old(permissions), toDelete)
      ensures permissionDeletions == old(permissionDeletions) + [IdsOf(toDelete)]
      ensures roles == old(roles) && users == old(users) && nextRoleId == old(nextRoleId)
      ensures nextPermissionId == old(nextPermissionId) && metricsSent == old(metricsSent)
    {
      DifferenceByIdKeepsDistinct(permissions, toDelete);
      permissionDeletions := permissionDeletions + [IdsOf(toDelete)];
      permissions := DifferenceById(permissions, toDelete);
    }

    /** The permission service's `createMany`: the store gives the next ids
        in order. */
    method CreatePermissions(toAdd: seq<Permission>) returns (created: seq<Permission>)
      requires Valid()
      modifies this
      ensures Valid()
      ensures created == WithIds(toAdd, old(nextPermissionId))
      ensures permissions == old(permissions) + created
      ensures nextPermissionId == old(nextPermissionId) + |toAdd|
      ensures roles == old(roles) && users == old(users) && nextRoleId == old(nextRoleId)
      ensures permissionDeletions == old(permissionDeletions) && metricsSent == old(metricsSent)
    {
      AppendFreshIds(permissions, toAdd, nextPermissionId);
      created := WithIds(toAdd, nextPermissionId);
      permissions := permissions + created;
      nextPermissionId := nextPermissionId + |toAdd|;
    }

    /** The writes of `assignPermissions` once the difference is known:
        delete, create, then report the change unless the role is the
        super-admin role. */
    method ApplyDiff(toAdd: seq<Permission>, toDelete: seq<Permission>, isSuperAdmin: bool)
      returns (created: seq<Permission>)
      requires Valid()
      modifies this
      ensures Valid()
      ensures created == WithIds(toAdd, old(nextPermissionId))
      ensures permissions == DifferenceById(old(permissions), toDelete) + created
      ensures nextPermissionId == old(nextPermissionId) + |toAdd|
      ensures permissionDeletions == old(permissionDeletions) + (if |toDelete| > 0 then [IdsOf(toDelete)] else [])
      ensures metricsSent == old(metricsSent) + (if !isSuperAdmin && (|toAdd| > 0 || |toDelete| > 0) then 1 else 0)
      ensures roles == old(roles) && users == old(users) && nextRoleId == old(nextRoleId)
    {
      if |toDelete| > 0 {
        DeletePermissions(toDelete);
      } else {
        DifferenceByIdOfNothing(permissions);
      }
      created := [];
      if |toAdd| > 0 {
        created := CreatePermissions(toAdd);
      } else {
        assert WithIds(toAdd, nextPermissionId) == [];
        assert permissions + [] == permissions;
      }
      if !isSuperAdmin && (|toAdd| > 0 || |toDelete| > 0) {
        metricsSent := metricsSent + 1;
      }
    }

    /** `assignPermissions(roleId, permissions)`, returning the role's
        permissions after the change. Whether the permissions exist is
        decided by a validator outside this model (`valid`). */
    method AssignPermissions(roleId: nat, requested: seq<Permission>, valid: bool)
      returns (r: Result<seq<Permission>, RoleError>)
      requires Valid()
      modifies this
      ensures Valid()
      ensures !valid ==> r == Err(InvalidPermissions) && unchanged(this)
      ensures valid ==>
                var desired := WithRole(requested, roleId);
                var existing := OfRole(old(permissions), roleId);
                var toAdd := PermissionsToAdd(desired, existing);
                var toDelete := PermissionsToDelete(desired, existing);
                var created := WithIds(toAdd, old(nextPermissionId));
                var superAdmin := SuperAdmin(old(roles));
                var isSuperAdmin := superAdmin.Some? && superAdmin.value.id == roleId;
                permissions == DifferenceById(old(permissions), toDelete) + created &&
                nextPermissionId == old(nextPermissionId) + |toAdd| &&
                permissionDeletions == old(permissionDeletions) + (if |toDelete| > 0 then [IdsOf(toDelete)] else []) &&
                metricsSent == old(metricsSent) + (if !isSuperAdmin && (|toAdd| > 0 || |toDelete| > 0) then 1 else 0) &&
                roles == old(roles) && users == old(users) && nextRoleId == old(nextRoleId) &&
                r == Ok(AssignedPermissions(desired, existing, created))
    {
      if !valid {
        return Err(InvalidPermissions);
      }
      var superAdmin := SuperAdmin(roles);
      var isSuperAdmin := superAdmin.Some? && superAdmin.value.id == roleId;
      var permissionsWithRole := WithRole(requested, roleId);
      var existingPermissions := OfRole(permissions, roleId);
      var permissionsToAdd := PermissionsToAdd(permissionsWithRole, existingPermissions);
      var permissionsToDelete := PermissionsToDelete(permissionsWithRole, existingPermissions);
      var created := ApplyDiff(permissionsToAdd, permissionsToDelete, isSuperAdmin);
      var kept := DifferenceById(existingPermissions, permissionsToDelete);
      r := Ok(kept + created);
    }
  }

  /** `permission.deleteByRolesIds(ids)`: the permissions whose role is not
      listed. */
  function PermissionsNotOfRoles(permissions: seq<Permission>, ids: seq<string>): (r: seq<Permission>)
    ensures forall p :: p in r <==> p in permissions && (p.role.None? || NatToString(p.role.value) !in ids)
  {
    if |permissions| == 0 then []
    else
      var last := permissions[|permissions| - 1];
      PermissionsNotOfRoles(permissions[..|permissions| - 1], ids) +
      if last.role.Some? && NatToString(last.role.value) in ids then [] else [last]
  }

  lemma {:induction false} PermissionsNotOfRolesSubset(permissions: seq<Permission>, ids: seq<string>)
    requires DistinctIds(permissions)
    ensures DistinctIds(PermissionsNotOfRoles(permissions, ids))
  {
    if |permissions| > 0 {
      var init := permissions[..|permissions| - 1];
      PermissionsNotOfRolesSubset(init, ids);
      SuffixIdFresh(init, PermissionsNotOfRoles(init, ids), permissions[|permissions| - 1]);
    }
  }

  /** Removing nothing by id leaves the list as it is. */
  lemma {:induction false} DifferenceByIdOfNothing(a: seq<Permission>)
    ensures DifferenceById(a, []) == a
  {
    if |a| > 0 {
      DifferenceByIdOfNothing(a[..|a| - 1]);
    }
  }
}
