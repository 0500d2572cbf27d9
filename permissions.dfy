/** The pure permission rules of the admin role service: when two
    permissions are the same, the add/delete diff that `assignPermissions`
    computes, the permissions seeded for the default roles, and the
    super-admin test on a user. */
module Permissions {
  import opened Common

  /** The code of the super-admin role (`SUPER_ADMIN_CODE`; the value the
      super-admin role is created with). */
  const SuperAdminCode: string := "strapi-super-admin"

  /** The content-manager publish action, which authors do not get. */
  const PublishAction: string := "plugin::content-manager.explorer.publish"

  /** The condition that restricts a permission to entries the user created. */
  const IsCreator: string := "admin::is-creator"

  /** An admin permission as the permission domain builds it (absent fields
      take their defaults: no subject, no properties, no conditions). */
  datatype Permission = Permission(
    id: Option<nat>,
    action: string,
    subject: Option<string>,
    properties: map<string, Value>,
    conditions: seq<string>,
    role: Option<nat>)

  /** The fields `arePermissionsEqual` compares (`COMPARABLE_FIELDS`). */
  function Comparable(p: Permission): (seq<string>, map<string, Value>, Option<string>, string) {
    (p.conditions, p.properties, p.subject, p.action)
  }

  /** `arePermissionsEqual`: different actions never match; otherwise the
      comparable fields are compared deeply. */
  function ArePermissionsEqual(p1: Permission, p2: Permission): (r: bool)
    ensures p1.action != p2.action ==> !r
    ensures r ==> p1.subject == p2.subject && p1.properties == p2.properties && p1.conditions == p2.conditions
    ensures r <==> Comparable(p1) == Comparable(p2)
  {
    if p1.action == p2.action then Comparable(p1) == Comparable(p2) else false
  }

  /** Equal permissions agree on exactly the four comparable fields;
      the id and the role never matter. */
  lemma ArePermissionsEqualCharacterized(p1: Permission, p2: Permission)
    ensures p1.action != p2.action ==> !ArePermissionsEqual(p1, p2)
    ensures ArePermissionsEqual(p1, p2) <==>
              p1.action == p2.action && p1.subject == p2.subject &&
              p1.properties == p2.properties && p1.conditions == p2.conditions
    ensures forall id, role :: ArePermissionsEqual(p1.(id := id, role := role), p2) == ArePermissionsEqual(p1, p2)
  {
  }

  /** It is an equivalence, so the diff below does not depend on which side
      a permission is on. */
  lemma ArePermissionsEqualIsEquivalence(p1: Permission, p2: Permission, p3: Permission)
    ensures ArePermissionsEqual(p1, p1)
    ensures ArePermissionsEqual(p1, p2) == ArePermissionsEqual(p2, p1)
    ensures ArePermissionsEqual(p1, p2) && ArePermissionsEqual(p2, p3) ==> ArePermissionsEqual(p1, p3)
  {
  }

  /** `a` has a permission equal to `p`. */
  predicate HasEqual(a: seq<Permission>, p: Permission) {
    exists q :: q in a && ArePermissionsEqual(p, q)
  }

  /** lodash/fp `differenceWith(arePermissionsEqual, a, b)`: the elements of
      `a`, in order, that equal no element of `b`. */
  function DifferenceWith(a: seq<Permission>, b: seq<Permission>): (r: seq<Permission>)
    ensures |r| <= |a|
    ensures forall p :: p in r <==> p in a && !HasEqual(b, p)
  {
    if |a| == 0 then []
    else
      var last := a[|a| - 1];
      DifferenceWith(a[..|a| - 1], b) + (if HasEqual(b, last) then [] else [last])
  }

  /** lodash/fp `differenceBy('id', a, b)`: the elements of `a`, in order,
      whose id is not the id of an element of `b` (two absent ids match). */
  function DifferenceById(a: seq<Permission>, b: seq<Permission>): (r: seq<Permission>)
    ensures |r| <= |a|
    ensures forall p :: p in r <==> p in a && forall q :: q in b ==> q.id != p.id
  {
    if |a| == 0 then []
    else
      var last := a[|a| - 1];
      DifferenceById(a[..|a| - 1], b) + (if exists q :: q in b && q.id == last.id then [] else [last])
  }

  /** `set('role', roleId)` on every permission. */
  function WithRole(permissions: seq<Permission>, roleId: nat): (r: seq<Permission>)
    ensures |r| == |permissions|
    ensures forall i :: 0 <= i < |r| ==> r[i] == permissions[i].(role := Some(roleId))
  {
    seq(|permissions|, i requires 0 <= i < |permissions| => permissions[i].(role := Some(roleId)))
  }

  /** `permissionsToAdd`: the requested permissions the role lacks. */
  function PermissionsToAdd(desired: seq<Permission>, existing: seq<Permission>): seq<Permission> {
    DifferenceWith(desired, existing)
  }

  /** `permissionsToDelete`: the role's permissions no longer requested. */
  function PermissionsToDelete(desired: seq<Permission>, existing: seq<Permission>): seq<Permission> {
    DifferenceWith(existing, desired)
  }

  /** The role's permissions once the diff is applied: the existing ones
      not deleted (deletion is by id), then the added ones. */
  function Reconciled(desired: seq<Permission>, existing: seq<Permission>): seq<Permission> {
    DifferenceById(existing, PermissionsToDelete(desired, existing)) + PermissionsToAdd(desired, existing)
  }

  predicate DistinctIds(a: seq<Permission>) {
    forall i, j :: 0 <= i < |a| && 0 <= j < |a| && i != j ==> a[i].id != a[j].id
  }

  /** Applying the diff leaves an equal permission for every requested
      one: a requested permission the role already had is not deleted, and
      one it lacked is added. */
  lemma ReconciledCoversDesired(desired: seq<Permission>, existing: seq<Permission>)
    requires DistinctIds(existing)
    ensures forall p :: p in desired ==> HasEqual(Reconciled(desired, existing), p)
  {
    var toDelete := PermissionsToDelete(desired, existing);
    var toAdd := PermissionsToAdd(desired, existing);
    var after := Reconciled(desired, existing);
    forall p | p in desired ensures HasEqual(after, p) {
      if HasEqual(existing, p) {
        var q :| q in existing && ArePermissionsEqual(p, q);
        assert ArePermissionsEqual(q, p);
        assert q !in toDelete;
        KeptUnlessDeleted(existing, toDelete, q);
        assert q in after;
      } else {
        assert p in toAdd;
        assert p in after;
        assert ArePermissionsEqual(p, p);
      }
    }
  }

  /** ... and every permission left afterwards was requested: an existing
      one that was not requested is deleted. */
  lemma ReconciledOnlyDesired(desired: seq<Permission>, existing: seq<Permission>)
    ensures forall p :: p in Reconciled(desired, existing) ==> HasEqual(desired, p)
  {
    var toDelete := PermissionsToDelete(desired, existing);
    var toAdd := PermissionsToAdd(desired, existing);
    var kept := DifferenceById(existing, toDelete);
    forall p | p in kept + toAdd ensures HasEqual(desired, p) {
      if p in kept {
        assert p in existing && p !in toDelete;
      } else {
        assert p in toAdd;
        assert ArePermissionsEqual(p, p);
      }
    }
  }

  /** With distinct ids, deleting by the ids of `toDelete` removes exactly
      the elements of `toDelete`. */
  lemma KeptUnlessDeleted(existing: seq<Permission>, toDelete: seq<Permission>, q: Permission)
    requires DistinctIds(existing)
    requires forall d :: d in toDelete ==> d in existing
    requires q in existing && q !in toDelete
    ensures q in DifferenceById(existing, toDelete)
  {
    forall d | d in toDelete ensures d.id != q.id {
      var i :| 0 <= i < |existing| && existing[i] == d;
      var j :| 0 <= j < |existing| && existing[j] == q;
      assert i != j;
    }
  }

  /** As written, `permissionsToReturn` is `differenceBy('id',
      permissionsToDelete, existingPermissions)`: the deleted permissions
      whose id is not an existing id. They are all existing permissions,
      so this is always empty. */
  function ReturnedAsWritten(desired: seq<Permission>, existing: seq<Permission>, created: seq<Permission>)
    : (r: seq<Permission>)
    ensures |created| <= |r| && r[|r| - |created|..] == created
    ensures forall p :: p in r ==> p in created || p in PermissionsToDelete(desired, existing)
  {
    DifferenceById(PermissionsToDelete(desired, existing), existing) + created
  }

  lemma ReturnedAsWrittenIsOnlyCreated(desired: seq<Permission>, existing: seq<Permission>, created: seq<Permission>)
    ensures ReturnedAsWritten(desired, existing, created) == created
  {
    DifferenceByIdOfSubset(PermissionsToDelete(desired, existing), existing);
  }

  /** Removing by id everything whose id occurs in a superset leaves nothing. */
  lemma {:induction false} DifferenceByIdOfSubset(a: seq<Permission>, b: seq<Permission>)
    requires forall p :: p in a ==> p in b
    ensures DifferenceById(a, b) == []
  {
    if |a| > 0 {
      var last := a[|a| - 1];
      assert last in b;
      DifferenceByIdOfSubset(a[..|a| - 1], b);
    }
  }

  /** What `assignPermissions` evidently means to return: the role's
      permissions after the change, i.e. the existing ones minus the
      deleted ones, followed by the newly created ones. */
  function AssignedPermissions(desired: seq<Permission>, existing: seq<Permission>, created: seq<Permission>)
    : (r: seq<Permission>)
    ensures |created| <= |r| <= |existing| + |created| && r[|r| - |created|..] == created
    ensures forall p :: p in r <==>
              p in created ||
              (p in existing && forall q :: q in PermissionsToDelete(desired, existing) ==> q.id != p.id)
  {
    DifferenceById(existing, PermissionsToDelete(desired, existing)) + created
  }

  /** Re-assigning a role the permissions it already has changes nothing,
      and the corrected return value lists them all; the value as written
      is empty. */
  lemma ReassignSameExample()
    ensures var p := Permission(Some(7), "plugin::upload.read", None, map[], [], Some(2));
            var desired := [p.(id := None)];
            PermissionsToAdd(desired, [p]) == [] &&
            PermissionsToDelete(desired, [p]) == [] &&
            ReturnedAsWritten(desired, [p], []) == [] &&
            AssignedPermissions(desired, [p], []) == [p]
  {
    var p := Permission(Some(7), "plugin::upload.read", None, map[], [], Some(2));
    var desired := [p.(id := None)];
    assert ArePermissionsEqual(p, p.(id := None));
    assert ArePermissionsEqual(p.(id := None), p);
    assert p in [p];
    assert HasEqual([p], p.(id := None));
    assert HasEqual(desired, p);
    assert DifferenceWith([p], desired) == DifferenceWith([], desired) + [];
    assert DifferenceWith(desired, [p]) == DifferenceWith([], [p]) + [];
    ReturnedAsWrittenIsOnlyCreated(desired, [p], []);
    assert DifferenceById([p], []) == DifferenceById([], []) + [p];
  }

  // ---------------------------------------------------------------------
  // Default roles

  /** A permission with only an action (and conditions) given. */
  function Plain(action: string, conditions: seq<string>): Permission {
    Permission(None, action, None, map[], conditions, None)
  }

  /** `getDefaultPluginPermissions({ isAuthor })`: the five upload
      permissions every default role gets. */
  function DefaultPluginPermissions(isAuthor: bool): (r: seq<Permission>)
    ensures |r| == 5
    ensures forall i :: 0 <= i < |r| ==> r[i].id.None? && r[i].role.None? && r[i].subject.None?
    ensures forall i :: 0 <= i < |r| ==>
              (IsCreator in r[i].conditions <==>
                 isAuthor && r[i].action in {"plugin::upload.read", "plugin::upload.assets.update"})
    ensures forall i :: 0 <= i < |r| ==> r[i].conditions == [] || r[i].conditions == [IsCreator]
    ensures forall i, j :: 0 <= i < j < |r| ==> r[i].action != r[j].action
  {
    var conditions := if isAuthor then [IsCreator] else [];
    [ Plain("plugin::upload.read", conditions),
      Plain("plugin::upload.assets.create", []),
      Plain("plugin::upload.assets.update", conditions),
      Plain("plugin::upload.assets.download", []),
      Plain("plugin::upload.assets.copy-link", []) ]
  }

  /** The author's content-type permissions: the editor's without publish,
      each restricted to the author's own entries. */
  function AuthorContentTypePermissions(editor: seq<Permission>): (r: seq<Permission>)
    ensures |r| <= |editor|
    ensures forall p :: p in r ==> p.action != PublishAction && p.conditions == [IsCreator]
  {
    if |editor| == 0 then []
    else
      var last := editor[|editor| - 1];
      AuthorContentTypePermissions(editor[..|editor| - 1]) +
      (if last.action != PublishAction then [last.(conditions := [IsCreator])] else [])
  }

  /** Each author permission is an editor permission other than publish,
      with conditions `[is-creator]`; and every non-publish editor
      permission has its author counterpart. */
  lemma {:induction false} AuthorContentTypePermissionsCharacterized(editor: seq<Permission>)
    ensures var author := AuthorContentTypePermissions(editor);
            (forall p :: p in author ==>
               p.action != PublishAction && p.conditions == [IsCreator] &&
               exists e :: e in editor && e.(conditions := [IsCreator]) == p) &&
            (forall e :: e in editor && e.action != PublishAction ==> e.(conditions := [IsCreator]) in author)
  {
    if |editor| > 0 {
      var init := editor[..|editor| - 1];
      var last := editor[|editor| - 1];
      AuthorContentTypePermissionsCharacterized(init);
      assert editor == init + [last];
      forall e | e in editor && e.action != PublishAction
        ensures e.(conditions := [IsCreator]) in AuthorContentTypePermissions(editor)
      {
        if e != last {
          assert e in init;
        }
      }
    }
  }

  /** The permissions the editor and author roles are seeded with. */
  function EditorRolePermissions(editor: seq<Permission>): seq<Permission> {
    editor + DefaultPluginPermissions(false)
  }

  function AuthorRolePermissions(editor: seq<Permission>): seq<Permission> {
    AuthorContentTypePermissions(editor) + DefaultPluginPermissions(true)
  }

  /** Authors never get publish, not even through the plugin permissions,
      and the plugin permissions appended for editors carry no condition. */
  lemma DefaultRolesDiffer(editor: seq<Permission>)
    ensures forall p :: p in AuthorRolePermissions(editor) ==> p.action != PublishAction
    ensures forall i :: |editor| <= i < |EditorRolePermissions(editor)| ==>
              EditorRolePermissions(editor)[i].conditions == []
  {
    AuthorContentTypePermissionsCharacterized(editor);
    var plugins := DefaultPluginPermissions(true);
    forall p | p in plugins ensures p.action != PublishAction {
      var i :| 0 <= i < |plugins| && plugins[i] == p;
    }
  }

  // ---------------------------------------------------------------------
  // Super admin

  /** A role reference on a user; `code` may be missing. */
  datatype RoleRef = RoleRef(code: Option<string>)

  /** A user; `roles` may be missing. */
  datatype User = User(roles: Option<seq<RoleRef>>)

  /** `hasSuperAdminRole`: one of the user's roles has the super-admin code
      (no roles at all counts as an empty list). */
  function HasSuperAdminRole(user: User): (r: bool)
    ensures r <==> user.roles.Some? && exists i :: 0 <= i < |user.roles.value| &&
                                                  user.roles.value[i].code == Some(SuperAdminCode)
  {
    var roles := user.roles.GetOr([]);
    var codes := seq(|roles|, i requires 0 <= i < |roles| => roles[i].code);
    assert forall i :: 0 <= i < |roles| ==> codes[i] == roles[i].code;
    Some(SuperAdminCode) in codes
  }
}
