# Strapi core rules, modelled in Dafny

This project models four pieces of logic behind Strapi's document and
entity layer and proves what they promise.

- **Component-aware entity queries** (data-transfer, `entity.ts`), in
  modules `PopulateQuery` and `EntityQuery`:
  - the payload filters that drop component-like keys and `id`;
  - `create`, `createMany` and `deleteMany` over an abstract store that
    records every call it receives;
  - the recursive populate walker `getDeepPopulateComponentLikeQuery`. It
    is modelled twice: as the loops that fill the `populate` and `on`
    objects in place, and as a recursive specification that the loops are
    proved equal to.
- **UID generation** (content-manager, `uid.ts`), in module `UidService`:
  - choosing the source value of a slug;
  - the probe loop that appends `-1`, `-2`, … until the value is free;
  - the availability count.
- **The relation-result cache** (admin client, `relations.ts`), in module
  `RelationsApi`:
  - the two `merge` functions, as classes whose `Merge` updates the cached
    entry in place;
  - `forceRefetch`, `transformResponse` and the cache identity
    (`serializeQueryArgs`) of both endpoints.
- **Admin roles and permissions** (admin server, `role.js`), in modules
  `Permissions` (pure rules) and `RoleService` (a class over an abstract
  admin store):
  - permission equality and the add/delete diff of `assignPermissions`;
  - the unique-name gates of `create` and `update`;
  - the deletion guard and the deletion loop;
  - the permissions seeded for the default roles;
  - the super-admin test.

`common.dfy` holds the shared pieces:
- `Option` and `Result`;
- a JSON-like `Value`;
- lodash `isEmpty` and JavaScript truthiness;
- `String(n)` for naturals, with a proof that it is injective.

Functions and stores the code calls but does not define are parameters or
`const` function fields. These are `slugify`, `_.kebabCase`,
`generateTimestampCode`, the components service, the database's answers
and the permission validator.

A relation cache at page 2 that receives page 1 is not reset: `2 > 1`
is tested first, so it takes the paging-back branch and appends the unseen
items (`RelationsApi.Page2ReceivingPage1Appends`).

## Model

| member | source | states |
|---|---|---|
| PopulateQuery.DeepPopulate | packages/core/data-transfer/src/strapi/queries/entity.ts:80-133 | The loops that fill `populate` in place compute exactly the recursive walk `Walk`. A missing schema or exhausted nesting fuel is the walk's error. |
| PopulateQuery.AssignSubPopulate | packages/core/data-transfer/src/strapi/queries/entity.ts:95-101 | The two guarded assignments, run in place, leave the object that `Place` specifies; `PlaceAssigns` shows which entry that is. |
| PopulateQuery.DynamicZoneOn | packages/core/data-transfer/src/strapi/queries/entity.ts:104-123 | The inner loop over a dynamic zone's component UIDs builds exactly the `on` object that `WalkOn` defines. |
| PopulateQuery.GetSubPopulate | packages/core/data-transfer/src/strapi/queries/entity.ts:92-93 | Looking the component up and walking it gives `SubPopulate`: an unregistered UID is `MissingModel`, and a registered one is walked with one nesting level fewer. |
| PopulateQuery.DeepPopulateComponentLikeQuery | packages/core/data-transfer/src/strapi/queries/entity.ts:141-145 | The getter walks the content type's own schema with the default parameters `{ select: '*' }`. An unregistered UID fails. |
| PopulateQuery.Put | packages/core/data-transfer/src/strapi/queries/entity.ts:95-101 | Assigning `obj[key]` sets the value. A new key goes last in key order and an existing key keeps its place. |
| PopulateQuery.PlaceAssigns | packages/core/data-transfer/src/strapi/queries/entity.ts:95-101 | For any sub-result a walk can produce, the two guarded assignments always assign. The entry is `{ ...params }` for an empty key list and `{ ...params, populate: sub }` otherwise. |
| PopulateQuery.Walk | packages/core/data-transfer/src/strapi/queries/entity.ts:126-132 | A successful walk never yields an empty object: it is either non-empty or the empty key list. |
| PopulateQuery.SubPopulate | packages/core/data-transfer/src/strapi/queries/entity.ts:92-101 | A component's sub-walk, when it succeeds, is likewise never an empty object, so one of the two guarded assignments always assigns. |
| PopulateQuery.StepEntry | packages/core/data-transfer/src/strapi/queries/entity.ts:90-123 | One loop iteration sets the entry its attribute's declaration calls for and leaves every other key unchanged. |
| PopulateQuery.WalkOnEntries | packages/core/data-transfer/src/strapi/queries/entity.ts:107-120 | `on` has exactly one entry per listed component UID, each `{ ...params }` or `{ ...params, populate }` as that component's walk requires. |
| PopulateQuery.PopulateEntries | packages/core/data-transfer/src/strapi/queries/entity.ts:90-124 | After the loop, `populate` holds exactly the component and dynamic-zone keys. A component's entry is never `true`. A dynamic zone maps to `true` iff it lists no component, and to `{ on }` otherwise. |
| PopulateQuery.NoComponentsGivesEmptyKeys | packages/core/data-transfer/src/strapi/queries/entity.ts:86-130 | A schema with no component and no dynamic-zone attribute yields the empty key list. |
| PopulateQuery.FlatAttributesGiveAll | packages/core/data-transfer/src/strapi/queries/entity.ts:104-122 | With no component and only empty dynamic zones, every entry of `populate` is `true`. |
| PopulateQuery.NestedAttributeIsNotAll | packages/core/data-transfer/src/strapi/queries/entity.ts:91-122 | A component, or a dynamic zone listing some component, always gets an entry other than `true`. |
| PopulateQuery.WalkCollapsesIff | packages/core/data-transfer/src/strapi/queries/entity.ts:126-132 | The result collapses to a key list iff no attribute is a component and every dynamic zone lists no component. |
| PopulateQuery.WalkTerminates | packages/core/data-transfer/src/strapi/queries/entity.ts:90-124 | On a registry whose components all resolve within `depth` nested levels, the walk succeeds with any fuel of at least `depth`. |
| PopulateQuery.WalkWithin | packages/core/data-transfer/src/strapi/queries/entity.ts:90-132 | A successful walk with `fuel` nested lookups yields a tree whose `populate` objects nest at most `fuel` levels deep. |
| PopulateQuery.WalkFuel | packages/core/data-transfer/src/strapi/queries/entity.ts:90-132 | On a registry that nests within `depth`, the walk's result is the same for every fuel of at least `depth`. |
| PopulateQuery.WalkDepthBounded | packages/core/data-transfer/src/strapi/queries/entity.ts:80-133 | On a registry that nests within `depth`, every fuel of at least `depth` gives the same successful walk, and its tree is at most `depth` levels deep. The fuel never shows in the result. |
| PopulateQuery.SelfNestingNeverTerminates | packages/core/data-transfer/src/strapi/queries/entity.ts:91-93 | With no cycle guard, a component that contains itself exhausts every amount of fuel. |
| EntityQuery.SanitizeComponentLikeAttributes | packages/core/data-transfer/src/strapi/queries/entity.ts:8-19 | Removes exactly the keys declared as component or dynamic zone. Every other key keeps its value. |
| EntityQuery.OmitInvalidCreationAttributes | packages/core/data-transfer/src/strapi/queries/entity.ts:21 | The result has no `id`. Every other key is kept with its value. |
| EntityQuery.AssignToEntity | packages/core/data-transfer/src/strapi/queries/entity.ts:25-32 | The result's keys are the created components' keys plus the payload's non-component keys. A non-component payload key keeps the payload's value; every other key holds the created component's value. |
| EntityQuery.CreatePayloadContents | packages/core/data-transfer/src/strapi/queries/entity.ts:44-49 | `create` never stores an `id`. A plain payload field keeps its own value, and a component-like field is stored only as the components service created it. |
| EntityQuery.OmitCommutes | packages/core/data-transfer/src/strapi/queries/entity.ts:8-21 | Dropping component-like keys and dropping `id` can be done in either order. |
| EntityQuery.Store.Create | packages/core/data-transfer/src/strapi/queries/entity.ts:44-49 | Creates the components, then sends one database `create` with the other params and the filtered payload. Returns the database's answer. |
| EntityQuery.CreateManyDataAsWritten | packages/core/data-transfer/src/strapi/queries/entity.ts:51-61 | The batch as written: one element per payload, in order. |
| EntityQuery.CreateManyAsWrittenSendsEmptyObjects | packages/core/data-transfer/src/strapi/queries/entity.ts:55-57 | As written, every element reaches the database as `{}`, whatever the payloads. |
| EntityQuery.CreateManyAsWrittenLosesFields | packages/core/data-transfer/src/strapi/queries/entity.ts:55-57 | Concrete case: for a one-field payload, `create` stores the field, the as-written `createMany` stores `{}`, and the corrected one stores the field. |
| EntityQuery.CreateManyData | packages/core/data-transfer/src/strapi/queries/entity.ts:51-61 | The corrected batch keeps the list's length. |
| EntityQuery.CreateManyMatchesCreate | packages/core/data-transfer/src/strapi/queries/entity.ts:51-61 | Each element of the corrected batch is what `create` would store for that payload, in the same order. |
| EntityQuery.Store.CreateMany | packages/core/data-transfer/src/strapi/queries/entity.ts:51-61 | Creates components for every payload in order, then makes one database `createMany` with the corrected batch. |
| EntityQuery.Deletions | packages/core/data-transfer/src/strapi/queries/entity.ts:38-40 | One component deletion per loaded component set, in order, each with `loadComponents: false`. |
| EntityQuery.Store.DeleteMany | packages/core/data-transfer/src/strapi/queries/entity.ts:63-78 | Performs exactly the calls of `DeleteManyCalls`. Returns `null` when nothing matches and the database's deletion answer otherwise. |
| EntityQuery.DeleteManyNothingFound | packages/core/data-transfer/src/strapi/queries/entity.ts:63-68 | When nothing matches, the only call is the lookup (with `{}` for absent params). No entity and no component is deleted. |
| EntityQuery.DeleteManyOrder | packages/core/data-transfer/src/strapi/queries/entity.ts:70-77 | Every matched entity's components are fetched before any deletion. Entities are deleted with the params as given. Then one component set is deleted per matched entity, in order. |
| UidService.FindUniqueUid | packages/core/content-manager/server/src/services/uid.ts:45-93 | Returns the candidate when the query found nothing or nothing equals it exactly. Otherwise returns `value-k` for the least `k >= 1` that is not taken. The result is never a found value. |
| UidService.SuffixRunBounded | packages/core/content-manager/server/src/services/uid.ts:83-90 | If `value-1` … `value-n` are all taken, there are at least `n` distinct found values, so the probe loop ends. |
| UidService.SuffixedInjective | packages/core/content-manager/server/src/services/uid.ts:84-89 | Different suffixes give different candidates. |
| UidService.FirstFreeSuffixUnique | packages/core/content-manager/server/src/services/uid.ts:83-92 | At most one value is the first free suffix, so the loop's answer is determined. |
| UidService.PostExample | packages/core/content-manager/server/src/services/uid.ts:83-92 | With `post`, `post-1` and `post-2` taken, `post` resolves to `post-3` and to nothing else. |
| UidService.SubstringMatchIsNoCollision | packages/core/content-manager/server/src/services/uid.ts:56-81 | A value that merely contains the candidate is returned by `$contains` but is not a collision. |
| UidService.SlugSource | packages/core/content-manager/server/src/services/uid.ts:21-42 | Uses the target field's value when it is non-empty. Otherwise uses what a function default returns, else a truthy default, else the model name. |
| UidService.GenerateUidField | packages/core/content-manager/server/src/services/uid.ts:7-43 | Returns the slug when no draft of the locale holds it, else its first free suffix. The result always passes `checkUIDAvailability`. |
| UidService.CountExact | packages/core/content-manager/server/src/services/uid.ts:106-114 | The exact-match count is positive iff some document holds the value. |
| UidService.CheckUidAvailability | packages/core/content-manager/server/src/services/uid.ts:95-122 | A value is available iff no draft document of the locale holds exactly it. |
| RelationsApi.Unseen | packages/core/admin/admin/src/content-manager/services/relations.ts:57-60 | Exactly the incoming items whose `documentId` is not cached, in incoming order. |
| RelationsApi.RelationsCache.Merge | packages/core/admin/admin/src/content-manager/services/relations.ts:51-75 | The entry becomes `MergeExisting(old entry, incoming)`, and results stay present whenever pagination is. |
| RelationsApi.MergeExisting | packages/core/admin/admin/src/content-manager/services/relations.ts:51-75 | The entry stays typed: it has results whenever it has pagination. Its pagination is the cached or the incoming one. |
| RelationsApi.MergeExistingPagingBack | packages/core/admin/admin/src/content-manager/services/relations.ts:53-63 | When the cached page is above the incoming one, the cached items stay as a prefix. They are followed by exactly the unseen incoming items, and the incoming pagination is adopted. |
| RelationsApi.MergeExistingReset | packages/core/admin/admin/src/content-manager/services/relations.ts:64-73 | Cached page ≤ incoming page = 1: the entry becomes the incoming results and pagination. |
| RelationsApi.MergeExistingIgnored | packages/core/admin/admin/src/content-manager/services/relations.ts:52-74 | If either side lacks pagination, or the cache pages forward to a page above 1, the entry is untouched. |
| RelationsApi.Page2ReceivingPage1Appends | packages/core/admin/admin/src/content-manager/services/relations.ts:53-72 | A cache at page 2 that receives page 1 appends instead of resetting. |
| RelationsApi.MergeExistingKeepsIdsDistinct | packages/core/admin/admin/src/content-manager/services/relations.ts:57-62 | If the cached ids and the incoming ids are each distinct, the merged ids are distinct. |
| RelationsApi.MergeExistingTwice | packages/core/admin/admin/src/content-manager/services/relations.ts:51-75 | Merging the same page twice changes no results, except after an append of a page-1 response. |
| RelationsApi.MergeExistingTwiceCounterexample | packages/core/admin/admin/src/content-manager/services/relations.ts:53-73 | That exception occurs: a page-1 response appended once resets the entry when it arrives again. |
| RelationsApi.SearchCache.Merge | packages/core/admin/admin/src/content-manager/services/relations.ts:121-134 | The entry becomes `MergeSearch(old entry, incoming)`. |
| RelationsApi.MergeSearch | packages/core/admin/admin/src/content-manager/services/relations.ts:121-134 | The entry has results iff the cache had them, and the cached items stay as a prefix. The pagination is the cached or the incoming one. |
| RelationsApi.MergeSearchAppends | packages/core/admin/admin/src/content-manager/services/relations.ts:121-134 | When both sides have results, the cached items stay as a prefix, followed by exactly the unseen incoming items. The incoming pagination is adopted, even an absent one. Otherwise nothing changes. |
| RelationsApi.MergeSearchExample | packages/core/admin/admin/src/content-manager/services/relations.ts:121-134 | `[A, B]` merged with page 2 `[B, C]` gives `[A, B, C]` with page 2's pagination. |
| RelationsApi.MergeSearchKeepsIdsDistinct | packages/core/admin/admin/src/content-manager/services/relations.ts:127-131 | Merged ids stay distinct when both sides' ids are. |
| RelationsApi.MergeSearchIdempotent | packages/core/admin/admin/src/content-manager/services/relations.ts:121-134 | Merging the same page a second time changes nothing. |
| RelationsApi.MergeSearchIdsUnion | packages/core/admin/admin/src/content-manager/services/relations.ts:127-131 | The merged ids are exactly the cached ids together with the incoming ids. |
| RelationsApi.RelationsCacheKey | packages/core/admin/admin/src/content-manager/services/relations.ts:42-50 | The key is a relations key. It records the endpoint name, model, id and target field, and nothing from `params`. |
| RelationsApi.SearchCacheKey | packages/core/admin/admin/src/content-manager/services/relations.ts:112-120 | The key is a search key. It records the endpoint name, model, target field and `params._q`, which is absent when there are no params. |
| RelationsApi.RelationsCacheKeyIgnoresParams | packages/core/admin/admin/src/content-manager/services/relations.ts:42-50 | Two `getRelations` queries share a cache entry iff they agree on model, id and target field. `params` plays no part. |
| RelationsApi.SearchCacheKeyIdentity | packages/core/admin/admin/src/content-manager/services/relations.ts:112-120 | Two `searchRelations` queries share a cache entry iff they agree on model, target field and `_q`. Page, page size and id play no part. |
| RelationsApi.ForceRefetch | packages/core/admin/admin/src/content-manager/services/relations.ts:76-85 | Identical arguments never refetch. A refetch needs params on some side. With params on some side, a change of page or of page size forces one. |
| RelationsApi.ForceRefetchCharacterized | packages/core/admin/admin/src/content-manager/services/relations.ts:76-85 | Refetch iff some side has params and page or page size differs. The decision is symmetric, and never true for identical arguments. |
| RelationsApi.SearchTermAloneNoRefetch | packages/core/admin/admin/src/content-manager/services/relations.ts:135-144 | Changing only the search term never forces a refetch. |
| RelationsApi.TransformResponse | packages/core/admin/admin/src/content-manager/services/relations.ts:86-95 | Results are returned in reverse order with pagination unchanged. A body without results is returned as it is. |
| RelationsApi.TransformResponseInvolution | packages/core/admin/admin/src/content-manager/services/relations.ts:145-154 | Transforming twice restores the body, and no record is lost or duplicated. |
| Permissions.ArePermissionsEqual | packages/core/admin/server/services/role.js:40-46 | Different actions never match. Equal permissions agree on subject, properties and conditions. The result is true iff the four comparable fields agree. |
| Permissions.ArePermissionsEqualCharacterized | packages/core/admin/server/services/role.js:30-46 | Different actions never match. Otherwise two permissions are equal iff they agree on subject, properties and conditions; id and role are ignored. |
| Permissions.ArePermissionsEqualIsEquivalence | packages/core/admin/server/services/role.js:40-46 | Permission equality is reflexive, symmetric and transitive. |
| Permissions.DifferenceWith | packages/core/admin/server/services/role.js:328-338 | `differenceWith(eq, a, b)` keeps exactly the elements of `a` that equal no element of `b`. |
| Permissions.DifferenceById | packages/core/admin/server/services/role.js:340 | `differenceBy('id', a, b)` keeps exactly the elements of `a` whose id is no id of `b`. |
| Permissions.WithRole | packages/core/admin/server/services/role.js:315-321 | Each permission, in order, with its role set to the given id. |
| Permissions.ReconciledCoversDesired | packages/core/admin/server/services/role.js:328-349 | After deletion by id and addition, every requested permission has an equal one. |
| Permissions.ReconciledOnlyDesired | packages/core/admin/server/services/role.js:328-349 | After the diff is applied, every remaining permission equals a requested one. |
| Permissions.ReturnedAsWritten | packages/core/admin/server/services/role.js:340-355 | As written, the returned list ends with the created permissions, and every other element is one of the permissions to delete. |
| Permissions.AssignedPermissions | packages/core/admin/server/services/role.js:340-355 | The corrected return value ends with the created permissions and is at most the existing plus the created ones. Its elements are exactly the created ones and the existing ones whose id no deleted permission has. |
| Permissions.ReturnedAsWrittenIsOnlyCreated | packages/core/admin/server/services/role.js:340-355 | As written, the returned list is only the newly created permissions. |
| Permissions.ReassignSameExample | packages/core/admin/server/services/role.js:328-355 | Re-assigning a role its own permission adds and deletes nothing. The value as written is empty; the corrected value lists the permission. |
| Permissions.DefaultPluginPermissions | packages/core/admin/server/services/role.js:273-284 | Five upload permissions with distinct actions. `is-creator` is present exactly on `upload.read` and `upload.assets.update`, and only for authors. |
| Permissions.AuthorContentTypePermissions | packages/core/admin/server/services/role.js:259-263 | There are at most as many author permissions as editor ones. None is publish, and each carries conditions `['admin::is-creator']`. |
| Permissions.AuthorContentTypePermissionsCharacterized | packages/core/admin/server/services/role.js:259-263 | Author permissions are exactly the non-publish editor permissions, each with conditions `['admin::is-creator']`. |
| Permissions.DefaultRolesDiffer | packages/core/admin/server/services/role.js:259-266 | The author role never gets publish. The plugin permissions appended for editors carry no condition. |
| Permissions.HasSuperAdminRole | packages/core/admin/server/services/role.js:415-419 | True iff one of the user's roles has the super-admin code. Missing roles count as none. |
| RoleService.CountMatching | packages/core/admin/server/services/role.js:145-148 | The count is positive iff some role matches every given field. |
| RoleService.AdminStore.Exists | packages/core/admin/server/services/role.js:145-148 | `exists` is true iff some stored role matches. |
| RoleService.FirstMatch | packages/core/admin/server/services/role.js:209 | The first matching role, or none when no role matches. |
| RoleService.SuperAdmin | packages/core/admin/server/services/role.js:209 | A stored role with the super-admin code, or none when no role has it. |
| RoleService.UsersCount | packages/core/admin/server/services/role.js:202-204 | The count is zero iff no user holds a role whose id prints as the given id. |
| RoleService.RoleCode | packages/core/admin/server/services/role.js:61-66 | The given code when it is non-empty, else the kebab-cased name, `-` and a timestamp code. |
| RoleService.AdminStore.Create | packages/core/admin/server/services/role.js:52-69 | A taken name gives `ValidationError` and writes nothing. Otherwise the role is appended with its code settled, and nothing else changes. |
| RoleService.UpdateKeepsCode | packages/core/admin/server/services/role.js:121-139 | An update never changes the code or id. It changes exactly the given name and description. |
| RoleService.UpdateNameClash | packages/core/admin/server/services/role.js:124-135 | The uniqueness test fails iff the query names an id, the change names a name, and another role already has that name. |
| RoleService.AdminStore.Update | packages/core/admin/server/services/role.js:121-139 | A clash gives `ValidationError` and writes nothing. Otherwise the first matching role gets the changes without `code`, or the result is `None` when no role matches. |
| RoleService.AdminStore.CheckRolesIdForDeletion | packages/core/admin/server/services/role.js:162-175 | Refuses with the super-admin error when the super-admin id is listed. Otherwise refuses with the still-assigned error exactly when some listed role has a user, and succeeds when none has. |
| RoleService.PermissionsNotOfRoles | packages/core/admin/server/services/role.js:184 | The permissions whose role is not among the listed ids. |
| RoleService.DeletedWereAsked | packages/core/admin/server/services/role.js:181-196 | Every deleted role was listed. |
| RoleService.DeleteInOrder | packages/core/admin/server/services/role.js:186-195 | At most one role is deleted per id. The deleted and the remaining roles together number as many as the stored ones. |
| RoleService.DeleteInOrderMoves | packages/core/admin/server/services/role.js:181-196 | The deleted roles and the remaining roles together are the original roles. |
| RoleService.DeleteInOrderLeavesNoneAsked | packages/core/admin/server/services/role.js:181-196 | With distinct role ids, no listed role remains, and the remaining ids stay distinct. |
| RoleService.DeleteInOrderComplete | packages/core/admin/server/services/role.js:181-196 | With distinct role ids, every listed role that exists is deleted. |
| RoleService.AdminStore.DeleteByIds | packages/core/admin/server/services/role.js:181-196 | Runs the deletion guard. Listing the super-admin id gives the super-admin error; otherwise a listed role with users gives the still-assigned error. Either refusal changes nothing. Otherwise it drops the listed roles' permissions, deletes the roles one id at a time, and returns those actually deleted, in id order. |
| RoleService.OfRole | packages/core/admin/server/services/role.js:323-326 | Exactly the stored permissions of the role. |
| RoleService.AdminStore.AssignPermissions | packages/core/admin/server/services/role.js:306-356 | Invalid permissions give an error and change nothing. Otherwise it deletes only when some permission goes, creates the missing ones with fresh ids, reports metrics only for a non-super-admin role with some change, and returns the role's permissions after the change (the corrected return value, see Findings). |
| RoleService.AssignedPermissionsCoverRequest | packages/core/admin/server/services/role.js:328-349 | Every requested permission has an equal one in the corrected return value. |
| RoleService.AssignedPermissionsWereRequested | packages/core/admin/server/services/role.js:328-349 | Everything in the corrected return value equals a requested permission. |

## Findings

| source | as written | input that shows it | evidently intended | confidence | as-written member | corrected member |
|---|---|---|---|---|---|---|
| packages/core/data-transfer/src/strapi/queries/entity.ts:55-57 | `.then(map(assignToEntity))` maps an `async` function. It yields an array of Promises that nothing awaits, and `omit(['id'])` of a Promise is `{}`. | `createMany({ data: [{ title: 'hello' }] })` on a type with a plain `title` sends `[{}]` to the database. | Each entity is stored as `create` would store it: components assigned, `id` stripped, same order. | not executed | EntityQuery.CreateManyAsWrittenSendsEmptyObjects | EntityQuery.CreateManyMatchesCreate |
| packages/core/admin/server/services/role.js:340 | `permissionsToReturn = differenceBy('id', permissionsToDelete, existingPermissions)`. The deleted permissions all are existing ones, so this is always `[]`. | Re-assigning a role the permission it already has returns `[]`. | The role's permissions after the change: existing minus deleted, then the created ones. | not executed | Permissions.ReturnedAsWrittenIsOnlyCreated | RoleService.AssignedPermissionsCoverRequest |

## Left out

- `_.get(data, targetField)` is modelled as a plain key lookup. Dotted paths are not modelled.
- `slugify`, `_.kebabCase`, `generateTimestampCode`, the components service (`createComponents`, `getComponents`, `deleteComponents`) and the database's answers are parameters. Their internal behaviour belongs to other libraries.
- The locale and draft-status filters of the UID queries are folded into the `scope` of stored values. Query building and `strapi.documents` are not modelled.
- Floating-point numbers and `NaN` in `Value`: the payloads are only moved around, never computed on.
- Object key order for integer-like keys: `Object.entries` lists those first in JavaScript. The model keeps insertion order.
- `Promise.all` in `deleteMany` and the `async` calls are treated as sequential. Concurrency plays no part in what these functions promise.
- EntityQuery.Store.CreateMany models the corrected `createMany` (each assignment awaited). The code as written is `EntityQuery.CreateManyDataAsWritten`; see Findings.
- `strapi.getModel(uid)` for the store's own uid is the `model` constant of `Store`. An unregistered uid is only modelled in the walker, as `MissingModel`.
- The walker is given fuel, the number of nested schema lookups it may make. Where the code recurses forever on a cyclic schema, the model returns `DepthExceeded`.
- RelationsApi.RelationsCache.Merge and RelationsApi.SearchCache.Merge assign a new sequence instead of pushing onto the cached array. Aliasing of that array by other holders is not modelled, nor is `reverse()` reversing the response array in place.
- The RTK Query plumbing (`injectEndpoints`, URL building, the request itself) is not modelled; it decides no cached value.
- `deepEqual(jsonClean(…))` is structural equality of the four comparable fields. `jsonClean` dropping `undefined` fields is covered because absent fields have their default values.
- `permissionDomain.create` normalisation and `sanitizeConditions` in `addPermissions` are not modelled. Permissions are stored as given, with the role id set.
- `validatePermissionsExist` is a boolean parameter `valid`. The permission registry it consults is not part of this model.
- RoleService.AdminStore.AssignPermissions returns the corrected value, the role's permissions after the change. The code as written returns only the created permissions (role.js:340); see Findings, where `Permissions.ReturnedAsWritten` models the code as written.
- RoleService.AdminStore.AssignPermissions takes `roleId` as a number. A string `roleId`, which `superAdmin.id === roleId` never equals, is not modelled.
- RoleService.UsersCount compares a user's role ids with the requested id by decimal form. The database's own coercion of other strings such as `"07"` is not modelled.
- The orchestration of `createRolesIfNoneExist` (creating the three roles, assigning the super admin to all users, storing permissions) is left out; only its permission derivation is modelled. It is a sequence of calls to operations modelled here.
- These wrappers over the store are not modelled: `findOne`, `find`, `findAllWithUsersCount`, `findOneWithUsersCount`, `count`, `getSuperAdminWithUsersCount`, `displayWarningIfNoSuperAdmin`, `resetSuperAdminPermissions` and `sanitizeRole`. Each only forwards to the store or logs, and none is among the modelled rules.
- Error messages are modelled as error kinds (`ValidationError`, `SuperAdminDeletion`, `RolesStillAssigned`, `InvalidPermissions`), without their texts.
