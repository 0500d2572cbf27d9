/** The component-aware entity queries of the data-transfer layer:
    `create`, `createMany` and `deleteMany` for one content type, and the
    payload filters they apply.

    The database and the entity-service components service are an abstract
    store (`Store`): what they answer is given by function fields, and every
    call made to them is appended to the store's `log`. */
module EntityQuery {
  import opened Common
  import opened PopulateQuery

  /** An entity payload or a query's parameters: a JSON object. */
  type Payload = map<string, Value>

  /** lodash/fp `omit(keys, data)` on a plain object. */
  function OmitKeys(keys: set<string>, data: Payload): (r: Payload)
    ensures forall k :: k in r <==> k in data && k !in keys
    ensures forall k :: k in r ==> r[k] == data[k]
  {
    map k | k in data && k !in keys :: data[k]
  }

  /** `sanitizeComponentLikeAttributes`: drop the keys that the model
      declares as a component or a dynamic zone; keep everything else. */
  function SanitizeComponentLikeAttributes(model: Schema, data: Payload): (r: Payload)
    ensures forall i :: 0 <= i < |model.attributes| && !model.attributes[i].1.Other? ==>
              model.attributes[i].0 !in r
    ensures forall k :: k in data && k !in ComponentLikeKeys(model.attributes) ==> k in r && r[k] == data[k]
    ensures forall k :: k in r ==> k in data && r[k] == data[k]
  {
    OmitKeys(ComponentLikeKeys(model.attributes), data)
  }

  /** `omitInvalidCreationAttributes`: the payload without its `id`. */
  function OmitInvalidCreationAttributes(data: Payload): (r: Payload)
    ensures "id" !in r
    ensures forall k :: k != "id" ==> (k in r <==> k in data)
    ensures forall k :: k in r ==> r[k] == data[k]
  {
    OmitKeys({"id"}, data)
  }

  /** `components.assignToEntity`: the components just created for the
      payload (`entityComponents`), overridden by the payload's own
      non-component fields (lodash/fp `assign`). */
  function AssignToEntity(model: Schema, data: Payload, entityComponents: Payload): (r: Payload)
    ensures forall k :: k in r <==> k in entityComponents || (k in data && k !in ComponentLikeKeys(model.attributes))
    ensures forall k :: k in r ==>
              r[k] == (if k in data && k !in ComponentLikeKeys(model.attributes) then data[k] else entityComponents[k])
  {
    entityComponents + SanitizeComponentLikeAttributes(model, data)
  }

  /** The `data` that `create` hands to the database for a payload. */
  function CreatePayload(model: Schema, data: Payload, entityComponents: Payload): Payload {
    OmitInvalidCreationAttributes(AssignToEntity(model, data, entityComponents))
  }

  /** What `create` stores: never an `id`; a plain field of the payload with
      its own value; a component-like field only as the components service
      created it. */
  lemma CreatePayloadContents(model: Schema, data: Payload, entityComponents: Payload)
    ensures var r := CreatePayload(model, data, entityComponents);
            var componentLike := ComponentLikeKeys(model.attributes);
            "id" !in r &&
            (forall k :: k in r <==> k != "id" && (k in entityComponents || (k in data && k !in componentLike))) &&
            (forall k :: k in r && k in data && k !in componentLike ==> r[k] == data[k]) &&
            (forall k :: k in r && k in componentLike ==> r[k] == entityComponents[k])
  {
  }

  /** Filtering commutes: removing component-like keys and removing `id`
      can happen in either order. */
  lemma {:induction false} OmitCommutes(model: Schema, data: Payload)
    ensures OmitInvalidCreationAttributes(SanitizeComponentLikeAttributes(model, data)) ==
            SanitizeComponentLikeAttributes(model, OmitInvalidCreationAttributes(data))
  {
    var a := OmitInvalidCreationAttributes(SanitizeComponentLikeAttributes(model, data));
    var b := SanitizeComponentLikeAttributes(model, OmitInvalidCreationAttributes(data));
    assert a.Keys == b.Keys;
  }

  // ---------------------------------------------------------------------
  // createMany as written

  /** An element of the list handed from one `.then` stage to the next: a
      plain object, or a Promise (what an `async` function returns). */
  datatype Element = Plain(fields: Payload) | Promise(resolvesTo: Payload)

  /** lodash `omit` copies the own and inherited enumerable properties of
      its argument; a Promise has none, so only an empty object is left. */
  function LodashOmit(keys: set<string>, e: Element): Payload {
    match e
    case Plain(fields) => OmitKeys(keys, fields)
    case Promise(_) => map[]
  }

  /** The `data` the database receives from `createMany` as written: the
      first stage maps the `async` `assignToEntity` over the list, giving
      Promises that nothing awaits, and the second stage strips `id` from
      each Promise. */
  function CreateManyDataAsWritten(model: Schema, data: seq<Payload>, createComponents: Payload -> Payload)
    : (r: seq<Payload>)
    ensures |r| == |data|
  {
    var staged := seq(|data|, i requires 0 <= i < |data| =>
                              Promise(AssignToEntity(model, data[i], createComponents(data[i]))));
    seq(|staged|, i requires 0 <= i < |staged| => LodashOmit({"id"}, staged[i]))
  }

  /** Every entity reaches the database empty, whatever the payloads. */
  lemma CreateManyAsWrittenSendsEmptyObjects(model: Schema, data: seq<Payload>,
                                             createComponents: Payload -> Payload)
    ensures forall i :: 0 <= i < |data| ==> CreateManyDataAsWritten(model, data, createComponents)[i] == map[]
  {
  }

  /** The `data` the database receives from `createMany` once each
      assignment is awaited: what `create` would store, for each element,
      in the same order. */
  function CreateManyData(model: Schema, data: seq<Payload>, createComponents: Payload -> Payload)
    : (r: seq<Payload>)
    ensures |r| == |data|
  {
    var staged := seq(|data|, i requires 0 <= i < |data| =>
                              Plain(AssignToEntity(model, data[i], createComponents(data[i]))));
    seq(|staged|, i requires 0 <= i < |staged| => LodashOmit({"id"}, staged[i]))
  }

  lemma CreateManyMatchesCreate(model: Schema, data: seq<Payload>, createComponents: Payload -> Payload)
    ensures forall i :: 0 <= i < |data| ==>
              CreateManyData(model, data, createComponents)[i] == CreatePayload(model, data[i], createComponents(data[i]))
  {
  }

  /** A one-entity batch with a plain title: `create` would store the
      title, `createMany` as written stores an empty entity. */
  lemma CreateManyAsWrittenLosesFields()
    ensures var model := Schema([("title", Other("string"))]);
            var data := map["title" := Text("hello")];
            var none := (d: Payload) => map[];
            CreatePayload(model, data, none(data)) == data &&
            CreateManyDataAsWritten(model, [data], none) == [map[]] &&
            CreateManyData(model, [data], none) == [data]
  {
    var model := Schema([("title", Other("string"))]);
    var data := map["title" := Text("hello")];
    assert ComponentLikeKeys(model.attributes) == {};
    assert CreatePayload(model, data, map[]).Keys == data.Keys;
  }

  // ---------------------------------------------------------------------
  // The store and its calls

  datatype Call =
    | CreateComponents(uid: Uid, data: Payload)
    | DbCreate(uid: Uid, request: Payload)
    | DbCreateMany(uid: Uid, request: Payload)
    | DbFindMany(uid: Uid, query: Payload)
    | GetComponents(uid: Uid, entity: Payload)
    | DbDeleteMany(uid: Uid, params: Option<Payload>)
    | DeleteComponents(uid: Uid, components: Payload, loadComponents: bool)

  function Objects(items: seq<Payload>): (r: seq<Value>)
    ensures |r| == |items| && forall i :: 0 <= i < |r| ==> r[i] == Object(items[i])
  {
    seq(|items|, i requires 0 <= i < |items| => Object(items[i]))
  }

  /** One `getComponents` call per matched entity, in order. */
  function Fetches(uid: Uid, found: seq<Payload>): (r: seq<Call>)
    ensures |r| == |found| && forall i :: 0 <= i < |found| ==> r[i] == GetComponents(uid, found[i])
  {
    seq(|found|, i requires 0 <= i < |found| => GetComponents(uid, found[i]))
  }

  /** The components loaded for each matched entity. */
  function ComponentsOf(found: seq<Payload>, getComponents: Payload -> Payload): (r: seq<Payload>)
    ensures |r| == |found| && forall i :: 0 <= i < |found| ==> r[i] == getComponents(found[i])
  {
    seq(|found|, i requires 0 <= i < |found| => getComponents(found[i]))
  }

  /** One `deleteComponents` call per loaded component set, in order,
      without reloading. */
  function Deletions(uid: Uid, components: seq<Payload>): (r: seq<Call>)
    ensures |r| == |components| &&
            forall i :: 0 <= i < |components| ==> r[i] == DeleteComponents(uid, components[i], false)
  {
    seq(|components|, i requires 0 <= i < |components| => DeleteComponents(uid, components[i], false))
  }

  /** The calls `deleteMany(params)` makes when `findMany` answers `found`
      and `getComponents` gives each entity's components. */
  function DeleteManyCalls(uid: Uid, params: Option<Payload>, found: seq<Payload>,
                           getComponents: Payload -> Payload): seq<Call>
  {
    [DbFindMany(uid, params.GetOr(map[]))] +
    if |found| == 0 then []
    else Fetches(uid, found) + [DbDeleteMany(uid, params)] + Deletions(uid, ComponentsOf(found, getComponents))
  }

  /** The call log of `deleteMany` as its calls are appended one after
      another. */
  lemma DeleteManyLog(before: seq<Call>, uid: Uid, params: Option<Payload>, found: seq<Payload>,
                      getComponents: Payload -> Payload)
    ensures before + DeleteManyCalls(uid, params, found, getComponents) ==
            if |found| == 0 then before + [DbFindMany(uid, params.GetOr(map[]))]
            else before + [DbFindMany(uid, params.GetOr(map[]))] + Fetches(uid, found) +
                 [DbDeleteMany(uid, params)] + Deletions(uid, ComponentsOf(found, getComponents))
  {
  }

  /** Nothing matched: a single lookup (with `{}` for absent parameters)
      and no deletion at all. */
  lemma DeleteManyNothingFound(uid: Uid, params: Option<Payload>, getComponents: Payload -> Payload)
    ensures var calls := DeleteManyCalls(uid, params, [], getComponents);
            calls == [DbFindMany(uid, params.GetOr(map[]))] &&
            forall c :: c in calls ==> !c.DbDeleteMany? && !c.DeleteComponents?
  {
  }

  /** Something matched: every entity's components are fetched before any
      deletion; the entity deletion gets the parameters as given (absent
      stays absent); then one component set is deleted per matched entity,
      in order, without reloading. */
  lemma {:induction false} DeleteManyOrder(uid: Uid, params: Option<Payload>, found: seq<Payload>,
                                           getComponents: Payload -> Payload)
    requires |found| > 0
    ensures var calls := DeleteManyCalls(uid, params, found, getComponents);
            |calls| == 2 * |found| + 2 &&
            (forall i, j :: (0 <= i < |calls| && 0 <= j < |calls| && calls[i].GetComponents? &&
                             (calls[j].DbDeleteMany? || calls[j].DeleteComponents?)) ==> i < j) &&
            (forall e :: e in found ==> GetComponents(uid, e) in calls) &&
            (forall j :: 0 <= j < |calls| && calls[j].DbDeleteMany? ==> calls[j] == DbDeleteMany(uid, params)) &&
            (forall i :: 0 <= i < |found| ==>
               calls[|found| + 2 + i] == DeleteComponents(uid, getComponents(found[i]), false)) &&
            (forall j :: 0 <= j < |calls| && calls[j].DeleteComponents? ==> j >= |found| + 2)
  {
    var calls := DeleteManyCalls(uid, params, found, getComponents);
    DeleteManyLayout(uid, params, found, getComponents);
    DeleteManyKinds(uid, params, found, getComponents);
    forall e | e in found ensures GetComponents(uid, e) in calls {
      var i :| 0 <= i < |found| && found[i] == e;
      assert calls[i + 1] == GetComponents(uid, e);
    }
  }

  /** Which kind of call each position of a non-empty deletion's log holds. */
  lemma DeleteManyKinds(uid: Uid, params: Option<Payload>, found: seq<Payload>,
                        getComponents: Payload -> Payload)
    requires |found| > 0
    ensures var calls := DeleteManyCalls(uid, params, found, getComponents);
            var n := |found|;
            forall j :: 0 <= j < |calls| ==>
              (calls[j].GetComponents? ==> 1 <= j <= n) &&
              (calls[j].DbDeleteMany? ==> j == n + 1) &&
              (calls[j].DeleteComponents? ==> j >= n + 2)
  {
    var calls := DeleteManyCalls(uid, params, found, getComponents);
    var n := |found|;
    DeleteManyLayout(uid, params, found, getComponents);
    forall j | 0 <= j < |calls|
      ensures (calls[j].GetComponents? ==> 1 <= j <= n) &&
              (calls[j].DbDeleteMany? ==> j == n + 1) &&
              (calls[j].DeleteComponents? ==> j >= n + 2)
    {
      if j == 0 {
      } else if j <= n {
        assert calls[j] == GetComponents(uid, found[j - 1]);
      } else if j == n + 1 {
      } else {
        assert calls[j] == DeleteComponents(uid, getComponents(found[j - n - 2]), false);
      }
    }
  }

  /** Where each call of a non-empty deletion sits in the log. */
  lemma DeleteManyLayout(uid: Uid, params: Option<Payload>, found: seq<Payload>,
                         getComponents: Payload -> Payload)
    requires |found| > 0
    ensures var calls := DeleteManyCalls(uid, params, found, getComponents);
            var n := |found|;
            |calls| == 2 * n + 2 &&
            calls[0] == DbFindMany(uid, params.GetOr(map[])) &&
            (forall j :: 1 <= j <= n ==> calls[j] == GetComponents(uid, found[j - 1])) &&
            calls[n + 1] == DbDeleteMany(uid, params) &&
            (forall j :: n + 2 <= j < 2 * n + 2 ==>
               calls[j] == DeleteComponents(uid, getComponents(found[j - n - 2]), false))
  {
    var n := |found|;
    var fetches := Fetches(uid, found);
    var deletions := Deletions(uid, ComponentsOf(found, getComponents));
    var calls := DeleteManyCalls(uid, params, found, getComponents);
    assert calls == [DbFindMany(uid, params.GetOr(map[]))] + fetches + [DbDeleteMany(uid, params)] + deletions;
  }

  /** The database and the components service behind one content type's
      queries (`query(uid)`). */
  class Store {
    const uid: Uid
    /** `strapi.getModel(uid)` */
    const model: Schema
    /** What `componentsService.createComponents(uid, data)` creates. */
    const createComponents: Payload -> Payload
    /** What `componentsService.getComponents(uid, entity)` finds. */
    const getComponents: Payload -> Payload
    /** What `strapi.db.query(uid).findMany(query)` answers. */
    const findMany: Payload -> seq<Payload>
    /** What the database answers to a create, createMany or deleteMany call. */
    const reply: Call -> Value
    /** Every call made so far, oldest first. */
    var log: seq<Call>

    constructor(uid: Uid, model: Schema, createComponents: Payload -> Payload, getComponents: Payload -> Payload,
                findMany: Payload -> seq<Payload>, reply: Call -> Value)
      ensures this.uid == uid && this.model == model
      ensures this.createComponents == createComponents && this.getComponents == getComponents
      ensures this.findMany == findMany && this.reply == reply
      ensures log == []
    {
      this.uid := uid;
      this.model := model;
      this.createComponents := createComponents;
      this.getComponents := getComponents;
      this.findMany := findMany;
      this.reply := reply;
      log := [];
    }

    /** `create(params)`, with `params` split into its `data` and the rest:
        create the components, then the entity from the filtered payload. */
    method Create(rest: Payload, data: Payload) returns (r: Value)
      modifies this
      ensures var request := rest["data" := Object(CreatePayload(model, data, createComponents(data)))];
              log == old(log) + [CreateComponents(uid, data), DbCreate(uid, request)] &&
              r == reply(DbCreate(uid, request))
    {
      log := log + [CreateComponents(uid, data)];
      var dataWithComponents := AssignToEntity(model, data, createComponents(data));
      var sanitizedData := OmitInvalidCreationAttributes(dataWithComponents);
      var request := rest["data" := Object(sanitizedData)];
      log := log + [DbCreate(uid, request)];
      r := reply(DbCreate(uid, request));
    }

    /** `createMany(params)` with each assignment awaited: components for
        every entity, in order, then one database call with the filtered
        payloads in the same order. */
    method CreateMany(rest: Payload, data: seq<Payload>) returns (r: Value)
      modifies this
      ensures var request := rest["data" := Array(Objects(CreateManyData(model, data, createComponents)))];
              log == old(log) + seq(|data|, i requires 0 <= i < |data| => CreateComponents(uid, data[i])) +
                                [DbCreateMany(uid, request)] &&
              r == reply(DbCreateMany(uid, request))
    {
      var componentCalls := seq(|data|, i requires 0 <= i < |data| => CreateComponents(uid, data[i]));
      log := log + componentCalls;
      var request := rest["data" := Array(Objects(CreateManyData(model, data, createComponents)))];
      log := log + [DbCreateMany(uid, request)];
      r := reply(DbCreateMany(uid, request));
    }

    /** `deleteMany(params)`: `null` when nothing matches, else the
        database's answer to the deletion. */
    method DeleteMany(params: Option<Payload>) returns (r: Value)
      modifies this
      ensures var found := findMany(params.GetOr(map[]));
              log == old(log) + DeleteManyCalls(uid, params, found, getComponents) &&
              r == (if |found| == 0 then Null else reply(DbDeleteMany(uid, params)))
    {
      DeleteManyLog(log, uid, params, findMany(params.GetOr(map[])), getComponents);
      var query := params.GetOr(map[]);
      log := log + [DbFindMany(uid, query)];
      var entitiesToDelete := findMany(query);
      if |entitiesToDelete| == 0 {
        return Null;
      }
      log := log + Fetches(uid, entitiesToDelete);
      var componentsToDelete := ComponentsOf(entitiesToDelete, getComponents);
      log := log + [DbDeleteMany(uid, params)];
      var deletedEntities := reply(DbDeleteMany(uid, params));
      log := log + Deletions(uid, componentsToDelete);
      r := deletedEntities;
    }
  }
}
