/** `getDeepPopulateComponentLikeQuery` of the data-transfer entity queries:
    walk a content type's attributes and build the populate tree that loads
    its components and dynamic zones, recursively.

    The schema registry (`strapi.getModel`) is a map from UID to schema. The
    walker has no cycle guard; the model gives it `fuel`, the number of
    nested schema lookups it may make, and reports `DepthExceeded` where the
    source would recurse until the stack overflows. */
module PopulateQuery {
  import opened Common

  type Uid = string

  /** An attribute's declaration, as far as the walker looks at it. */
  datatype Attribute =
    | Component(component: Uid)
    | DynamicZone(components: seq<Uid>)
    | Other(kind: string)

  /** A content type or component schema: its attributes in declaration
      order (`Object.entries(attributes)`). */
  datatype Schema = Schema(attributes: seq<(string, Attribute)>)

  type Registry = map<Uid, Schema>

  /** The fetch parameters repeated at every level (default `{ select: '*' }`). */
  type Params = map<string, Value>

  /** A JavaScript object built by assignment: its keys in insertion order
      and the value under each key. */
  datatype Obj = Obj(keys: seq<string>, values: map<string, Entry>)

  /** The walker's result: a plain key list, or a populate object. */
  datatype Populate = Keys(names: seq<string>) | Tree(entries: Obj)

  /** One populate entry: `true`; `{ ...params }` or
      `{ ...params, populate: sub }`; or `{ on }` for a dynamic zone. */
  datatype Entry =
    | All
    | Nested(params: Params, populate: Option<Populate>)
    | On(on: Obj)

  datatype WalkError = MissingModel(uid: Uid) | DepthExceeded

  ghost predicate WellFormed(o: Obj) {
    Distinct(o.keys) && forall k :: k in o.values <==> k in o.keys
  }

  /** `obj[key] = value`: a new key goes last, an existing one keeps its place. */
  function Put(o: Obj, key: string, value: Entry): (r: Obj)
    requires WellFormed(o)
    ensures WellFormed(r)
    ensures r.values == o.values[key := value]
    ensures key in o.values ==> r.keys == o.keys
    ensures key !in o.values ==> r.keys == o.keys + [key]
  {
    if key in o.values then Obj(o.keys, o.values[key := value])
    else Obj(o.keys + [key], o.values[key := value])
  }

  const Empty := Obj([], map[])

  /** `size(x)` of a key list or of an object. */
  function Size(p: Populate): nat {
    match p
    case Keys(names) => |names|
    case Tree(entries) => |entries.keys|
  }

  /** `values.every((value) => value === true) ? Object.keys(populate) : populate` */
  function Collapse(populate: Obj): Populate {
    if forall k :: k in populate.values ==> populate.values[k] == All then Keys(populate.keys)
    else Tree(populate)
  }

  /** The two guarded assignments made for a component (and for each
      component of a dynamic zone) once its sub-populate is known. */
  function Place(o: Obj, key: string, params: Params, sub: Populate): (r: Obj)
    requires WellFormed(o)
    ensures WellFormed(r)
  {
    var withSub := if Size(sub) > 0 then Put(o, key, Nested(params, Some(sub))) else o;
    if sub.Keys? && |sub.names| == 0 then Put(withSub, key, Nested(params, None)) else withSub
  }

  // ---------------------------------------------------------------------
  // The walk, as functions (fuel bounds the nesting of schema lookups)

  /** `getDeepPopulateComponentLikeQuery` on a content type. A successful
      walk never yields an empty object: an object with no entries has only
      `true` values and collapses to a key list. */
  function Walk(reg: Registry, contentType: Schema, params: Params, fuel: nat): (r: Result<Populate, WalkError>)
    ensures r.Ok? ==> Size(r.value) > 0 || r.value == Keys([])
    decreases fuel, 4, 0
  {
    match WalkAttributes(reg, contentType.attributes, params, fuel)
    case Err(e) => Err(e)
    case Ok(populate) =>
      assert populate.keys == [] ==> forall k :: k !in populate.values;
      Ok(Collapse(populate))
  }

  /** `strapi.getModel(uid)` followed by the recursive call. */
  function SubPopulate(reg: Registry, uid: Uid, params: Params, fuel: nat): (r: Result<Populate, WalkError>)
    ensures r.Ok? ==> Size(r.value) > 0 || r.value == Keys([])
    decreases fuel, 0, 0
  {
    if uid !in reg then Err(MissingModel(uid))
    else if fuel == 0 then Err(DepthExceeded)
    else Walk(reg, reg[uid], params, fuel - 1)
  }

  /** The populate object after the loop has handled `attrs` (a prefix of
      the attributes). */
  function WalkAttributes(reg: Registry, attrs: seq<(string, Attribute)>, params: Params, fuel: nat)
    : (r: Result<Obj, WalkError>)
    ensures r.Ok? ==> WellFormed(r.value)
    decreases fuel, 3, |attrs|
  {
    if |attrs| == 0 then Ok(Empty)
    else
      match WalkAttributes(reg, attrs[..|attrs| - 1], params, fuel)
      case Err(e) => Err(e)
      case Ok(populate) => Step(reg, populate, attrs[|attrs| - 1], params, fuel)
  }

  /** One iteration of the attribute loop. */
  function Step(reg: Registry, populate: Obj, entry: (string, Attribute), params: Params, fuel: nat)
    : (r: Result<Obj, WalkError>)
    requires WellFormed(populate)
    ensures r.Ok? ==> WellFormed(r.value)
    decreases fuel, 2, 0
  {
    var (key, attribute) := entry;
    match attribute
    case Component(uid) =>
      (match SubPopulate(reg, uid, params, fuel)
       case Err(e) => Err(e)
       case Ok(sub) => Ok(Place(populate, key, params, sub)))
    case DynamicZone(uids) =>
      (match WalkOn(reg, uids, params, fuel)
       case Err(e) => Err(e)
       case Ok(on) => Ok(Put(populate, key, if |on.keys| > 0 then On(on) else All)))
    case Other(_) => Ok(populate)
  }

  /** The `on` object after the inner loop has handled `uids` (a prefix of
      the dynamic zone's components). */
  function WalkOn(reg: Registry, uids: seq<Uid>, params: Params, fuel: nat): (r: Result<Obj, WalkError>)
    ensures r.Ok? ==> WellFormed(r.value)
    decreases fuel, 1, |uids|
  {
    if |uids| == 0 then Ok(Empty)
    else
      match WalkOn(reg, uids[..|uids| - 1], params, fuel)
      case Err(e) => Err(e)
      case Ok(on) =>
        var uid := uids[|uids| - 1];
        match SubPopulate(reg, uid, params, fuel)
        case Err(e) => Err(e)
        case Ok(sub) => Ok(Place(on, uid, params, sub))
  }

  // ---------------------------------------------------------------------
  // The walk, as the source runs it: loops filling the objects in place

  /** `getDeepPopulateComponentLikeQuery(contentType, params)`. */
  method DeepPopulate(reg: Registry, contentType: Schema, params: Params, fuel: nat)
    returns (r: Result<Populate, WalkError>)
    ensures r == Walk(reg, contentType, params, fuel)
    decreases fuel, 2
  {
    var populate := Empty;
    var entries := contentType.attributes;
    for i := 0 to |entries|
      invariant WalkAttributes(reg, entries[..i], params, fuel) == Ok(populate)
    {
      assert entries[..i + 1][..i] == entries[..i];
      ghost var before := populate;
      var (key, attribute) := entries[i];
      if attribute.Component? {
        var subPopulate := GetSubPopulate(reg, attribute.component, params, fuel);
        if subPopulate.Err? {
          assert Step(reg, before, entries[i], params, fuel) == Err(subPopulate.error);
          assert WalkAttributes(reg, entries[..i + 1], params, fuel) == Err(subPopulate.error);
          WalkAttributesErrSticky(reg, entries, i + 1, params, fuel);
          assert entries[..|entries|] == entries;
          return Err(subPopulate.error);
        }
        populate := AssignSubPopulate(populate, key, params, subPopulate.value);
      }
      if attribute.DynamicZone? {
        var on := DynamicZoneOn(reg, attribute.components, params, fuel);
        if on.Err? {
          assert Step(reg, before, entries[i], params, fuel) == Err(on.error);
          assert WalkAttributes(reg, entries[..i + 1], params, fuel) == Err(on.error);
          WalkAttributesErrSticky(reg, entries, i + 1, params, fuel);
          assert entries[..|entries|] == entries;
          return Err(on.error);
        }
        populate := Put(populate, key, if |on.value.keys| > 0 then On(on.value) else All);
      }
      assert Step(reg, before, entries[i], params, fuel) == Ok(populate);
    }
    assert entries[..|entries|] == entries;
    r := Ok(Collapse(populate));
  }

  /** The two guarded assignments of `{ ...params, populate }` and
      `{ ...params }` under `key`. */
  method AssignSubPopulate(o: Obj, key: string, params: Params, sub: Populate) returns (r: Obj)
    requires WellFormed(o)
    ensures r == Place(o, key, params, sub)
  {
    r := o;
    if Size(sub) > 0 {
      r := Put(r, key, Nested(params, Some(sub)));
    }
    if sub.Keys? && |sub.names| == 0 {
      r := Put(r, key, Nested(params, None));
    }
  }

  /** The inner loop over a dynamic zone's components, filling `on`. */
  method DynamicZoneOn(reg: Registry, componentsUid: seq<Uid>, params: Params, fuel: nat)
    returns (r: Result<Obj, WalkError>)
    ensures r == WalkOn(reg, componentsUid, params, fuel)
    decreases fuel, 1
  {
    var on := Empty;
    for j := 0 to |componentsUid|
      invariant WalkOn(reg, componentsUid[..j], params, fuel) == Ok(on)
    {
      assert componentsUid[..j + 1][..j] == componentsUid[..j];
      var componentUid := componentsUid[j];
      var subPopulate := GetSubPopulate(reg, componentUid, params, fuel);
      if subPopulate.Err? {
        WalkOnErrSticky(reg, componentsUid, j + 1, params, fuel);
        assert componentsUid[..|componentsUid|] == componentsUid;
        return Err(subPopulate.error);
      }
      on := AssignSubPopulate(on, componentUid, params, subPopulate.value);
    }
    assert componentsUid[..|componentsUid|] == componentsUid;
    r := Ok(on);
  }

  /** The parameters used when none are given: `{ select: '*' }`. */
  const DefaultParams: Params := map["select" := Text("*")]

  /** The `deepPopulateComponentLikeQuery` getter of `query(uid)`: the walk
      from the content type's own schema with the default parameters; an
      unregistered UID fails before the walk starts. */
  method DeepPopulateComponentLikeQuery(reg: Registry, uid: Uid, fuel: nat) returns (r: Result<Populate, WalkError>)
    ensures uid !in reg ==> r == Err(MissingModel(uid))
    ensures uid in reg ==> r == Walk(reg, reg[uid], DefaultParams, fuel)
  {
    if uid !in reg {
      return Err(MissingModel(uid));
    }
    r := DeepPopulate(reg, reg[uid], DefaultParams, fuel);
  }

  /** `strapi.getModel(uid)` and the recursive call on the component. */
  method GetSubPopulate(reg: Registry, uid: Uid, params: Params, fuel: nat)
    returns (r: Result<Populate, WalkError>)
    ensures r == SubPopulate(reg, uid, params, fuel)
    decreases fuel, 0
  {
    if uid !in reg {
      return Err(MissingModel(uid));
    }
    if fuel == 0 {
      return Err(DepthExceeded);
    }
    r := DeepPopulate(reg, reg[uid], params, fuel - 1);
  }

  /** A failure part-way through the attributes is the walk's result. */
  lemma {:induction false} WalkAttributesErrSticky(reg: Registry, attrs: seq<(string, Attribute)>, n: nat,
                                                   params: Params, fuel: nat)
    requires n <= |attrs| && WalkAttributes(reg, attrs[..n], params, fuel).Err?
    ensures WalkAttributes(reg, attrs, params, fuel) == WalkAttributes(reg, attrs[..n], params, fuel)
    decreases |attrs| - n
  {
    if n < |attrs| {
      assert attrs[..n + 1][..n] == attrs[..n];
      WalkAttributesErrSticky(reg, attrs, n + 1, params, fuel);
    } else {
      assert attrs[..n] == attrs;
    }
  }

  lemma {:induction false} WalkOnErrSticky(reg: Registry, uids: seq<Uid>, n: nat, params: Params, fuel: nat)
    requires n <= |uids| && WalkOn(reg, uids[..n], params, fuel).Err?
    ensures WalkOn(reg, uids, params, fuel) == WalkOn(reg, uids[..n], params, fuel)
    decreases |uids| - n
  {
    if n < |uids| {
      assert uids[..n + 1][..n] == uids[..n];
      WalkOnErrSticky(reg, uids, n + 1, params, fuel);
    } else {
      assert uids[..n] == uids;
    }
  }

  // ---------------------------------------------------------------------
  // Properties of the walk

  /** What a component (or a dynamic-zone member) contributes for its
      sub-result: `{ ...params }` for an empty key list, else
      `{ ...params, populate: sub }`. */
  function EntryFor(params: Params, sub: Populate): Entry {
    if sub == Keys([]) then Nested(params, None) else Nested(params, Some(sub))
  }

  /** Because of that, the two guarded assignments always assign: the
      entry is exactly `EntryFor(params, sub)`, never left out, never `true`. */
  lemma PlaceAssigns(o: Obj, key: string, params: Params, sub: Populate)
    requires WellFormed(o)
    requires Size(sub) > 0 || sub == Keys([])
    ensures Place(o, key, params, sub) == Put(o, key, EntryFor(params, sub))
  {
  }

  /** The keys of the component and dynamic-zone attributes. */
  function ComponentLikeKeys(attrs: seq<(string, Attribute)>): set<string> {
    set i | 0 <= i < |attrs| && !attrs[i].1.Other? :: attrs[i].0
  }

  lemma ComponentLikeKeysSnoc(attrs: seq<(string, Attribute)>, last: (string, Attribute))
    ensures ComponentLikeKeys(attrs + [last]) ==
            ComponentLikeKeys(attrs) + (if last.1.Other? then {} else {last.0})
  {
    var whole := attrs + [last];
    forall k | k in ComponentLikeKeys(whole)
      ensures k in ComponentLikeKeys(attrs) + (if last.1.Other? then {} else {last.0})
    {
      var i :| 0 <= i < |whole| && !whole[i].1.Other? && whole[i].0 == k;
      if i < |attrs| {
        assert attrs[i] == whole[i];
      }
    }
    forall k | k in ComponentLikeKeys(attrs) ensures k in ComponentLikeKeys(whole) {
      var i :| 0 <= i < |attrs| && !attrs[i].1.Other? && attrs[i].0 == k;
      assert whole[i] == attrs[i];
    }
    if !last.1.Other? {
      assert whole[|attrs|] == last;
    }
  }

  /** Schema attribute names are object keys, hence distinct. */
  predicate DistinctKeys(attrs: seq<(string, Attribute)>) {
    forall i, j :: 0 <= i < j < |attrs| ==> attrs[i].0 != attrs[j].0
  }

  /** The `on` object has an entry for each listed component UID and no
      other, and each entry is what that component's own walk calls for. */
  ghost predicate OnAsListed(reg: Registry, on: Obj, uids: seq<Uid>, params: Params, fuel: nat) {
    (forall u :: u in on.values <==> u in uids) &&
    forall j :: 0 <= j < |uids| ==>
      SubPopulate(reg, uids[j], params, fuel).Ok? && uids[j] in on.values &&
      on.values[uids[j]] == EntryFor(params, SubPopulate(reg, uids[j], params, fuel).value)
  }

  /** The entry the walk leaves under an attribute's key: for a component,
      `EntryFor` its sub-result (so never `true`); for a dynamic zone, `true`
      when it lists no component and `{ on }` as listed otherwise; for any
      other attribute, none. */
  ghost predicate EntryAsDeclared(reg: Registry, populate: Obj, key: string, attribute: Attribute,
                                  params: Params, fuel: nat) {
    match attribute
    case Component(uid) =>
      SubPopulate(reg, uid, params, fuel).Ok? && key in populate.values &&
      populate.values[key] == EntryFor(params, SubPopulate(reg, uid, params, fuel).value)
    case DynamicZone(uids) =>
      key in populate.values &&
      if |uids| == 0 then populate.values[key] == All
      else populate.values[key].On? && OnAsListed(reg, populate.values[key].on, uids, params, fuel)
    case Other(_) => key !in populate.values
  }

  lemma {:induction false} WalkOnEntries(reg: Registry, uids: seq<Uid>, params: Params, fuel: nat)
    requires WalkOn(reg, uids, params, fuel).Ok?
    ensures OnAsListed(reg, WalkOn(reg, uids, params, fuel).value, uids, params, fuel)
    decreases |uids|
  {
    if |uids| > 0 {
      var init := uids[..|uids| - 1];
      var uid := uids[|uids| - 1];
      assert uids == init + [uid];
      WalkOnEntries(reg, init, params, fuel);
      var before := WalkOn(reg, init, params, fuel).value;
      var after := WalkOn(reg, uids, params, fuel).value;
      var sub := SubPopulate(reg, uid, params, fuel).value;
      PlaceAssigns(before, uid, params, sub);
      assert after.values == before.values[uid := EntryFor(params, sub)];
      forall j | 0 <= j < |uids|
        ensures SubPopulate(reg, uids[j], params, fuel).Ok? && uids[j] in after.values &&
                after.values[uids[j]] == EntryFor(params, SubPopulate(reg, uids[j], params, fuel).value)
      {
        if j < |uids| - 1 {
          assert uids[j] == init[j];
        }
      }
    }
  }

  /** An entry stays as declared when the object changes only elsewhere. */
  lemma EntryAsDeclaredFrame(reg: Registry, before: Obj, after: Obj, key: string, attribute: Attribute,
                             params: Params, fuel: nat)
    requires EntryAsDeclared(reg, before, key, attribute, params, fuel)
    requires key in before.values <==> key in after.values
    requires key in before.values ==> after.values[key] == before.values[key]
    ensures EntryAsDeclared(reg, after, key, attribute, params, fuel)
  {
  }

  /** One iteration of the attribute loop sets the entry of its own key as
      declared and leaves every other key alone. */
  lemma StepEntry(reg: Registry, before: Obj, last: (string, Attribute), params: Params, fuel: nat)
    requires WellFormed(before)
    requires Step(reg, before, last, params, fuel).Ok?
    requires last.1.Other? ==> last.0 !in before.values
    ensures var after := Step(reg, before, last, params, fuel).value;
            EntryAsDeclared(reg, after, last.0, last.1, params, fuel) &&
            (forall k :: k in after.values <==> k in before.values || (!last.1.Other? && k == last.0)) &&
            (forall k :: k != last.0 && k in before.values ==> after.values[k] == before.values[k])
  {
    match last.1
    case Component(uid) =>
      PlaceAssigns(before, last.0, params, SubPopulate(reg, uid, params, fuel).value);
    case DynamicZone(uids) =>
      var on := WalkOn(reg, uids, params, fuel).value;
      WalkOnEntries(reg, uids, params, fuel);
      if |uids| > 0 {
        assert uids[0] in on.values;
      }
    case Other(_) =>
  }

  /** After the attribute loop the populate object holds exactly the
      component and dynamic-zone keys, each with the entry its declaration
      calls for, whatever the order of the attributes. */
  lemma {:induction false} PopulateEntries(reg: Registry, attrs: seq<(string, Attribute)>,
                                           params: Params, fuel: nat)
    requires DistinctKeys(attrs)
    requires WalkAttributes(reg, attrs, params, fuel).Ok?
    ensures var populate := WalkAttributes(reg, attrs, params, fuel).value;
            (forall k :: k in populate.values <==> k in ComponentLikeKeys(attrs)) &&
            forall i :: 0 <= i < |attrs| ==> EntryAsDeclared(reg, populate, attrs[i].0, attrs[i].1, params, fuel)
    decreases |attrs|
  {
    if |attrs| > 0 {
      var init := attrs[..|attrs| - 1];
      var last := attrs[|attrs| - 1];
      assert attrs == init + [last];
      PopulateEntries(reg, init, params, fuel);
      ComponentLikeKeysSnoc(init, last);
      var before := WalkAttributes(reg, init, params, fuel).value;
      var after := WalkAttributes(reg, attrs, params, fuel).value;
      assert Step(reg, before, last, params, fuel) == Ok(after);
      forall i | 0 <= i < |init| ensures init[i].0 != last.0 {
        assert init[i] == attrs[i];
      }
      StepEntry(reg, before, last, params, fuel);
      forall i | 0 <= i < |attrs| - 1
        ensures EntryAsDeclared(reg, after, attrs[i].0, attrs[i].1, params, fuel)
      {
        assert attrs[i] == init[i];
        assert attrs[i].0 != last.0;
        EntryAsDeclaredFrame(reg, before, after, attrs[i].0, attrs[i].1, params, fuel);
      }
    }
  }

  /** With no component and no dynamic-zone attribute the result is the
      empty key list. */
  lemma {:induction false} NoComponentsGivesEmptyKeys(reg: Registry, contentType: Schema, params: Params, fuel: nat)
    requires forall i :: 0 <= i < |contentType.attributes| ==> contentType.attributes[i].1.Other?
    ensures Walk(reg, contentType, params, fuel) == Ok(Keys([]))
  {
    NoComponentsEmptyObject(reg, contentType.attributes, params, fuel);
  }

  lemma {:induction false} NoComponentsEmptyObject(reg: Registry, attrs: seq<(string, Attribute)>,
                                                   params: Params, fuel: nat)
    requires forall i :: 0 <= i < |attrs| ==> attrs[i].1.Other?
    ensures WalkAttributes(reg, attrs, params, fuel) == Ok(Empty)
    decreases |attrs|
  {
    if |attrs| > 0 {
      NoComponentsEmptyObject(reg, attrs[..|attrs| - 1], params, fuel);
    }
  }

  /** No attribute is a component or a non-empty dynamic zone. */
  predicate OnlyFlat(attrs: seq<(string, Attribute)>) {
    forall i :: 0 <= i < |attrs| ==>
      !attrs[i].1.Component? && (attrs[i].1.DynamicZone? ==> |attrs[i].1.components| == 0)
  }

  lemma FlatAttributesGiveAll(reg: Registry, attrs: seq<(string, Attribute)>, params: Params, fuel: nat)
    requires DistinctKeys(attrs) && OnlyFlat(attrs)
    requires WalkAttributes(reg, attrs, params, fuel).Ok?
    ensures var populate := WalkAttributes(reg, attrs, params, fuel).value;
            forall k :: k in populate.values ==> populate.values[k] == All
  {
    var populate := WalkAttributes(reg, attrs, params, fuel).value;
    PopulateEntries(reg, attrs, params, fuel);
    forall k | k in populate.values ensures populate.values[k] == All {
      var i :| 0 <= i < |attrs| && !attrs[i].1.Other? && attrs[i].0 == k;
      assert EntryAsDeclared(reg, populate, attrs[i].0, attrs[i].1, params, fuel);
    }
  }

  lemma NestedAttributeIsNotAll(reg: Registry, attrs: seq<(string, Attribute)>, params: Params, fuel: nat, i: nat)
    requires DistinctKeys(attrs) && i < |attrs|
    requires attrs[i].1.Component? || (attrs[i].1.DynamicZone? && |attrs[i].1.components| > 0)
    requires WalkAttributes(reg, attrs, params, fuel).Ok?
    ensures var populate := WalkAttributes(reg, attrs, params, fuel).value;
            attrs[i].0 in populate.values && populate.values[attrs[i].0] != All
  {
    var populate := WalkAttributes(reg, attrs, params, fuel).value;
    PopulateEntries(reg, attrs, params, fuel);
    assert EntryAsDeclared(reg, populate, attrs[i].0, attrs[i].1, params, fuel);
  }

  /** The result collapses to a key list iff no attribute is a component
      and every dynamic zone lists no component. */
  lemma {:induction false} WalkCollapsesIff(reg: Registry, contentType: Schema, params: Params, fuel: nat)
    requires DistinctKeys(contentType.attributes)
    requires Walk(reg, contentType, params, fuel).Ok?
    ensures Walk(reg, contentType, params, fuel).value.Keys? <==> OnlyFlat(contentType.attributes)
  {
    var attrs := contentType.attributes;
    if OnlyFlat(attrs) {
      FlatAttributesGiveAll(reg, attrs, params, fuel);
    } else {
      var i :| 0 <= i < |attrs| &&
               (attrs[i].1.Component? || (attrs[i].1.DynamicZone? && |attrs[i].1.components| > 0));
      NestedAttributeIsNotAll(reg, attrs, params, fuel, i);
    }
  }

  // ---------------------------------------------------------------------
  // Termination

  /** The component UIDs an attribute refers to. */
  function Referenced(a: Attribute): seq<Uid> {
    match a
    case Component(uid) => [uid]
    case DynamicZone(uids) => uids
    case Other(_) => []
  }

  /** Every component the attributes refer to, directly or through a
      dynamic zone, resolves within `depth` levels. */
  ghost predicate NestsWithin(reg: Registry, attrs: seq<(string, Attribute)>, depth: nat)
    decreases depth, 1
  {
    forall i, u :: 0 <= i < |attrs| && u in Referenced(attrs[i].1) ==> Resolves(reg, u, depth)
  }

  /** `uid` is registered and its own attributes nest within `depth - 1`. */
  ghost predicate Resolves(reg: Registry, uid: Uid, depth: nat)
    decreases depth, 0
  {
    uid in reg && depth > 0 && NestsWithin(reg, reg[uid].attributes, depth - 1)
  }

  /** On a registry without cycles, of nesting depth at most `depth`, the
      walk succeeds as soon as it may make `depth` nested lookups. */
  lemma {:induction false} WalkTerminates(reg: Registry, s: Schema, params: Params, depth: nat, fuel: nat)
    requires NestsWithin(reg, s.attributes, depth) && depth <= fuel
    ensures Walk(reg, s, params, fuel).Ok?
    decreases fuel, 3, 0
  {
    AttributesTerminate(reg, s.attributes, params, depth, fuel);
  }

  lemma {:induction false} SubPopulateTerminates(reg: Registry, uid: Uid, params: Params, depth: nat, fuel: nat)
    requires Resolves(reg, uid, depth) && depth <= fuel
    ensures SubPopulate(reg, uid, params, fuel).Ok?
    decreases fuel, 1, 0
  {
    WalkTerminates(reg, reg[uid], params, depth - 1, fuel - 1);
  }

  lemma {:induction false} AttributesTerminate(reg: Registry, attrs: seq<(string, Attribute)>, params: Params,
                                               depth: nat, fuel: nat)
    requires NestsWithin(reg, attrs, depth) && depth <= fuel
    ensures WalkAttributes(reg, attrs, params, fuel).Ok?
    decreases fuel, 2, |attrs|
  {
    if |attrs| > 0 {
      var init := attrs[..|attrs| - 1];
      var last := attrs[|attrs| - 1];
      assert NestsWithin(reg, init, depth) by {
        forall i, u | 0 <= i < |init| && u in Referenced(init[i].1) ensures Resolves(reg, u, depth) {
          assert init[i] == attrs[i];
        }
      }
      AttributesTerminate(reg, init, params, depth, fuel);
      var before := WalkAttributes(reg, init, params, fuel).value;
      var refs := Referenced(last.1);
      forall j | 0 <= j < |refs| ensures SubPopulate(reg, refs[j], params, fuel).Ok? {
        assert refs[j] in Referenced(attrs[|attrs| - 1].1);
        SubPopulateTerminates(reg, refs[j], params, depth, fuel);
      }
      if last.1.DynamicZone? {
        OnTerminates(reg, refs, params, fuel);
      } else if last.1.Component? {
        assert refs[0] == last.1.component;
      }
      assert Step(reg, before, last, params, fuel).Ok?;
    }
  }

  lemma {:induction false} OnTerminates(reg: Registry, uids: seq<Uid>, params: Params, fuel: nat)
    requires forall j :: 0 <= j < |uids| ==> SubPopulate(reg, uids[j], params, fuel).Ok?
    ensures WalkOn(reg, uids, params, fuel).Ok?
    decreases |uids|
  {
    if |uids| > 0 {
      OnTerminates(reg, uids[..|uids| - 1], params, fuel);
    }
  }

  // ---------------------------------------------------------------------
  // Depth of the result, and independence from the fuel

  /** Every `populate` inside `p` is nested at most `n` levels deep. */
  ghost predicate PopulateWithin(p: Populate, n: nat)
    decreases n, 2
  {
    p.Tree? ==> forall k :: k in p.entries.values ==> EntryWithin(p.entries.values[k], n)
  }

  /** A top-level entry: a dynamic zone's `on` holds component entries. */
  ghost predicate EntryWithin(e: Entry, n: nat)
    decreases n, 1
  {
    if e.On? then forall k :: k in e.on.values ==> LeafWithin(e.on.values[k], n) else LeafWithin(e, n)
  }

  /** A component entry: its `populate`, if any, takes one more level. */
  ghost predicate LeafWithin(e: Entry, n: nat)
    decreases n, 0
  {
    e.Nested? && e.populate.Some? ==> n > 0 && PopulateWithin(e.populate.value, n - 1)
  }

  /** `Place` keeps every other entry and sets `key` to one of the two
      component entries. */
  lemma PlaceValues(o: Obj, key: string, params: Params, sub: Populate)
    requires WellFormed(o)
    ensures var r := Place(o, key, params, sub);
            forall k :: k in r.values ==>
              (k in o.values && r.values[k] == o.values[k]) ||
              r.values[k] == Nested(params, Some(sub)) || r.values[k] == Nested(params, None)
  {
  }

  /** A successful walk with `fuel` nested lookups yields a tree at most
      `fuel` levels deep. */
  lemma {:induction false} WalkWithin(reg: Registry, s: Schema, params: Params, fuel: nat)
    requires Walk(reg, s, params, fuel).Ok?
    ensures PopulateWithin(Walk(reg, s, params, fuel).value, fuel)
    decreases fuel, 3, 0
  {
    AttributesWithin(reg, s.attributes, params, fuel);
  }

  lemma {:induction false} SubPopulateWithin(reg: Registry, uid: Uid, params: Params, fuel: nat)
    requires SubPopulate(reg, uid, params, fuel).Ok?
    ensures fuel > 0 && PopulateWithin(SubPopulate(reg, uid, params, fuel).value, fuel - 1)
    decreases fuel, 0, 0
  {
    WalkWithin(reg, reg[uid], params, fuel - 1);
  }

  lemma {:induction false} AttributesWithin(reg: Registry, attrs: seq<(string, Attribute)>, params: Params, fuel: nat)
    requires WalkAttributes(reg, attrs, params, fuel).Ok?
    ensures var o := WalkAttributes(reg, attrs, params, fuel).value;
            forall k :: k in o.values ==> EntryWithin(o.values[k], fuel)
    decreases fuel, 2, |attrs|
  {
    if |attrs| > 0 {
      var init := attrs[..|attrs| - 1];
      var last := attrs[|attrs| - 1];
      AttributesWithin(reg, init, params, fuel);
      var before := WalkAttributes(reg, init, params, fuel).value;
      match last.1
      case Component(uid) =>
        SubPopulateWithin(reg, uid, params, fuel);
        var sub := SubPopulate(reg, uid, params, fuel).value;
        PlaceValues(before, last.0, params, sub);
        assert LeafWithin(Nested(params, Some(sub)), fuel);
      case DynamicZone(uids) =>
        OnWithin(reg, uids, params, fuel);
      case Other(_) =>
    }
  }

  lemma {:induction false} OnWithin(reg: Registry, uids: seq<Uid>, params: Params, fuel: nat)
    requires WalkOn(reg, uids, params, fuel).Ok?
    ensures var on := WalkOn(reg, uids, params, fuel).value;
            forall k :: k in on.values ==> LeafWithin(on.values[k], fuel)
    decreases fuel, 1, |uids|
  {
    if |uids| > 0 {
      OnWithin(reg, uids[..|uids| - 1], params, fuel);
      var before := WalkOn(reg, uids[..|uids| - 1], params, fuel).value;
      var uid := uids[|uids| - 1];
      SubPopulateWithin(reg, uid, params, fuel);
      var sub := SubPopulate(reg, uid, params, fuel).value;
      PlaceValues(before, uid, params, sub);
      assert LeafWithin(Nested(params, Some(sub)), fuel);
    }
  }

  /** On a registry that nests within `depth`, any fuel of at least `depth`
      gives the walk with exactly `depth`. */
  lemma {:induction false} WalkFuel(reg: Registry, s: Schema, params: Params, depth: nat, fuel: nat)
    requires NestsWithin(reg, s.attributes, depth) && depth <= fuel
    ensures Walk(reg, s, params, fuel) == Walk(reg, s, params, depth)
    decreases fuel, 3, 0
  {
    AttributesFuel(reg, s.attributes, params, depth, fuel);
  }

  lemma {:induction false} SubPopulateFuel(reg: Registry, uid: Uid, params: Params, depth: nat, fuel: nat)
    requires Resolves(reg, uid, depth) && depth <= fuel
    ensures SubPopulate(reg, uid, params, fuel) == SubPopulate(reg, uid, params, depth)
    decreases fuel, 1, 0
  {
    WalkFuel(reg, reg[uid], params, depth - 1, fuel - 1);
  }

  lemma {:induction false} AttributesFuel(reg: Registry, attrs: seq<(string, Attribute)>, params: Params,
                                          depth: nat, fuel: nat)
    requires NestsWithin(reg, attrs, depth) && depth <= fuel
    ensures WalkAttributes(reg, attrs, params, fuel) == WalkAttributes(reg, attrs, params, depth)
    decreases fuel, 2, |attrs|
  {
    if |attrs| > 0 {
      var init := attrs[..|attrs| - 1];
      var last := attrs[|attrs| - 1];
      assert NestsWithin(reg, init, depth) by {
        forall i, u | 0 <= i < |init| && u in Referenced(init[i].1) ensures Resolves(reg, u, depth) {
          assert init[i] == attrs[i];
        }
      }
      AttributesFuel(reg, init, params, depth, fuel);
      var refs := Referenced(last.1);
      forall j | 0 <= j < |refs|
        ensures SubPopulate(reg, refs[j], params, fuel) == SubPopulate(reg, refs[j], params, depth)
      {
        assert refs[j] in Referenced(attrs[|attrs| - 1].1);
        SubPopulateFuel(reg, refs[j], params, depth, fuel);
      }
      if last.1.DynamicZone? {
        OnFuel(reg, refs, params, depth, fuel);
      } else if last.1.Component? {
        assert refs[0] == last.1.component;
      }
    }
  }

  lemma {:induction false} OnFuel(reg: Registry, uids: seq<Uid>, params: Params, f1: nat, f2: nat)
    requires forall j :: 0 <= j < |uids| ==> SubPopulate(reg, uids[j], params, f1) == SubPopulate(reg, uids[j], params, f2)
    ensures WalkOn(reg, uids, params, f1) == WalkOn(reg, uids, params, f2)
    decreases |uids|
  {
    if |uids| > 0 {
      OnFuel(reg, uids[..|uids| - 1], params, f1, f2);
    }
  }

  /** On a registry whose components all resolve within `depth` nested
      levels, every fuel of at least `depth` gives the same successful walk,
      and its tree is at most `depth` levels deep. */
  lemma WalkDepthBounded(reg: Registry, s: Schema, params: Params, depth: nat, f1: nat, f2: nat)
    requires NestsWithin(reg, s.attributes, depth) && depth <= f1 && depth <= f2
    ensures Walk(reg, s, params, f1).Ok?
    ensures Walk(reg, s, params, f1) == Walk(reg, s, params, f2)
    ensures PopulateWithin(Walk(reg, s, params, f1).value, depth)
  {
    WalkTerminates(reg, s, params, depth, depth);
    WalkFuel(reg, s, params, depth, f1);
    WalkFuel(reg, s, params, depth, f2);
    WalkWithin(reg, s, params, depth);
  }

  /** Without a cycle guard, a component that contains itself exhausts any
      amount of fuel: the source recurses until the stack overflows. */
  lemma {:induction false} SelfNestingNeverTerminates(params: Params, fuel: nat)
    ensures var reg := map["shared.node" := Schema([("child", Component("shared.node"))])];
            Walk(reg, reg["shared.node"], params, fuel) == Err(DepthExceeded)
  {
    var reg := map["shared.node" := Schema([("child", Component("shared.node"))])];
    var attrs := reg["shared.node"].attributes;
    assert attrs[..0] == [];
    assert WalkAttributes(reg, attrs[..0], params, fuel) == Ok(Empty);
    if fuel > 0 {
      SelfNestingNeverTerminates(params, fuel - 1);
    }
    assert SubPopulate(reg, "shared.node", params, fuel) == Err(DepthExceeded);
    assert Step(reg, Empty, attrs[0], params, fuel) == Err(DepthExceeded);
    assert WalkAttributes(reg, attrs, params, fuel) == Err(DepthExceeded);
  }
}
