/** The content-manager UID service: deriving a slug for a UID attribute and
    resolving collisions with the values already stored in the same locale
    among draft documents.

    The document store is a sequence `scope` of the UID field's values of
    the draft documents in the requested locale (the locale and status
    filters are already applied). `slugify` is a function parameter: its
    behaviour belongs to the slugify library. */
module UidService {
  import opened Common

  /** What `documents(uid).findMany` handed back: nothing (`null` or
      `undefined`), a single document, or an array of documents; each
      document is represented by the value of the UID field. */
  datatype Found = Nothing | Single(field: string) | Many(fields: seq<string>)

  /** How a UID attribute is declared: the field it is derived from, its
      default, and the options given to slugify. */
  datatype UidAttribute = UidAttribute(targetField: Option<string>, default: DefaultValue, options: Value)

  /** The attribute's `default`: absent, a plain value, or a function, in
      which case `produced` is what calling it returns. */
  datatype DefaultValue = NoDefault | Literal(v: Value) | Producer(produced: Value)

  /** The candidate with a numeric suffix: `${value}-${i}`. */
  function Suffixed(value: string, i: nat): string {
    value + "-" + NatToString(i)
  }

  lemma SuffixedInjective(value: string, a: nat, b: nat)
    requires Suffixed(value, a) == Suffixed(value, b)
    ensures a == b
  {
    var n := |value| + 1;
    assert NatToString(a) == Suffixed(value, a)[n..];
    assert NatToString(b) == Suffixed(value, b)[n..];
    NatToStringInjective(a, b);
  }

  /** `value` occurs in `s` as a contiguous piece (the store's `$contains`). */
  predicate Contains(s: string, value: string) {
    exists i :: 0 <= i <= |s| && value <= s[i..]
  }

  lemma SuffixedContains(value: string, i: nat)
    ensures Contains(Suffixed(value, i), value)
  {
    assert value <= Suffixed(value, i)[0..];
  }

  /** The store's answer to `findMany({ filters: { [field]: { $contains: value } } })`. */
  function FindContaining(scope: seq<string>, value: string): Found {
    Many(Filter((s: string) => Contains(s, value), scope))
  }

  /** The store's answer to `count({ filters: { [field]: value } })`. */
  function CountExact(scope: seq<string>, value: string): (n: nat)
    ensures n > 0 <==> value in scope
  {
    var matches := Filter((s: string) => s == value, scope);
    assert value in scope ==> value in matches;
    assert |matches| > 0 ==> matches[0] in matches;
    |matches|
  }

  /** `possibleColisions`: a single document counts as a one-element list. */
  function Collisions(found: Found): seq<string> {
    match found
    case Nothing => []
    case Single(field) => [field]
    case Many(fields) => fields
  }

  /** `r` is `value-k` for the least `k >= 1` whose suffixed value is not
      among the collisions. */
  ghost predicate IsFirstFreeSuffix(value: string, collisions: seq<string>, r: string) {
    exists k: nat :: 1 <= k && r == Suffixed(value, k) && r !in collisions &&
      forall j :: 1 <= j < k ==> Suffixed(value, j) in collisions
  }

  /** At most one value is the first free suffix. */
  lemma FirstFreeSuffixUnique(value: string, collisions: seq<string>, r1: string, r2: string)
    requires IsFirstFreeSuffix(value, collisions, r1)
    requires IsFirstFreeSuffix(value, collisions, r2)
    ensures r1 == r2
  {
    var k1: nat :| 1 <= k1 && r1 == Suffixed(value, k1) && r1 !in collisions &&
      forall j :: 1 <= j < k1 ==> Suffixed(value, j) in collisions;
    var k2: nat :| 1 <= k2 && r2 == Suffixed(value, k2) && r2 !in collisions &&
      forall j :: 1 <= j < k2 ==> Suffixed(value, j) in collisions;
  }

  /** If `value-1` .. `value-n` all collide, the collisions hold at least
      `n` distinct values: the probe loop cannot run past the data. */
  lemma {:induction false} SuffixRunBounded(value: string, collisions: seq<string>, n: nat)
    requires forall j :: 1 <= j <= n ==> Suffixed(value, j) in collisions
    ensures n <= |set x | x in collisions|
  {
    var run := SuffixRun(value, n);
    SuffixRunSize(value, n);
    assert run <= set x | x in collisions;
    SubsetSize(run, set x | x in collisions);
  }

  /** The values `value-1` .. `value-n`. */
  function SuffixRun(value: string, n: nat): set<string> {
    set j | 1 <= j <= n :: Suffixed(value, j)
  }

  lemma SuffixRunStep(value: string, n: nat)
    requires n > 0
    ensures SuffixRun(value, n) == SuffixRun(value, n - 1) + {Suffixed(value, n)}
    ensures Suffixed(value, n) !in SuffixRun(value, n - 1)
  {
    forall x | x in SuffixRun(value, n) ensures x in SuffixRun(value, n - 1) + {Suffixed(value, n)} {
      var j :| 1 <= j <= n && x == Suffixed(value, j);
      if j < n {
        assert x in SuffixRun(value, n - 1);
      }
    }
    forall j | 1 <= j <= n - 1 ensures Suffixed(value, j) != Suffixed(value, n) {
      if Suffixed(value, j) == Suffixed(value, n) {
        SuffixedInjective(value, j, n);
      }
    }
  }

  /** The run holds `n` distinct values. */
  lemma {:induction false} SuffixRunSize(value: string, n: nat)
    ensures |SuffixRun(value, n)| == n
  {
    if n > 0 {
      SuffixRunSize(value, n - 1);
      SuffixRunStep(value, n);
    }
  }

  lemma {:induction false} SubsetSize<T>(a: set<T>, b: set<T>)
    requires a <= b
    ensures |a| <= |b|
  {
    if a != {} {
      var x :| x in a;
      SubsetSize(a - {x}, b - {x});
    }
  }

  /** `findUniqueUID`: the candidate itself when nothing collides with it
      exactly, otherwise the first free `value-i`, probing i = 1, 2, … */
  method FindUniqueUid(value: string, found: Found) returns (r: string)
    ensures found.Nothing? || found == Many([]) ==> r == value
    ensures value !in Collisions(found) ==> r == value
    ensures value in Collisions(found) ==> IsFirstFreeSuffix(value, Collisions(found), r)
    ensures r !in Collisions(found)
  {
    if found.Nothing? || (found.Many? && |found.fields| == 0) {
      return value;
    }
    var collisions := if found.Single? then [found.field] else found.fields;
    if value !in collisions {
      return value;
    }
    var i: nat := 1;
    var candidate := Suffixed(value, i);
    while candidate in collisions
      invariant 1 <= i <= |set x | x in collisions| + 1
      invariant candidate == Suffixed(value, i)
      invariant forall j :: 1 <= j < i ==> Suffixed(value, j) in collisions
      decreases |set x | x in collisions| + 1 - i
    {
      SuffixRunBounded(value, collisions, i);
      i := i + 1;
      candidate := Suffixed(value, i);
    }
    return candidate;
  }

  /** The value `generateUIDField` slugifies: the target field's value when
      it is not empty, otherwise the default (called when it is a
      function), otherwise, when the default is falsy, the model name. */
  function SlugSource(attribute: UidAttribute, data: map<string, Value>, modelName: string): (v: Value)
    ensures (attribute.targetField.Some? && attribute.targetField.value in data &&
             !IsEmpty(data[attribute.targetField.value])) ==> v == data[attribute.targetField.value]
    ensures (attribute.targetField.None? || attribute.targetField.value !in data ||
             IsEmpty(data[attribute.targetField.value])) ==>
              v == match attribute.default
                   case Producer(p) => p
                   case Literal(d) => if Truthy(d) then d else Text(modelName)
                   case NoDefault => Text(modelName)
  {
    var target := if attribute.targetField.Some? && attribute.targetField.value in data
                  then data[attribute.targetField.value] else Null;
    if !IsEmpty(target) then target
    else match attribute.default
      case Producer(p) => p
      case Literal(d) => if Truthy(d) then d else Text(modelName)
      case NoDefault => Text(modelName)
  }

  /** `generateUIDField`: slugify the source value and make it unique among
      the draft values of the same locale. */
  method GenerateUidField(slugify: (Value, Value) -> string, attribute: UidAttribute,
                          data: map<string, Value>, modelName: string, scope: seq<string>)
    returns (r: string)
    ensures var slug := slugify(SlugSource(attribute, data, modelName), attribute.options);
            (slug !in scope ==> r == slug) &&
            (slug in scope ==> IsFirstFreeSuffix(slug, Collisions(FindContaining(scope, slug)), r))
    ensures CheckUidAvailability(scope, r)
  {
    var slug := slugify(SlugSource(attribute, data, modelName), attribute.options);
    var found := FindContaining(scope, slug);
    r := FindUniqueUid(slug, found);
    if slug in scope {
      assert Contains(slug, slug) by { assert slug <= slug[0..]; }
      assert slug in Collisions(found);
      var k: nat :| 1 <= k && r == Suffixed(slug, k) && r !in Collisions(found);
      SuffixedContains(slug, k);
    }
  }

  /** `checkUIDAvailability`: free iff no draft document of the locale
      holds exactly this value. */
  function CheckUidAvailability(scope: seq<string>, value: string): (available: bool)
    ensures available <==> value !in scope
  {
    var documentCount := CountExact(scope, value);
    !(documentCount > 0)
  }

  /** An example: with `post`, `post-1` and `post-2`
      taken, the candidate `post` resolves to `post-3`, and to nothing else. */
  lemma PostExample()
    ensures IsFirstFreeSuffix("post", ["post", "post-1", "post-2"], "post-3")
    ensures forall r :: IsFirstFreeSuffix("post", ["post", "post-1", "post-2"], r) ==> r == "post-3"
  {
    var cs := ["post", "post-1", "post-2"];
    assert Suffixed("post", 1) == "post-1";
    assert Suffixed("post", 2) == "post-2";
    assert Suffixed("post", 3) == "post-3";
    assert forall j :: 1 <= j < 3 ==> Suffixed("post", j) in cs by {
      forall j | 1 <= j < 3 ensures Suffixed("post", j) in cs {
        if j == 1 { assert cs[1] == Suffixed("post", 1); } else { assert cs[2] == Suffixed("post", 2); }
      }
    }
    assert IsFirstFreeSuffix("post", cs, "post-3");
    forall r | IsFirstFreeSuffix("post", cs, r) ensures r == "post-3" {
      FirstFreeSuffixUnique("post", cs, r, "post-3");
    }
  }

  /** A value that merely contains the candidate (`post-extra` for `post`)
      is found by the store's query but does not count as taken. */
  lemma SubstringMatchIsNoCollision()
    ensures Collisions(FindContaining(["post-extra"], "post")) == ["post-extra"]
    ensures "post" !in Collisions(FindContaining(["post-extra"], "post"))
  {
    assert "post" <= "post-extra"[0..];
    assert Contains("post-extra", "post");
  }
}
