/** The admin client's cache of relation query results: the `getRelations`
    endpoint (relations of an existing entry) and the `searchRelations`
    endpoint (entries available to relate to). Each endpoint keeps one
    cache entry per query identity, and its `merge` folds a newly fetched
    page into that entry in place. */
module RelationsApi {
  import opened Common

  /** One relation as the server returns it; only `documentId` matters to
      the cache, the rest of the record is carried along untouched. */
  datatype RelationResult = RelationResult(documentId: string, fields: map<string, Value>)

  datatype Pagination = Pagination(page: int, pageSize: int, pageCount: int, total: int)

  /** A response body, and the cache entry built from it: `results` and
      `pagination` are each absent (`undefined`) or present. An error body
      has neither. */
  datatype Body = Body(results: Option<seq<RelationResult>>, pagination: Option<Pagination>)

  /** The response types promise results whenever there is pagination. */
  predicate Typed(b: Body) {
    b.pagination.Some? ==> b.results.Some?
  }

  /** `results.map((item) => item.documentId)` */
  function Ids(items: seq<RelationResult>): (ids: seq<string>)
    ensures |ids| == |items|
    ensures forall k :: 0 <= k < |items| ==> ids[k] == items[k].documentId
  {
    seq(|items|, k requires 0 <= k < |items| => items[k].documentId)
  }

  /** The incoming items whose `documentId` is not among the cached ones,
      in incoming order: `newItems.results.filter((item) => !existingIds.includes(item.documentId))`. */
  function Unseen(cached: seq<RelationResult>, incoming: seq<RelationResult>): (r: seq<RelationResult>)
    ensures |r| <= |incoming|
    ensures forall x :: x in r <==> x in incoming && x.documentId !in Ids(cached)
  {
    if |incoming| == 0 then []
    else
      var last := incoming[|incoming| - 1];
      Unseen(cached, incoming[..|incoming| - 1]) + (if last.documentId in Ids(cached) then [] else [last])
  }

  lemma UnseenSnoc(cached: seq<RelationResult>, incoming: seq<RelationResult>, x: RelationResult)
    ensures Unseen(cached, incoming + [x]) ==
            Unseen(cached, incoming) + (if x.documentId in Ids(cached) then [] else [x])
  {
    assert (incoming + [x])[..|incoming|] == incoming;
  }

  // ---------------------------------------------------------------------
  // getRelations

  /** What `getRelations`' merge leaves in the cache entry. */
  function MergeExisting(cache: Body, incoming: Body): (r: Body)
    requires Typed(cache) && Typed(incoming)
    ensures Typed(r)
    ensures r.pagination == cache.pagination || r.pagination == incoming.pagination
  {
    if cache.pagination.Some? && incoming.pagination.Some? then
      if cache.pagination.value.page > incoming.pagination.value.page then
        Body(Some(cache.results.value + Unseen(cache.results.value, incoming.results.value)),
             incoming.pagination)
      else if cache.pagination.value.page <= incoming.pagination.value.page &&
              incoming.pagination.value.page == 1 then
        Body(incoming.results, incoming.pagination)
      else
        cache
    else
      cache
  }

  /** The cache entry of one `getRelations` query identity. */
  class RelationsCache {
    var results: Option<seq<RelationResult>>
    var pagination: Option<Pagination>

    ghost predicate Valid()
      reads this
    {
      Typed(Entry())
    }

    function Entry(): Body
      reads this
    {
      Body(results, pagination)
    }

    constructor (initial: Body)
      requires Typed(initial)
      ensures Valid() && Entry() == initial
    {
      results := initial.results;
      pagination := initial.pagination;
    }

    /** `merge(currentCache, newItems)`: pushes the unseen items and adopts
        the incoming pagination when paging back, replaces both on a reset to
        page 1, and otherwise leaves the entry alone. */
    method Merge(newItems: Body)
      requires Valid() && Typed(newItems)
      modifies this
      ensures Valid()
      ensures Entry() == MergeExisting(old(Entry()), newItems)
    {
      if pagination.Some? && newItems.pagination.Some? {
        if pagination.value.page > newItems.pagination.value.page {
          var uniqueNewItems := Unseen(results.value, newItems.results.value);
          results := Some(results.value + uniqueNewItems);
          pagination := newItems.pagination;
        } else if pagination.value.page <= newItems.pagination.value.page &&
                  newItems.pagination.value.page == 1 {
          results := newItems.results;
          pagination := newItems.pagination;
        }
      }
    }
  }

  /** Paging back (cached page above the incoming one): the cached items stay
      as an unchanged prefix, exactly the incoming items with an unseen
      `documentId` follow, and the incoming pagination is adopted. */
  lemma {:induction false} MergeExistingPagingBack(cache: Body, incoming: Body)
    requires Typed(cache) && Typed(incoming)
    requires cache.pagination.Some? && incoming.pagination.Some?
    requires cache.pagination.value.page > incoming.pagination.value.page
    ensures var r := MergeExisting(cache, incoming);
            var n := |cache.results.value|;
            r.pagination == incoming.pagination && r.results.Some? &&
            n <= |r.results.value| && r.results.value[..n] == cache.results.value &&
            (forall x :: x in r.results.value[n..] <==>
               x in incoming.results.value && x.documentId !in Ids(cache.results.value))
  {
    var r := MergeExisting(cache, incoming);
    var n := |cache.results.value|;
    assert r.results.value[n..] == Unseen(cache.results.value, incoming.results.value);
  }

  /** A reset: the incoming page is page 1 and the cached page is not above
      it; results and pagination are replaced wholesale. */
  lemma MergeExistingReset(cache: Body, incoming: Body)
    requires Typed(cache) && Typed(incoming)
    requires cache.pagination.Some? && incoming.pagination.Some?
    requires cache.pagination.value.page <= incoming.pagination.value.page == 1
    ensures MergeExisting(cache, incoming) == incoming
  {
  }

  /** Every other case leaves the entry untouched: pagination missing on
      either side, or paging forward past page 1. */
  lemma MergeExistingIgnored(cache: Body, incoming: Body)
    requires Typed(cache) && Typed(incoming)
    requires cache.pagination.None? || incoming.pagination.None? ||
             (cache.pagination.value.page <= incoming.pagination.value.page &&
              incoming.pagination.value.page != 1)
    ensures MergeExisting(cache, incoming) == cache
  {
  }

  /** A cache at page 2 that receives page 1 takes the paging-back branch,
      because `2 > 1` is tested first: it keeps its 2 items and gains the 1
      unseen one instead of being reset. */
  lemma Page2ReceivingPage1Appends()
    ensures var a := RelationResult("a", map[]);
            var b := RelationResult("b", map[]);
            var c := RelationResult("c", map[]);
            var p1 := Pagination(1, 10, 2, 12);
            var p2 := Pagination(2, 10, 2, 12);
            MergeExisting(Body(Some([a, b]), Some(p2)), Body(Some([b, c]), Some(p1)))
              == Body(Some([a, b, c]), Some(p1))
  {
    UnseenOfOverlap(RelationResult("a", map[]), RelationResult("b", map[]), RelationResult("c", map[]));
  }

  /** `[a, b]` followed by the unseen items of `[b, c]` is `[a, b, c]`. */
  lemma UnseenOfOverlap(a: RelationResult, b: RelationResult, c: RelationResult)
    requires c.documentId != a.documentId && c.documentId != b.documentId
    ensures [a, b] + Unseen([a, b], [b, c]) == [a, b, c]
  {
    assert Ids([a, b]) == [a.documentId, b.documentId];
    assert [b, c][..1] == [b] && [b][..0] == [];
  }

  /** Merging keeps document ids distinct when the cache and the incoming
      page each have distinct ids. */
  lemma MergeExistingKeepsIdsDistinct(cache: Body, incoming: Body)
    requires Typed(cache) && Typed(incoming)
    requires cache.results.Some? ==> Distinct(Ids(cache.results.value))
    requires incoming.results.Some? ==> Distinct(Ids(incoming.results.value))
    ensures var r := MergeExisting(cache, incoming);
            r.results.Some? ==> Distinct(Ids(r.results.value))
  {
    if cache.pagination.Some? && incoming.pagination.Some? &&
       cache.pagination.value.page > incoming.pagination.value.page {
      AppendUnseenDistinct(cache.results.value, incoming.results.value);
    }
  }

  /** Merging the same page a second time changes no results, except when
      the first merge appended a page-1 response: the repeat then resets. */
  lemma MergeExistingTwice(cache: Body, incoming: Body)
    requires Typed(cache) && Typed(incoming)
    requires !(cache.pagination.Some? && incoming.pagination.Some? &&
               cache.pagination.value.page > incoming.pagination.value.page &&
               incoming.pagination.value.page == 1)
    ensures var once := MergeExisting(cache, incoming);
            MergeExisting(once, incoming).results == once.results
  {
  }

  /** The exception is real: a page-1 response that was appended once resets
      the entry when it arrives again, dropping the older items. */
  lemma MergeExistingTwiceCounterexample()
    ensures var a := RelationResult("a", map[]);
            var b := RelationResult("b", map[]);
            var cache := Body(Some([a]), Some(Pagination(2, 1, 2, 2)));
            var page1 := Body(Some([b]), Some(Pagination(1, 1, 2, 2)));
            MergeExisting(cache, page1).results == Some([a, b]) &&
            MergeExisting(MergeExisting(cache, page1), page1).results == Some([b])
  {
    var a := RelationResult("a", map[]);
    var b := RelationResult("b", map[]);
    assert Ids([a]) == ["a"];
    assert [] + [b] == [b];
    UnseenSnoc([a], [], b);
    assert Unseen([a], [b]) == [b];
    assert [a] + [b] == [a, b];
  }

  // ---------------------------------------------------------------------
  // searchRelations

  /** What `searchRelations`' merge leaves in the cache entry. */
  function MergeSearch(cache: Body, incoming: Body): (r: Body)
    ensures r.results.Some? <==> cache.results.Some?
    ensures cache.results.Some? ==> cache.results.value <= r.results.value
    ensures r.pagination == cache.pagination || r.pagination == incoming.pagination
  {
    if cache.results.Some? && incoming.results.Some? then
      Body(Some(cache.results.value + Unseen(cache.results.value, incoming.results.value)),
           incoming.pagination)
    else
      cache
  }

  /** The cache entry of one `searchRelations` query identity. */
  class SearchCache {
    var results: Option<seq<RelationResult>>
    var pagination: Option<Pagination>

    function Entry(): Body
      reads this
    {
      Body(results, pagination)
    }

    constructor (initial: Body)
      ensures Entry() == initial
    {
      results := initial.results;
      pagination := initial.pagination;
    }

    /** `merge(currentCache, newItems)`: when both sides carry results, push
        the unseen items and adopt the incoming pagination. */
    method Merge(newItems: Body)
      modifies this
      ensures Entry() == MergeSearch(old(Entry()), newItems)
    {
      if results.Some? && newItems.results.Some? {
        var uniqueNewItems := Unseen(results.value, newItems.results.value);
        results := Some(results.value + uniqueNewItems);
        pagination := newItems.pagination;
      }
    }
  }

  /** Both sides have results: the cached items stay as a prefix, followed
      by exactly the unseen incoming items; the incoming pagination (even an
      absent one) replaces the cached one. Otherwise nothing changes. */
  lemma {:induction false} MergeSearchAppends(cache: Body, incoming: Body)
    ensures var r := MergeSearch(cache, incoming);
            if cache.results.Some? && incoming.results.Some? then
              var n := |cache.results.value|;
              r.pagination == incoming.pagination && r.results.Some? &&
              n <= |r.results.value| && r.results.value[..n] == cache.results.value &&
              (forall x :: x in r.results.value[n..] <==>
                 x in incoming.results.value && x.documentId !in Ids(cache.results.value))
            else r == cache
  {
    if cache.results.Some? && incoming.results.Some? {
      var r := MergeSearch(cache, incoming);
      var n := |cache.results.value|;
      assert r.results.value[n..] == Unseen(cache.results.value, incoming.results.value);
    }
  }

  /** An example: `[A, B]` merged with page 2 `[B, C]` gives
      `[A, B, C]` with the incoming pagination. */
  lemma MergeSearchExample()
    ensures var a := RelationResult("A", map[]);
            var b := RelationResult("B", map[]);
            var c := RelationResult("C", map[]);
            var p1 := Pagination(1, 2, 3, 6);
            var p2 := Pagination(2, 2, 3, 6);
            MergeSearch(Body(Some([a, b]), Some(p1)), Body(Some([b, c]), Some(p2)))
              == Body(Some([a, b, c]), Some(p2))
  {
    var a := RelationResult("A", map[]);
    var b := RelationResult("B", map[]);
    var c := RelationResult("C", map[]);
    assert Ids([a, b]) == ["A", "B"];
    assert [] + [b] == [b] && [b] + [c] == [b, c];
    UnseenSnoc([a, b], [], b);
    UnseenSnoc([a, b], [b], c);
    assert Unseen([a, b], [b, c]) == [c];
    assert [a, b] + [c] == [a, b, c];
    var p2 := Pagination(2, 2, 3, 6);
    assert MergeSearch(Body(Some([a, b]), Some(Pagination(1, 2, 3, 6))), Body(Some([b, c]), Some(p2)))
      == Body(Some([a, b] + Unseen([a, b], [b, c])), Some(p2));
  }

  lemma MergeSearchKeepsIdsDistinct(cache: Body, incoming: Body)
    requires cache.results.Some? ==> Distinct(Ids(cache.results.value))
    requires incoming.results.Some? ==> Distinct(Ids(incoming.results.value))
    ensures var r := MergeSearch(cache, incoming);
            r.results.Some? ==> Distinct(Ids(r.results.value))
  {
    if cache.results.Some? && incoming.results.Some? {
      AppendUnseenDistinct(cache.results.value, incoming.results.value);
    }
  }

  /** A duplicate page is harmless: merging it again changes nothing. */
  lemma {:induction false} MergeSearchIdempotent(cache: Body, incoming: Body)
    ensures var once := MergeSearch(cache, incoming);
            MergeSearch(once, incoming) == once
  {
    if cache.results.Some? && incoming.results.Some? {
      var c := cache.results.value;
      var merged := c + Unseen(c, incoming.results.value);
      UnseenAfterMerge(c, incoming.results.value);
      assert merged + Unseen(merged, incoming.results.value) == merged;
    }
  }

  /** Whatever order two pages arrive in, the cached ids end up the same:
      the cached ones and those of the incoming page. */
  lemma {:induction false} MergeSearchIdsUnion(cache: Body, incoming: Body)
    requires cache.results.Some? && incoming.results.Some?
    ensures var r := MergeSearch(cache, incoming);
            forall d :: d in Ids(r.results.value) <==>
              d in Ids(cache.results.value) || d in Ids(incoming.results.value)
  {
    var c := cache.results.value;
    var i := incoming.results.value;
    var u := Unseen(c, i);
    assert MergeSearch(cache, incoming).results.value == c + u;
    IdsConcat(c, u);
    forall d | d in Ids(i) && d !in Ids(c) ensures d in Ids(u) {
      var k :| 0 <= k < |i| && Ids(i)[k] == d;
      assert i[k] in u;
      var m :| 0 <= m < |u| && u[m] == i[k];
      assert Ids(u)[m] == d;
    }
    forall d | d in Ids(u) ensures d in Ids(i) {
      var k :| 0 <= k < |u| && Ids(u)[k] == d;
      assert u[k] in i;
      var m :| 0 <= m < |i| && i[m] == u[k];
      assert Ids(i)[m] == d;
    }
  }

  lemma {:induction false} AppendUnseenDistinct(cached: seq<RelationResult>, incoming: seq<RelationResult>)
    requires Distinct(Ids(cached)) && Distinct(Ids(incoming))
    ensures Distinct(Ids(cached + Unseen(cached, incoming)))
  {
    var u := Unseen(cached, incoming);
    UnseenDistinct(cached, incoming);
    var all := cached + u;
    forall p, q | 0 <= p < q < |all| ensures Ids(all)[p] != Ids(all)[q] {
      if q >= |cached| && p < |cached| {
        assert all[q] in u;
        assert Ids(cached)[p] == all[p].documentId;
      } else if p >= |cached| {
        assert Ids(u)[p - |cached|] == Ids(all)[p];
        assert Ids(u)[q - |cached|] == Ids(all)[q];
      } else {
        assert Ids(cached)[p] == Ids(all)[p] && Ids(cached)[q] == Ids(all)[q];
      }
    }
  }

  /** Filtering a page with distinct ids keeps them distinct. */
  lemma {:induction false} UnseenDistinct(cached: seq<RelationResult>, incoming: seq<RelationResult>)
    requires Distinct(Ids(incoming))
    ensures Distinct(Ids(Unseen(cached, incoming)))
  {
    if |incoming| > 0 {
      var init := incoming[..|incoming| - 1];
      var last := incoming[|incoming| - 1];
      assert Ids(init) == Ids(incoming)[..|incoming| - 1];
      UnseenDistinct(cached, init);
      var f := Unseen(cached, init);
      if last.documentId !in Ids(cached) {
        var all := f + [last];
        assert Unseen(cached, incoming) == all;
        forall a, b | 0 <= a < b < |all| ensures Ids(all)[a] != Ids(all)[b] {
          if b == |f| {
            assert all[a] in init;
            var m :| 0 <= m < |init| && init[m] == all[a];
            assert Ids(incoming)[m] == all[a].documentId;
            assert Ids(incoming)[|incoming| - 1] == last.documentId;
          } else {
            assert Ids(f)[a] == Ids(all)[a] && Ids(f)[b] == Ids(all)[b];
          }
        }
      }
    }
  }

  /** After a merge every incoming item's id is cached, so a repeat finds
      nothing unseen. */
  lemma {:induction false} UnseenAfterMerge(cached: seq<RelationResult>, incoming: seq<RelationResult>)
    ensures Unseen(cached + Unseen(cached, incoming), incoming) == []
  {
    var merged := cached + Unseen(cached, incoming);
    forall x | x in incoming ensures x.documentId in Ids(merged) {
      if x.documentId in Ids(cached) {
        var m :| 0 <= m < |cached| && Ids(cached)[m] == x.documentId;
        assert Ids(merged)[m] == x.documentId;
      } else {
        assert x in Unseen(cached, incoming);
        var m :| 0 <= m < |Unseen(cached, incoming)| && Unseen(cached, incoming)[m] == x;
        assert Ids(merged)[|cached| + m] == x.documentId;
      }
    }
    UnseenNone(merged, incoming);
  }

  lemma {:induction false} UnseenNone(cached: seq<RelationResult>, incoming: seq<RelationResult>)
    requires forall x :: x in incoming ==> x.documentId in Ids(cached)
    ensures Unseen(cached, incoming) == []
  {
    if |incoming| > 0 {
      assert incoming[|incoming| - 1] in incoming;
      UnseenNone(cached, incoming[..|incoming| - 1]);
    }
  }

  lemma IdsConcat(a: seq<RelationResult>, b: seq<RelationResult>)
    ensures Ids(a + b) == Ids(a) + Ids(b)
  {
  }

  // ---------------------------------------------------------------------
  // Query arguments, refetching, response transformation

  datatype QueryParams = QueryParams(page: Option<int>, pageSize: Option<int>, q: Option<string>)

  /** The hook's arguments: `{ model, id, targetField, params }`. */
  datatype QueryArgs = QueryArgs(model: string, id: Option<string>, targetField: string, params: Option<QueryParams>)

  /** The identity under which a query's result is cached. */
  datatype CacheKey =
    | RelationsKey(endpointName: string, model: string, id: Option<string>, targetField: string)
    | SearchKey(endpointName: string, model: string, targetField: string, q: Option<string>)

  /** `getRelations`' `serializeQueryArgs`. */
  function RelationsCacheKey(endpointName: string, args: QueryArgs): (k: CacheKey)
    ensures k.RelationsKey? && k.endpointName == endpointName
    ensures k.model == args.model && k.id == args.id && k.targetField == args.targetField
  {
    RelationsKey(endpointName, args.model, args.id, args.targetField)
  }

  /** `args.params?._q` */
  function SearchTerm(args: QueryArgs): Option<string> {
    if args.params.Some? then args.params.value.q else None
  }

  /** `searchRelations`' `serializeQueryArgs`: `_q` joins the identity. */
  function SearchCacheKey(endpointName: string, args: QueryArgs): (k: CacheKey)
    ensures k.SearchKey? && k.endpointName == endpointName
    ensures k.model == args.model && k.targetField == args.targetField
    ensures args.params.None? ==> k.q.None?
    ensures args.params.Some? ==> k.q == args.params.value.q
  {
    SearchKey(endpointName, args.model, args.targetField, SearchTerm(args))
  }

  /** Two `getRelations` queries share a cache entry iff they agree on
      model, id and target field: `params` plays no part. */
  lemma RelationsCacheKeyIgnoresParams(e: string, a1: QueryArgs, a2: QueryArgs)
    ensures RelationsCacheKey(e, a1) == RelationsCacheKey(e, a2) <==>
            a1.model == a2.model && a1.id == a2.id && a1.targetField == a2.targetField
  {
  }

  /** Two `searchRelations` queries share a cache entry iff they agree on
      model, target field and search term: the page and page size and the
      id play no part. */
  lemma SearchCacheKeyIdentity(e: string, a1: QueryArgs, a2: QueryArgs)
    ensures SearchCacheKey(e, a1) == SearchCacheKey(e, a2) <==>
            a1.model == a2.model && a1.targetField == a2.targetField && SearchTerm(a1) == SearchTerm(a2)
  {
  }

  /** `arg?.params?.page` and `arg?.params?.pageSize`. */
  function PageOf(arg: Option<QueryArgs>): Option<int> {
    if arg.Some? && arg.value.params.Some? then arg.value.params.value.page else None
  }

  function PageSizeOf(arg: Option<QueryArgs>): Option<int> {
    if arg.Some? && arg.value.params.Some? then arg.value.params.value.pageSize else None
  }

  predicate HasParams(arg: Option<QueryArgs>) {
    arg.Some? && arg.value.params.Some?
  }

  /** `forceRefetch` of both endpoints. */
  function ForceRefetch(currentArg: Option<QueryArgs>, previousArg: Option<QueryArgs>): (refetch: bool)
    ensures currentArg == previousArg ==> !refetch
    ensures refetch ==> HasParams(currentArg) || HasParams(previousArg)
    ensures (HasParams(currentArg) || HasParams(previousArg)) && PageOf(currentArg) != PageOf(previousArg) ==> refetch
    ensures (HasParams(currentArg) || HasParams(previousArg)) && PageSizeOf(currentArg) != PageSizeOf(previousArg) ==> refetch
  {
    if !HasParams(currentArg) && !HasParams(previousArg) then false
    else PageOf(currentArg) != PageOf(previousArg) || PageSizeOf(currentArg) != PageSizeOf(previousArg)
  }

  /** A refetch is forced exactly when some side has params and the page or
      the page size differs; in particular never for identical arguments,
      and never for a change of search term alone. */
  lemma ForceRefetchCharacterized(currentArg: Option<QueryArgs>, previousArg: Option<QueryArgs>)
    ensures ForceRefetch(currentArg, previousArg) <==>
            (HasParams(currentArg) || HasParams(previousArg)) &&
            (PageOf(currentArg) != PageOf(previousArg) || PageSizeOf(currentArg) != PageSizeOf(previousArg))
    ensures ForceRefetch(currentArg, previousArg) == ForceRefetch(previousArg, currentArg)
    ensures !ForceRefetch(currentArg, currentArg)
  {
  }

  lemma SearchTermAloneNoRefetch(args: QueryArgs, p: QueryParams, q: Option<string>)
    requires args.params == Some(p)
    ensures !ForceRefetch(Some(args.(params := Some(p.(q := q)))), Some(args))
  {
  }

  /** The results, last first. */
  function Reverse<T>(s: seq<T>): (r: seq<T>)
    ensures |r| == |s|
    ensures forall k :: 0 <= k < |s| ==> r[k] == s[|s| - 1 - k]
  {
    seq(|s|, k requires 0 <= k < |s| => s[|s| - 1 - k])
  }

  /** `transformResponse` of both endpoints: results reversed, everything
      else kept; a body without results is returned as is. */
  function TransformResponse(response: Body): (r: Body)
    ensures r.pagination == response.pagination
    ensures r.results.Some? <==> response.results.Some?
    ensures response.results.Some? ==>
              |r.results.value| == |response.results.value| &&
              forall k :: 0 <= k < |response.results.value| ==>
                r.results.value[k] == response.results.value[|response.results.value| - 1 - k]
    ensures response.results.None? ==> r == response
  {
    if response.results.Some? then response.(results := Some(Reverse(response.results.value)))
    else response
  }

  /** Transforming twice gives back the original body, and no record is
      lost or duplicated. */
  lemma TransformResponseInvolution(response: Body)
    ensures TransformResponse(TransformResponse(response)) == response
    ensures response.results.Some? ==>
              multiset(TransformResponse(response).results.value) == multiset(response.results.value)
  {
    if response.results.Some? {
      var s := response.results.value;
      assert Reverse(Reverse(s)) == s;
      ReversePermutes(s);
    }
  }

  lemma {:induction false} ReversePermutes<T>(s: seq<T>)
    ensures multiset(Reverse(s)) == multiset(s)
  {
    if |s| > 0 {
      ReversePermutes(s[1..]);
      assert Reverse(s) == Reverse(s[1..]) + [s[0]];
      assert s == [s[0]] + s[1..];
    }
  }
}
