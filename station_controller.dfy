/**
 * The station controller: `findAll` (filter, newest-first order, skip and
 * page size, page count) and `create` (payload with the caller as
 * `createdBy`, schema check, pre-save hook, insertion).
 */
module StationController {
  import opened Wrappers
  import opened StationModel

  // ---------------------------------------------------------------------
  // Listing
  // ---------------------------------------------------------------------

  const DefaultLimit := 10
  const DefaultPage := 1
  /** The page size the query hard-codes (`.limit(10)`), whatever `limit` says. */
  const PageSize := 10

  /** The query string: `limit`, `page` and `search`, each possibly absent. */
  datatype PaginationQuery = PaginationQuery(limit: Option<int>, page: Option<int>, search: Option<string>)

  /** The store filter: empty, or a text search. */
  datatype Filter = MatchAll | TextSearch(terms: string)

  /** `if (search)`: an absent or empty search adds no condition. */
  function FilterOf(q: PaginationQuery): (f: Filter)
    ensures f == MatchAll <==> q.search.None? || q.search.value == ""
    ensures f.TextSearch? ==> f.terms == q.search.value
  {
    if q.search.Some? && q.search.value != "" then TextSearch(q.search.value) else MatchAll
  }

  /** Whether a station satisfies a filter; the text-search semantics are a parameter. */
  predicate Admits(f: Filter, s: StationRecord, textMatch: (StationRecord, string) -> bool)
  {
    match f
    case MatchAll => true
    case TextSearch(terms) => textMatch(s, terms)
  }

  /** `find(query)` before sorting: the stations the filter admits, in store order. */
  function Matching(stations: seq<StationRecord>, f: Filter, textMatch: (StationRecord, string) -> bool)
    : (r: seq<StationRecord>)
    ensures |r| <= |stations|
    ensures forall x :: x in r <==> x in stations && Admits(f, x, textMatch)
    ensures f == MatchAll ==> r == stations
  {
    if stations == [] then []
    else
      var rest := Matching(stations[1..], f, textMatch);
      if Admits(f, stations[0], textMatch) then [stations[0]] + rest else rest
  }

  /** The matches keep every copy of an admitted station, as `countDocuments` counts them, and no refused one. */
  lemma {:induction false} MatchingCounts(stations: seq<StationRecord>, f: Filter,
                                          textMatch: (StationRecord, string) -> bool)
    ensures forall x :: multiset(Matching(stations, f, textMatch))[x]
                        == if Admits(f, x, textMatch) then multiset(stations)[x] else 0
  {
    if stations != [] {
      MatchingCounts(stations[1..], f, textMatch);
      assert stations == [stations[0]] + stations[1..];
    }
  }

  /** `sort({ createdAt: -1 })` holds. */
  predicate NewestFirst(s: seq<StationRecord>)
  {
    forall i, j :: 0 <= i < j < |s| ==> s[i].createdAt >= s[j].createdAt
  }

  /** Putting a station in front of a newest-first list keeps it newest first when it is not older than the head. */
  lemma ConsNewestFirst(y: StationRecord, t: seq<StationRecord>)
    requires NewestFirst(t)
    requires t == [] || y.createdAt >= t[0].createdAt
    ensures NewestFirst([y] + t)
  {
    var u := [y] + t;
    forall i, j | 0 <= i < j < |u|
      ensures u[i].createdAt >= u[j].createdAt
    {
      if i == 0 && j > 1 {
        assert u[j] == t[j - 1] && t[0].createdAt >= t[j - 1].createdAt;
      }
    }
  }

  /** One insertion step of the sort. */
  function Insert(x: StationRecord, s: seq<StationRecord>): (r: seq<StationRecord>)
    requires NewestFirst(s)
    ensures NewestFirst(r)
    ensures multiset(r) == multiset(s) + multiset{x}
    ensures |r| == |s| + 1
    ensures r[0] == x || (s != [] && r[0] == s[0])
  {
    if s == [] then [x]
    else if x.createdAt >= s[0].createdAt then
      ConsNewestFirst(x, s);
      [x] + s
    else
      var tail := Insert(x, s[1..]);
      assert s == [s[0]] + s[1..];
      assert |s| > 1 ==> s[0].createdAt >= s[1..][0].createdAt;
      ConsNewestFirst(s[0], tail);
      assert multiset([s[0]] + tail) == multiset{s[0]} + multiset(tail);
      [s[0]] + tail
  }

  /** The stations newest first: sorted by `createdAt` descending, and a permutation of the input. */
  function SortNewestFirst(s: seq<StationRecord>): (r: seq<StationRecord>)
    ensures NewestFirst(r)
    ensures multiset(r) == multiset(s)
    ensures |r| == |s|
  {
    if s == [] then []
    else
      assert s == [s[0]] + s[1..];
      Insert(s[0], SortNewestFirst(s[1..]))
  }

  /** `Math.ceil(a / b)` for a non-zero divisor. */
  function CeilDiv(a: int, b: int): (q: int)
    requires b != 0
    ensures b > 0 ==> (q - 1) * b < a <= q * b
    ensures b < 0 ==> q * b <= a < (q - 1) * b
  {
    if b > 0 then
      var d, m := (-a) / b, (-a) % b;
      assert -a == d * b + m && 0 <= m < b;
      assert (-d - 1) * b == -d * b - b;
      -d
    else
      var d, m := a / (-b), a % (-b);
      assert a == d * (-b) + m && 0 <= m < -b;
      assert (-d - 1) * b == d * (-b) + (-b);
      -d
  }

  /** The effective `limit` and `page`: 10 and 1 when absent. */
  function LimitOf(q: PaginationQuery): int { q.limit.GetOr(DefaultLimit) }
  function PageOf(q: PaginationQuery): int { q.page.GetOr(DefaultPage) }

  /** `(page - 1) * limit`. */
  function Skip(q: PaginationQuery): (s: int)
    ensures PageOf(q) >= 1 && LimitOf(q) >= 0 ==> s >= 0
    ensures PageOf(q) == 1 ==> s == 0
  {
    (PageOf(q) - 1) * LimitOf(q)
  }

  /** `totalPages`: `Math.ceil(count / limit)`; an infinite or NaN quotient (limit 0) is serialised as `null`. */
  function TotalPages(count: nat, limit: int): (r: Option<int>)
    ensures r.None? <==> limit == 0
    ensures limit > 0 ==> r.Some? && r.value >= 0 && (r.value - 1) * limit < count <= r.value * limit
  {
    if limit == 0 then None else Some(CeilDiv(count, limit))
  }

  /** The positions `[lo, hi)` of a window that skips `skip` and takes at most `take` of `n` items. */
  function Window(skip: nat, take: nat, n: nat): (w: (nat, nat))
    ensures w.0 <= w.1 <= n
    ensures w.1 - w.0 <= take
    ensures skip <= n ==> w.0 == skip
    ensures skip + take <= n ==> w.1 - w.0 == take
  {
    var lo := if skip <= n then skip else n;
    var hi := if skip + take <= n then skip + take else n;
    (lo, hi)
  }

  /** A page of the listing and its pagination block. */
  datatype Listing = Listing(items: seq<StationRecord>, current: int, total: nat, totalPages: Option<int>)

  /** The listing, or the store's refusal (a negative skip). */
  datatype ListOutcome = Listed(listing: Listing) | QueryFailed

  /** A slice of a permutation of `matching` holds only stations of `matching`. */
  lemma SliceMembers(sorted: seq<StationRecord>, matching: seq<StationRecord>, lo: nat, hi: nat)
    requires multiset(sorted) == multiset(matching) && lo <= hi <= |sorted|
    ensures forall x :: x in sorted[lo..hi] ==> x in matching
  {
    forall x | x in sorted[lo..hi]
      ensures x in matching
    {
      assert x in sorted;
      assert x in multiset(sorted);
    }
  }

  /** The listing for a given page size: sort, skip, take, count, as the query runs them. */
  function ListWith(stations: seq<StationRecord>, q: PaginationQuery, textMatch: (StationRecord, string) -> bool,
                    take: nat): (r: ListOutcome)
    ensures r.QueryFailed? <==> Skip(q) < 0
    ensures r.Listed? ==>
              var sorted := SortNewestFirst(Matching(stations, FilterOf(q), textMatch));
              var w := Window(Skip(q), take, |sorted|);
              && r.listing.items == sorted[w.0..w.1]
              && |r.listing.items| <= take
              && NewestFirst(r.listing.items)
              && (forall x :: x in r.listing.items ==> x in stations && Admits(FilterOf(q), x, textMatch))
              && r.listing.current == PageOf(q)
              && r.listing.total == |Matching(stations, FilterOf(q), textMatch)|
              && r.listing.totalPages == TotalPages(r.listing.total, LimitOf(q))
  {
    if Skip(q) < 0 then QueryFailed
    else
      var matching := Matching(stations, FilterOf(q), textMatch);
      var sorted := SortNewestFirst(matching);
      var w := Window(Skip(q), take, |sorted|);
      SliceMembers(sorted, matching, w.0, w.1);
      Listed(Listing(sorted[w.0..w.1], PageOf(q), |matching|, TotalPages(|matching|, LimitOf(q))))
  }

  /** `findAll` as written: the page always holds at most `PageSize` stations. */
  function FindAll(stations: seq<StationRecord>, q: PaginationQuery, textMatch: (StationRecord, string) -> bool)
    : (r: ListOutcome)
    ensures r.QueryFailed? <==> Skip(q) < 0
    ensures r.Listed? ==> |r.listing.items| <= PageSize && NewestFirst(r.listing.items)
    ensures r.Listed? ==> r.listing.current == PageOf(q)
    ensures r.Listed? ==> r.listing.total == |Matching(stations, FilterOf(q), textMatch)|
    ensures q.search.None? && r.Listed? ==> r.listing.total == |stations|
    ensures q == PaginationQuery(None, None, q.search) ==>
              r.Listed? && r.listing.current == 1
              && r.listing.totalPages == Some(CeilDiv(r.listing.total, 10))
              && r.listing.items == SortNewestFirst(Matching(stations, FilterOf(q), textMatch))[..Window(0, 10, r.listing.total).1]
  {
    ListWith(stations, q, textMatch, PageSize)
  }

  /** The count and page count do not depend on which page is asked for. */
  lemma TotalIndependentOfPage(stations: seq<StationRecord>, q: PaginationQuery, page: int,
                               textMatch: (StationRecord, string) -> bool)
    ensures var a, b := FindAll(stations, q, textMatch), FindAll(stations, q.(page := Some(page)), textMatch);
            a.Listed? && b.Listed? ==>
              b.listing.total == a.listing.total && b.listing.totalPages == a.listing.totalPages
  {
  }

  /**
   * With `limit` above the hard-coded page size, the station at sorted
   * position `PageSize` lies on no page: page 1 ends before it and every
   * later page starts after it.
   */
  lemma FixedPageSizeHidesStations(stations: seq<StationRecord>, limit: int, page: int, search: Option<string>,
                                   textMatch: (StationRecord, string) -> bool)
    requires limit > PageSize
    requires |Matching(stations, FilterOf(PaginationQuery(Some(limit), Some(page), search)), textMatch)| > PageSize
    ensures var q := PaginationQuery(Some(limit), Some(page), search);
            var n := |Matching(stations, FilterOf(q), textMatch)|;
            FindAll(stations, q, textMatch).Listed? ==>
              var w := Window(Skip(q), PageSize, n);
              !(w.0 <= PageSize < w.1)
  {
    var q := PaginationQuery(Some(limit), Some(page), search);
    if page < 1 {
      MulMonotone(page - 1, -1, limit);
    } else if page > 1 {
      MulMonotone(1, page - 1, limit);
    }
  }

  /** `.limit(n)` of the store: 0 means no limit, a negative n means |n|. */
  function StoreLimit(limit: int, n: nat): (take: nat)
    ensures limit > 0 ==> take == limit
  {
    if limit == 0 then n else if limit < 0 then -limit else limit
  }

  /** `findAll` as evidently intended: the page holds `limit` stations, matching skip and page count. */
  function FindAllIntended(stations: seq<StationRecord>, q: PaginationQuery, textMatch: (StationRecord, string) -> bool)
    : (r: ListOutcome)
    ensures r.QueryFailed? <==> Skip(q) < 0
    ensures r.Listed? && LimitOf(q) > 0 ==> |r.listing.items| <= LimitOf(q) && NewestFirst(r.listing.items)
    ensures r.Listed? ==> r.listing.total == |Matching(stations, FilterOf(q), textMatch)|
  {
    ListWith(stations, q, textMatch, StoreLimit(LimitOf(q), |stations|))
  }

  /** Multiplying by a positive number keeps the order. */
  lemma MulMonotone(a: int, c: int, b: int)
    requires a <= c && b > 0
    ensures a * b <= c * b
  {
    var e := c - a;
    assert c * b == a * b + e * b;
  }

  /** For b > 0, `k` is the quotient of `i` by `b` exactly when `i` lies in `[k*b, (k+1)*b)`. */
  lemma DivIsUnique(i: nat, b: int, k: int)
    requires b > 0
    ensures k * b <= i < (k + 1) * b <==> k == i / b
  {
    var d, m := i / b, i % b;
    assert i == d * b + m && 0 <= m < b;
    assert (d + 1) * b == d * b + b;
    assert (k + 1) * b == k * b + b;
    if k < d {
      MulMonotone(k + 1, d, b);
    } else if k > d {
      MulMonotone(d + 1, k, b);
    }
  }

  /** Position `i` (of `n`) lies in the window of page `page` exactly when `page` is `i / limit + 1`. */
  lemma PageHolds(i: nat, n: nat, limit: int, page: int)
    requires limit > 0 && page >= 1 && i < n
    ensures var w := Window((page - 1) * limit, limit, n);
            w.0 <= i < w.1 <==> page == i / limit + 1
  {
    var skip := (page - 1) * limit;
    MulMonotone(0, page - 1, limit);
    assert page * limit == skip + limit;
    DivIsUnique(i, limit, page - 1);
  }

  /** The page of position `i` is no later than the last page. */
  lemma HomeWithinTotal(i: nat, n: nat, limit: int)
    requires limit > 0 && i < n
    ensures 1 <= i / limit + 1 <= CeilDiv(n, limit)
  {
    var c := CeilDiv(n, limit);
    var home := i / limit + 1;
    DivIsUnique(i, limit, home - 1);
    if home > c {
      MulMonotone(c, home - 1, limit);
    }
  }

  /**
   * In the intended listing, every station position `i` lies on exactly one
   * page, page `i / limit + 1`, and that page is within `totalPages`.
   */
  lemma IntendedPagesPartition(stations: seq<StationRecord>, limit: int, search: Option<string>,
                               textMatch: (StationRecord, string) -> bool, i: nat)
    requires limit > 0
    requires i < |Matching(stations, FilterOf(PaginationQuery(Some(limit), None, search)), textMatch)|
    ensures var n := |Matching(stations, FilterOf(PaginationQuery(Some(limit), None, search)), textMatch)|;
            var home := i / limit + 1;
            && FindAllIntended(stations, PaginationQuery(Some(limit), Some(home), search), textMatch).Listed?
            && FindAllIntended(stations, PaginationQuery(Some(limit), Some(home), search), textMatch).listing.totalPages
               == Some(CeilDiv(n, limit))
            && 1 <= home <= CeilDiv(n, limit)
            && forall page :: page >= 1 ==>
                 var w := Window(Skip(PaginationQuery(Some(limit), Some(page), search)), limit, n);
                 (w.0 <= i < w.1 <==> page == home)
  {
    var q0 := PaginationQuery(Some(limit), None, search);
    var n := |Matching(stations, FilterOf(q0), textMatch)|;
    var home := i / limit + 1;
    var qh := q0.(page := Some(home));
    HomeWithinTotal(i, n, limit);
    MulMonotone(0, i / limit, limit);
    assert FilterOf(qh) == FilterOf(q0);
    assert Skip(qh) == (home - 1) * limit >= 0;
    var r := FindAllIntended(stations, qh, textMatch);
    assert r.Listed? && r.listing.total == n;
    assert r.listing.totalPages == TotalPages(n, limit);
    forall page | page >= 1
      ensures var w := Window(Skip(PaginationQuery(Some(limit), Some(page), search)), limit, n);
              (w.0 <= i < w.1 <==> page == home)
    {
      assert Skip(PaginationQuery(Some(limit), Some(page), search)) == (page - 1) * limit;
      PageHolds(i, n, limit, page);
    }
  }

  // ---------------------------------------------------------------------
  // Creation
  // ---------------------------------------------------------------------

  /** `{ ...req.body, createdBy: req.user?.id }`: the caller's id replaces any `createdBy` in the body. */
  function CreatePayload(body: StationPayload, caller: Option<string>): (p: StationPayload)
    ensures p.createdBy == caller
    ensures p.(createdBy := body.createdBy) == body
  {
    body.(createdBy := caller)
  }

  /** The outcome of `create`: the stored station, or the schema's message. */
  datatype CreateOutcome = Created(station: StationRecord) | Rejected(message: string)

  /** The station store, in insertion order. */
  class StationStore {
    var stations: seq<StationRecord>

    constructor ()
      ensures stations == []
    {
      stations := [];
    }

    /**
     * `create`: build the payload with the caller as `createdBy`, check it
     * against the schema, run the pre-save hook and store the document.
     */
    method Create(body: StationPayload, caller: Option<string>, now: int) returns (r: CreateOutcome)
      modifies this
      ensures var p := CreatePayload(body, caller);
              MissingField(p).Some? ==>
                r == Rejected(RequiredMessage(MissingField(p).value)) && stations == old(stations)
      ensures var p := CreatePayload(body, caller);
              MissingField(p).None? ==>
                && caller.Some?
                && r == Created(StationRecord(body.name.value, body.description.value, body.icon.value,
                                              body.category.value, HookSlug(body.slug.GetOr(""), body.name.value),
                                              caller.value,
                                              if body.location.LocationGiven? then Some(body.location.given) else None,
                                              now))
                && stations == old(stations) + [r.station]
    {
      var p := CreatePayload(body, caller);
      var missing := MissingField(p);
      if missing.Some? {
        return Rejected(RequiredMessage(missing.value));
      }
      var doc := new StationDocument(p, now);
      doc.PreSave();
      var station := doc.Record();
      stations := stations + [station];
      r := Created(station);
    }
  }
}
