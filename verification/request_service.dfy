/** Item requests: creation, the caller's own requests, everybody else's
    requests page by page, and a single request, each listed with the items
    that answer it. */
module ItemRequestService {
  import opened Results
  import opened Model
  import opened ItemRequestMapper
  import ItemService
  import Tables
  import Seqs

  /** A Java int. */
  newtype Int32 = x: int | -0x8000_0000 <= x < 0x8000_0000

  /** Java int addition: the sum reduced to 32 bits, two's complement. */
  function Add32(a: Int32, b: Int32): (r: Int32)
    ensures -0x8000_0000 <= a as int + b as int < 0x8000_0000 ==> r as int == a as int + b as int
    ensures (r as int - (a as int + b as int)) % 0x1_0000_0000 == 0
  {
    var w := (a as int + b as int + 0x8000_0000) % 0x1_0000_0000 - 0x8000_0000;
    w as Int32
  }

  /** An optional Java int as an optional integer. */
  function Widen(o: Option<Int32>): (w: Option<int>)
    ensures w.Some? <==> o.Some?
    ensures o.Some? ==> w.value == o.value as int
  {
    if o.Some? then Some(o.value as int) else None
  }

  function Min(a: int, b: int): int { if a <= b then a else b }

  /** The page `xs[from..min(from + size, |xs|)]` of getAllRequests, computed
      with the sum in 32-bit arithmetic. None is the exception subList throws
      for a bad range. Without both parameters the whole list is returned. */
  function PageAsWritten<T>(xs: seq<T>, from: Option<Int32>, size: Option<Int32>): (r: Option<seq<T>>)
    ensures from.None? || size.None? ==> r == Some(xs)
    ensures from.Some? && size.Some? ==>
              var bound := Add32(from.value, size.value) as int;
              && (r.None? <==> from.value as int < |xs| && (from.value < 0 || bound < from.value as int))
              && (r.Some? ==>
                    && |r.value| == (if from.value as int >= |xs| then 0 else Min(bound, |xs|) - from.value as int)
                    && forall i :: 0 <= i < |r.value| ==> r.value[i] == xs[from.value as int + i])
  {
    if from.None? || size.None? then Some(xs)
    else
      var start := from.value as int;
      var end := Min(Add32(from.value, size.value) as int, |xs|);
      if start >= |xs| then Some([])
      else if start < 0 || end < start then None
      else Some(xs[start..end])
  }

  /** The page with the bound computed without overflow. */
  function Page<T>(xs: seq<T>, from: Option<int>, size: Option<int>): (r: Option<seq<T>>)
    ensures from.None? || size.None? ==> r == Some(xs)
    ensures from.Some? && size.Some? ==>
              (r.None? <==> from.value < 0 || (size.value < 0 && from.value < |xs|))
    ensures from.Some? && size.Some? && r.Some? ==>
              && |r.value| == (if from.value >= |xs| then 0 else Min(size.value, |xs| - from.value))
              && forall i :: 0 <= i < |r.value| ==> r.value[i] == xs[from.value + i]
  {
    if from.None? || size.None? then Some(xs)
    else
      var start := from.value;
      var end := Min(start + size.value, |xs|);
      if start >= |xs| then Some([])
      else if start < 0 || end < start then None
      else Some(xs[start..end])
  }

  /** Two consecutive pages of one size make up the page of twice that size:
      paging neither skips nor repeats a request. */
  lemma PagesTile<T>(xs: seq<T>, from: nat, size: nat)
    ensures Page(xs, Some(from), Some(size)).Some?
    ensures Page(xs, Some(from + size), Some(size)).Some?
    ensures Page(xs, Some(from), Some(size)).value + Page(xs, Some(from + size), Some(size)).value
            == Page(xs, Some(from), Some(2 * size)).value
  {
    var a := Page(xs, Some(from), Some(size)).value;
    var b := Page(xs, Some(from + size), Some(size)).value;
    var c := Page(xs, Some(from), Some(2 * size)).value;
    assert |a + b| == |c|;
    forall i | 0 <= i < |c| ensures (a + b)[i] == c[i] {
      if i < |a| {
        assert (a + b)[i] == a[i];
      } else {
        assert (a + b)[i] == b[i - |a|];
      }
    }
  }

  /** The written computation agrees with the page whenever the sum fits in
      32 bits. */
  lemma PageAsWrittenWithoutOverflow<T>(xs: seq<T>, from: Int32, size: Int32)
    requires -0x8000_0000 <= from as int + size as int < 0x8000_0000
    ensures PageAsWritten(xs, Some(from), Some(size)) == Page(xs, Some(from as int), Some(size as int))
  {
  }

  /** from = 1 and size = 2147483647 pass the gateway's checks (from >= 0,
      size > 0), but the sum wraps to a negative bound and subList throws,
      where the second request of two was due. */
  lemma PageOverflow(x: int, y: int)
    ensures PageAsWritten([x, y], Some(1 as Int32), Some(0x7FFF_FFFF as Int32)).None?
    ensures Page([x, y], Some(1), Some(0x7FFF_FFFF)) == Some([y])
  {
    assert Add32(1 as Int32, 0x7FFF_FFFF as Int32) as int == -0x8000_0000;
    assert [x, y][1..2] == [y];
  }

  function ByRequestor(u: nat): ItemRequest -> bool { (q: ItemRequest) => q.requestorId == u }
  function NotByRequestor(u: nat): ItemRequest -> bool { (q: ItemRequest) => q.requestorId != u }
  function CreatedDesc(q: ItemRequest): int { -q.created }

  /** The requests accepted by `p`, newest first. */
  function Newest(s: Store, p: ItemRequest -> bool): (r: seq<ItemRequest>)
    ensures forall q :: q in r <==> q in s.requests && p(q)
    ensures forall q :: multiset(r)[q] == if p(q) then multiset(s.requests)[q] else 0
    ensures forall i, j :: 0 <= i < j < |r| ==> r[i].created >= r[j].created
  {
    Seqs.FilterMembers(p, s.requests);
    Seqs.FilterCount(p, s.requests);
    Seqs.SortByMembers(Seqs.Filter(p, s.requests), CreatedDesc);
    Seqs.SortBy(Seqs.Filter(p, s.requests), CreatedDesc)
  }

  /** The answer list the grouping gives request `k`, empty when it has none. */
  function AnswersIn(g: map<nat, seq<Item>>, k: nat): seq<Item> {
    if k in g then g[k] else []
  }

  /** enrichRequestsWithItems: each request with the items answering it, in
      the order given; one grouped item query for all of them. */
  function Enrich(s: Store, qs: seq<ItemRequest>): (r: seq<RequestWithItemsDto>)
    ensures |r| == |qs|
    ensures forall i :: 0 <= i < |qs| ==>
              && Header(r[i]) == ToDto(qs[i])
              && r[i].items == Some(ResponseItems(ItemService.GetItemsByRequestId(s, qs[i].id)))
  {
    if qs == [] then []
    else
      var ids := Seqs.Map(RequestKey, qs);
      var g := ItemService.GetItemsByRequestIds(s, ids);
      assert forall i :: 0 <= i < |qs| ==>
               AnswersIn(g, qs[i].id) == ItemService.GetItemsByRequestId(s, qs[i].id) by {
        forall i | 0 <= i < |qs|
          ensures AnswersIn(g, qs[i].id) == ItemService.GetItemsByRequestId(s, qs[i].id)
        {
          assert ids[i] == qs[i].id;
        }
      }
      seq(|qs|, i requires 0 <= i < |qs| => ToRequestWithItemsDto(qs[i], Some(AnswersIn(g, qs[i].id))))
  }

  /** createRequest: the caller becomes the requestor; the request is stamped
      with `now`. */
  function CreateRequest(s: Store, description: string, userId: nat, now: int)
    : (r: Result<(Store, ItemRequestDto)>)
    ensures r.Err? <==> UserById(s, userId).None?
    ensures r.Err? ==> r.error == NotFound
    ensures r.Ok? ==>
              var (s', d) := r.value;
              && RequestById(s, d.id).None?
              && s' == s.(requests := s.requests + [ItemRequest(d.id, description, userId, now)])
              && d.description == description && d.created == now
  {
    var requestor :- Found(UserById(s, userId));
    var q := Saved(ToEntity(description, now), Tables.NextKey(s.requests, RequestKey), requestor.id);
    Ok((s.(requests := Tables.Append(s.requests, RequestKey, q)), ToDto(q)))
  }

  /** Listing requests with their answers keeps them newest first. */
  lemma EnrichKeepsOrder(s: Store, qs: seq<ItemRequest>)
    requires forall i, j :: 0 <= i < j < |qs| ==> qs[i].created >= qs[j].created
    ensures var r := Enrich(s, qs);
            forall i, j :: 0 <= i < j < |r| ==> r[i].created >= r[j].created
  {
    var r := Enrich(s, qs);
    forall i, j | 0 <= i < j < |r| ensures r[i].created >= r[j].created {
      assert Header(r[i]) == ToDto(qs[i]);
      assert Header(r[j]) == ToDto(qs[j]);
    }
  }

  /** getUserRequests: the caller's own requests, newest first. */
  function GetUserRequests(s: Store, userId: nat): (r: Result<seq<RequestWithItemsDto>>)
    ensures r.Err? <==> UserById(s, userId).None?
    ensures r.Err? ==> r.error == NotFound
    ensures r.Ok? ==> r.value == Enrich(s, Newest(s, ByRequestor(userId)))
    ensures r.Ok? ==> forall i, j :: 0 <= i < j < |r.value| ==> r.value[i].created >= r.value[j].created
  {
    var _ :- Found(UserById(s, userId));
    var qs := Newest(s, ByRequestor(userId));
    EnrichKeepsOrder(s, qs);
    Ok(Enrich(s, qs))
  }

  /** A run of consecutive entries of a newest-first list is a newest-first
      list of its members. */
  lemma RunOfNewest(all: seq<ItemRequest>, qs: seq<ItemRequest>, from: nat)
    requires from + |qs| <= |all|
    requires forall i :: 0 <= i < |qs| ==> qs[i] == all[from + i]
    requires forall i, j :: 0 <= i < j < |all| ==> all[i].created >= all[j].created
    ensures forall i :: 0 <= i < |qs| ==> qs[i] in all
    ensures forall i, j :: 0 <= i < j < |qs| ==> qs[i].created >= qs[j].created
  {
    forall i | 0 <= i < |qs| ensures qs[i] in all {
      assert qs[i] == all[from + i];
    }
    forall i, j | 0 <= i < j < |qs| ensures qs[i].created >= qs[j].created {
      assert qs[i] == all[from + i] && qs[j] == all[from + j];
    }
  }

  /** A page of a list holds members of the list in the list's order. */
  lemma PageOfNewest(all: seq<ItemRequest>, from: Option<int>, size: Option<int>)
    requires Page(all, from, size).Some?
    requires forall i, j :: 0 <= i < j < |all| ==> all[i].created >= all[j].created
    ensures var qs := Page(all, from, size).value;
            && (forall i :: 0 <= i < |qs| ==> qs[i] in all)
            && forall i, j :: 0 <= i < j < |qs| ==> qs[i].created >= qs[j].created
  {
    var qs := Page(all, from, size).value;
    if from.Some? && size.Some? && from.value < |all| {
      RunOfNewest(all, qs, from.value);
    } else {
      RunOfNewest(all, qs, 0);
    }
  }

  /** The same for the page as the source computes it. */
  lemma PageAsWrittenOfNewest(all: seq<ItemRequest>, from: Option<Int32>, size: Option<Int32>)
    requires PageAsWritten(all, from, size).Some?
    requires forall i, j :: 0 <= i < j < |all| ==> all[i].created >= all[j].created
    ensures var qs := PageAsWritten(all, from, size).value;
            && (forall i :: 0 <= i < |qs| ==> qs[i] in all)
            && forall i, j :: 0 <= i < j < |qs| ==> qs[i].created >= qs[j].created
  {
    var qs := PageAsWritten(all, from, size).value;
    if from.Some? && size.Some? && from.value as int < |all| {
      RunOfNewest(all, qs, from.value as int);
    } else {
      RunOfNewest(all, qs, 0);
    }
  }

  /** getAllRequests as written: everybody else's requests, newest first,
      cut to the page [from, from + size) when both are given, with the bound
      computed in 32-bit arithmetic. */
  function GetAllRequestsAsWritten(s: Store, userId: nat, from: Option<Int32>, size: Option<Int32>)
    : (r: Result<seq<RequestWithItemsDto>>)
    ensures r == Err(NotFound) <==> UserById(s, userId).None?
    ensures r == Err(Unexpected) <==>
              UserById(s, userId).Some? && PageAsWritten(Newest(s, NotByRequestor(userId)), from, size).None?
    ensures r.Err? ==> r.error == NotFound || r.error == Unexpected
    ensures r.Ok? ==>
              var page := PageAsWritten(Newest(s, NotByRequestor(userId)), from, size).value;
              && r.value == Enrich(s, page)
              && (forall i :: 0 <= i < |page| ==> page[i] in s.requests && page[i].requestorId != userId)
              && forall i, j :: 0 <= i < j < |r.value| ==> r.value[i].created >= r.value[j].created
  {
    var _ :- Found(UserById(s, userId));
    var all := Newest(s, NotByRequestor(userId));
    var page := PageAsWritten(all, from, size);
    if page.None? then Err(Unexpected)
    else
      PageAsWrittenOfNewest(all, from, size);
      EnrichKeepsOrder(s, page.value);
      Ok(Enrich(s, page.value))
  }

  /** getAllRequests with the page bound computed without overflow. */
  function GetAllRequests(s: Store, userId: nat, from: Option<Int32>, size: Option<Int32>)
    : (r: Result<seq<RequestWithItemsDto>>)
    ensures r == Err(NotFound) <==> UserById(s, userId).None?
    ensures r == Err(Unexpected) <==>
              UserById(s, userId).Some? && Page(Newest(s, NotByRequestor(userId)), Widen(from), Widen(size)).None?
    ensures r.Err? ==> r.error == NotFound || r.error == Unexpected
    ensures r.Ok? ==>
              var page := Page(Newest(s, NotByRequestor(userId)), Widen(from), Widen(size)).value;
              && r.value == Enrich(s, page)
              && (forall i :: 0 <= i < |page| ==> page[i] in s.requests && page[i].requestorId != userId)
              && forall i, j :: 0 <= i < j < |r.value| ==> r.value[i].created >= r.value[j].created
  {
    var _ :- Found(UserById(s, userId));
    var all := Newest(s, NotByRequestor(userId));
    var page := Page(all, Widen(from), Widen(size));
    if page.None? then Err(Unexpected)
    else
      PageOfNewest(all, Widen(from), Widen(size));
      EnrichKeepsOrder(s, page.value);
      Ok(Enrich(s, page.value))
  }

  /** The two agree whenever paging is off or from + size fits in 32 bits. */
  lemma {:induction false} AllRequestsAgreeWithoutOverflow(s: Store, userId: nat, from: Option<Int32>, size: Option<Int32>)
    requires from.Some? && size.Some? ==> -0x8000_0000 <= from.value as int + size.value as int < 0x8000_0000
    ensures GetAllRequestsAsWritten(s, userId, from, size) == GetAllRequests(s, userId, from, size)
  {
    var all := Newest(s, NotByRequestor(userId));
    if from.Some? && size.Some? {
      PageAsWrittenWithoutOverflow(all, from.value, size.value);
    }
  }

  /** getRequestById: a known caller sees any request, with its answers. */
  function GetRequestById(s: Store, requestId: nat, userId: nat): (r: Result<RequestWithItemsDto>)
    ensures r.Err? <==> UserById(s, userId).None? || RequestById(s, requestId).None?
    ensures r.Err? ==> r.error == NotFound
    ensures r.Ok? ==>
              && Header(r.value) == ToDto(RequestById(s, requestId).value)
              && r.value.id == requestId
              && r.value.items == Some(ResponseItems(ItemService.GetItemsByRequestId(s, requestId)))
  {
    var _ :- Found(UserById(s, userId));
    var q :- Found(RequestById(s, requestId));
    Ok(ToRequestWithItemsDto(q, Some(ItemService.GetItemsByRequestId(s, requestId))))
  }

  /** A stored request fetched by its id comes back with its answers. */
  lemma StoredRequestFetched(s: Store, userId: nat, q: ItemRequest)
    requires Wf(s)
    requires UserById(s, userId).Some?
    requires q in s.requests
    ensures GetRequestById(s, q.id, userId)
            == Ok(ToRequestWithItemsDto(q, Some(ItemService.GetItemsByRequestId(s, q.id))))
  {
    var k :| 0 <= k < |s.requests| && s.requests[k] == q;
    Tables.FindUnique(s.requests, RequestKey, k);
  }

  /** Every entry of the caller's list is exactly what fetching that request
      on its own returns. */
  lemma {:induction false} ListedRequestsMatchSingle(s: Store, userId: nat, i: nat)
    requires Wf(s)
    requires UserById(s, userId).Some?
    requires i < |Newest(s, ByRequestor(userId))|
    ensures var d := GetUserRequests(s, userId).value[i];
            GetRequestById(s, d.id, userId) == Ok(d)
  {
    var qs := Newest(s, ByRequestor(userId));
    var all := Enrich(s, qs);
    assert GetUserRequests(s, userId) == Ok(all);
    var d := all[i];
    var answers := ItemService.GetItemsByRequestId(s, qs[i].id);
    assert Header(d) == ToDto(qs[i]) && d.items == Some(ResponseItems(answers));
    assert d == ToRequestWithItemsDto(qs[i], Some(answers));
    assert qs[i] in s.requests;
    StoredRequestFetched(s, userId, qs[i]);
  }

  /** A created request can be fetched by its requestor straight away. */
  lemma {:induction false} CreatedRequestRetrievable(s: Store, description: string, userId: nat, now: int)
    requires CreateRequest(s, description, userId, now).Ok?
    ensures var (s', d) := CreateRequest(s, description, userId, now).value;
            var got := GetRequestById(s', d.id, userId);
            && got.Ok?
            && Header(got.value) == d
  {
    var (s', d) := CreateRequest(s, description, userId, now).value;
    var q := ItemRequest(d.id, description, userId, now);
    assert d.id == Tables.NextKey(s.requests, RequestKey);
    assert RequestById(s', d.id) == Some(q);
    assert UserById(s', userId) == UserById(s, userId);
  }
}
