/** Items: creation, owner-only edits and deletion, the detailed view with
    booking hints and comments, search, comments from past renters, and the
    items answering given requests. */
module ItemService {
  import opened Results
  import opened Model
  import opened BookingRepository
  import opened BookingMapper
  import Tables
  import Seqs

  /** The fields a client supplies for a new item. */
  datatype NewItem = NewItem(name: string, description: string, available: bool, requestId: Option<nat>)

  /** A partial update: a None field is left as it is. */
  datatype ItemPatch = ItemPatch(name: Option<string>, description: Option<string>, available: Option<bool>)

  /** An item with its booking hints (owner only) and its comments. */
  datatype ItemWithBookings = ItemWithBookings(item: Item, lastBooking: Option<BookingDto>,
                                               nextBooking: Option<BookingDto>, comments: seq<Comment>)

  /** The request an item answers, as the grouping key. */
  function RequestOf(it: Item): Option<nat> { it.requestId }

  /** The items that answer request `requestId`, in table order. */
  function ItemsForRequest(s: Store, requestId: nat): seq<Item> {
    Seqs.Filter(Seqs.KeyIs(RequestOf, requestId), s.items)
  }

  /** The comment's item, as the grouping key. */
  function CommentItem(c: Comment): Option<nat> { Some(c.itemId) }

  /** The comments on item `itemId`, in table order (findByItemId). */
  function CommentsOf(s: Store, itemId: nat): (r: seq<Comment>)
    ensures forall c :: c in r <==> c in s.comments && c.itemId == itemId
    ensures forall c :: multiset(r)[c] == if c.itemId == itemId then multiset(s.comments)[c] else 0
  {
    Seqs.FilterMembers(Seqs.KeyIs(CommentItem, itemId), s.comments);
    Seqs.FilterCount(Seqs.KeyIs(CommentItem, itemId), s.comments);
    Seqs.KeyIsMeans(CommentItem, itemId);
    assert forall c :: CommentItem(c) == Some(itemId) <==> c.itemId == itemId;
    Seqs.Filter(Seqs.KeyIs(CommentItem, itemId), s.comments)
  }

  /** createItem: the caller becomes the owner; the request reference is kept. */
  function CreateItem(s: Store, dto: NewItem, userId: nat): (r: Result<(Store, Item)>)
    ensures r.Err? <==> UserById(s, userId).None?
    ensures r.Err? ==> r.error == NotFound
    ensures r.Ok? ==>
              var (s', it) := r.value;
              && s' == s.(items := s.items + [it])
              && ItemById(s, it.id).None?
              && ItemById(s', it.id) == Some(it)
              && it.ownerId == userId && it.requestId == dto.requestId
              && it.name == dto.name && it.description == dto.description
              && it.available == dto.available
  {
    var owner :- Found(UserById(s, userId));
    var it := Item(Tables.NextKey(s.items, ItemKey), dto.name, dto.description, dto.available,
                   userId, dto.requestId);
    Ok((s.(items := Tables.Append(s.items, ItemKey, it)), it))
  }

  /** The item with the supplied patch fields overwritten. */
  function Patched(it: Item, patch: ItemPatch): Item {
    it.(name := if patch.name.Some? then patch.name.value else it.name,
        description := if patch.description.Some? then patch.description.value else it.description,
        available := if patch.available.Some? then patch.available.value else it.available)
  }

  /** updateItem: only the owner may edit; only supplied fields change. */
  function UpdateItem(s: Store, itemId: nat, patch: ItemPatch, userId: nat): (r: Result<(Store, Item)>)
    ensures r.Err? <==> ItemById(s, itemId).None? || ItemById(s, itemId).value.ownerId != userId
    ensures r.Err? ==> r.error == NotFound
    ensures r.Ok? ==>
              var (s', it) := r.value;
              var before := ItemById(s, itemId).value;
              && s' == s.(items := Tables.Replace(s.items, ItemKey, it))
              && ItemById(s', itemId) == Some(it)
              && it.id == before.id && it.ownerId == before.ownerId && it.requestId == before.requestId
              && (patch.name.Some? ==> it.name == patch.name.value)
              && (patch.name.None? ==> it.name == before.name)
              && (patch.description.Some? ==> it.description == patch.description.value)
              && (patch.description.None? ==> it.description == before.description)
              && (patch.available.Some? ==> it.available == patch.available.value)
              && (patch.available.None? ==> it.available == before.available)
  {
    var before :- Found(ItemById(s, itemId));
    if before.ownerId != userId then Err(NotFound)
    else
      var it := Patched(before, patch);
      Tables.ReplaceFind(s.items, ItemKey, it, itemId);
      Ok((s.(items := Tables.Replace(s.items, ItemKey, it)), it))
  }

  /** Sending the same patch again changes nothing further. */
  lemma {:induction false} UpdateItemIdempotent(s: Store, itemId: nat, patch: ItemPatch, userId: nat)
    requires UpdateItem(s, itemId, patch, userId).Ok?
    ensures var (s', it) := UpdateItem(s, itemId, patch, userId).value;
            && UpdateItem(s', itemId, patch, userId).Ok?
            && UpdateItem(s', itemId, patch, userId).value.1 == it
  {
  }

  /** An edit changes no other item. */
  lemma {:induction false} UpdateItemLeavesOthers(s: Store, itemId: nat, patch: ItemPatch, userId: nat, other: nat)
    requires UpdateItem(s, itemId, patch, userId).Ok?
    requires other != itemId
    ensures ItemById(UpdateItem(s, itemId, patch, userId).value.0, other) == ItemById(s, other)
  {
    var (s', it) := UpdateItem(s, itemId, patch, userId).value;
    Tables.ReplaceFind(s.items, ItemKey, it, other);
  }

  /** getItemById: the item and its comments for everyone; the last finished
      and the next upcoming approved booking only for its owner. */
  function GetItemById(s: Store, itemId: nat, userId: nat, now: int): (r: Result<ItemWithBookings>)
    requires Wf(s)
    ensures r.Err? <==> ItemById(s, itemId).None?
    ensures r.Err? ==> r.error == NotFound
    ensures r.Ok? ==>
              var v := r.value;
              var it := ItemById(s, itemId).value;
              && v.item == it
              && v.comments == CommentsOf(s, itemId)
              && (forall c :: c in v.comments <==> c in s.comments && c.itemId == itemId)
              && (it.ownerId != userId ==> v.lastBooking.None? && v.nextBooking.None?)
              && (it.ownerId == userId ==>
                    && (v.lastBooking.Some? <==>
                          exists b :: b in s.bookings && IsPastApproved(b, itemId, now))
                    && (v.nextBooking.Some? <==>
                          exists b :: b in s.bookings && IsFutureApproved(b, itemId, now)))
              && (v.lastBooking.Some? ==>
                    var l := Described(v.lastBooking.value);
                    && l in s.bookings && IsPastApproved(l, itemId, now)
                    && forall b :: b in s.bookings && IsPastApproved(b, itemId, now) ==> b.end <= l.end)
              && (v.nextBooking.Some? ==>
                    var n := Described(v.nextBooking.value);
                    && n in s.bookings && IsFutureApproved(n, itemId, now)
                    && forall b :: b in s.bookings && IsFutureApproved(b, itemId, now) ==> n.start <= b.start)
              && (v.lastBooking.Some? ==> NamedFromStore(s, v.lastBooking.value))
              && (v.nextBooking.Some? ==> NamedFromStore(s, v.nextBooking.value))
  {
    var it :- Found(ItemById(s, itemId));
    var isOwner := it.ownerId == userId;
    Ok(ItemWithBookings(it, if isOwner then LastHint(s, itemId, now) else None,
                        if isOwner then NextHint(s, itemId, now) else None, CommentsOf(s, itemId)))
  }

  /** The view of the first booking of a list, if any. */
  function Head(s: Store, bs: seq<Booking>): (d: Option<BookingDto>)
    requires Wf(s)
    requires forall b :: b in bs ==> b in s.bookings
    ensures d.Some? <==> bs != []
    ensures d.Some? ==> Described(d.value) == bs[0]
    ensures d.Some? ==> NamedFromStore(s, d.value)
  {
    if bs == [] then None else Some(Views(s, [bs[0]])[0])
  }

  /** The head of findLastBooking: the approved booking of the item that
      ended last before `now`. */
  function LastHint(s: Store, itemId: nat, now: int): (d: Option<BookingDto>)
    requires Wf(s)
    ensures d.Some? <==> exists b :: b in s.bookings && IsPastApproved(b, itemId, now)
    ensures d.Some? ==>
              var l := Described(d.value);
              && l in s.bookings && IsPastApproved(l, itemId, now)
              && forall b :: b in s.bookings && IsPastApproved(b, itemId, now) ==> b.end <= l.end
    ensures d.Some? ==> NamedFromStore(s, d.value)
  {
    LastIsLatest(s, itemId, now);
    Head(s, LastBookings(s, itemId, now))
  }

  /** The head of findNextBooking: the approved booking of the item that
      starts first after `now`. */
  function NextHint(s: Store, itemId: nat, now: int): (d: Option<BookingDto>)
    requires Wf(s)
    ensures d.Some? <==> exists b :: b in s.bookings && IsFutureApproved(b, itemId, now)
    ensures d.Some? ==>
              var n := Described(d.value);
              && n in s.bookings && IsFutureApproved(n, itemId, now)
              && forall b :: b in s.bookings && IsFutureApproved(b, itemId, now) ==> n.start <= b.start
    ensures d.Some? ==> NamedFromStore(s, d.value)
  {
    NextIsEarliest(s, itemId, now);
    Head(s, NextBookings(s, itemId, now))
  }

  /** The head of findLastBooking, when there is one, ended last. */
  lemma LastIsLatest(s: Store, itemId: nat, now: int)
    ensures var last := LastBookings(s, itemId, now);
            && (last != [] <==> exists b :: b in s.bookings && IsPastApproved(b, itemId, now))
            && (last != [] ==>
                  && last[0] in s.bookings && IsPastApproved(last[0], itemId, now)
                  && forall b :: b in s.bookings && IsPastApproved(b, itemId, now) ==> b.end <= last[0].end)
  {
    var last := LastBookings(s, itemId, now);
    forall b | b in last ensures b.end <= last[0].end {
      var k :| 0 <= k < |last| && last[k] == b;
    }
  }

  /** The head of findNextBooking, when there is one, starts first. */
  lemma NextIsEarliest(s: Store, itemId: nat, now: int)
    ensures var next := NextBookings(s, itemId, now);
            && (next != [] <==> exists b :: b in s.bookings && IsFutureApproved(b, itemId, now))
            && (next != [] ==>
                  && next[0] in s.bookings && IsFutureApproved(next[0], itemId, now)
                  && forall b :: b in s.bookings && IsFutureApproved(b, itemId, now) ==> next[0].start <= b.start)
  {
    var next := NextBookings(s, itemId, now);
    forall b | b in next ensures next[0].start <= b.start {
      var k :| 0 <= k < |next| && next[k] == b;
    }
  }

  /** findByItemIdIn: comments on any of the given items. */
  function OnAnyItem(itemIds: seq<nat>): Comment -> bool {
    (c: Comment) => c.itemId in itemIds
  }

  /** getCommentsByItemIds: comments on the given items grouped by item; no
      query for an empty id list. */
  function CommentsByItemIds(s: Store, itemIds: seq<nat>): (g: map<nat, seq<Comment>>)
    ensures forall k :: k in itemIds ==> (if k in g then g[k] else []) == CommentsOf(s, k)
  {
    if itemIds == [] then map[]
    else
      var found := Seqs.Filter(OnAnyItem(itemIds), s.comments);
      assert forall k :: k in itemIds ==> CommentGroupOf(s, itemIds, k) == CommentsOf(s, k) by {
        forall k | k in itemIds ensures CommentGroupOf(s, itemIds, k) == CommentsOf(s, k) {
          CommentGroupLookup(s, itemIds, k);
        }
      }
      Seqs.GroupBy(found, CommentItem)
  }

  /** The bucket of item `k` in the grouping of comments on `itemIds`. */
  function CommentGroupOf(s: Store, itemIds: seq<nat>, k: nat): seq<Comment>
    requires itemIds != []
  {
    var g := Seqs.GroupBy(Seqs.Filter(OnAnyItem(itemIds), s.comments), CommentItem);
    if k in g then g[k] else []
  }

  lemma CommentGroupLookup(s: Store, itemIds: seq<nat>, k: nat)
    requires itemIds != [] && k in itemIds
    ensures CommentGroupOf(s, itemIds, k) == CommentsOf(s, k)
  {
    var found := Seqs.Filter(OnAnyItem(itemIds), s.comments);
    Seqs.GroupByLookup(found, CommentItem, k);
    Seqs.KeyIsMeans(CommentItem, k);
    forall c | c in s.comments && Seqs.KeyIs(CommentItem, k)(c) ensures OnAnyItem(itemIds)(c) {
      assert CommentItem(c) == Some(k);
    }
    Seqs.FilterOfFilter(Seqs.KeyIs(CommentItem, k), OnAnyItem(itemIds), s.comments);
  }

  /** A list entry: comments from the grouping, booking hints from the batch
      query results. */
  function ListView(s: Store, it: Item, lastOf: map<nat, Booking>, nextOf: map<nat, Booking>,
                    comments: map<nat, seq<Comment>>): (v: ItemWithBookings)
    requires forall k :: k in lastOf ==> Resolves(s, lastOf[k])
    requires forall k :: k in nextOf ==> Resolves(s, nextOf[k])
    ensures v.item == it
    ensures v.comments == if it.id in comments then comments[it.id] else []
    ensures v.lastBooking.Some? <==> it.id in lastOf
    ensures v.nextBooking.Some? <==> it.id in nextOf
    ensures it.id in lastOf ==> Described(v.lastBooking.value) == lastOf[it.id]
    ensures it.id in nextOf ==> Described(v.nextBooking.value) == nextOf[it.id]
    ensures v.lastBooking.Some? ==> NamedFromStore(s, v.lastBooking.value)
    ensures v.nextBooking.Some? ==> NamedFromStore(s, v.nextBooking.value)
  {
    ItemWithBookings(it,
      if it.id in lastOf then Some(ToDto(s, lastOf[it.id])) else None,
      if it.id in nextOf then Some(ToDto(s, nextOf[it.id])) else None,
      if it.id in comments then comments[it.id] else [])
  }

  /** One list entry per item, in the same order. */
  function ListViews(s: Store, items: seq<Item>, lastOf: map<nat, Booking>,
                     nextOf: map<nat, Booking>, comments: map<nat, seq<Comment>>)
    : (r: seq<ItemWithBookings>)
    requires forall k :: k in lastOf ==> Resolves(s, lastOf[k])
    requires forall k :: k in nextOf ==> Resolves(s, nextOf[k])
    ensures |r| == |items|
    ensures forall i :: 0 <= i < |items| ==> r[i] == ListView(s, items[i], lastOf, nextOf, comments)
  {
    if items == [] then []
    else [ListView(s, items[0], lastOf, nextOf, comments)] + ListViews(s, items[1..], lastOf, nextOf, comments)
  }

  /** findByOwnerId: the user's items in table order. */
  function OwnedItems(s: Store, userId: nat): (items: seq<Item>)
    ensures forall it :: it in items <==> it in s.items && it.ownerId == userId
    ensures forall it :: multiset(items)[it] == if it.ownerId == userId then multiset(s.items)[it] else 0
  {
    var owned := (it: Item) => it.ownerId == userId;
    Seqs.FilterMembers(owned, s.items);
    Seqs.FilterCount(owned, s.items);
    Seqs.Filter(owned, s.items)
  }

  /** The entries built from a grouping of the comments on exactly these
      items carry each item's own comments. */
  lemma ListViewsComments(s: Store, items: seq<Item>, lastOf: map<nat, Booking>,
                          nextOf: map<nat, Booking>)
    requires forall k :: k in lastOf ==> Resolves(s, lastOf[k])
    requires forall k :: k in nextOf ==> Resolves(s, nextOf[k])
    ensures var views := ListViews(s, items, lastOf, nextOf, CommentsByItemIds(s, Seqs.Map(ItemKey, items)));
            forall i :: 0 <= i < |views| ==> views[i].comments == CommentsOf(s, items[i].id)
  {
    var ids := Seqs.Map(ItemKey, items);
    var g := CommentsByItemIds(s, ids);
    var views := ListViews(s, items, lastOf, nextOf, g);
    forall i | 0 <= i < |views| ensures views[i].comments == CommentsOf(s, items[i].id) {
      var k := items[i].id;
      assert ids[i] == k;
      assert k in ids;
      assert (if k in g then g[k] else []) == CommentsOf(s, k);
      assert views[i] == ListView(s, items[i], lastOf, nextOf, g);
    }
  }

  /** getAllUserItems: the caller's items in table order, each with its
      comments. The batch queries for last and next bookings are not part of
      this model; their results arrive as `lastOf` and `nextOf`, keyed by item. */
  function GetAllUserItems(s: Store, userId: nat, lastOf: map<nat, Booking>, nextOf: map<nat, Booking>)
    : (r: Result<seq<ItemWithBookings>>)
    requires forall k :: k in lastOf ==> Resolves(s, lastOf[k])
    requires forall k :: k in nextOf ==> Resolves(s, nextOf[k])
    ensures r.Err? <==> UserById(s, userId).None?
    ensures r.Err? ==> r.error == NotFound
    ensures r.Ok? ==>
              var items := OwnedItems(s, userId);
              && |r.value| == |items|
              && forall i :: 0 <= i < |items| ==>
                   var v := r.value[i];
                   && v.item == items[i]
                   && v.comments == CommentsOf(s, items[i].id)
                   && (v.lastBooking.Some? <==> items[i].id in lastOf)
                   && (v.nextBooking.Some? <==> items[i].id in nextOf)
                   && (items[i].id in lastOf ==> Described(v.lastBooking.value) == lastOf[items[i].id])
                   && (items[i].id in nextOf ==> Described(v.nextBooking.value) == nextOf[items[i].id])
                   && (v.lastBooking.Some? ==> NamedFromStore(s, v.lastBooking.value))
                   && (v.nextBooking.Some? ==> NamedFromStore(s, v.nextBooking.value))
  {
    var _ :- Found(UserById(s, userId));
    var items := OwnedItems(s, userId);
    ListViewsComments(s, items, lastOf, nextOf);
    Ok(ListViews(s, items, lastOf, nextOf, CommentsByItemIds(s, Seqs.Map(ItemKey, items))))
  }

  /** String.isBlank: Character.isWhitespace holds of every character. */
  function IsBlank(text: string): (b: bool)
    ensures b <==> forall c :: c in text ==> IsWhitespace(c)
    ensures text == [] ==> b
  {
    forall i :: 0 <= i < |text| ==> IsWhitespace(text[i])
  }

  /** Character.isWhitespace: the Unicode space, line and paragraph separators
      other than the non-breaking ones, and the ASCII controls HT, LF, VT, FF,
      CR and FS, GS, RS, US. */
  function IsWhitespace(c: char): (b: bool)
    ensures c == ' ' || c == '\t' || c == '\n' || c == '\r' ==> b
    ensures c == '\U{00A0}' || c == '\U{2007}' || c == '\U{202F}' ==> !b
    ensures 'a' <= c <= 'z' || 'A' <= c <= 'Z' || '0' <= c <= '9' ==> !b
    ensures b ==> c <= '\U{3000}'
  {
    || c == ' ' || c == '\t' || c == '\n' || c == '\U{000B}' || c == '\U{000C}' || c == '\r'
    || '\U{001C}' <= c <= '\U{001F}'
    || c == '\U{1680}' || ('\U{2000}' <= c <= '\U{200A}' && c != '\U{2007}')
    || c == '\U{2028}' || c == '\U{2029}' || c == '\U{205F}' || c == '\U{3000}'
  }

  /** searchItems: nothing for a missing or blank text, without asking the
      store; otherwise the items the search query matches. The query's own
      condition is not part of this model and arrives as `matches`. */
  function SearchItems(s: Store, text: Option<string>, matches: (Item, string) -> bool): (r: seq<Item>)
    ensures text.None? || IsBlank(text.value) ==> r == []
    ensures text.Some? && !IsBlank(text.value) ==>
              forall it :: it in r <==> it in s.items && matches(it, text.value)
    ensures text.Some? && !IsBlank(text.value) ==>
              forall it :: multiset(r)[it] == if matches(it, text.value) then multiset(s.items)[it] else 0
  {
    if text.None? || IsBlank(text.value) then []
    else
      var p := (it: Item) => matches(it, text.value);
      Seqs.FilterMembers(p, s.items);
      Seqs.FilterCount(p, s.items);
      Seqs.Filter(p, s.items)
  }

  /** deleteItem: only the owner may delete. */
  function DeleteItem(s: Store, itemId: nat, userId: nat): (r: Result<Store>)
    ensures r.Err? <==> ItemById(s, itemId).None? || ItemById(s, itemId).value.ownerId != userId
    ensures r.Err? ==> r.error == NotFound
    ensures r.Ok? ==> r.value == s.(items := Tables.Delete(s.items, ItemKey, itemId))
    ensures r.Ok? ==> ItemById(r.value, itemId).None?
  {
    var it :- Found(ItemById(s, itemId));
    if it.ownerId != userId then Err(NotFound)
    else Ok(s.(items := Tables.Delete(s.items, ItemKey, itemId)))
  }

  /** After a delete the item is gone for everyone, and every other item is
      still found as before. */
  lemma {:induction false} DeletedItemNotFound(s: Store, itemId: nat, userId: nat, viewer: nat, other: nat, now: int)
    requires DeleteItem(s, itemId, userId).Ok?
    requires other != itemId
    ensures var s' := DeleteItem(s, itemId, userId).value;
            && ItemById(s', other) == ItemById(s, other)
            && (Wf(s') ==> GetItemById(s', itemId, viewer, now) == Err(NotFound))
  {
    Tables.DeleteFind(s.items, ItemKey, itemId, other);
  }

  /** hasUserBookedItem: some booking of the item by the user ended before
      `now` and was approved. The repository query filters on end only; the
      status condition is applied here. */
  function HasUserBookedItem(s: Store, itemId: nat, userId: nat, now: int): (r: bool)
    ensures r <==> exists b :: b in s.bookings && b.bookerId == userId && b.itemId == itemId
                                && b.end < now && b.status == Status.APPROVED
  {
    var past := BookerItemEndedBefore(s, userId, itemId, now);
    exists i :: 0 <= i < |past| && past[i].status == Status.APPROVED
  }

  /** addComment: only a past renter with an approved booking may comment;
      the comment is stamped with `now`. */
  function AddComment(s: Store, itemId: nat, text: string, userId: nat, now: int): (r: Result<(Store, Comment)>)
    ensures r == Err(NotFound) <==> ItemById(s, itemId).None? || UserById(s, userId).None?
    ensures r == Err(Validation) <==>
              && ItemById(s, itemId).Some? && UserById(s, userId).Some?
              && !exists b :: b in s.bookings && b.bookerId == userId && b.itemId == itemId
                                && b.end < now && b.status == Status.APPROVED
    ensures r.Err? ==> r.error == NotFound || r.error == Validation
    ensures r.Ok? ==>
              var (s', c) := r.value;
              && s' == s.(comments := s.comments + [c])
              && (forall i :: 0 <= i < |s.comments| ==> s.comments[i].id != c.id)
              && c.text == text && c.itemId == itemId && c.authorId == userId && c.created == now
  {
    var item :- Found(ItemById(s, itemId));
    var author :- Found(UserById(s, userId));
    if !HasUserBookedItem(s, itemId, userId, now) then Err(Validation)
    else
      var c := Comment(Tables.NextKey(s.comments, CommentKey), text, itemId, userId, now);
      Ok((s.(comments := Tables.Append(s.comments, CommentKey, c)), c))
  }

  /** findAllByRequestIdInWithOwner: items answering any of the given requests. */
  function AnswersAny(requestIds: seq<nat>): Item -> bool {
    (it: Item) => it.requestId.Some? && it.requestId.value in requestIds
  }

  /** The items answering any of the given requests, in table order. */
  function ItemsForRequests(s: Store, requestIds: seq<nat>): (r: seq<Item>)
    ensures forall i :: 0 <= i < |r| ==> RequestOf(r[i]).Some?
    ensures forall it :: it in r <==>
              it in s.items && it.requestId.Some? && it.requestId.value in requestIds
    ensures forall it :: multiset(r)[it] ==
              if it.requestId.Some? && it.requestId.value in requestIds then multiset(s.items)[it] else 0
  {
    Seqs.FilterMembers(AnswersAny(requestIds), s.items);
    Seqs.FilterCount(AnswersAny(requestIds), s.items);
    Seqs.Filter(AnswersAny(requestIds), s.items)
  }

  /** getItemsByRequestId */
  function GetItemsByRequestId(s: Store, requestId: nat): (r: seq<Item>)
    ensures r == ItemsForRequest(s, requestId)
    ensures forall it :: it in r <==> it in s.items && it.requestId == Some(requestId)
  {
    Seqs.KeyIsMeans(RequestOf, requestId);
    assert forall it :: AnswersAny([requestId])(it) == Seqs.KeyIs(RequestOf, requestId)(it) by {
      forall it ensures AnswersAny([requestId])(it) == Seqs.KeyIs(RequestOf, requestId)(it) {
        assert Seqs.KeyIs(RequestOf, requestId)(it) == (it.requestId == Some(requestId));
        if it.requestId.Some? {
          assert (it.requestId.value in [requestId]) == (it.requestId.value == requestId);
        }
      }
    }
    Seqs.FilterExt(AnswersAny([requestId]), Seqs.KeyIs(RequestOf, requestId), s.items);
    Seqs.FilterMembers(Seqs.KeyIs(RequestOf, requestId), s.items);
    ItemsForRequests(s, [requestId])
  }

  /** The bucket of request `k` in the grouping of items answering `requestIds`. */
  function ItemGroupOf(s: Store, requestIds: seq<nat>, k: nat): seq<Item> {
    var g := Seqs.GroupBy(ItemsForRequests(s, requestIds), RequestOf);
    if k in g then g[k] else []
  }

  lemma ItemGroupLookup(s: Store, requestIds: seq<nat>, k: nat)
    requires k in requestIds
    ensures ItemGroupOf(s, requestIds, k) == ItemsForRequest(s, k)
  {
    Seqs.GroupByLookup(ItemsForRequests(s, requestIds), RequestOf, k);
    Seqs.KeyIsMeans(RequestOf, k);
    forall it | it in s.items && Seqs.KeyIs(RequestOf, k)(it) ensures AnswersAny(requestIds)(it) {
      assert RequestOf(it) == Some(k);
    }
    Seqs.FilterOfFilter(Seqs.KeyIs(RequestOf, k), AnswersAny(requestIds), s.items);
  }

  /** getItemsByRequestIds: the items answering the given requests, grouped by
      request; a request nothing answers has no entry. */
  function GetItemsByRequestIds(s: Store, requestIds: seq<nat>): (g: map<nat, seq<Item>>)
    ensures requestIds == [] ==> g == map[]
    ensures forall k :: k in g ==> k in requestIds && g[k] == ItemsForRequest(s, k) && g[k] != []
    ensures forall k :: k in requestIds ==> (if k in g then g[k] else []) == ItemsForRequest(s, k)
  {
    if requestIds == [] then map[]
    else
      var found := ItemsForRequests(s, requestIds);
      var g := Seqs.GroupBy(found, RequestOf);
      assert forall k :: k in requestIds ==> ItemGroupOf(s, requestIds, k) == ItemsForRequest(s, k) by {
        forall k | k in requestIds ensures ItemGroupOf(s, requestIds, k) == ItemsForRequest(s, k) {
          ItemGroupLookup(s, requestIds, k);
        }
      }
      assert forall k :: k in g ==> k in requestIds && g[k] != [] by {
        forall k | k in g ensures k in requestIds && g[k] != [] {
          var i :| 0 <= i < |found| && RequestOf(found[i]) == Some(k);
          assert found[i] in Seqs.Filter(Seqs.KeyIs(RequestOf, k), found);
        }
      }
      g
  }
}
