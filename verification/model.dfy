/** The persisted entities of the sharing service and the store that holds
    them: one table per entity, rows in insertion order. Timestamps are
    abstract integers; a larger value is a later moment. */
module Model {
  import opened Results
  import Tables

  /** A booking's approval state: WAITING until the item's owner decides. */
  datatype Status = WAITING | APPROVED | REJECTED

  datatype User = User(id: nat, name: string, email: string)

  /** An item offered for rent; `requestId` names the request it answers, if any. */
  datatype Item = Item(id: nat, name: string, description: string, available: bool,
                       ownerId: nat, requestId: Option<nat>)

  /** A reservation of item `itemId` by user `bookerId` for [start, end]. */
  datatype Booking = Booking(id: nat, start: int, end: int, itemId: nat, bookerId: nat,
                             status: Status)

  /** A user's request for an item nobody offers yet. */
  datatype ItemRequest = ItemRequest(id: nat, description: string, requestorId: nat, created: int)

  /** Feedback left on an item by one of its past renters. */
  datatype Comment = Comment(id: nat, text: string, itemId: nat, authorId: nat, created: int)

  datatype Store = Store(users: seq<User>, items: seq<Item>, bookings: seq<Booking>,
                         requests: seq<ItemRequest>, comments: seq<Comment>)

  function UserKey(u: User): nat { u.id }
  function ItemKey(it: Item): nat { it.id }
  function BookingKey(b: Booking): nat { b.id }
  function RequestKey(r: ItemRequest): nat { r.id }
  function CommentKey(c: Comment): nat { c.id }

  function UserById(s: Store, id: nat): Option<User> { Tables.Find(s.users, UserKey, id) }
  function ItemById(s: Store, id: nat): Option<Item> { Tables.Find(s.items, ItemKey, id) }
  function BookingById(s: Store, id: nat): Option<Booking> { Tables.Find(s.bookings, BookingKey, id) }
  function RequestById(s: Store, id: nat): Option<ItemRequest> { Tables.Find(s.requests, RequestKey, id) }

  /** The owner of the item with id `itemId`, as the booking-to-item-to-owner join sees it. */
  function OwnerOf(items: seq<Item>, itemId: nat): Option<nat> {
    match Tables.Find(items, ItemKey, itemId)
    case Some(it) => Some(it.ownerId)
    case None => None
  }

  /** A booking's item and booker rows exist. */
  predicate Resolves(s: Store, b: Booking) {
    ItemById(s, b.itemId).Some? && UserById(s, b.bookerId).Some?
  }

  /** Primary keys are unique and every booking's foreign keys resolve, as the
      database's constraints guarantee. */
  ghost predicate Wf(s: Store) {
    && Tables.UniqueKeys(s.users, UserKey)
    && Tables.UniqueKeys(s.items, ItemKey)
    && Tables.UniqueKeys(s.bookings, BookingKey)
    && Tables.UniqueKeys(s.requests, RequestKey)
    && Tables.UniqueKeys(s.comments, CommentKey)
    && forall i :: 0 <= i < |s.bookings| ==> Resolves(s, s.bookings[i])
  }

  /** Every booking listed in `bs` resolves. */
  ghost predicate AllResolve(s: Store, bs: seq<Booking>) {
    forall i :: 0 <= i < |bs| ==> Resolves(s, bs[i])
  }

  /** A list drawn from the bookings table of a well-formed store resolves. */
  lemma DrawnFromStoreResolves(s: Store, bs: seq<Booking>)
    requires Wf(s)
    requires forall i :: 0 <= i < |bs| ==> bs[i] in s.bookings
    ensures AllResolve(s, bs)
  {
    forall i | 0 <= i < |bs| ensures Resolves(s, bs[i]) {
      var k :| 0 <= k < |s.bookings| && s.bookings[k] == bs[i];
    }
  }
}
