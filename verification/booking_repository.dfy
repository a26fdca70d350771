/** The booking finders of the repository: each is a WHERE clause over the
    bookings table followed by an ORDER BY. Ties in the ORDER BY key keep
    the table's order. */
module BookingRepository {
  import opened Results
  import opened Model
  import Seqs

  function StartDesc(b: Booking): int { -b.start }
  function StartAsc(b: Booking): int { b.start }
  function EndDesc(b: Booking): int { -b.end }

  /** The rows of `bs` accepted by `p`, each as often as it occurs there,
      ordered by ascending `key`. */
  function Select(bs: seq<Booking>, p: Booking -> bool, key: Booking -> int): (r: seq<Booking>)
    ensures forall b :: b in r <==> b in bs && p(b)
    ensures forall b :: multiset(r)[b] == if p(b) then multiset(bs)[b] else 0
    ensures Seqs.SortedBy(r, key)
  {
    Seqs.FilterMembers(p, bs);
    Seqs.FilterCount(p, bs);
    Seqs.SortByMembers(Seqs.Filter(p, bs), key);
    Seqs.SortBy(Seqs.Filter(p, bs), key)
  }

  function ByBooker(u: nat): Booking -> bool { (b: Booking) => b.bookerId == u }
  function ByOwner(items: seq<Item>, u: nat): Booking -> bool {
    (b: Booking) => OwnerOf(items, b.itemId) == Some(u)
  }
  function HasStatus(st: Status): Booking -> bool { (b: Booking) => b.status == st }
  function EndsBefore(t: int): Booking -> bool { (b: Booking) => b.end < t }
  function StartsAfter(t: int): Booking -> bool { (b: Booking) => b.start > t }
  /** The conjunction of two WHERE conditions. */
  function Both(p: Booking -> bool, q: Booking -> bool): Booking -> bool { (b: Booking) => p(b) && q(b) }

  /** findByBookerIdOrderByStartDesc */
  function BookerAll(s: Store, u: nat): (r: seq<Booking>)
    ensures forall b :: b in r <==> b in s.bookings && b.bookerId == u
    ensures forall b :: multiset(r)[b] == if b.bookerId == u then multiset(s.bookings)[b] else 0
    ensures forall i, j :: 0 <= i < j < |r| ==> r[i].start >= r[j].start
  {
    Select(s.bookings, ByBooker(u), StartDesc)
  }

  /** findByItemOwnerIdOrderByStartDesc: bookings joined to their item's owner. */
  function OwnerAll(s: Store, u: nat): (r: seq<Booking>)
    ensures forall b :: b in r <==> b in s.bookings && OwnerOf(s.items, b.itemId) == Some(u)
    ensures forall b :: multiset(r)[b] ==
              if OwnerOf(s.items, b.itemId) == Some(u) then multiset(s.bookings)[b] else 0
    ensures forall i, j :: 0 <= i < j < |r| ==> r[i].start >= r[j].start
  {
    Select(s.bookings, ByOwner(s.items, u), StartDesc)
  }

  /** findByBookerIdAndStatusOrderByStartDesc */
  function BookerWithStatus(s: Store, u: nat, st: Status): (r: seq<Booking>)
    ensures forall b :: b in r <==> b in s.bookings && b.bookerId == u && b.status == st
    ensures forall b :: multiset(r)[b] == if b.bookerId == u && b.status == st then multiset(s.bookings)[b] else 0
    ensures forall i, j :: 0 <= i < j < |r| ==> r[i].start >= r[j].start
  {
    Select(s.bookings, Both(ByBooker(u), HasStatus(st)), StartDesc)
  }

  /** findByItemOwnerIdAndStatusOrderByStartDesc */
  function OwnerWithStatus(s: Store, u: nat, st: Status): (r: seq<Booking>)
    ensures forall b :: b in r <==> b in s.bookings && OwnerOf(s.items, b.itemId) == Some(u) && b.status == st
    ensures forall b :: multiset(r)[b] ==
              if OwnerOf(s.items, b.itemId) == Some(u) && b.status == st then multiset(s.bookings)[b] else 0
    ensures forall i, j :: 0 <= i < j < |r| ==> r[i].start >= r[j].start
  {
    Select(s.bookings, Both(ByOwner(s.items, u), HasStatus(st)), StartDesc)
  }

  /** findByBookerIdAndEndBeforeOrderByStartDesc: finished strictly before `t`. */
  function BookerEndedBefore(s: Store, u: nat, t: int): (r: seq<Booking>)
    ensures forall b :: b in r <==> b in s.bookings && b.bookerId == u && b.end < t
    ensures forall b :: multiset(r)[b] == if b.bookerId == u && b.end < t then multiset(s.bookings)[b] else 0
    ensures forall i, j :: 0 <= i < j < |r| ==> r[i].start >= r[j].start
  {
    Select(s.bookings, Both(ByBooker(u), EndsBefore(t)), StartDesc)
  }

  /** findByItemOwnerIdAndEndBeforeOrderByStartDesc */
  function OwnerEndedBefore(s: Store, u: nat, t: int): (r: seq<Booking>)
    ensures forall b :: b in r <==> b in s.bookings && OwnerOf(s.items, b.itemId) == Some(u) && b.end < t
    ensures forall b :: multiset(r)[b] ==
              if OwnerOf(s.items, b.itemId) == Some(u) && b.end < t then multiset(s.bookings)[b] else 0
    ensures forall i, j :: 0 <= i < j < |r| ==> r[i].start >= r[j].start
  {
    Select(s.bookings, Both(ByOwner(s.items, u), EndsBefore(t)), StartDesc)
  }

  /** findByBookerIdAndStartAfterOrderByStartDesc: starting strictly after `t`. */
  function BookerStartingAfter(s: Store, u: nat, t: int): (r: seq<Booking>)
    ensures forall b :: b in r <==> b in s.bookings && b.bookerId == u && b.start > t
    ensures forall b :: multiset(r)[b] == if b.bookerId == u && b.start > t then multiset(s.bookings)[b] else 0
    ensures forall i, j :: 0 <= i < j < |r| ==> r[i].start >= r[j].start
  {
    Select(s.bookings, Both(ByBooker(u), StartsAfter(t)), StartDesc)
  }

  /** findByItemOwnerIdAndStartAfterOrderByStartDesc */
  function OwnerStartingAfter(s: Store, u: nat, t: int): (r: seq<Booking>)
    ensures forall b :: b in r <==> b in s.bookings && OwnerOf(s.items, b.itemId) == Some(u) && b.start > t
    ensures forall b :: multiset(r)[b] ==
              if OwnerOf(s.items, b.itemId) == Some(u) && b.start > t then multiset(s.bookings)[b] else 0
    ensures forall i, j :: 0 <= i < j < |r| ==> r[i].start >= r[j].start
  {
    Select(s.bookings, Both(ByOwner(s.items, u), StartsAfter(t)), StartDesc)
  }

  /** An approved booking of the item that ended before `now`. */
  predicate IsPastApproved(b: Booking, itemId: nat, now: int) {
    b.itemId == itemId && b.end < now && b.status == APPROVED
  }

  /** An approved booking of the item that starts after `now`. */
  predicate IsFutureApproved(b: Booking, itemId: nat, now: int) {
    b.itemId == itemId && b.start > now && b.status == APPROVED
  }

  /** findLastBooking: the item's approved bookings that ended before `now`,
      latest end first. */
  function LastBookings(s: Store, itemId: nat, now: int): (r: seq<Booking>)
    ensures forall b :: b in r <==> b in s.bookings && IsPastApproved(b, itemId, now)
    ensures forall b :: multiset(r)[b] == if IsPastApproved(b, itemId, now) then multiset(s.bookings)[b] else 0
    ensures forall i, j :: 0 <= i < j < |r| ==> r[i].end >= r[j].end
  {
    Select(s.bookings, (b: Booking) => IsPastApproved(b, itemId, now), EndDesc)
  }

  /** findNextBooking: the item's approved bookings that start after `now`,
      earliest start first. */
  function NextBookings(s: Store, itemId: nat, now: int): (r: seq<Booking>)
    ensures forall b :: b in r <==> b in s.bookings && IsFutureApproved(b, itemId, now)
    ensures forall b :: multiset(r)[b] == if IsFutureApproved(b, itemId, now) then multiset(s.bookings)[b] else 0
    ensures forall i, j :: 0 <= i < j < |r| ==> r[i].start <= r[j].start
  {
    Select(s.bookings, (b: Booking) => IsFutureApproved(b, itemId, now), StartAsc)
  }

  /** findByBookerIdAndItemIdAndEndBefore: no status condition and no ORDER BY. */
  function BookerItemEndedBefore(s: Store, u: nat, itemId: nat, t: int): (r: seq<Booking>)
    ensures forall b :: b in r <==> b in s.bookings && b.bookerId == u && b.itemId == itemId && b.end < t
    ensures forall b :: multiset(r)[b] == if b.bookerId == u && b.itemId == itemId && b.end < t then multiset(s.bookings)[b] else 0
  {
    Seqs.FilterMembers((b: Booking) => b.bookerId == u && b.itemId == itemId && b.end < t, s.bookings);
    Seqs.FilterCount((b: Booking) => b.bookerId == u && b.itemId == itemId && b.end < t, s.bookings);
    Seqs.Filter((b: Booking) => b.bookerId == u && b.itemId == itemId && b.end < t, s.bookings)
  }
}
