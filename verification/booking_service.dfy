/** Booking lifecycle and booking lists. A booking is created WAITING; only
    the owner of its item may turn it APPROVED or REJECTED, and only once. */
module BookingService {
  import opened Results
  import opened Model
  import opened BookingRepository
  import opened BookingMapper
  import Tables
  import Seqs

  /** The list filters a client may ask for. */
  datatype BookingState = ALL | CURRENT | PAST | FUTURE | WAITING | REJECTED

  /** What a booking must satisfy at time `now` to be listed under `st`;
      every time comparison is strict. */
  function InState(st: BookingState, now: int): (p: Booking -> bool)
    ensures forall b :: p(b) <==>
              || st.ALL?
              || (st.CURRENT? && b.start < now < b.end)
              || (st.PAST? && b.end < now)
              || (st.FUTURE? && now < b.start)
              || (st.WAITING? && b.status == Status.WAITING)
              || (st.REJECTED? && b.status == Status.REJECTED)
  {
    match st
    case ALL => (b: Booking) => true
    case CURRENT => (b: Booking) => b.start < now && b.end > now
    case PAST => EndsBefore(now)
    case FUTURE => StartsAfter(now)
    case WAITING => HasStatus(Status.WAITING)
    case REJECTED => HasStatus(Status.REJECTED)
  }

  /** A booking that does not end before it starts is listed under at most
      one of PAST, CURRENT and FUTURE. */
  lemma TimeStatesExclusive(b: Booking, now: int)
    requires b.start <= b.end
    ensures !(InState(PAST, now)(b) && InState(CURRENT, now)(b))
    ensures !(InState(CURRENT, now)(b) && InState(FUTURE, now)(b))
    ensures !(InState(PAST, now)(b) && InState(FUTURE, now)(b))
  {
  }

  /** The only status changes the service makes: none, or a decision on a
      WAITING booking. */
  predicate Transition(before: Status, after: Status) {
    before == after || (before == Status.WAITING && after != Status.WAITING)
  }

  /** createBooking: the caller books someone else's available item. No
      check on the order of start and end, nor on overlapping bookings. */
  function CreateBooking(s: Store, itemId: nat, start: int, end: int, userId: nat)
    : (r: Result<(Store, BookingDto)>)
    ensures r == Err(NotFound) <==>
              || UserById(s, userId).None?
              || ItemById(s, itemId).None?
              || ItemById(s, itemId).value.ownerId == userId
    ensures r == Err(Validation) <==>
              && UserById(s, userId).Some?
              && ItemById(s, itemId).Some?
              && ItemById(s, itemId).value.ownerId != userId
              && !ItemById(s, itemId).value.available
    ensures r.Err? ==> r.error == NotFound || r.error == Validation
    ensures r.Ok? ==>
              var (s', d) := r.value;
              && |s'.bookings| == |s.bookings| + 1
              && var b := s'.bookings[|s.bookings|];
              && s' == s.(bookings := s.bookings + [b])
              && BookingById(s, b.id).None?
              && b.status == Status.WAITING && b.bookerId == userId && b.itemId == itemId
              && b.start == start && b.end == end
              && Described(d) == b
              && NamedFromStore(s', d)
  {
    var booker :- Found(UserById(s, userId));
    var item :- Found(ItemById(s, itemId));
    if item.ownerId == userId then Err(NotFound)
    else if !item.available then Err(Validation)
    else
      var b := Booking(Tables.NextKey(s.bookings, BookingKey), start, end, itemId, userId, Status.WAITING);
      var s' := s.(bookings := Tables.Append(s.bookings, BookingKey, b));
      assert Resolves(s', b);
      Ok((s', ToDto(s', b)))
  }

  /** approveBooking: the item's owner decides on a WAITING booking; only its
      status changes. */
  function ApproveBooking(s: Store, bookingId: nat, approved: bool, userId: nat)
    : (r: Result<(Store, BookingDto)>)
    requires Wf(s)
    ensures r == Err(NotFound) <==> BookingById(s, bookingId).None?
    ensures r == Err(Validation) <==>
              && BookingById(s, bookingId).Some?
              && var b := BookingById(s, bookingId).value;
              || OwnerOf(s.items, b.itemId) != Some(userId)
              || b.status != Status.WAITING
    ensures r.Err? ==> r.error == NotFound || r.error == Validation
    ensures r.Ok? ==>
              var (s', d) := r.value;
              var b := BookingById(s, bookingId).value;
              && Described(d) == b.(status := if approved then Status.APPROVED else Status.REJECTED)
              && s' == s.(bookings := Tables.Replace(s.bookings, BookingKey, Described(d)))
              && NamedFromStore(s', d)
              && Wf(s')
  {
    var b :- Found(BookingById(s, bookingId));
    if OwnerOf(s.items, b.itemId) != Some(userId) then Err(Validation)
    else if b.status != Status.WAITING then Err(Validation)
    else
      var b' := b.(status := if approved then Status.APPROVED else Status.REJECTED);
      var s' := s.(bookings := Tables.Replace(s.bookings, BookingKey, b'));
      ReplaceKeepsWf(s, b');
      Ok((s', ToDto(s', b')))
  }

  /** Replacing a booking by one with the same item and booker keeps the store well formed. */
  lemma ReplaceKeepsWf(s: Store, b': Booking)
    requires Wf(s)
    requires BookingById(s, b'.id).Some?
    requires BookingById(s, b'.id).value.itemId == b'.itemId
    requires BookingById(s, b'.id).value.bookerId == b'.bookerId
    ensures Wf(s.(bookings := Tables.Replace(s.bookings, BookingKey, b')))
  {
    var s' := s.(bookings := Tables.Replace(s.bookings, BookingKey, b'));
    var before := BookingById(s, b'.id).value;
    assert Resolves(s, before);
    forall i | 0 <= i < |s'.bookings| ensures Resolves(s', s'.bookings[i]) {
      assert Resolves(s, s.bookings[i]);
    }
  }

  /** getBookingById: visible to its booker and to its item's owner only. */
  function GetBookingById(s: Store, bookingId: nat, userId: nat): (r: Result<BookingDto>)
    requires Wf(s)
    ensures r.Ok? <==>
              && BookingById(s, bookingId).Some?
              && var b := BookingById(s, bookingId).value;
              || b.bookerId == userId
              || OwnerOf(s.items, b.itemId) == Some(userId)
    ensures r.Ok? ==> Described(r.value) == BookingById(s, bookingId).value
    ensures r.Ok? ==> NamedFromStore(s, r.value)
    ensures r.Err? ==> r.error == NotFound
  {
    var b :- Found(BookingById(s, bookingId));
    var isBooker := b.bookerId == userId;
    var isOwner := OwnerOf(s.items, b.itemId) == Some(userId);
    if !isBooker && !isOwner then Err(NotFound)
    else
      assert Resolves(s, b);
      Ok(ToDto(s, b))
  }

  /** getUserBookings: the caller's bookings in state `st`, latest start first;
      each state asks the repository its own finder. */
  function GetUserBookings(s: Store, userId: nat, st: BookingState, now: int)
    : (r: Result<seq<BookingDto>>)
    requires Wf(s)
    ensures r.Err? <==> UserById(s, userId).None?
    ensures r.Err? ==> r.error == NotFound
    ensures r.Ok? ==> r.value == Views(s, Seqs.Filter(InState(st, now), BookerAll(s, userId)))
    ensures r.Ok? ==> forall i :: 0 <= i < |r.value| ==>
              var b := Described(r.value[i]);
              b in s.bookings && b.bookerId == userId && InState(st, now)(b)
    ensures r.Ok? ==> forall i, j :: 0 <= i < j < |r.value| ==> r.value[i].start >= r.value[j].start
  {
    var _ :- Found(UserById(s, userId));
    var all := BookerAll(s, userId);
    Seqs.FilterMembers(InState(st, now), all);
    Seqs.FilterKeepsSorted(InState(st, now), all, StartDesc);
    BookerListsAreFilteredAll(s, userId, st, now);
    Ok(match st
      case ALL => Views(s, all)
      case CURRENT => Views(s, Seqs.Filter(InState(CURRENT, now), all))
      case PAST => Views(s, BookerEndedBefore(s, userId, now))
      case FUTURE => Views(s, BookerStartingAfter(s, userId, now))
      case WAITING => Views(s, BookerWithStatus(s, userId, Status.WAITING))
      case REJECTED => Views(s, BookerWithStatus(s, userId, Status.REJECTED)))
  }

  /** Each booker finder returns what filtering the ALL list by the state's
      condition returns, in the same order. */
  lemma BookerListsAreFilteredAll(s: Store, u: nat, st: BookingState, now: int)
    ensures st.PAST? ==> BookerEndedBefore(s, u, now) == Seqs.Filter(InState(st, now), BookerAll(s, u))
    ensures st.FUTURE? ==> BookerStartingAfter(s, u, now) == Seqs.Filter(InState(st, now), BookerAll(s, u))
    ensures st.WAITING? ==> BookerWithStatus(s, u, Status.WAITING) == Seqs.Filter(InState(st, now), BookerAll(s, u))
    ensures st.REJECTED? ==> BookerWithStatus(s, u, Status.REJECTED) == Seqs.Filter(InState(st, now), BookerAll(s, u))
    ensures st.ALL? ==> BookerAll(s, u) == Seqs.Filter(InState(st, now), BookerAll(s, u))
  {
    var p := InState(st, now);
    var q := ByBooker(u);
    if st.ALL? {
      AllPassFilter(p, BookerAll(s, u));
    } else if !st.CURRENT? {
      var cond := match st
        case PAST => EndsBefore(now)
        case FUTURE => StartsAfter(now)
        case WAITING => HasStatus(Status.WAITING)
        case _ => HasStatus(Status.REJECTED);
      assert p == cond;
      Seqs.FilterTwice(p, q, Both(q, cond), s.bookings);
      Seqs.SortFilterCommute(p, Seqs.Filter(q, s.bookings), StartDesc);
    }
  }

  /** A filter that accepts everything changes nothing. */
  lemma {:induction false} AllPassFilter(p: Booking -> bool, xs: seq<Booking>)
    requires forall b :: p(b)
    ensures Seqs.Filter(p, xs) == xs
  {
    if xs != [] {
      AllPassFilter(p, xs[1..]);
      assert xs == [xs[0]] + xs[1..];
    }
  }

  /** getOwnerBookings as written: its switch has no CURRENT case, so CURRENT
      falls to the default branch and is refused. */
  function GetOwnerBookingsAsWritten(s: Store, userId: nat, st: BookingState, now: int)
    : (r: Result<seq<BookingDto>>)
    requires Wf(s)
    ensures r == Err(NotFound) <==> UserById(s, userId).None?
    ensures r == Err(Validation) <==> UserById(s, userId).Some? && st.CURRENT?
    ensures r.Err? ==> r.error == NotFound || r.error == Validation
  {
    var _ :- Found(UserById(s, userId));
    var all := OwnerAll(s, userId);
    match st
    case ALL => Ok(Views(s, all))
    case PAST => Ok(Views(s, OwnerEndedBefore(s, userId, now)))
    case FUTURE => Ok(Views(s, OwnerStartingAfter(s, userId, now)))
    case WAITING => Ok(Views(s, OwnerWithStatus(s, userId, Status.WAITING)))
    case REJECTED => Ok(Views(s, OwnerWithStatus(s, userId, Status.REJECTED)))
    case CURRENT => Err(Validation)
  }

  /** An existing owner asking for CURRENT bookings is refused, even when one
      of the owner's items is booked right now. */
  lemma OwnerCurrentRefused(now: int)
    ensures var owner := User(1, "owner", "owner@example.com");
            var booker := User(2, "booker", "booker@example.com");
            var s := Store([owner, booker],
                           [Item(1, "drill", "cordless", true, 1, None)],
                           [Booking(1, now - 1, now + 1, 1, 2, Status.APPROVED)], [], []);
            && Wf(s)
            && Seqs.Filter(InState(CURRENT, now), OwnerAll(s, 1)) == s.bookings
            && GetOwnerBookingsAsWritten(s, 1, CURRENT, now) == Err(Validation)
  {
    var owner := User(1, "owner", "owner@example.com");
    var booker := User(2, "booker", "booker@example.com");
    var b := Booking(1, now - 1, now + 1, 1, 2, Status.APPROVED);
    var s := Store([owner, booker], [Item(1, "drill", "cordless", true, 1, None)], [b], [], []);
    assert s.users[1..] == [booker];
    assert Tables.Find([booker], UserKey, 2) == Some(booker);
    assert UserById(s, 2) == Tables.Find(s.users[1..], UserKey, 2);
    assert Resolves(s, b);
    var all := OwnerAll(s, 1);
    assert b in all;
    assert |all| == 1 by {
      Seqs.SortByMembers(Seqs.Filter(ByOwner(s.items, 1), s.bookings), StartDesc);
      assert Seqs.Filter(ByOwner(s.items, 1), s.bookings) == [b];
    }
    assert all == [b];
    assert Seqs.Filter(InState(CURRENT, now), [b]) == [b];
  }

  /** getOwnerBookings with the missing CURRENT case handled as for the booker:
      the owner's bookings running at `now`, strictly. */
  function GetOwnerBookings(s: Store, userId: nat, st: BookingState, now: int)
    : (r: Result<seq<BookingDto>>)
    requires Wf(s)
    ensures r.Err? <==> UserById(s, userId).None?
    ensures r.Err? ==> r.error == NotFound
    ensures r.Ok? ==> r.value == Views(s, Seqs.Filter(InState(st, now), OwnerAll(s, userId)))
    ensures r.Ok? ==> forall i :: 0 <= i < |r.value| ==>
              var b := Described(r.value[i]);
              b in s.bookings && OwnerOf(s.items, b.itemId) == Some(userId) && InState(st, now)(b)
    ensures r.Ok? ==> forall i, j :: 0 <= i < j < |r.value| ==> r.value[i].start >= r.value[j].start
    ensures !st.CURRENT? ==> r == GetOwnerBookingsAsWritten(s, userId, st, now)
  {
    var _ :- Found(UserById(s, userId));
    var all := OwnerAll(s, userId);
    Seqs.FilterMembers(InState(st, now), all);
    Seqs.FilterKeepsSorted(InState(st, now), all, StartDesc);
    OwnerListsAreFilteredAll(s, userId, st, now);
    Ok(match st
      case ALL => Views(s, all)
      case CURRENT => Views(s, Seqs.Filter(InState(CURRENT, now), all))
      case PAST => Views(s, OwnerEndedBefore(s, userId, now))
      case FUTURE => Views(s, OwnerStartingAfter(s, userId, now))
      case WAITING => Views(s, OwnerWithStatus(s, userId, Status.WAITING))
      case REJECTED => Views(s, OwnerWithStatus(s, userId, Status.REJECTED)))
  }

  /** Each owner finder returns the owner's ALL list filtered by the state's condition. */
  lemma OwnerListsAreFilteredAll(s: Store, u: nat, st: BookingState, now: int)
    ensures st.PAST? ==> OwnerEndedBefore(s, u, now) == Seqs.Filter(InState(st, now), OwnerAll(s, u))
    ensures st.FUTURE? ==> OwnerStartingAfter(s, u, now) == Seqs.Filter(InState(st, now), OwnerAll(s, u))
    ensures st.WAITING? ==> OwnerWithStatus(s, u, Status.WAITING) == Seqs.Filter(InState(st, now), OwnerAll(s, u))
    ensures st.REJECTED? ==> OwnerWithStatus(s, u, Status.REJECTED) == Seqs.Filter(InState(st, now), OwnerAll(s, u))
    ensures st.ALL? ==> OwnerAll(s, u) == Seqs.Filter(InState(st, now), OwnerAll(s, u))
  {
    var p := InState(st, now);
    var q := ByOwner(s.items, u);
    if st.ALL? {
      AllPassFilter(p, OwnerAll(s, u));
    } else if !st.CURRENT? {
      var cond := match st
        case PAST => EndsBefore(now)
        case FUTURE => StartsAfter(now)
        case WAITING => HasStatus(Status.WAITING)
        case _ => HasStatus(Status.REJECTED);
      assert p == cond;
      Seqs.FilterTwice(p, q, Both(q, cond), s.bookings);
      Seqs.SortFilterCommute(p, Seqs.Filter(q, s.bookings), StartDesc);
    }
  }

  /** A decided booking cannot be decided again, by anyone. */
  lemma {:induction false} SecondApprovalFails(s: Store, bookingId: nat, approved: bool, userId: nat,
                                               approved2: bool, userId2: nat)
    requires Wf(s)
    requires ApproveBooking(s, bookingId, approved, userId).Ok?
    ensures var s' := ApproveBooking(s, bookingId, approved, userId).value.0;
            Wf(s') && ApproveBooking(s', bookingId, approved2, userId2) == Err(Validation)
  {
    var (s', d) := ApproveBooking(s, bookingId, approved, userId).value;
    Tables.ReplaceFind(s.bookings, BookingKey, Described(d), bookingId);
  }

  /** Approval moves the chosen booking from WAITING to a decision and leaves
      every other booking as it was. */
  lemma {:induction false} ApprovalIsATransition(s: Store, bookingId: nat, approved: bool, userId: nat, id: nat)
    requires Wf(s)
    requires ApproveBooking(s, bookingId, approved, userId).Ok?
    ensures var s' := ApproveBooking(s, bookingId, approved, userId).value.0;
            && BookingById(s', id).Some? == BookingById(s, id).Some?
            && (BookingById(s, id).Some? ==>
                  Transition(BookingById(s, id).value.status, BookingById(s', id).value.status))
            && (id != bookingId ==> BookingById(s', id) == BookingById(s, id))
            && (id == bookingId ==> BookingById(s', id).value.status
                                    == if approved then Status.APPROVED else Status.REJECTED)
  {
    var (s', d) := ApproveBooking(s, bookingId, approved, userId).value;
    Tables.ReplaceFind(s.bookings, BookingKey, Described(d), id);
  }

  /** Creating a booking adds one WAITING booking and changes no existing one. */
  lemma {:induction false} CreationIsATransition(s: Store, itemId: nat, start: int, end: int, userId: nat, id: nat)
    requires CreateBooking(s, itemId, start, end, userId).Ok?
    ensures var s' := CreateBooking(s, itemId, start, end, userId).value.0;
            && (BookingById(s, id).Some? ==> BookingById(s', id) == BookingById(s, id))
            && (BookingById(s, id).None? && BookingById(s', id).Some? ==>
                  BookingById(s', id).value.status == Status.WAITING)
  {
    var (s', d) := CreateBooking(s, itemId, start, end, userId).value;
    Tables.AppendFind(s.bookings, BookingKey, Described(d));
  }

  /** A created booking keeps the store well formed, and its booker then sees
      it exactly as it was returned. */
  lemma {:induction false} CreatedBookingVisibleToBooker(s: Store, itemId: nat, start: int, end: int, userId: nat)
    requires Wf(s)
    requires CreateBooking(s, itemId, start, end, userId).Ok?
    ensures var (s', d) := CreateBooking(s, itemId, start, end, userId).value;
            Wf(s') && GetBookingById(s', d.id, userId) == Ok(d)
  {
    var (s', d) := CreateBooking(s, itemId, start, end, userId).value;
    var b := Described(d);
    assert s'.bookings == Tables.Append(s.bookings, BookingKey, b);
    assert Resolves(s', b);
    forall i | 0 <= i < |s'.bookings| ensures Resolves(s', s'.bookings[i]) {
      if i < |s.bookings| {
        assert Resolves(s, s.bookings[i]);
      }
    }
  }
}
