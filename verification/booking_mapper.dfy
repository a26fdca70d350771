/** The projection of a booking into the view returned to clients. */
module BookingMapper {
  import opened Model

  datatype ItemInfo = ItemInfo(id: nat, name: string)
  datatype BookerInfo = BookerInfo(id: nat, name: string)

  /** Start and end are the booking's own timestamps; their ISO-8601 rendering
      is the identity on abstract time. */
  datatype BookingDto = BookingDto(id: nat, start: int, end: int, item: ItemInfo,
                                   booker: BookerInfo, status: Status)

  /** The booking a view describes. */
  function Described(d: BookingDto): Booking {
    Booking(d.id, d.start, d.end, d.item.id, d.booker.id, d.status)
  }

  /** The view carries the names of its item and booker as they are stored. */
  predicate NamedFromStore(s: Store, d: BookingDto) {
    && ItemById(s, d.item.id).Some? && d.item.name == ItemById(s, d.item.id).value.name
    && UserById(s, d.booker.id).Some? && d.booker.name == UserById(s, d.booker.id).value.name
  }

  /** toDto: the view loses nothing of the booking and adds the names of its
      item and booker as they are stored. */
  function ToDto(s: Store, b: Booking): (d: BookingDto)
    requires Resolves(s, b)
    ensures Described(d) == b
    ensures d.item.name == ItemById(s, b.itemId).value.name
    ensures d.booker.name == UserById(s, b.bookerId).value.name
    ensures NamedFromStore(s, d)
  {
    BookingDto(b.id, b.start, b.end,
               ItemInfo(b.itemId, ItemById(s, b.itemId).value.name),
               BookerInfo(b.bookerId, UserById(s, b.bookerId).value.name),
               b.status)
  }

  /** The list form of ToDto: one view per booking, in the same order. */
  function ToDtos(s: Store, bs: seq<Booking>): (ds: seq<BookingDto>)
    requires AllResolve(s, bs)
    ensures |ds| == |bs|
    ensures forall i :: 0 <= i < |bs| ==> ds[i] == ToDto(s, bs[i])
  {
    if bs == [] then [] else [ToDto(s, bs[0])] + ToDtos(s, bs[1..])
  }

  /** The views of a list of bookings of a well-formed store. */
  function Views(s: Store, bs: seq<Booking>): (ds: seq<BookingDto>)
    requires Wf(s)
    requires forall b :: b in bs ==> b in s.bookings
    ensures |ds| == |bs|
    ensures forall i :: 0 <= i < |bs| ==> Described(ds[i]) == bs[i]
    ensures AllResolve(s, bs)
    ensures forall i :: 0 <= i < |bs| ==> ds[i] == ToDto(s, bs[i])
    ensures forall i :: 0 <= i < |bs| ==> NamedFromStore(s, ds[i])
  {
    DrawnFromStoreResolves(s, bs);
    ToDtos(s, bs)
  }

  /** A view is the toDto of a booking exactly when it describes that booking
      and carries the stored names: the two facts pin the view down. */
  lemma ViewIsToDto(s: Store, d: BookingDto, b: Booking)
    requires Resolves(s, b)
    ensures d == ToDto(s, b) <==> Described(d) == b && NamedFromStore(s, d)
  {
    if Described(d) == b && NamedFromStore(s, d) {
      assert d.item == ItemInfo(b.itemId, ItemById(s, b.itemId).value.name);
      assert d.booker == BookerInfo(b.bookerId, UserById(s, b.bookerId).value.name);
    }
  }

  /** Distinct booking lists have distinct views. */
  lemma ViewsInjective(s: Store, bs: seq<Booking>, cs: seq<Booking>)
    requires Wf(s)
    requires forall b :: b in bs ==> b in s.bookings
    requires forall b :: b in cs ==> b in s.bookings
    requires Views(s, bs) == Views(s, cs)
    ensures bs == cs
  {
    var v := Views(s, bs);
    assert |bs| == |cs|;
    forall i | 0 <= i < |bs| ensures bs[i] == cs[i] {
      assert Described(v[i]) == bs[i];
    }
  }
}
