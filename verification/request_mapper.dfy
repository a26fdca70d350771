/** The conversions between item requests and their transfer objects. */
module ItemRequestMapper {
  import opened Results
  import opened Model

  /** A request as returned on creation. */
  datatype ItemRequestDto = ItemRequestDto(id: nat, description: string, created: int)

  /** An item answering a request, as listed under it. */
  datatype ResponseItem = ResponseItem(id: nat, name: string, ownerId: nat)

  /** A request with the items answering it; `items` is None when the caller
      passed no list, and the field is then left unset. */
  datatype RequestWithItemsDto = RequestWithItemsDto(id: nat, description: string, created: int,
                                                     items: Option<seq<ResponseItem>>)

  /** A request as a client submits it, before it is saved: it has no id and
      no requestor yet. */
  datatype Draft = Draft(description: string, created: int)

  /** toDto */
  function ToDto(q: ItemRequest): (d: ItemRequestDto)
    ensures d.id == q.id && d.description == q.description && d.created == q.created
  {
    ItemRequestDto(q.id, q.description, q.created)
  }

  /** The header fields of a request with items. */
  function Header(d: RequestWithItemsDto): ItemRequestDto {
    ItemRequestDto(d.id, d.description, d.created)
  }

  /** An item projected to the fields listed under a request. */
  function Respond(it: Item): (ri: ResponseItem)
    ensures ri.id == it.id && ri.name == it.name && ri.ownerId == it.ownerId
  {
    ResponseItem(it.id, it.name, it.ownerId)
  }

  /** The items, projected one by one and in the same order. */
  function ResponseItems(items: seq<Item>): (r: seq<ResponseItem>)
    ensures |r| == |items|
    ensures forall i :: 0 <= i < |items| ==> r[i] == Respond(items[i])
  {
    if items == [] then [] else [Respond(items[0])] + ResponseItems(items[1..])
  }

  /** toRequestWithItemsDto: the request's own fields, and the items only when
      a list is given. */
  function ToRequestWithItemsDto(q: ItemRequest, items: Option<seq<Item>>): (d: RequestWithItemsDto)
    ensures Header(d) == ToDto(q)
    ensures d.items.Some? <==> items.Some?
    ensures items.Some? ==> d.items.value == ResponseItems(items.value)
  {
    RequestWithItemsDto(q.id, q.description, q.created,
                        if items.Some? then Some(ResponseItems(items.value)) else None)
  }

  /** toEntity: the description as submitted, stamped with `now`. */
  function ToEntity(description: string, now: int): (q: Draft)
    ensures q.description == description && q.created == now
  {
    Draft(description, now)
  }

  /** The draft saved under `id` for `requestorId`. */
  function Saved(q: Draft, id: nat, requestorId: nat): (r: ItemRequest)
    ensures r.id == id && r.requestorId == requestorId
    ensures r.description == q.description && r.created == q.created
  {
    ItemRequest(id, q.description, requestorId, q.created)
  }

  /** A submitted description comes back unchanged, with the creation time,
      in the transfer object of the saved request. */
  lemma SubmittedComesBack(description: string, now: int, id: nat, requestorId: nat)
    ensures var d := ToDto(Saved(ToEntity(description, now), id, requestorId));
            d.id == id && d.description == description && d.created == now
  {
  }
}
