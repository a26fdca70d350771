# ShareIt service layer in Dafny

ShareIt is a marketplace for lending things. Users list items. Other users
book them for a time window, and the owner approves or rejects each booking.
Past renters may comment on an item. A user who cannot find an item posts an
item request, and owners answer it by listing items that point to it.

This project models the business rules of the server's service layer as pure
functions over an in-memory store:

- `UserService`: registration with a unique e-mail address, partial updates, lookup, listing and removal.
- `ItemService`: items and their comments.
- `BookingService`: bookings.
- `ItemRequestService`: item requests.

Supporting modules:

- `BookingRepository`: the booking repository's finders.
- `BookingMapper`: the booking mapper.
- `ItemRequestMapper`: the request mapper.

The modules rest on three generic layers:

- `Results`: the service exceptions as values. `NotFound`, `Validation`, `Conflict` and `Unexpected` are the errors of `Result`.
- `Tables`: a database table as a sequence of rows in insertion order, keyed by a numeric id.
- `Seqs`: the meaning of a WHERE clause (`Filter`), an ORDER BY clause (a stable `SortBy`) and `Collectors.groupingBy` (`GroupBy`).

Modelling choices:

- **Store.** A `Model.Store` holds one table per entity. An entity refers to another by id.
- **Well-formed stores.** The operations that dereference a booking's item or booker require `Model.Wf`. It says that primary keys are unique and that every booking's item and booker exist, as the database's constraints guarantee.
- **Time.** Timestamps are integers, and a larger value is a later moment. The current time `now` is a parameter of every operation that reads the clock.
- **Pagination integers.** The `from` and `size` of `getAllRequests` are 32-bit Java ints, modelled by the `Int32` newtype. `ItemRequestService.GetAllRequestsAsWritten` computes the page bound `from + size` in 32-bit arithmetic, as the source does. `ItemRequestService.GetAllRequests` computes it without overflow (see Findings). The two agree whenever the sum fits in an int.

## Model

| member | source | states |
|---|---|---|
| Results.Found | server/src/main/java/ru/practicum/shareit/booking/service/BookingServiceImpl.java:138-151 | `orElseThrow(NotFoundException)`: the row when the lookup found one, NotFound exactly when it did not |
| Seqs.GroupBy | server/src/main/java/ru/practicum/shareit/item/service/ItemServiceImpl.java:192-197 | `groupingBy`: a key has a bucket exactly when some element has that key, and its bucket is the elements with that key in list order |
| Seqs.GroupByLookup | server/src/main/java/ru/practicum/shareit/item/service/ItemServiceImpl.java:103 | `getOrDefault(k, empty)` on a grouping is the filter of the list by key k, also for keys without a bucket |
| Seqs.SortBy | src/main/java/ru/practicum/shareit/booking/repository/BookingRepository.java:14-28 | ORDER BY: the result is ordered by the key and is a permutation of the input |
| Seqs.SortFilterCommute | server/src/main/java/ru/practicum/shareit/booking/service/BookingServiceImpl.java:131-136 | filtering a start-ordered list gives the same list as ordering the filtered rows: the in-memory CURRENT filter agrees with a query that filters first |
| Seqs.FilterKeepsDistinct | src/main/java/ru/practicum/shareit/user/service/UserServiceImpl.java:59 | removing rows keeps any per-row key distinct |
| Tables.Find | server/src/main/java/ru/practicum/shareit/booking/service/BookingServiceImpl.java:148-151 | `findById`: a found row carries the id and is in the table; nothing is found exactly when no row carries the id |
| Tables.FindUnique | server/src/main/java/ru/practicum/shareit/booking/service/BookingServiceImpl.java:148-151 | with unique keys, looking up a row's own id returns that row |
| Tables.NextKey | server/src/main/java/ru/practicum/shareit/booking/service/BookingServiceImpl.java:54 | the id `save` assigns to a new row is carried by no existing row |
| Tables.Append | server/src/main/java/ru/practicum/shareit/booking/service/BookingServiceImpl.java:54 | `save` of a new row: keys stay unique, the new row is found by its id, every other id finds what it found before |
| Tables.Replace | server/src/main/java/ru/practicum/shareit/booking/service/BookingServiceImpl.java:71 | `save` of an existing row: rows carrying its id are replaced, every other row is unchanged and in place |
| Tables.ReplaceFind | server/src/main/java/ru/practicum/shareit/item/service/ItemServiceImpl.java:66 | after a replace, its id finds the new row if it was present, and any other id finds what it found before |
| Tables.Delete | server/src/main/java/ru/practicum/shareit/item/service/ItemServiceImpl.java:124 | `deleteById`: the id is no longer found; every kept row was in the table and every row under another id is kept |
| Tables.DeleteFind | server/src/main/java/ru/practicum/shareit/item/service/ItemServiceImpl.java:124 | a delete leaves the lookup of every other id unchanged |
| BookingRepository.BookerAll | src/main/java/ru/practicum/shareit/booking/repository/BookingRepository.java:14 | exactly the bookings by the booker, latest start first; each as often as in the table, so a permutation of the matching rows |
| BookingRepository.OwnerAll | src/main/java/ru/practicum/shareit/booking/repository/BookingRepository.java:16 | exactly the bookings whose item the user owns, latest start first; each as often as in the table, so a permutation of the matching rows |
| BookingRepository.BookerWithStatus | src/main/java/ru/practicum/shareit/booking/repository/BookingRepository.java:18 | exactly the booker's bookings in the status, latest start first; each as often as in the table, so a permutation of the matching rows |
| BookingRepository.OwnerWithStatus | src/main/java/ru/practicum/shareit/booking/repository/BookingRepository.java:20 | exactly the owner's bookings in the status, latest start first; each as often as in the table, so a permutation of the matching rows |
| BookingRepository.BookerEndedBefore | src/main/java/ru/practicum/shareit/booking/repository/BookingRepository.java:22 | exactly the booker's bookings ending strictly before the time, latest start first; each as often as in the table, so a permutation of the matching rows |
| BookingRepository.OwnerEndedBefore | src/main/java/ru/practicum/shareit/booking/repository/BookingRepository.java:24 | exactly the owner's bookings ending strictly before the time, latest start first; each as often as in the table, so a permutation of the matching rows |
| BookingRepository.BookerStartingAfter | src/main/java/ru/practicum/shareit/booking/repository/BookingRepository.java:26 | exactly the booker's bookings starting strictly after the time, latest start first; each as often as in the table, so a permutation of the matching rows |
| BookingRepository.OwnerStartingAfter | src/main/java/ru/practicum/shareit/booking/repository/BookingRepository.java:28 | exactly the owner's bookings starting strictly after the time, latest start first; each as often as in the table, so a permutation of the matching rows |
| BookingRepository.LastBookings | src/main/java/ru/practicum/shareit/booking/repository/BookingRepository.java:30-31 | exactly the item's APPROVED bookings that ended before now, latest end first; each as often as in the table, so a permutation of the matching rows |
| BookingRepository.NextBookings | src/main/java/ru/practicum/shareit/booking/repository/BookingRepository.java:33-34 | exactly the item's APPROVED bookings that start after now, earliest start first; each as often as in the table, so a permutation of the matching rows |
| BookingRepository.BookerItemEndedBefore | src/main/java/ru/practicum/shareit/booking/repository/BookingRepository.java:36 | exactly the booker's bookings of the item that ended before the time, of any status; each as often as in the table, so a permutation of the matching rows |
| BookingMapper.ToDto | src/main/java/ru/practicum/shareit/booking/mapper/BookingMapper.java:10-27 | the view carries the booking's own id, times, status, item id and booker id, and the item's and booker's names from the store |
| BookingMapper.ToDtos | server/src/main/java/ru/practicum/shareit/booking/service/BookingServiceImpl.java:95-96 | mapping a list converts element by element, keeping length and order |
| BookingMapper.Views | server/src/main/java/ru/practicum/shareit/booking/service/BookingServiceImpl.java:95-96 | listed bookings of a well-formed store map one-to-one and in order onto views that describe them and carry the stored names, each the `toDto` of its booking |
| BookingMapper.ViewIsToDto | src/main/java/ru/practicum/shareit/booking/mapper/BookingMapper.java:10-27 | a view is the `toDto` of a booking exactly when it describes that booking and carries the stored item and booker names |
| BookingMapper.ViewsInjective | src/main/java/ru/practicum/shareit/booking/mapper/BookingMapper.java:12-25 | two booking lists with equal views are equal: the view loses nothing about the booking |
| BookingService.InState | server/src/main/java/ru/practicum/shareit/booking/service/BookingServiceImpl.java:94-106 | the listing condition of each state: every booking for ALL, start before and end after now for CURRENT, end before now for PAST, start after now for FUTURE, the status for WAITING and REJECTED |
| BookingService.TimeStatesExclusive | server/src/main/java/ru/practicum/shareit/booking/service/BookingServiceImpl.java:97-101 | a booking that does not end before it starts is listed under at most one of PAST, CURRENT and FUTURE |
| BookingService.CreateBooking | server/src/main/java/ru/practicum/shareit/booking/service/BookingServiceImpl.java:34-56 | NotFound exactly for an unknown booker, an unknown item or the owner booking their own item; Validation exactly for an unavailable item; no other error; otherwise one new WAITING booking with the given window under a fresh id, returned as its view, with the item and booker names as stored |
| BookingService.ApproveBooking | server/src/main/java/ru/practicum/shareit/booking/service/BookingServiceImpl.java:60-73 | NotFound exactly for an unknown booking; Validation exactly when the caller is not the owner or the booking is no longer WAITING; no other error; otherwise only that booking's status becomes APPROVED or REJECTED, the view of the decided booking is returned, with the item and booker names as stored, and the store stays well formed |
| BookingService.ReplaceKeepsWf | server/src/main/java/ru/practicum/shareit/booking/service/BookingServiceImpl.java:70-71 | saving a booking with the same item and booker keeps the store well formed |
| BookingService.GetBookingById | server/src/main/java/ru/practicum/shareit/booking/service/BookingServiceImpl.java:76-87 | the booking is returned exactly when it exists and the caller is its booker or its item's owner, as its view, with the item and booker names as stored; NotFound otherwise |
| BookingService.GetUserBookings | server/src/main/java/ru/practicum/shareit/booking/service/BookingServiceImpl.java:90-109 | NotFound exactly for an unknown user; otherwise the views of the booker's bookings in the state's time or status window, latest start first |
| BookingService.BookerListsAreFilteredAll | server/src/main/java/ru/practicum/shareit/booking/service/BookingServiceImpl.java:94-106 | each state's dedicated finder returns exactly the booker's full list filtered by that state's condition |
| BookingService.AllPassFilter | server/src/main/java/ru/practicum/shareit/booking/service/BookingServiceImpl.java:95-96 | a condition every booking meets filters nothing out, which is the ALL state |
| BookingService.GetOwnerBookingsAsWritten | server/src/main/java/ru/practicum/shareit/booking/service/BookingServiceImpl.java:112-129 | as written: NotFound for an unknown user, Validation exactly for a known user asking for CURRENT, and no other error |
| BookingService.OwnerCurrentRefused | server/src/main/java/ru/practicum/shareit/booking/service/BookingServiceImpl.java:116-128 | an owner whose item is booked right now asks for CURRENT and is refused, where the corrected listing returns that booking |
| BookingService.GetOwnerBookings | server/src/main/java/ru/practicum/shareit/booking/service/BookingServiceImpl.java:112-129 | NotFound exactly for an unknown user; otherwise the views of bookings on the user's items in the state's window, latest start first; same as written for every state but CURRENT |
| BookingService.OwnerListsAreFilteredAll | server/src/main/java/ru/practicum/shareit/booking/service/BookingServiceImpl.java:116-126 | each state's owner finder returns exactly the owner's full list filtered by that state's condition |
| BookingService.SecondApprovalFails | server/src/main/java/ru/practicum/shareit/booking/service/BookingServiceImpl.java:66-68 | once decided, a booking cannot be decided again, by anyone: Validation |
| BookingService.ApprovalIsATransition | server/src/main/java/ru/practicum/shareit/booking/service/BookingServiceImpl.java:66-71 | approval moves only the chosen booking, from WAITING to the decision; no booking appears or disappears |
| BookingService.CreationIsATransition | server/src/main/java/ru/practicum/shareit/booking/service/BookingServiceImpl.java:47-54 | creation changes no existing booking, and the only new booking is WAITING |
| BookingService.CreatedBookingVisibleToBooker | server/src/main/java/ru/practicum/shareit/booking/service/BookingServiceImpl.java:76-86 | after creation the store is well formed and the booker fetches exactly the view that creation returned |
| ItemService.CommentsOf | server/src/main/java/ru/practicum/shareit/item/service/ItemServiceImpl.java:180-186 | exactly the comments on the item, each as often as in the table |
| ItemService.CreateItem | server/src/main/java/ru/practicum/shareit/item/service/ItemServiceImpl.java:41-50 | NotFound exactly for an unknown user; otherwise one new item under a fresh id, owned by the caller, with the submitted fields and request reference |
| ItemService.UpdateItem | server/src/main/java/ru/practicum/shareit/item/service/ItemServiceImpl.java:54-68 | NotFound exactly for an unknown item or a caller who is not the owner; otherwise each supplied field is overwritten, each absent one kept, and id, owner and request stay |
| ItemService.UpdateItemIdempotent | server/src/main/java/ru/practicum/shareit/item/service/ItemServiceImpl.java:57-65 | sending the same patch twice gives the same item |
| ItemService.UpdateItemLeavesOthers | server/src/main/java/ru/practicum/shareit/item/service/ItemServiceImpl.java:66 | an edit changes no other item |
| ItemService.GetItemById | server/src/main/java/ru/practicum/shareit/item/service/ItemServiceImpl.java:71-79 | NotFound exactly for an unknown item; otherwise the item and exactly its comments in table order; booking hints only for the owner, and then the last is the latest-ending past approved booking and the next the earliest-starting future approved one, each present exactly when such a booking exists; each hint carries the item and booker names as stored |
| ItemService.Head | server/src/main/java/ru/practicum/shareit/item/service/ItemServiceImpl.java:146-151 | a hint is present exactly when the query returned something, and it describes the first row, with the item and booker names as stored |
| ItemService.LastHint | server/src/main/java/ru/practicum/shareit/item/service/ItemServiceImpl.java:144-148 | present exactly when the item has a past approved booking, and then it describes one with the latest end, with the item and booker names as stored |
| ItemService.NextHint | server/src/main/java/ru/practicum/shareit/item/service/ItemServiceImpl.java:149-152 | present exactly when the item has a future approved booking, and then it describes one with the earliest start, with the item and booker names as stored |
| ItemService.CommentsByItemIds | server/src/main/java/ru/practicum/shareit/item/service/ItemServiceImpl.java:188-198 | for every requested item, the looked-up bucket, empty if absent, is exactly that item's comments |
| ItemService.CommentGroupLookup | server/src/main/java/ru/practicum/shareit/item/service/ItemServiceImpl.java:192-197 | grouping the batch query's comments by item gives each requested item its own comments |
| ItemService.OwnedItems | server/src/main/java/ru/practicum/shareit/item/service/ItemServiceImpl.java:84 | exactly the items the user owns, each as often as in the table |
| ItemService.ListView | server/src/main/java/ru/practicum/shareit/item/service/ItemServiceImpl.java:96-104 | a list entry keeps its item; each hint is present exactly when the batch result has one for the item, and then describes that result's booking, with the item and booker names as stored; comments come from the grouping |
| ItemService.ListViews | server/src/main/java/ru/practicum/shareit/item/service/ItemServiceImpl.java:94-106 | one entry per item, position by position |
| ItemService.ListViewsComments | server/src/main/java/ru/practicum/shareit/item/service/ItemServiceImpl.java:85-103 | grouping the comments on exactly the listed items gives each entry its item's own comments |
| ItemService.GetAllUserItems | server/src/main/java/ru/practicum/shareit/item/service/ItemServiceImpl.java:82-107 | NotFound exactly for an unknown user; otherwise one entry per owned item in table order, each with all its comments, and a hint present exactly where the batch result has one, describing that result's booking, with the item and booker names as stored |
| ItemService.IsBlank | server/src/main/java/ru/practicum/shareit/item/service/ItemServiceImpl.java:111 | `isBlank`: true exactly when every character is whitespace, so true for the empty text |
| ItemService.IsWhitespace | server/src/main/java/ru/practicum/shareit/item/service/ItemServiceImpl.java:111 | `Character.isWhitespace`: space, tab, line feed and carriage return are whitespace; the non-breaking spaces U+00A0, U+2007 and U+202F, letters and digits are not; nothing above U+3000 is |
| ItemService.SearchItems | server/src/main/java/ru/practicum/shareit/item/service/ItemServiceImpl.java:110-117 | nothing for a missing or blank text; otherwise exactly the items the search matches, each as often as in the table |
| ItemService.DeleteItem | server/src/main/java/ru/practicum/shareit/item/service/ItemServiceImpl.java:121-125 | NotFound exactly for an unknown item or a caller who is not the owner; otherwise the item is gone |
| ItemService.DeletedItemNotFound | server/src/main/java/ru/practicum/shareit/item/service/ItemServiceImpl.java:121-125 | after a delete every other item is found as before, and fetching the deleted one is NotFound |
| ItemService.HasUserBookedItem | server/src/main/java/ru/practicum/shareit/item/service/ItemServiceImpl.java:173-178 | true exactly when the user has an APPROVED booking of the item that ended before now |
| ItemService.AddComment | server/src/main/java/ru/practicum/shareit/item/service/ItemServiceImpl.java:157-171 | NotFound exactly for an unknown item or author; Validation exactly when the author has no finished approved booking of the item; no other error; otherwise one new comment under a fresh id, stamped with now |
| ItemService.ItemsForRequests | server/src/main/java/ru/practicum/shareit/item/service/ItemServiceImpl.java:213 | exactly the items that answer one of the given requests, each as often as in the table, each with a request reference |
| ItemService.GetItemsByRequestId | server/src/main/java/ru/practicum/shareit/item/service/ItemServiceImpl.java:201-206 | exactly the items answering the request, in table order |
| ItemService.ItemGroupLookup | server/src/main/java/ru/practicum/shareit/item/service/ItemServiceImpl.java:213-218 | grouping the batch query's items by request gives each requested id its own answers |
| ItemService.GetItemsByRequestIds | server/src/main/java/ru/practicum/shareit/item/service/ItemServiceImpl.java:209-219 | empty for no ids; every bucket belongs to a requested id, is non-empty and holds exactly that request's answers; a requested id without a bucket has none |
| ItemRequestMapper.ToDto | server/src/main/java/ru/practicum/shareit/request/mapper/ItemRequestMapper.java:15-21 | the request's id, description and creation time |
| ItemRequestMapper.Respond | server/src/main/java/ru/practicum/shareit/request/mapper/ItemRequestMapper.java:31-36 | an answer is listed by its id, name and owner |
| ItemRequestMapper.ResponseItems | server/src/main/java/ru/practicum/shareit/request/mapper/ItemRequestMapper.java:30-38 | answers are projected one by one, keeping length and order |
| ItemRequestMapper.ToRequestWithItemsDto | server/src/main/java/ru/practicum/shareit/request/mapper/ItemRequestMapper.java:23-42 | the header agrees with `toDto`; the item list is set exactly when one is given, and is then its projection |
| ItemRequestMapper.ToEntity | server/src/main/java/ru/practicum/shareit/request/mapper/ItemRequestMapper.java:44-49 | the draft keeps the submitted description and is stamped with now |
| ItemRequestMapper.Saved | server/src/main/java/ru/practicum/shareit/request/service/ItemRequestServiceImpl.java:36-38 | the saved request keeps the draft's fields and gains the id and requestor |
| ItemRequestMapper.SubmittedComesBack | server/src/main/java/ru/practicum/shareit/request/service/ItemRequestServiceImpl.java:34-39 | the submitted description returns unchanged in the created request's view |
| ItemRequestService.Add32 | server/src/main/java/ru/practicum/shareit/request/service/ItemRequestServiceImpl.java:56 | Java int addition: the true sum when it fits, and always congruent to it modulo 2^32 |
| ItemRequestService.Widen | server/src/main/java/ru/practicum/shareit/request/service/ItemRequestServiceImpl.java:50 | a boxed Integer parameter as an optional integer |
| ItemRequestService.PageAsWritten | server/src/main/java/ru/practicum/shareit/request/service/ItemRequestServiceImpl.java:54-61 | as written: without both parameters the whole list; with `bound` the 32-bit sum `from + size`, refused exactly when `from` is inside the list and negative or above `bound`; otherwise the elements from position `from` up to min(bound, n), or none past the end |
| ItemRequestService.PageOverflow | server/src/main/java/ru/practicum/shareit/request/service/ItemRequestServiceImpl.java:55-60 | from 1 and size 2147483647 on two requests: as written the sub-list range is refused, though the page is the second request |
| ItemRequestService.PageAsWrittenWithoutOverflow | server/src/main/java/ru/practicum/shareit/request/service/ItemRequestServiceImpl.java:55-60 | whenever `from + size` fits in an int, the written computation is the page |
| ItemRequestService.Page | server/src/main/java/ru/practicum/shareit/request/service/ItemRequestServiceImpl.java:54-61 | without both parameters the whole list; refused exactly for a negative `from`, or a negative `size` with `from` inside the list; otherwise the min(size, n - from) elements from position `from`, or none past the end |
| ItemRequestService.PagesTile | server/src/main/java/ru/practicum/shareit/request/service/ItemRequestServiceImpl.java:54-61 | two consecutive pages of one size make the page of twice the size: paging skips and repeats nothing |
| ItemRequestService.Newest | server/src/main/java/ru/practicum/shareit/request/service/ItemRequestServiceImpl.java:45 | exactly the requests the condition accepts, each as often as in the table (a permutation of the matching rows), newest first |
| Seqs.Map | server/src/main/java/ru/practicum/shareit/request/service/ItemRequestServiceImpl.java:80-82 | a stream's `map`: one result per element, each the function of the element at that position |
| ItemRequestService.Enrich | server/src/main/java/ru/practicum/shareit/request/service/ItemRequestServiceImpl.java:75-92 | one entry per request in the given order, each with the request's header and exactly the items answering it |
| ItemRequestService.EnrichKeepsOrder | server/src/main/java/ru/practicum/shareit/request/service/ItemRequestServiceImpl.java:86-91 | listing requests with their answers keeps them newest first |
| ItemRequestService.CreateRequest | server/src/main/java/ru/practicum/shareit/request/service/ItemRequestServiceImpl.java:34-40 | NotFound exactly for an unknown user; otherwise one new request under a fresh id, by the caller, with the description, stamped with now |
| ItemRequestService.GetUserRequests | server/src/main/java/ru/practicum/shareit/request/service/ItemRequestServiceImpl.java:43-47 | NotFound exactly for an unknown user; otherwise the caller's own requests with their answers, newest first |
| ItemRequestService.RunOfNewest | server/src/main/java/ru/practicum/shareit/request/service/ItemRequestServiceImpl.java:60 | a run of consecutive entries of a newest-first list holds members of the list, newest first |
| ItemRequestService.PageOfNewest | server/src/main/java/ru/practicum/shareit/request/service/ItemRequestServiceImpl.java:60 | a page holds members of the list in the list's order |
| ItemRequestService.PageAsWrittenOfNewest | server/src/main/java/ru/practicum/shareit/request/service/ItemRequestServiceImpl.java:60 | the page as written also holds members of the list in the list's order |
| ItemRequestService.GetAllRequestsAsWritten | server/src/main/java/ru/practicum/shareit/request/service/ItemRequestServiceImpl.java:50-63 | as written: NotFound exactly for an unknown user; Unexpected exactly when the 32-bit page range is refused; no other error; otherwise that page of other users' requests with their answers, newest first |
| ItemRequestService.GetAllRequests | server/src/main/java/ru/practicum/shareit/request/service/ItemRequestServiceImpl.java:50-63 | corrected: NotFound exactly for an unknown user; Unexpected exactly when the page range is refused; no other error; otherwise the page of other users' requests with their answers, newest first |
| ItemRequestService.AllRequestsAgreeWithoutOverflow | server/src/main/java/ru/practicum/shareit/request/service/ItemRequestServiceImpl.java:54-61 | without paging, or when `from + size` fits in an int, the written and the corrected listing give the same result |
| ItemRequestService.GetRequestById | server/src/main/java/ru/practicum/shareit/request/service/ItemRequestServiceImpl.java:66-73 | NotFound exactly for an unknown user or request; otherwise the request's header and exactly its answers |
| ItemRequestService.StoredRequestFetched | server/src/main/java/ru/practicum/shareit/request/service/ItemRequestServiceImpl.java:66-72 | a stored request fetched by its id comes back with its header and its answers |
| ItemRequestService.ListedRequestsMatchSingle | server/src/main/java/ru/practicum/shareit/request/service/ItemRequestServiceImpl.java:43-73 | every entry of a user's own list is what fetching that request on its own returns |
| ItemRequestService.CreatedRequestRetrievable | server/src/main/java/ru/practicum/shareit/request/service/ItemRequestServiceImpl.java:66-72 | a created request can be fetched straight away, with the header creation returned |
| UserService.EmailTaken | src/main/java/ru/practicum/shareit/user/service/UserServiceImpl.java:22 | `existsByEmail`: true exactly when some stored user has the address |
| UserService.EmailTakenByOther | src/main/java/ru/practicum/shareit/user/service/UserServiceImpl.java:35 | `existsByEmailAndIdNot`: true exactly when some stored user with another id has the address |
| UserService.CreateUser | src/main/java/ru/practicum/shareit/user/service/UserServiceImpl.java:20-28 | Conflict exactly when some user has the e-mail address; otherwise one new user under a fresh id with the name and address |
| UserService.Patched | src/main/java/ru/practicum/shareit/user/service/UserServiceImpl.java:38 | supplied fields overwrite, absent fields stay, the id stays |
| UserService.UpdateUser | src/main/java/ru/practicum/shareit/user/service/UserServiceImpl.java:30-41 | NotFound exactly for an unknown user; Conflict exactly for a new address that another user has; no other error; otherwise the patched user replaces the row |
| UserService.GetUserById | src/main/java/ru/practicum/shareit/user/service/UserServiceImpl.java:43-47 | NotFound exactly when no user carries the id; otherwise a stored user with that id |
| UserService.GetAllUsers | src/main/java/ru/practicum/shareit/user/service/UserServiceImpl.java:49-54 | the stored users, position by position in table order |
| UserService.DeleteUser | src/main/java/ru/practicum/shareit/user/service/UserServiceImpl.java:56-60 | NotFound exactly for an unknown user; otherwise the row is deleted |
| UserService.ListedUsersFound | src/main/java/ru/practicum/shareit/user/service/UserServiceImpl.java:43-54 | every listed user is found again by its id |
| UserService.CreatedUserFound | src/main/java/ru/practicum/shareit/user/service/UserServiceImpl.java:20-28 | a registered user is found by its id |
| UserService.DeletedUserNotFound | src/main/java/ru/practicum/shareit/user/service/UserServiceImpl.java:56-60 | after removal the user is NotFound and every other user is found as before |
| UserService.CreateKeepsEmailsDistinct | src/main/java/ru/practicum/shareit/user/service/UserServiceImpl.java:22-24 | registration keeps e-mail addresses distinct |
| UserService.UpdateKeepsEmailsDistinct | src/main/java/ru/practicum/shareit/user/service/UserServiceImpl.java:33-37 | with unique ids, an update keeps e-mail addresses distinct |
| UserService.DeleteKeepsEmailsDistinct | src/main/java/ru/practicum/shareit/user/service/UserServiceImpl.java:59 | removal keeps e-mail addresses distinct |

## Left out

- **Outside the service layer.**
  - HTTP controllers, the gateway module and its request validation.
  - JSON serialisation.
  - Logging.
  - The mapping of exceptions to HTTP status codes.
- **Persistence.**
  - JPA, transactions and concurrency.
  - A new row's id is modelled as one more than the largest id in use. The database's sequence is not modelled.
  - Deleting an item or user with dependent rows: foreign-key behaviour is not modelled.
- **Time.**
  - `LocalDateTime.now()` and `LocalDateTime.parse` are not modelled. Times are integers, and `now` is a parameter.
  - The ISO date formatting of `BookingMapper` is treated as the identity on times.
- **Unseen mappers.** `ItemMapper`, `UserMapper` and `CommentMapper` are not part of this model. Their transfer objects are modelled as the entities they carry. `UserMapper.toUserUpdate` is modelled as a partial update, as the user service's tests show.
- **Search.** The `searchAvailableItems` query is not part of this model. `ItemService.SearchItems` takes its matching condition as a parameter.
- **Batch hint queries.** The `findLastBookingsForItems` and `findNextBookingsForItems` queries are not part of this model.
  - `ItemService.GetAllUserItems` takes their results as maps from item id to booking. Which booking each query picks for an item is not stated.
  - The batch results are taken as maps, so `toMap`'s exception on a duplicate key is out of scope.
- **The older module.** The `ItemServiceImpl` under `src/` is not modelled. The server's version is.
- **Lookup order.** Where two lookups can each fail with NotFound, the model reports NotFound without saying which lookup failed.
- **ORDER BY ties.** The database leaves the order of equal keys open. The model keeps table order.
- **Text.** Strings are sequences of characters, with no encoding. `String.isBlank` is modelled through `Character.isWhitespace`.

## Findings

| source | as written | input that shows it | evidently intended | confidence | as-written member | corrected member |
|---|---|---|---|---|---|---|
| server/src/main/java/ru/practicum/shareit/booking/service/BookingServiceImpl.java:116-128 | the owner's listing has no CURRENT case, so CURRENT falls to the default branch and throws a validation error | an owner whose item is booked from before now until after now asks for state CURRENT | CURRENT lists the owner's bookings under way now, as the booker's listing does at lines 97-98 | high, not executed | BookingService.GetOwnerBookingsAsWritten, BookingService.OwnerCurrentRefused | BookingService.GetOwnerBookings |
| server/src/main/java/ru/practicum/shareit/request/service/ItemRequestServiceImpl.java:55-60 | `start + size` is computed in 32-bit int, so a large size overflows to a negative bound and `subList` throws | from = 1, size = 2147483647 (both pass the gateway's checks), two requests by other users | the page is the elements from `from` up to the end of the list | high, not executed | ItemRequestService.GetAllRequestsAsWritten, ItemRequestService.PageAsWritten, ItemRequestService.PageOverflow | ItemRequestService.GetAllRequests, ItemRequestService.Page |
