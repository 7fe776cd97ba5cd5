# Wedding site back end — a Dafny model

This project models the server side of a password-protected wedding website:

- the key-value persistence layer (`src/lib/db.ts`). It stores RSVP
  responses and gift claims in a Redis store under the keys `rsvp:<id>`
  and `gift:<id>`. Two index keys, `rsvp:list` and `gifts:claimed`, hold
  JSON lists of ids.
- the request gate (`src/middleware.ts`). Public paths pass. A request
  carrying the `site-auth=authenticated` cookie goes on to localisation.
  Every other request is redirected to `/login`.
- the API routes: gift claiming (`/api/gifts`), RSVP submission
  (`/api/rsvp`), the booked-room list (`/api/rsvp/rooms`) and login
  (`/api/login`).

The store is a `map<string, Value>`. Its values are already-decoded RSVP
records, gift claims or id lists. Each db.ts function is written twice:

- as a pure function in `DbSpec`. The two writers, `saveRSVP` and `claimGift`,
  become step functions from the old contents to a result and the new
  contents. The readers `getAllRSVPs`, `getClaimedGifts` and
  `getAllGiftClaims` become functions of the contents. `getRSVPStats`
  becomes `RSVPStats`, a function of the listing that `getAllRSVPs` returns;
- as a method of the class `DbStore.Store`, which reads and updates its
  `data` field. Each method is proved to agree with its function.

The properties are lemmas about the step functions:

- consistency of records and indexes is preserved (`DbInvariants`);
- listing returns exactly the stored records, newest first, with a stable
  sort (`RsvpOrder`, `DbListing`);
- at most one claim per gift succeeds in any sequence of claims
  (`ClaimHistory`).

Details of the code that the model keeps:

- a successful gift claim replies 200 (src/app/api/gifts/route.ts:34);
- the store keys are `gift:<id>`, `gifts:claimed`, `rsvp:<id>` and `rsvp:list` (src/lib/db.ts:34, 38, 86, 102);
- the RSVP route keeps its own in-memory list and never calls src/lib/db.ts (src/app/api/rsvp/route.ts:22);
- the RSVP route requires name, email and attending (src/app/api/rsvp/route.ts:29).

Module overview:

| file | module | models |
|---|---|---|
| common.dfy | Common | `Option`, `Result` (Error = the call threw), JavaScript truthiness of an optional string |
| db_types.dfy | DbTypes | `RSVPEntry`, `GiftClaim`, stored values, key construction |
| rsvp_order.dfy | RsvpOrder | the newest-first sort of `getAllRSVPs` |
| db_spec.dfy | DbSpec | every db.ts function as a function of the store contents (or of the listing, for the statistics) |
| db_invariants.dfy | DbInvariants | the record/index consistency invariant and its preservation |
| db_listing.dfy | DbListing | what `getAllRSVPs` and `getRSVPStats` report |
| db_history.dfy | ClaimHistory | sequences of gift claims |
| db_store.dfy | DbStore | the db.ts functions as methods on a mutable store |
| middleware.dfy | Middleware | the authentication gate |
| login_route.dfy | LoginRoute | `POST /api/login` |
| gifts_route.dfy | GiftsRoute | `GET`/`POST /api/gifts` |
| rsvp_route.dfy | RsvpRoute | `GET`/`POST /api/rsvp` and its in-memory list |
| rooms_route.dfy | RoomsRoute | `GET /api/rsvp/rooms` |

## Model

| member | source | states |
|---|---|---|
| DbTypes.RsvpKey | src/lib/db.ts:34 | the record key is `rsvp:` followed by the id, and it never equals the gift index key |
| DbTypes.GiftKey | src/lib/db.ts:86 | the claim key is `gift:` followed by the id, and it never equals either index key |
| DbTypes.GiftAndRsvpKeysDiffer | src/lib/db.ts:86 | a gift key and an RSVP key are never the same key, whatever the ids |
| DbTypes.RsvpKeyCollision | src/lib/db.ts:34-41 | an RSVP record key equals the RSVP index key exactly when the id is `list` |
| RsvpOrder.Insert | src/lib/db.ts:61-63 | inserting one entry gives one more entry and adds exactly that entry to the multiset |
| RsvpOrder.SortNewestFirst | src/lib/db.ts:61-63 | the sort returns as many entries as it was given, and the same multiset of entries |
| RsvpOrder.SortNewestFirstSorts | src/lib/db.ts:61-63 | the sorted listing is newest first and is a permutation of its input |
| RsvpOrder.SortNewestFirstIsStable | src/lib/db.ts:61-63 | entries with equal timestamps keep their relative order (stable sort) |
| DbSpec.ReadIndex | src/lib/db.ts:102-107 | an absent index reads as the empty list and a stored list as itself. Any other value makes the read fail, as the later `includes` or `for..of` throws |
| DbSpec.AddIfAbsent | src/lib/db.ts:107-110 | the index is unchanged when it already holds the id, and otherwise gains exactly that id at the end. Its old ids stay a prefix, and it stays duplicate-free |
| DbSpec.ClaimGiftStep | src/lib/db.ts:85-113 | if a claim exists, the result is false and nothing changes. Otherwise the claim is written before the index is read. The call fails exactly when the index is not a list, and then only the claim is written. On success the index gains the id once. Only the claim key and the index key are written |
| DbSpec.SaveRSVPStep | src/lib/db.ts:33-43 | the record is stored under `rsvp:<id>`. The call succeeds exactly when the id is not `list` and the index is readable. When it fails, only the record is written. On success the index gains the id once. Only the record key and the index key are written |
| DbSpec.CollectRSVPs | src/lib/db.ts:53-59 | the loop yields at most one record per listed id |
| DbSpec.AllRSVPs | src/lib/db.ts:45-64 | the listing fails exactly when the index is not a list. Otherwise it has at most one entry per listed id and is a permutation of the stored records reached from the index |
| DbSpec.CountAnswer | src/lib/db.ts:76-77 | the count of one answer is at most the number of entries, and it is zero exactly when no entry gives that answer |
| DbSpec.GuestsAttending | src/lib/db.ts:78-80 | the guest total is not negative when no guest count is. It is zero when nobody answers `yes`, so guests of declined responses never count |
| DbSpec.RSVPStats | src/lib/db.ts:74-81 | the total is the number of entries. Attending and not-attending each lie between zero and the total, and with nobody attending the guest total is zero |
| DbSpec.CollectClaims | src/lib/db.ts:126-132 | the loop maps exactly the listed ids that have a stored claim, each to its stored claim |
| DbSpec.AllGiftClaims | src/lib/db.ts:122-135 | fails exactly when the claimed list is not a list. Otherwise it maps exactly the listed ids with a stored claim to that claim |
| DbSpec.ClaimedGifts | src/lib/db.ts:115-120 | an absent claimed list gives the empty list, a stored list gives itself, and any other value is a failure |
| DbInvariants.EmptyStoreConsistent | src/lib/db.ts:38 | an empty store, whose absent indexes read as empty lists, satisfies the consistency invariant |
| DbInvariants.ClaimGiftKeepsRsvps | src/lib/db.ts:85-113 | claiming a gift never disturbs RSVP records or their index |
| DbInvariants.ClaimGiftKeepsGifts | src/lib/db.ts:93-110 | on a consistent store a claim never throws, and the claim records and the claimed index stay in agreement |
| DbInvariants.ClaimGiftPreservesConsistency | src/lib/db.ts:85-113 | a claim on a consistent store succeeds and leaves the whole store consistent |
| DbInvariants.SaveRSVPKeepsGifts | src/lib/db.ts:33-43 | saving an RSVP never disturbs gift claims or their index |
| DbInvariants.SaveRSVPPreservesConsistency | src/lib/db.ts:33-43 | saving an RSVP whose id is not `list` on a consistent store succeeds and leaves it consistent |
| DbInvariants.ListIdOverwritesIndex | src/lib/db.ts:34-41 | saving id `list` replaces the RSVP index with a record. The save throws, and then the next listing and any next save throw |
| DbInvariants.SaveRSVPTwice | src/lib/db.ts:33-43 | a second save under the same id replaces the record and leaves the index unchanged (upsert) |
| DbListing.CollectRSVPsMembers | src/lib/db.ts:53-59 | a record is collected exactly when some listed id has it stored |
| DbListing.CollectRSVPsComplete | src/lib/db.ts:53-59 | when every listed id has a record, one record is collected per id |
| DbListing.AllRSVPsListsStoredRecords | src/lib/db.ts:45-64 | the listing throws exactly when the index is not a list. Otherwise it is newest first, holds at most one entry per listed id, and is a permutation of the stored records reached from the index |
| DbListing.ConsistentListingIsComplete | src/lib/db.ts:45-64 | on a consistent store the listing succeeds, has exactly one entry per listed id, and contains every stored RSVP record |
| DbListing.SavedRSVPIsListed | src/lib/db.ts:33-64 | right after a successful save, the listing contains the saved response |
| DbListing.AnswersCoverTotal | src/lib/db.ts:74-81 | attending plus not-attending is at most the total. They are equal exactly when every answer is `yes` or `no` |
| DbListing.StatsIgnoreOrder | src/lib/db.ts:72-81 | the statistics do not depend on the order of the listing, so sorting does not change them |
| DbListing.StatsCountStoredRecords | src/lib/db.ts:66-81 | the statistics are those of the stored records reached from the index, whatever their order |
| DbListing.StatsExample | src/lib/db.ts:74-81 | three entries (two `yes` with 2 and 1 guests, one `no` with 5) give total 3, attending 2, not attending 1 and 3 guests, so a declined response's guests are not counted |
| ClaimHistory.ClaimedStaysClaimed | src/lib/db.ts:86-91 | once a gift key holds a claim, every later attempt on it returns false, and the stored claim survives any sequence of claims |
| ClaimHistory.AtMostOneClaimSucceeds | src/lib/db.ts:85-113 | in any sequence of claims, at most one attempt per gift returns true, and the winner's claim is the one stored at the end |
| ClaimHistory.ClaimsKeepGiftsConsistent | src/lib/db.ts:85-113 | every sequence of claims on a consistent store leaves it consistent, and no attempt throws |
| ClaimHistory.FreshClaimStep | src/lib/db.ts:93-110 | one claim of an unclaimed gift succeeds and appends exactly that id to the index |
| ClaimHistory.FreshClaimsAppend | src/lib/db.ts:93-110 | claims of distinct unclaimed gifts all succeed and append their ids to the index in order |
| ClaimHistory.DistinctClaimsAllSucceed | src/lib/db.ts:85-113 | on a consistent store, claims of distinct unclaimed gifts all return true, keep the store consistent and extend the index by those ids in order |
| ClaimHistory.KitchenAidScenario | src/lib/db.ts:85-113 | two guests claim the same unclaimed gift while the claimed list is readable. The first gets true, the second false, and the first claim is kept |
| DbStore.Store.constructor | src/lib/db.ts:5-8 | a new store is empty and consistent |
| DbStore.Store.SaveRSVP | src/lib/db.ts:33-43 | the method has the effect and result of `SaveRSVPStep`, and it preserves consistency for ids other than `list` |
| DbStore.Store.GetAllRSVPs | src/lib/db.ts:45-64 | the loop over the index collects the stored records, and the result is the sorted listing `AllRSVPs` |
| DbStore.Store.GetRSVPStats | src/lib/db.ts:66-82 | throws exactly when the listing does. Otherwise it gives the statistics of the stored records, and attending plus not-attending is at most the total |
| DbStore.Store.ClaimGift | src/lib/db.ts:85-113 | the method has the effect and result of `ClaimGiftStep`; on a consistent store it returns a result and keeps the store consistent |
| DbStore.Store.GetClaimedGifts | src/lib/db.ts:115-120 | an absent index gives the empty list, a list gives itself, and any other value throws |
| DbStore.Store.GetAllGiftClaims | src/lib/db.ts:122-135 | the loop gives `AllGiftClaims`. It throws exactly when the index is unreadable and maps exactly the listed ids that have a stored claim to that claim. On a consistent store it maps every listed id |
| Middleware.IsPublic | src/middleware.ts:14-20 | a path with a dot and a path under `/login` are public. Every other public path starts with `/` and has at least six characters, so `/` and the locale roots are never public |
| Middleware.Decide | src/middleware.ts:10-34 | public paths pass through. Other paths go to localisation exactly when the cookie value is `authenticated`, and are otherwise redirected to `/login` with the path as `redirect` |
| Middleware.PublicPathIgnoresCookies | src/middleware.ts:14-22 | the decision for a public path does not depend on cookies |
| Middleware.OnlyExactCookieOpens | src/middleware.ts:24-33 | a protected path is served only with the cookie value exactly `authenticated` |
| Middleware.NoRedirectLoop | src/middleware.ts:14-33 | the login page the gate redirects to is itself public, so it is never redirected |
| Middleware.DottedPathBypassesGate | src/middleware.ts:19-21 | any path containing a dot passes without a cookie |
| LoginRoute.Login | src/app/api/login/route.ts:3-24 | the result is 500 when the site password is unset or empty. Otherwise it is 200 with the one-year `site-auth=authenticated` cookie on `/` exactly when the passwords are equal, and 401 otherwise |
| LoginRoute.UnconfiguredAlwaysFails | src/app/api/login/route.ts:5-9 | without a configured password no submitted password logs in |
| LoginRoute.IssuedCookieOpensGate | src/app/api/login/route.ts:11-20 | the cookie issued on success is the one the gate checks, with the gate's lifetime. It opens every protected path |
| GiftsRoute.CallFor | src/app/api/gifts/route.ts:16-25 | `claimGift` is called exactly when the body parses and both fields are truthy, with those fields |
| GiftsRoute.Post | src/app/api/gifts/route.ts:14-42 | the result is 500 for an unparsable body and 400 for a missing field. Once `claimGift` is called, the status is 409 exactly when it returns false, 200 exactly when it returns true, and 500 exactly when it throws |
| GiftsRoute.ValidationPrecedesClaim | src/app/api/gifts/route.ts:18-23 | a body with a missing field gets 400 whatever the store would have answered |
| GiftsRoute.Get | src/app/api/gifts/route.ts:4-12 | the claimed ids are reported, or the empty list when reading them throws |
| GiftsRoute.PostAgainstStore | src/app/api/gifts/route.ts:25-34 | on a consistent store, a gift whose valid claim got 200 then appears in GET. A second valid claim of the same gift gets 409 and changes nothing |
| RsvpRoute.RsvpStore.constructor | src/app/api/rsvp/route.ts:22 | the response list starts empty |
| RsvpRoute.RsvpStore.Post | src/app/api/rsvp/route.ts:24-56 | an unparsable body gets 500 and a body missing name, email or attending gets 400, and neither changes the list. Otherwise the body is appended with the server time as `submittedAt` and the reply is 200 |
| RsvpRoute.RsvpStore.Get | src/app/api/rsvp/route.ts:58-66 | the reply is the number of stored responses |
| RsvpRoute.SubmitThenCount | src/app/api/rsvp/route.ts:37-62 | the count rises by one after an accepted submission and is unchanged after a rejected one |
| RoomsRoute.BookedRooms | src/app/api/rsvp/rooms/route.ts:7-9 | the booked rooms are no more numerous than the responses |
| RoomsRoute.Get | src/app/api/rsvp/rooms/route.ts:4-15 | a listing that succeeds is projected to its booked rooms, at most one per response. A listing that throws gives the empty list |
| RoomsRoute.BookedRoomsMembers | src/app/api/rsvp/rooms/route.ts:7-9 | a room is reported exactly when it is non-empty and some response booked it |
| RoomsRoute.BookedRoomsKeepsOrder | src/app/api/rsvp/rooms/route.ts:7-9 | the rooms follow the order of the listing (the projection distributes over concatenation) |
| RoomsRoute.BookedRoomsKeepsDuplicates | src/app/api/rsvp/rooms/route.ts:7-9 | a room booked by several responses is reported once per booking, with no de-duplication |
| RoomsRoute.SavedBookingIsVisible | src/app/api/rsvp/rooms/route.ts:6-9 | after a successful save with a non-empty room booking on a consistent store, the room list contains that room |

## Left out

- The Redis client, its environment variables and network failures are not modelled. Store reads and writes always succeed. The only failures modelled are the exceptions the code itself raises, which come from an index value that is not a list.
- Concurrent requests are not modelled. Operations are atomic and sequential, so the race between two simultaneous claims of one gift, and lost updates of an index, are outside the model.
- JSON encoding and decoding are not modelled. Stored values are the decoded objects. A string value that does not parse is not modelled.
- DbSpec.SaveRSVPStep: `saveRSVP` reads `rsvp:list` without the string-decoding branch that the other readers have (src/lib/db.ts:38 against src/lib/db.ts:46-49). With a string-valued index, `includes` would become a substring test and `push` would throw. Because stored values are already decoded, the model treats both reads alike.
- Dates are integers: `submittedAt` and `claimedAt` are timestamps, and the sort compares them directly. ISO-string formatting and unparsable dates, which yield NaN in the comparator, are not modelled.
- RsvpOrder.SortNewestFirst: the engine's sort is modelled as a stable insertion sort with the same comparator. The engine's algorithm is not modelled, and neither is its order for an inconsistent comparator.
- DbStore.Store.GetAllRSVPs: a value under `rsvp:<id>` that is not an RSVP record is skipped, while the source would push it into the list unchanged. A consistent store never holds such a value.
- DbSpec.CollectRSVPs: skips a value under `rsvp:<id>` that is not an RSVP record, where the source pushes any truthy value (src/lib/db.ts:55-57).
- DbSpec.AllRSVPs: inherits that skip from `DbSpec.CollectRSVPs`.
- DbSpec.CollectClaims: skips a value under `gift:<id>` that is not a claim, where the source stores any truthy value (src/lib/db.ts:128-130).
- DbSpec.AllGiftClaims: inherits that skip from `DbSpec.CollectClaims`.
- DbStore.Store.GetAllGiftClaims: a value under `gift:<id>` that is not a claim is skipped, while the source would return it unchanged. A consistent store never holds such a value.
- DbSpec.ClaimedGifts, and DbStore.Store.GetClaimedGifts that returns it: a claimed index that is neither absent nor a list is reported as a failure. The source returns such a value unchanged. `getAllGiftClaims` then throws on it (src/lib/db.ts:126), but `GET /api/gifts` sends it back inside a 200 reply (src/app/api/gifts/route.ts:6-7).
- GiftsRoute.Get: when the claimed list holds a value that is not a list, the model reports the empty list, where the source sends the stored value back.
- Request bodies are modelled as fields that are absent or strings (numbers for the RSVP counts). Non-string JSON values in string fields are not modelled. Neither are extra fields that the RSVP route copies into the stored object with a spread.
- LoginRoute.Login: a body that cannot be parsed is not modelled, because it raises outside any handler. The cookie's `httpOnly`, `secure` and `sameSite` flags are not modelled.
- The localisation middleware (next-intl) is the opaque decision `Localize`. The route matcher configuration (`config.matcher`) and the origin of the redirect URL are not modelled.
- Logging to the console is not modelled.
- The gift admin route, the page components, the translation files and the static gift and room catalogues are not part of this model.
