/**
 * GET of src/app/api/rsvp/rooms/route.ts: the room of every RSVP that names
 * one, in listing order. The getAllRSVPs call is an input: the listing, or
 * Error when it threw.
 */
module RoomsRoute {
  import opened Common
  import opened DbTypes
  import opened DbSpec
  import opened DbInvariants
  import DbListing

  /** The room an RSVP names, when it names a non-empty one. */
  predicate BooksRoom(r: RSVPEntry)
  {
    Truthy(r.roomBooking)
  }

  /** The `roomBooking` of each RSVP that has a truthy one, in order. */
  function BookedRooms(rsvps: seq<RSVPEntry>): (rooms: seq<string>)
    ensures |rooms| <= |rsvps|
  {
    if rsvps == [] then []
    else (if BooksRoom(rsvps[0]) then [rsvps[0].roomBooking.value] else []) + BookedRooms(rsvps[1..])
  }

  /** GET: the booked rooms, or the empty list when the listing threw. */
  function Get(listing: Result<seq<RSVPEntry>>): (rooms: seq<string>)
    ensures listing.Error? ==> rooms == []
    ensures listing.Ok? ==> rooms == BookedRooms(listing.value) && |rooms| <= |listing.value|
  {
    match listing
    case Ok(rsvps) => BookedRooms(rsvps)
    case Error => []
  }

  /** A room is listed exactly when some RSVP names it; null and "" are dropped. */
  lemma {:induction false} BookedRoomsMembers(rsvps: seq<RSVPEntry>, room: string)
    ensures room in BookedRooms(rsvps) <==>
      room != "" && exists i :: 0 <= i < |rsvps| && rsvps[i].roomBooking == Some(room)
  {
    if rsvps != [] {
      BookedRoomsMembers(rsvps[1..], room);
      if exists i :: 0 <= i < |rsvps| && rsvps[i].roomBooking == Some(room) {
        var i :| 0 <= i < |rsvps| && rsvps[i].roomBooking == Some(room);
        if i > 0 {
          assert rsvps[1..][i - 1] == rsvps[i];
        }
      }
      if exists i :: 0 <= i < |rsvps[1..]| && rsvps[1..][i].roomBooking == Some(room) {
        var i :| 0 <= i < |rsvps[1..]| && rsvps[1..][i].roomBooking == Some(room);
        assert rsvps[i + 1] == rsvps[1..][i];
      }
    }
  }

  /** The projection keeps listing order: it distributes over concatenation. */
  lemma {:induction false} BookedRoomsKeepsOrder(a: seq<RSVPEntry>, b: seq<RSVPEntry>)
    ensures BookedRooms(a + b) == BookedRooms(a) + BookedRooms(b)
  {
    if a == [] {
      assert a + b == b;
    } else {
      var head := if BooksRoom(a[0]) then [a[0].roomBooking.value] else [];
      assert (a + b)[0] == a[0];
      assert (a + b)[1..] == a[1..] + b;
      assert BookedRooms(a + b) == head + BookedRooms(a[1..] + b);
      assert BookedRooms(a) == head + BookedRooms(a[1..]);
      BookedRoomsKeepsOrder(a[1..], b);
      AppendAssociates(head, BookedRooms(a[1..]), BookedRooms(b));
    }
  }

  /** Number of RSVPs naming `room`. */
  function CountBookings(rsvps: seq<RSVPEntry>, room: string): nat
  {
    if rsvps == [] then 0
    else (if rsvps[0].roomBooking == Some(room) then 1 else 0) + CountBookings(rsvps[1..], room)
  }

  /** No exclusivity: a room appears once per RSVP naming it, duplicates included. */
  lemma {:induction false} BookedRoomsKeepsDuplicates(rsvps: seq<RSVPEntry>, room: string)
    requires room != ""
    ensures multiset(BookedRooms(rsvps))[room] == CountBookings(rsvps, room)
  {
    if rsvps != [] {
      BookedRoomsKeepsDuplicates(rsvps[1..], room);
      var head := if BooksRoom(rsvps[0]) then [rsvps[0].roomBooking.value] else [];
      assert multiset(head + BookedRooms(rsvps[1..])) == multiset(head) + multiset(BookedRooms(rsvps[1..]));
    }
  }

  /** A room named by a saved RSVP shows up among the booked rooms afterwards. */
  lemma SavedBookingIsVisible(data: Data, rsvp: RSVPEntry, room: string)
    requires Consistent(data)
    requires rsvp.id != "list"
    requires rsvp.roomBooking == Some(room) && room != ""
    ensures room in Get(AllRSVPs(SaveRSVPStep(data, rsvp).after))
  {
    var after := SaveRSVPStep(data, rsvp).after;
    DbListing.SavedRSVPIsListed(data, rsvp);
    var listing := AllRSVPs(after).value;
    var i :| 0 <= i < |listing| && listing[i] == rsvp;
    BookedRoomsMembers(listing, room);
  }
}
