/**
 * The records kept by src/lib/db.ts and the layout of the keys they are
 * stored under. Stored values are modelled already decoded: JSON encoding
 * and decoding are the identity here.
 */
module DbTypes {
  import opened Common

  /** One guest response. `submittedAt` is a timestamp in milliseconds. */
  datatype RSVPEntry = RSVPEntry(
    id: string,
    name: string,
    email: string,
    attending: string,
    guestCount: int,
    guestNames: string,
    arrivalDate: string,
    departureDate: string,
    roomBooking: Option<string>,
    dietary: string,
    message: string,
    submittedAt: int)

  /** One claimed gift. `claimedAt` is a timestamp in milliseconds. */
  datatype GiftClaim = GiftClaim(giftId: string, claimedBy: string, claimedAt: int)

  /** What one key of the store holds. */
  datatype Value =
    | Rsvp(entry: RSVPEntry)
    | Claim(claim: GiftClaim)
    | Ids(ids: seq<string>)

  /** The whole key-value store. */
  type Data = map<string, Value>

  /** Key of the list of all RSVP ids. */
  const RsvpIndexKey: string := "rsvp:list"

  /** Key of the list of claimed gift ids. */
  const ClaimedIndexKey: string := "gifts:claimed"

  /** Key of the record of RSVP `id`; the id can be read back from it. */
  function RsvpKey(id: string): (k: string)
    ensures |k| == |id| + 5 && k[5..] == id
    ensures k != ClaimedIndexKey
  {
    var k := "rsvp:" + id;
    assert k[0] == 'r';
    assert k[5..] == id;
    k
  }

  /** Key of the claim of gift `id`; it never coincides with an index key. */
  function GiftKey(id: string): (k: string)
    ensures |k| == |id| + 5 && k[5..] == id
    ensures k != ClaimedIndexKey && k != RsvpIndexKey
  {
    var k := "gift:" + id;
    assert k[0] == 'g' && k[4] == ':';
    assert k[5..] == id;
    k
  }

  /** Gift keys and RSVP keys live in disjoint parts of the key space. */
  lemma GiftAndRsvpKeysDiffer(giftId: string, rsvpId: string)
    ensures GiftKey(giftId) != RsvpKey(rsvpId)
  {
    assert GiftKey(giftId)[0] == 'g';
    assert RsvpKey(rsvpId)[0] == 'r';
  }

  /** The record key of an RSVP coincides with the RSVP index key exactly for the id "list". */
  lemma RsvpKeyCollision(id: string)
    ensures RsvpKey(id) == RsvpIndexKey <==> id == "list"
  {
    if RsvpKey(id) == RsvpIndexKey {
      assert id == RsvpIndexKey[5..];
    }
  }
}
