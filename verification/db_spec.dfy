/**
 * What each operation of src/lib/db.ts does to the key-value store, as
 * functions of the store's contents. The class in module DbStore performs
 * the same reads and writes step by step and is proved equal to these.
 */
module DbSpec {
  import opened Common
  import opened DbTypes
  import opened RsvpOrder

  /** The reply of an operation together with the store it leaves behind. */
  datatype Step<T> = Step(out: Result<T>, after: Data)

  /** No id occurs twice. */
  ghost predicate NoDuplicates(ids: seq<string>)
  {
    forall i, j :: 0 <= i < j < |ids| ==> ids[i] != ids[j]
  }

  /**
   * Reads an index list. An absent key reads as the empty list; a value
   * that is not a list makes the caller's `includes` or `for..of` throw.
   */
  function ReadIndex(data: Data, key: string): (r: Result<seq<string>>)
    ensures key !in data ==> r == Ok([])
    ensures r.Error? <==> key in data && !data[key].Ids?
    ensures r.Ok? && key in data ==> data[key] == Ids(r.value)
  {
    if key !in data then Ok([])
    else if data[key].Ids? then Ok(data[key].ids)
    else Error
  }

  /** The ids an index holds; empty when it is absent or unreadable. */
  function IndexIds(data: Data, key: string): seq<string>
  {
    match ReadIndex(data, key)
    case Ok(ids) => ids
    case Error => []
  }

  /** Appends `id` to `ids` unless it is already there. */
  function AddIfAbsent(ids: seq<string>, id: string): (r: seq<string>)
    ensures forall x :: x in r <==> x in ids || x == id
    ensures |ids| <= |r| <= |ids| + 1 && r[..|ids|] == ids
    ensures id in ids ==> r == ids
    ensures NoDuplicates(ids) ==> NoDuplicates(r)
  {
    if id in ids then ids else ids + [id]
  }

  /**
   * claimGift (src/lib/db.ts:85-113): a claim on an unclaimed gift writes
   * the claim record, then adds the id to the claimed list; a claim on a
   * claimed gift writes nothing.
   */
  function ClaimGiftStep(data: Data, giftId: string, claimedBy: string, now: int): (s: Step<bool>)
    ensures GiftKey(giftId) in data ==> s == Step(Ok(false), data)
    ensures GiftKey(giftId) !in data ==>
      s.out != Ok(false) &&
      GiftKey(giftId) in s.after && s.after[GiftKey(giftId)] == Claim(GiftClaim(giftId, claimedBy, now))
    ensures s.out == Error <==> GiftKey(giftId) !in data && ReadIndex(data, ClaimedIndexKey).Error?
    ensures s.out == Ok(true) ==>
      ReadIndex(s.after, ClaimedIndexKey) == Ok(AddIfAbsent(IndexIds(data, ClaimedIndexKey), giftId))
    ensures s.out == Error ==> ReadIndex(s.after, ClaimedIndexKey) == Error
    ensures s.out == Error ==> s.after == data[GiftKey(giftId) := Claim(GiftClaim(giftId, claimedBy, now))]
    ensures s.after - {GiftKey(giftId), ClaimedIndexKey} == data - {GiftKey(giftId), ClaimedIndexKey}
  {
    var key := GiftKey(giftId);
    if key in data then Step(Ok(false), data)
    else
      var written := data[key := Claim(GiftClaim(giftId, claimedBy, now))];
      assert ReadIndex(written, ClaimedIndexKey) == ReadIndex(data, ClaimedIndexKey);
      match ReadIndex(written, ClaimedIndexKey)
      case Error => Step(Error, written)
      case Ok(claimed) =>
        if giftId in claimed then Step(Ok(true), written)
        else Step(Ok(true), written[ClaimedIndexKey := Ids(claimed + [giftId])])
  }

  /**
   * saveRSVP (src/lib/db.ts:33-43): overwrites the record of the RSVP,
   * then adds its id to the RSVP list if it is absent. For the id "list"
   * the record lands on the list's own key and the list read then throws.
   */
  function SaveRSVPStep(data: Data, rsvp: RSVPEntry): (s: Step<()>)
    ensures RsvpKey(rsvp.id) in s.after && s.after[RsvpKey(rsvp.id)] == Rsvp(rsvp)
    ensures s.out.Ok? <==> rsvp.id != "list" && ReadIndex(data, RsvpIndexKey).Ok?
    ensures s.out.Ok? ==>
      ReadIndex(s.after, RsvpIndexKey) == Ok(AddIfAbsent(IndexIds(data, RsvpIndexKey), rsvp.id))
    ensures s.out.Error? ==> ReadIndex(s.after, RsvpIndexKey) == Error
    ensures s.out.Error? ==> s.after == data[RsvpKey(rsvp.id) := Rsvp(rsvp)]
    ensures s.after - {RsvpKey(rsvp.id), RsvpIndexKey} == data - {RsvpKey(rsvp.id), RsvpIndexKey}
  {
    RsvpKeyCollision(rsvp.id);
    var written := data[RsvpKey(rsvp.id) := Rsvp(rsvp)];
    match ReadIndex(written, RsvpIndexKey)
    case Error => Step(Error, written)
    case Ok(listed) =>
      if rsvp.id in listed then Step(Ok(()), written)
      else Step(Ok(()), written[RsvpIndexKey := Ids(listed + [rsvp.id])])
  }

  /** The stored RSVP under `id`, as a list of zero or one entries. */
  function StoredRSVP(data: Data, id: string): seq<RSVPEntry>
  {
    if RsvpKey(id) in data && data[RsvpKey(id)].Rsvp? then [data[RsvpKey(id)].entry] else []
  }

  /** The records of the listed ids, in list order, skipping ids without one. */
  function CollectRSVPs(ids: seq<string>, data: Data): (r: seq<RSVPEntry>)
    ensures |r| <= |ids|
  {
    if ids == [] then []
    else CollectRSVPs(ids[..|ids| - 1], data) + StoredRSVP(data, ids[|ids| - 1])
  }

  /** getAllRSVPs (src/lib/db.ts:45-64). */
  function AllRSVPs(data: Data): (r: Result<seq<RSVPEntry>>)
    ensures r.Error? <==> ReadIndex(data, RsvpIndexKey).Error?
    ensures r.Ok? ==>
      && |r.value| <= |IndexIds(data, RsvpIndexKey)|
      && multiset(r.value) == multiset(CollectRSVPs(IndexIds(data, RsvpIndexKey), data))
  {
    match ReadIndex(data, RsvpIndexKey)
    case Error => Error
    case Ok(ids) => Ok(SortNewestFirst(CollectRSVPs(ids, data)))
  }

  /** The aggregate of getRSVPStats. */
  datatype Stats = Stats(total: int, attending: int, notAttending: int, totalGuests: int)

  /** Number of entries whose answer is `answer`. */
  function CountAnswer(rsvps: seq<RSVPEntry>, answer: string): (n: nat)
    ensures n <= |rsvps|
    ensures n == 0 <==> forall i :: 0 <= i < |rsvps| ==> rsvps[i].attending != answer
  {
    if rsvps == [] then 0
    else
      assert forall i :: 0 < i < |rsvps| ==> rsvps[1..][i - 1] == rsvps[i];
      (if rsvps[0].attending == answer then 1 else 0) + CountAnswer(rsvps[1..], answer)
  }

  /** Sum of `guestCount` over the entries answering "yes". */
  function GuestsAttending(rsvps: seq<RSVPEntry>): (g: int)
    ensures (forall i :: 0 <= i < |rsvps| ==> rsvps[i].guestCount >= 0) ==> g >= 0
    ensures (forall i :: 0 <= i < |rsvps| ==> rsvps[i].attending != "yes") ==> g == 0
  {
    if rsvps == [] then 0
    else
      assert forall i :: 0 <= i < |rsvps[1..]| ==> rsvps[1..][i] == rsvps[i + 1];
      (if rsvps[0].attending == "yes" then rsvps[0].guestCount else 0) + GuestsAttending(rsvps[1..])
  }

  /** getRSVPStats (src/lib/db.ts:74-81) over an already listed sequence. */
  function RSVPStats(rsvps: seq<RSVPEntry>): (st: Stats)
    ensures st.total == |rsvps|
    ensures 0 <= st.attending <= st.total && 0 <= st.notAttending <= st.total
    ensures st.attending == 0 ==> st.totalGuests == 0
  {
    Stats(|rsvps|, CountAnswer(rsvps, "yes"), CountAnswer(rsvps, "no"), GuestsAttending(rsvps))
  }

  /**
   * The claims of the listed ids, folded in list order; an id with no claim
   * record is skipped and a repeated id writes the same entry again.
   */
  function CollectClaims(ids: seq<string>, data: Data): (m: map<string, GiftClaim>)
    ensures forall id :: id in m <==> id in ids && GiftKey(id) in data && data[GiftKey(id)].Claim?
    ensures forall id :: id in m ==> data[GiftKey(id)] == Claim(m[id])
  {
    if ids == [] then map[]
    else
      var init := ids[..|ids| - 1];
      var last := ids[|ids| - 1];
      var m := CollectClaims(init, data);
      assert ids == init + [last];
      if GiftKey(last) in data && data[GiftKey(last)].Claim? then m[last := data[GiftKey(last)].claim] else m
  }

  /**
   * getAllGiftClaims (src/lib/db.ts:122-135): throws when the claimed list
   * does; otherwise maps exactly the listed ids that have a claim to it.
   */
  function AllGiftClaims(data: Data): (r: Result<map<string, GiftClaim>>)
    ensures r.Error? <==> ReadIndex(data, ClaimedIndexKey).Error?
    ensures r.Ok? ==> forall id :: id in r.value <==>
      id in IndexIds(data, ClaimedIndexKey) && GiftKey(id) in data && data[GiftKey(id)].Claim?
    ensures r.Ok? ==> forall id :: id in r.value ==> data[GiftKey(id)] == Claim(r.value[id])
  {
    match ClaimedGifts(data)
    case Error => Error
    case Ok(ids) => Ok(CollectClaims(ids, data))
  }

  /** getClaimedGifts (src/lib/db.ts:115-120). */
  function ClaimedGifts(data: Data): (r: Result<seq<string>>)
    ensures ClaimedIndexKey !in data ==> r == Ok([])
    ensures ClaimedIndexKey in data && data[ClaimedIndexKey].Ids? ==> r == Ok(data[ClaimedIndexKey].ids)
    ensures ClaimedIndexKey in data && !data[ClaimedIndexKey].Ids? ==> r == Error
  {
    ReadIndex(data, ClaimedIndexKey)
  }
}
