/**
 * The functions of src/lib/db.ts as methods of an in-memory key-value
 * store. Each get or set of the source is one read or one write of `data`;
 * each method is proved to do what the functions of DbSpec describe.
 */
module DbStore {
  import opened Common
  import opened DbTypes
  import opened RsvpOrder
  import opened DbSpec
  import opened DbInvariants
  import DbListing

  class Store {
    var data: Data

    constructor ()
      ensures data == map[] && Consistent(data)
    {
      data := map[];
    }

    /** saveRSVP (src/lib/db.ts:33-43): write the record, then list its id. */
    method SaveRSVP(rsvp: RSVPEntry) returns (r: Result<()>)
      modifies this
      ensures Step(r, data) == SaveRSVPStep(old(data), rsvp)
      ensures old(Consistent(data)) && rsvp.id != "list" ==> r == Ok(()) && Consistent(data)
    {
      ghost var before := data;
      data := data[RsvpKey(rsvp.id) := Rsvp(rsvp)];
      var read := ReadIndex(data, RsvpIndexKey);
      if read.Error? {
        return Error;
      }
      var rsvpList := read.value;
      if rsvp.id !in rsvpList {
        rsvpList := rsvpList + [rsvp.id];
        data := data[RsvpIndexKey := Ids(rsvpList)];
      }
      r := Ok(());
      if Consistent(before) && rsvp.id != "list" {
        SaveRSVPPreservesConsistency(before, rsvp);
      }
    }

    /** getAllRSVPs (src/lib/db.ts:45-64): fetch each listed record, then sort newest first. */
    method GetAllRSVPs() returns (r: Result<seq<RSVPEntry>>)
      ensures r == AllRSVPs(data)
    {
      var read := ReadIndex(data, RsvpIndexKey);
      if read.Error? {
        return Error;
      }
      var rsvpList := read.value;
      var rsvps: seq<RSVPEntry> := [];
      for i := 0 to |rsvpList|
        invariant rsvps == CollectRSVPs(rsvpList[..i], data)
      {
        var key := RsvpKey(rsvpList[i]);
        if key in data && data[key].Rsvp? {
          rsvps := rsvps + [data[key].entry];
        }
        assert rsvpList[..i + 1][..i] == rsvpList[..i];
      }
      assert rsvpList[..|rsvpList|] == rsvpList;
      r := Ok(SortNewestFirst(rsvps));
    }

    /**
     * getRSVPStats (src/lib/db.ts:66-82): throws when the listing throws;
     * otherwise exact counts over the stored records of the listed ids.
     */
    method GetRSVPStats() returns (r: Result<Stats>)
      ensures r.Error? <==> ReadIndex(data, RsvpIndexKey).Error?
      ensures r.Ok? ==> r.value == RSVPStats(CollectRSVPs(IndexIds(data, RsvpIndexKey), data))
      ensures r.Ok? ==> r.value.attending + r.value.notAttending <= r.value.total
    {
      var rsvps := GetAllRSVPs();
      if rsvps.Error? {
        return Error;
      }
      var all := rsvps.value;
      r := Ok(RSVPStats(all));
      DbListing.StatsCountStoredRecords(data);
      DbListing.AnswersCoverTotal(all);
    }

    /** claimGift (src/lib/db.ts:85-113): refuse a claimed gift, else write the claim, then list the id. */
    method ClaimGift(giftId: string, claimedBy: string, now: int) returns (r: Result<bool>)
      modifies this
      ensures Step(r, data) == ClaimGiftStep(old(data), giftId, claimedBy, now)
      ensures old(Consistent(data)) ==> r.Ok? && Consistent(data)
    {
      ghost var before := data;
      var key := GiftKey(giftId);
      if key in data {
        return Ok(false);
      }
      data := data[key := Claim(GiftClaim(giftId, claimedBy, now))];
      var read := ReadIndex(data, ClaimedIndexKey);
      if read.Error? {
        return Error;
      }
      var claimedList := read.value;
      if giftId !in claimedList {
        claimedList := claimedList + [giftId];
        data := data[ClaimedIndexKey := Ids(claimedList)];
      }
      r := Ok(true);
      if Consistent(before) {
        ClaimGiftPreservesConsistency(before, giftId, claimedBy, now);
      }
    }

    /**
     * getClaimedGifts (src/lib/db.ts:115-120): an absent list reads as
     * empty, a stored list as itself; any other value is an error.
     */
    method GetClaimedGifts() returns (r: Result<seq<string>>)
      ensures ClaimedIndexKey !in data ==> r == Ok([])
      ensures ClaimedIndexKey in data && data[ClaimedIndexKey].Ids? ==> r == Ok(data[ClaimedIndexKey].ids)
      ensures ClaimedIndexKey in data && !data[ClaimedIndexKey].Ids? ==> r == Error
      ensures r == ClaimedGifts(data)
    {
      r := ReadIndex(data, ClaimedIndexKey);
    }

    /**
     * getAllGiftClaims (src/lib/db.ts:122-135): maps every listed id that
     * has a claim to that claim, and nothing else.
     */
    method GetAllGiftClaims() returns (r: Result<map<string, GiftClaim>>)
      ensures r.Error? <==> ReadIndex(data, ClaimedIndexKey).Error?
      ensures r.Ok? ==> forall id :: id in r.value <==>
        id in IndexIds(data, ClaimedIndexKey) && GiftKey(id) in data && data[GiftKey(id)].Claim?
      ensures r.Ok? ==> forall id :: id in r.value ==> data[GiftKey(id)] == Claim(r.value[id])
      ensures GiftsConsistent(data) ==> r.Ok? && r.value.Keys == set id | id in IndexIds(data, ClaimedIndexKey)
      ensures r == AllGiftClaims(data)
    {
      var claimedList := GetClaimedGifts();
      if claimedList.Error? {
        return Error;
      }
      var ids := claimedList.value;
      var claims: map<string, GiftClaim> := map[];
      for i := 0 to |ids|
        invariant claims == CollectClaims(ids[..i], data)
      {
        var key := GiftKey(ids[i]);
        if key in data && data[key].Claim? {
          claims := claims[ids[i] := data[key].claim];
        }
        assert ids[..i + 1][..i] == ids[..i];
      }
      assert ids[..|ids|] == ids;
      r := Ok(claims);
    }
  }
}
