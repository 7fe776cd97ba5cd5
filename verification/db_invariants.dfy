/**
 * The record-plus-index invariant of src/lib/db.ts: every id an index lists
 * has its record, no index lists an id twice, and every record is listed.
 * claimGift and saveRSVP write the record before the index, so both keep the
 * invariant, except saveRSVP for the id "list", whose record key is the RSVP
 * index key itself.
 */
module DbInvariants {
  import opened Common
  import opened DbTypes
  import opened DbSpec

  /** The claimed list is readable, duplicate-free and exactly the claimed gifts. */
  ghost predicate GiftsConsistent(data: Data)
  {
    var claimed := IndexIds(data, ClaimedIndexKey);
    && ReadIndex(data, ClaimedIndexKey).Ok?
    && NoDuplicates(claimed)
    && (forall i :: 0 <= i < |claimed| ==> GiftKey(claimed[i]) in data)
    && (forall id :: GiftKey(id) in data ==>
          data[GiftKey(id)].Claim? && data[GiftKey(id)].claim.giftId == id && id in claimed)
  }

  /** The RSVP list is readable, duplicate-free and exactly the stored RSVPs. */
  ghost predicate RsvpsConsistent(data: Data)
  {
    var listed := IndexIds(data, RsvpIndexKey);
    && ReadIndex(data, RsvpIndexKey).Ok?
    && NoDuplicates(listed)
    && (forall i :: 0 <= i < |listed| ==> RsvpKey(listed[i]) in data && data[RsvpKey(listed[i])].Rsvp?)
    && (forall id :: id != "list" && RsvpKey(id) in data ==>
          data[RsvpKey(id)].Rsvp? && data[RsvpKey(id)].entry.id == id && id in listed)
  }

  ghost predicate Consistent(data: Data)
  {
    GiftsConsistent(data) && RsvpsConsistent(data)
  }

  /** A key outside the written ones keeps its presence and its value. */
  lemma Untouched(before: Data, after: Data, written: set<string>, k: string)
    requires after - written == before - written
    requires k !in written
    ensures k in after <==> k in before
    ensures k in before ==> after[k] == before[k]
  {
    assert k in after <==> k in after - written;
    assert k in before <==> k in before - written;
    if k in before {
      assert (after - written)[k] == (before - written)[k];
    }
  }

  /** The empty store, where every index is absent, is consistent. */
  lemma EmptyStoreConsistent()
    ensures Consistent(map[])
  {
  }

  /** claimGift never touches the RSVP part of the store. */
  lemma ClaimGiftKeepsRsvps(data: Data, giftId: string, claimedBy: string, now: int)
    requires RsvpsConsistent(data)
    ensures RsvpsConsistent(ClaimGiftStep(data, giftId, claimedBy, now).after)
  {
    var after := ClaimGiftStep(data, giftId, claimedBy, now).after;
    var written := {GiftKey(giftId), ClaimedIndexKey};
    Untouched(data, after, written, RsvpIndexKey);
    assert ReadIndex(after, RsvpIndexKey) == ReadIndex(data, RsvpIndexKey);
    forall id | true
      ensures RsvpKey(id) in after <==> RsvpKey(id) in data
      ensures RsvpKey(id) in data ==> after[RsvpKey(id)] == data[RsvpKey(id)]
    {
      GiftAndRsvpKeysDiffer(giftId, id);
      Untouched(data, after, written, RsvpKey(id));
    }
  }

  /** After a fresh claim, every id of the extended claimed list has its claim key. */
  lemma FreshClaimListedIdsStored(data: Data, after: Data, giftId: string, claimed: seq<string>)
    requires forall i :: 0 <= i < |claimed| ==> GiftKey(claimed[i]) in data
    requires after - {GiftKey(giftId), ClaimedIndexKey} == data - {GiftKey(giftId), ClaimedIndexKey}
    requires GiftKey(giftId) in after
    ensures forall i :: 0 <= i < |AddIfAbsent(claimed, giftId)| ==> GiftKey(AddIfAbsent(claimed, giftId)[i]) in after
  {
    var claimed' := AddIfAbsent(claimed, giftId);
    forall i | 0 <= i < |claimed'|
      ensures GiftKey(claimed'[i]) in after
    {
      if claimed'[i] != giftId {
        var j :| 0 <= j < |claimed| && claimed[j] == claimed'[i];
        Untouched(data, after, {GiftKey(giftId), ClaimedIndexKey}, GiftKey(claimed[j]));
      }
    }
  }

  /** After a fresh claim, every claim key holds its own claim and its id is in the extended list. */
  lemma FreshClaimStoredIdsListed(data: Data, after: Data, giftId: string, claim: GiftClaim, claimed: seq<string>)
    requires forall id :: GiftKey(id) in data ==>
      data[GiftKey(id)].Claim? && data[GiftKey(id)].claim.giftId == id && id in claimed
    requires after - {GiftKey(giftId), ClaimedIndexKey} == data - {GiftKey(giftId), ClaimedIndexKey}
    requires GiftKey(giftId) in after && after[GiftKey(giftId)] == Claim(claim) && claim.giftId == giftId
    ensures forall id :: GiftKey(id) in after ==>
      after[GiftKey(id)].Claim? && after[GiftKey(id)].claim.giftId == id && id in AddIfAbsent(claimed, giftId)
  {
    forall id | GiftKey(id) in after
      ensures after[GiftKey(id)].Claim? && after[GiftKey(id)].claim.giftId == id && id in AddIfAbsent(claimed, giftId)
    {
      if id != giftId {
        Untouched(data, after, {GiftKey(giftId), ClaimedIndexKey}, GiftKey(id));
      }
    }
  }

  /** A claim on a store whose gift part is consistent succeeds or is refused, and keeps that part consistent. */
  lemma ClaimGiftKeepsGifts(data: Data, giftId: string, claimedBy: string, now: int)
    requires GiftsConsistent(data)
    ensures ClaimGiftStep(data, giftId, claimedBy, now).out.Ok?
    ensures GiftsConsistent(ClaimGiftStep(data, giftId, claimedBy, now).after)
  {
    if GiftKey(giftId) !in data {
      var after := ClaimGiftStep(data, giftId, claimedBy, now).after;
      var claimed := IndexIds(data, ClaimedIndexKey);
      assert IndexIds(after, ClaimedIndexKey) == AddIfAbsent(claimed, giftId);
      FreshClaimListedIdsStored(data, after, giftId, claimed);
      FreshClaimStoredIdsListed(data, after, giftId, GiftClaim(giftId, claimedBy, now), claimed);
    }
  }

  /** A claim on a consistent store succeeds or is refused, and keeps it consistent. */
  lemma ClaimGiftPreservesConsistency(data: Data, giftId: string, claimedBy: string, now: int)
    requires Consistent(data)
    ensures ClaimGiftStep(data, giftId, claimedBy, now).out.Ok?
    ensures Consistent(ClaimGiftStep(data, giftId, claimedBy, now).after)
  {
    ClaimGiftKeepsGifts(data, giftId, claimedBy, now);
    ClaimGiftKeepsRsvps(data, giftId, claimedBy, now);
  }

  /** saveRSVP, whatever the id, never touches the gift part of the store. */
  lemma SaveRSVPKeepsGifts(data: Data, rsvp: RSVPEntry)
    requires GiftsConsistent(data)
    ensures GiftsConsistent(SaveRSVPStep(data, rsvp).after)
  {
    var after := SaveRSVPStep(data, rsvp).after;
    var written := {RsvpKey(rsvp.id), RsvpIndexKey};
    Untouched(data, after, written, ClaimedIndexKey);
    forall id | true
      ensures GiftKey(id) in after <==> GiftKey(id) in data
      ensures GiftKey(id) in data ==> after[GiftKey(id)] == data[GiftKey(id)]
    {
      GiftAndRsvpKeysDiffer(id, rsvp.id);
      Untouched(data, after, written, GiftKey(id));
    }
    GiftsConsistentFrame(data, after);
  }

  /** The gift invariant depends only on the claimed list and the gift keys. */
  lemma GiftsConsistentFrame(before: Data, after: Data)
    requires GiftsConsistent(before)
    requires ClaimedIndexKey in after <==> ClaimedIndexKey in before
    requires ClaimedIndexKey in before ==> after[ClaimedIndexKey] == before[ClaimedIndexKey]
    requires forall id :: GiftKey(id) in after <==> GiftKey(id) in before
    requires forall id :: GiftKey(id) in before ==> after[GiftKey(id)] == before[GiftKey(id)]
    ensures GiftsConsistent(after)
  {
    assert ReadIndex(after, ClaimedIndexKey) == ReadIndex(before, ClaimedIndexKey);
  }

  /** Saving an RSVP whose id is not "list" succeeds on a consistent store and keeps it consistent. */
  lemma SaveRSVPPreservesConsistency(data: Data, rsvp: RSVPEntry)
    requires Consistent(data)
    requires rsvp.id != "list"
    ensures SaveRSVPStep(data, rsvp).out == Ok(())
    ensures Consistent(SaveRSVPStep(data, rsvp).after)
  {
    SaveRSVPKeepsGifts(data, rsvp);
    var after := SaveRSVPStep(data, rsvp).after;
    var written := {RsvpKey(rsvp.id), RsvpIndexKey};
    var listed := IndexIds(data, RsvpIndexKey);
    var listed' := IndexIds(after, RsvpIndexKey);
    assert listed' == AddIfAbsent(listed, rsvp.id);
    RsvpKeyCollision(rsvp.id);
    forall i | 0 <= i < |listed'|
      ensures RsvpKey(listed'[i]) in after && after[RsvpKey(listed'[i])].Rsvp?
    {
      if listed'[i] != rsvp.id {
        assert listed'[i] in listed;
        var j :| 0 <= j < |listed| && listed[j] == listed'[i];
        assert RsvpKey(listed[j]) in data;
        RsvpKeyCollision(listed[j]);
        Untouched(data, after, written, RsvpKey(listed[j]));
      }
    }
    forall id | id != "list" && RsvpKey(id) in after
      ensures after[RsvpKey(id)].Rsvp? && after[RsvpKey(id)].entry.id == id && id in listed'
    {
      if id != rsvp.id {
        RsvpKeyCollision(id);
        Untouched(data, after, written, RsvpKey(id));
      }
    }
  }

  /**
   * Saving an RSVP with the id "list" overwrites the RSVP index with the
   * record and throws; from then on every listing and every save throws.
   */
  lemma ListIdOverwritesIndex(data: Data, rsvp: RSVPEntry)
    requires rsvp.id == "list"
    ensures SaveRSVPStep(data, rsvp).out == Error
    ensures SaveRSVPStep(data, rsvp).after[RsvpIndexKey] == Rsvp(rsvp)
    ensures AllRSVPs(SaveRSVPStep(data, rsvp).after) == Error
    ensures forall later :: SaveRSVPStep(SaveRSVPStep(data, rsvp).after, later).out == Error
  {
    RsvpKeyCollision(rsvp.id);
  }

  /** Saving twice under one id leaves the index as the first save left it; the record is the second. */
  lemma SaveRSVPTwice(data: Data, first: RSVPEntry, second: RSVPEntry)
    requires first.id == second.id
    ensures var once := SaveRSVPStep(data, first);
            var twice := SaveRSVPStep(once.after, second);
            && ReadIndex(twice.after, RsvpIndexKey) == ReadIndex(once.after, RsvpIndexKey)
            && twice.after[RsvpKey(second.id)] == Rsvp(second)
            && twice.out == once.out
  {
    var once := SaveRSVPStep(data, first);
    if once.out.Ok? {
      assert first.id in IndexIds(once.after, RsvpIndexKey);
      assert AddIfAbsent(IndexIds(once.after, RsvpIndexKey), second.id) == IndexIds(once.after, RsvpIndexKey);
    }
  }
}
