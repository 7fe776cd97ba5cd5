/**
 * Sequential histories of claimGift calls (src/lib/db.ts:85-113). Requests
 * are served one after another; the interleaving of concurrent requests is
 * not part of this model.
 */
module ClaimHistory {
  import opened Common
  import opened DbTypes
  import opened DbSpec
  import opened DbInvariants

  /** One claimGift call: the gift, the claimant and the server time of the call. */
  datatype ClaimAttempt = ClaimAttempt(giftId: string, claimedBy: string, at: int)

  /** The replies of the calls, in order. */
  function ClaimOutcomes(data: Data, attempts: seq<ClaimAttempt>): (outs: seq<Result<bool>>)
    ensures |outs| == |attempts|
    decreases |attempts|
  {
    if attempts == [] then []
    else
      var s := ClaimGiftStep(data, attempts[0].giftId, attempts[0].claimedBy, attempts[0].at);
      [s.out] + ClaimOutcomes(s.after, attempts[1..])
  }

  /** The store after all the calls. */
  function AfterClaims(data: Data, attempts: seq<ClaimAttempt>): Data
    decreases |attempts|
  {
    if attempts == [] then data
    else
      var s := ClaimGiftStep(data, attempts[0].giftId, attempts[0].claimedBy, attempts[0].at);
      AfterClaims(s.after, attempts[1..])
  }

  /** The gift ids of the calls, in order. */
  function GiftIds(attempts: seq<ClaimAttempt>): (ids: seq<string>)
    ensures |ids| == |attempts|
    ensures forall i :: 0 <= i < |attempts| ==> ids[i] == attempts[i].giftId
  {
    if attempts == [] then [] else [attempts[0].giftId] + GiftIds(attempts[1..])
  }

  /** A claimed gift stays claimed by the same claim, and every later call for it is refused. */
  lemma {:induction false} ClaimedStaysClaimed(data: Data, attempts: seq<ClaimAttempt>, giftId: string)
    requires GiftKey(giftId) in data
    ensures GiftKey(giftId) in AfterClaims(data, attempts)
    ensures AfterClaims(data, attempts)[GiftKey(giftId)] == data[GiftKey(giftId)]
    ensures forall k :: 0 <= k < |attempts| && attempts[k].giftId == giftId ==>
      ClaimOutcomes(data, attempts)[k] == Ok(false)
    decreases |attempts|
  {
    if attempts != [] {
      var a := attempts[0];
      var s := ClaimGiftStep(data, a.giftId, a.claimedBy, a.at);
      if a.giftId != giftId {
        Untouched(data, s.after, {GiftKey(a.giftId), ClaimedIndexKey}, GiftKey(giftId));
      }
      ClaimedStaysClaimed(s.after, attempts[1..], giftId);
      var outs := ClaimOutcomes(data, attempts);
      forall k | 0 < k < |attempts| && attempts[k].giftId == giftId
        ensures outs[k] == Ok(false)
      {
        assert outs[k] == ClaimOutcomes(s.after, attempts[1..])[k - 1];
        assert attempts[1..][k - 1] == attempts[k];
      }
    }
  }

  /**
   * In a sequential history, once a call for a gift has succeeded every later
   * call for that gift is refused, and the winner's claim is the one kept.
   */
  lemma {:induction false} AtMostOneClaimSucceeds(data: Data, attempts: seq<ClaimAttempt>)
    ensures var outs := ClaimOutcomes(data, attempts);
      forall i, j :: 0 <= i < j < |attempts| && attempts[i].giftId == attempts[j].giftId && outs[i] == Ok(true) ==>
        outs[j] == Ok(false)
    ensures var outs := ClaimOutcomes(data, attempts);
      forall i :: 0 <= i < |attempts| && outs[i] == Ok(true) ==>
        var key := GiftKey(attempts[i].giftId);
        key in AfterClaims(data, attempts) &&
        AfterClaims(data, attempts)[key] == Claim(GiftClaim(attempts[i].giftId, attempts[i].claimedBy, attempts[i].at))
    decreases |attempts|
  {
    if attempts != [] {
      var a := attempts[0];
      var s := ClaimGiftStep(data, a.giftId, a.claimedBy, a.at);
      var rest := attempts[1..];
      var outs := ClaimOutcomes(data, attempts);
      assert outs == [s.out] + ClaimOutcomes(s.after, rest);
      AtMostOneClaimSucceeds(s.after, rest);
      if s.out == Ok(true) {
        ClaimedStaysClaimed(s.after, rest, a.giftId);
      }
      forall i, j | 0 <= i < j < |attempts| && attempts[i].giftId == attempts[j].giftId && outs[i] == Ok(true)
        ensures outs[j] == Ok(false)
      {
        assert rest[j - 1] == attempts[j];
        if i > 0 {
          assert rest[i - 1] == attempts[i];
        }
      }
      forall i | 0 <= i < |attempts| && outs[i] == Ok(true)
        ensures var key := GiftKey(attempts[i].giftId);
          key in AfterClaims(data, attempts) &&
          AfterClaims(data, attempts)[key] == Claim(GiftClaim(attempts[i].giftId, attempts[i].claimedBy, attempts[i].at))
      {
        if i > 0 {
          assert rest[i - 1] == attempts[i];
        }
      }
    }
  }

  /** Any sequential history keeps the gift part of a consistent store consistent. */
  lemma {:induction false} ClaimsKeepGiftsConsistent(data: Data, attempts: seq<ClaimAttempt>)
    requires GiftsConsistent(data)
    ensures GiftsConsistent(AfterClaims(data, attempts))
    ensures forall i :: 0 <= i < |attempts| ==> ClaimOutcomes(data, attempts)[i].Ok?
    decreases |attempts|
  {
    if attempts != [] {
      var a := attempts[0];
      var s := ClaimGiftStep(data, a.giftId, a.claimedBy, a.at);
      ClaimGiftKeepsGifts(data, a.giftId, a.claimedBy, a.at);
      ClaimsKeepGiftsConsistent(s.after, attempts[1..]);
      assert AfterClaims(data, attempts) == AfterClaims(s.after, attempts[1..]);
      var outs := ClaimOutcomes(data, attempts);
      var rest := ClaimOutcomes(s.after, attempts[1..]);
      assert outs == [s.out] + rest;
      forall i | 0 <= i < |attempts|
        ensures outs[i].Ok?
      {
        if i > 0 {
          assert outs[i] == rest[i - 1];
        }
      }
    }
  }

  /** Gifts that are neither claimed nor listed and are distinct from one another. */
  ghost predicate FreshGifts(data: Data, attempts: seq<ClaimAttempt>)
  {
    && (forall i, j :: 0 <= i < j < |attempts| ==> attempts[i].giftId != attempts[j].giftId)
    && (forall i :: 0 <= i < |attempts| ==>
          GiftKey(attempts[i].giftId) !in data && attempts[i].giftId !in IndexIds(data, ClaimedIndexKey))
  }

  /** The first of several fresh claims succeeds, appends its id and leaves the others fresh. */
  lemma FreshClaimStep(data: Data, attempts: seq<ClaimAttempt>)
    requires ReadIndex(data, ClaimedIndexKey).Ok?
    requires attempts != [] && FreshGifts(data, attempts)
    ensures var s := ClaimGiftStep(data, attempts[0].giftId, attempts[0].claimedBy, attempts[0].at);
      && s.out == Ok(true)
      && ReadIndex(s.after, ClaimedIndexKey) == Ok(IndexIds(data, ClaimedIndexKey) + [attempts[0].giftId])
      && FreshGifts(s.after, attempts[1..])
  {
    var a := attempts[0];
    var s := ClaimGiftStep(data, a.giftId, a.claimedBy, a.at);
    var rest := attempts[1..];
    var claimed := IndexIds(data, ClaimedIndexKey);
    assert IndexIds(s.after, ClaimedIndexKey) == claimed + [a.giftId];
    forall i | 0 <= i < |rest|
      ensures GiftKey(rest[i].giftId) !in s.after && rest[i].giftId !in claimed + [a.giftId]
    {
      assert rest[i] == attempts[i + 1];
      Untouched(data, s.after, {GiftKey(a.giftId), ClaimedIndexKey}, GiftKey(rest[i].giftId));
    }
    forall i, j | 0 <= i < j < |rest|
      ensures rest[i].giftId != rest[j].giftId
    {
      assert rest[i] == attempts[i + 1] && rest[j] == attempts[j + 1];
    }
  }

  /**
   * Calls for distinct gifts that are neither claimed nor listed all
   * succeed, and the claimed list grows by exactly those ids, in call order.
   */
  lemma {:induction false} FreshClaimsAppend(data: Data, attempts: seq<ClaimAttempt>)
    requires ReadIndex(data, ClaimedIndexKey).Ok?
    requires FreshGifts(data, attempts)
    ensures forall i :: 0 <= i < |attempts| ==> ClaimOutcomes(data, attempts)[i] == Ok(true)
    ensures ReadIndex(AfterClaims(data, attempts), ClaimedIndexKey) == Ok(IndexIds(data, ClaimedIndexKey) + GiftIds(attempts))
    decreases |attempts|
  {
    var claimed := IndexIds(data, ClaimedIndexKey);
    if attempts == [] {
      assert claimed + [] == claimed;
    } else {
      var a := attempts[0];
      var s := ClaimGiftStep(data, a.giftId, a.claimedBy, a.at);
      var rest := attempts[1..];
      FreshClaimStep(data, attempts);
      FreshClaimsAppend(s.after, rest);
      var outs := ClaimOutcomes(data, attempts);
      assert outs == [s.out] + ClaimOutcomes(s.after, rest);
      forall i | 0 < i < |attempts|
        ensures outs[i] == Ok(true)
      {
        assert outs[i] == ClaimOutcomes(s.after, rest)[i - 1];
      }
      assert IndexIds(s.after, ClaimedIndexKey) == claimed + [a.giftId];
      assert AfterClaims(data, attempts) == AfterClaims(s.after, rest);
      assert GiftIds(attempts) == [a.giftId] + GiftIds(rest);
      AppendAssociates(claimed, [a.giftId], GiftIds(rest));
    }
  }

  /**
   * On a consistent store, calls for distinct unclaimed gifts all succeed,
   * the store stays consistent, and the claimed list afterwards is the old
   * list followed by those ids in call order.
   */
  lemma DistinctClaimsAllSucceed(data: Data, attempts: seq<ClaimAttempt>)
    requires GiftsConsistent(data)
    requires forall i, j :: 0 <= i < j < |attempts| ==> attempts[i].giftId != attempts[j].giftId
    requires forall i :: 0 <= i < |attempts| ==> GiftKey(attempts[i].giftId) !in data
    ensures forall i :: 0 <= i < |attempts| ==> ClaimOutcomes(data, attempts)[i] == Ok(true)
    ensures GiftsConsistent(AfterClaims(data, attempts))
    ensures IndexIds(AfterClaims(data, attempts), ClaimedIndexKey) == IndexIds(data, ClaimedIndexKey) + GiftIds(attempts)
  {
    var claimed := IndexIds(data, ClaimedIndexKey);
    assert forall i :: 0 <= i < |attempts| ==> attempts[i].giftId !in claimed;
    FreshClaimsAppend(data, attempts);
    ClaimsKeepGiftsConsistent(data, attempts);
  }

  /** The concrete scenario: Alice claims "kitchenaid", then Bob is refused and Alice keeps it. */
  lemma KitchenAidScenario(data: Data, t1: int, t2: int)
    requires GiftKey("kitchenaid") !in data
    requires ReadIndex(data, ClaimedIndexKey).Ok?
    ensures var outs := ClaimOutcomes(data, [ClaimAttempt("kitchenaid", "Alice", t1), ClaimAttempt("kitchenaid", "Bob", t2)]);
      outs[0] == Ok(true) && outs[1] == Ok(false)
    ensures GiftKey("kitchenaid") in AfterClaims(data, [ClaimAttempt("kitchenaid", "Alice", t1), ClaimAttempt("kitchenaid", "Bob", t2)])
    ensures AfterClaims(data, [ClaimAttempt("kitchenaid", "Alice", t1), ClaimAttempt("kitchenaid", "Bob", t2)])[GiftKey("kitchenaid")]
      == Claim(GiftClaim("kitchenaid", "Alice", t1))
  {
    var attempts := [ClaimAttempt("kitchenaid", "Alice", t1), ClaimAttempt("kitchenaid", "Bob", t2)];
    var s := ClaimGiftStep(data, "kitchenaid", "Alice", t1);
    ClaimedStaysClaimed(s.after, attempts[1..], "kitchenaid");
    assert AfterClaims(data, attempts) == AfterClaims(s.after, attempts[1..]);
    assert ClaimOutcomes(data, attempts)[0] == s.out;
    assert ClaimOutcomes(data, attempts)[1] == ClaimOutcomes(s.after, attempts[1..])[0];
  }
}
