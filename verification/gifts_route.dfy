/**
 * GET and POST of src/app/api/gifts/route.ts. The calls into src/lib/db.ts
 * are inputs here: the value the call returned, or Error when it threw.
 */
module GiftsRoute {
  import opened Common
  import opened DbTypes
  import opened DbSpec
  import opened DbInvariants

  /** The JSON body of a claim: each field absent or a string. */
  datatype ClaimBody = ClaimBody(giftId: Option<string>, claimedBy: Option<string>)

  datatype ClaimReply =
    | MissingFields    // 400
    | AlreadyClaimed   // 409, `claimed: true`
    | Claimed          // 200, `success: true`
    | InternalError    // 500
  {
    function Status(): int
    {
      match this
      case MissingFields => 400
      case AlreadyClaimed => 409
      case Claimed => 200
      case InternalError => 500
    }
  }

  /** Arguments of the claimGift call the handler makes. */
  datatype ClaimCall = ClaimCall(giftId: string, claimedBy: string)

  /** The claimGift call made for a body: none when the body is unreadable or a field is falsy. */
  function CallFor(body: Result<ClaimBody>): (c: Option<ClaimCall>)
    ensures c.Some? <==> body.Ok? && Truthy(body.value.giftId) && Truthy(body.value.claimedBy)
    ensures c.Some? ==> Some(c.value.giftId) == body.value.giftId && Some(c.value.claimedBy) == body.value.claimedBy
  {
    if body.Error? || !Truthy(body.value.giftId) || !Truthy(body.value.claimedBy) then None
    else Some(ClaimCall(body.value.giftId.value, body.value.claimedBy.value))
  }

  /**
   * POST: the reply for a body (Error when it could not be parsed) given
   * what the claimGift call returned (consulted only when a call is made).
   */
  function Post(body: Result<ClaimBody>, claimed: Result<bool>): (r: ClaimReply)
    ensures body.Error? ==> r.Status() == 500
    ensures body.Ok? && CallFor(body).None? ==> r.Status() == 400
    ensures CallFor(body).Some? ==>
      && (claimed == Ok(false) <==> r.Status() == 409)
      && (claimed == Ok(true) <==> r.Status() == 200)
      && (claimed.Error? <==> r.Status() == 500)
  {
    if body.Error? then InternalError
    else if CallFor(body).None? then MissingFields
    else match claimed
      case Error => InternalError
      case Ok(success) => if success then Claimed else AlreadyClaimed
  }

  /** Validation precedes the store: without a call, the claim result cannot affect the reply. */
  lemma ValidationPrecedesClaim(body: Result<ClaimBody>, c1: Result<bool>, c2: Result<bool>)
    requires CallFor(body).None?
    ensures Post(body, c1) == Post(body, c2)
    ensures Post(body, c1).Status() == 400 || Post(body, c1).Status() == 500
  {
  }

  /** GET: the claimed list, or the empty list when reading it threw; never an error status. */
  function Get(claimedGifts: Result<seq<string>>): (r: seq<string>)
    ensures claimedGifts.Error? ==> r == []
    ensures claimedGifts.Ok? ==> r == claimedGifts.value
  {
    match claimedGifts
    case Ok(ids) => ids
    case Error => []
  }

  /**
   * Against the modelled store: a successful POST shows the gift in the
   * next GET, and a second POST for the same gift gets 409.
   */
  lemma PostAgainstStore(data: Data, first: ClaimBody, second: ClaimBody, t1: int, t2: int)
    requires GiftsConsistent(data)
    requires CallFor(Ok(first)).Some? && CallFor(Ok(second)).Some?
    requires first.giftId == second.giftId
    ensures var c1 := CallFor(Ok(first)).value;
            var s1 := ClaimGiftStep(data, c1.giftId, c1.claimedBy, t1);
            var c2 := CallFor(Ok(second)).value;
            var s2 := ClaimGiftStep(s1.after, c2.giftId, c2.claimedBy, t2);
            && (Post(Ok(first), s1.out) == Claimed ==> c1.giftId in Get(ClaimedGifts(s1.after)))
            && Post(Ok(second), s2.out) == AlreadyClaimed
            && s2.after == s1.after
  {
    var c1 := CallFor(Ok(first)).value;
    ClaimGiftKeepsGifts(data, c1.giftId, c1.claimedBy, t1);
  }
}
