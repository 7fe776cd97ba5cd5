/**
 * src/app/api/rsvp/route.ts: a module-level array of responses that POST
 * validates and appends to and GET counts. The server clock is an input.
 */
module RsvpRoute {
  import opened Common

  /** One submitted response as the body carries it: every field may be absent. */
  datatype RSVPData = RSVPData(
    name: Option<string>,
    email: Option<string>,
    attending: Option<string>,
    guestCount: Option<int>,
    dietary: Option<string>,
    message: Option<string>,
    submittedAt: Option<int>)

  datatype PostReply =
    | MissingFields   // 400
    | Received        // 200, `success: true`
    | InternalError   // 500
  {
    function Status(): int
    {
      match this
      case MissingFields => 400
      case Received => 200
      case InternalError => 500
    }
  }

  /** The fields the handler insists on: name, email and attending, each truthy. */
  predicate HasRequiredFields(d: RSVPData)
  {
    Truthy(d.name) && Truthy(d.email) && Truthy(d.attending)
  }

  /** The in-memory response list (`rsvpStore`). */
  class RsvpStore {
    var entries: seq<RSVPData>

    constructor ()
      ensures entries == []
    {
      entries := [];
    }

    /**
     * POST: a body that could not be parsed gets 500, a body missing a
     * required field 400, and neither changes the list; otherwise the body
     * is appended with `submittedAt` replaced by the server time.
     */
    method Post(body: Result<RSVPData>, now: int) returns (reply: PostReply)
      modifies this
      ensures body.Error? ==> reply.Status() == 500 && entries == old(entries)
      ensures body.Ok? && !HasRequiredFields(body.value) ==> reply.Status() == 400 && entries == old(entries)
      ensures body.Ok? && HasRequiredFields(body.value) ==>
        && reply.Status() == 200
        && |entries| == |old(entries)| + 1
        && entries[..|old(entries)|] == old(entries)
        && entries[|old(entries)|] == body.value.(submittedAt := Some(now))
    {
      if body.Error? {
        return InternalError;
      }
      var data := body.value;
      if !Truthy(data.name) || !Truthy(data.email) || !Truthy(data.attending) {
        return MissingFields;
      }
      entries := entries + [data.(submittedAt := Some(now))];
      reply := Received;
    }

    /** GET: the number of stored responses, and not the responses themselves. */
    method Get() returns (count: nat)
      ensures count == |entries|
    {
      count := |entries|;
    }
  }

  /** A rejected submission leaves the count as it was; an accepted one raises it by one. */
  method SubmitThenCount(store: RsvpStore, body: Result<RSVPData>, now: int) returns (before: nat, after: nat)
    modifies store
    ensures after == before + (if body.Ok? && HasRequiredFields(body.value) then 1 else 0)
  {
    before := store.Get();
    var _ := store.Post(body, now);
    after := store.Get();
  }
}
