/**
 * What getAllRSVPs and getRSVPStats (src/lib/db.ts:45-82) return: the stored
 * records of the listed ids, newest first, and exact counts over them.
 */
module DbListing {
  import opened Common
  import opened DbTypes
  import opened RsvpOrder
  import opened DbSpec
  import opened DbInvariants

  /** An entry is collected exactly when some listed id stores it. */
  lemma {:induction false} CollectRSVPsMembers(ids: seq<string>, data: Data, e: RSVPEntry)
    ensures e in CollectRSVPs(ids, data) <==>
      exists i :: 0 <= i < |ids| && RsvpKey(ids[i]) in data && data[RsvpKey(ids[i])] == Rsvp(e)
  {
    if ids != [] {
      var init := ids[..|ids| - 1];
      CollectRSVPsMembers(init, data, e);
      if e in CollectRSVPs(init, data) {
        var i :| 0 <= i < |init| && RsvpKey(init[i]) in data && data[RsvpKey(init[i])] == Rsvp(e);
        assert ids[i] == init[i];
      }
      if exists i :: 0 <= i < |ids| && RsvpKey(ids[i]) in data && data[RsvpKey(ids[i])] == Rsvp(e) {
        var i :| 0 <= i < |ids| && RsvpKey(ids[i]) in data && data[RsvpKey(ids[i])] == Rsvp(e);
        if i < |init| {
          assert init[i] == ids[i];
        }
      }
    }
  }

  /** When every listed id has a record, one entry is collected per id. */
  lemma {:induction false} CollectRSVPsComplete(ids: seq<string>, data: Data)
    requires forall i :: 0 <= i < |ids| ==> RsvpKey(ids[i]) in data && data[RsvpKey(ids[i])].Rsvp?
    ensures |CollectRSVPs(ids, data)| == |ids|
  {
    if ids != [] {
      var init := ids[..|ids| - 1];
      forall i | 0 <= i < |init|
        ensures RsvpKey(init[i]) in data && data[RsvpKey(init[i])].Rsvp?
      {
        assert init[i] == ids[i];
      }
      CollectRSVPsComplete(init, data);
    }
  }

  /**
   * getAllRSVPs throws exactly when the RSVP list is unreadable; otherwise
   * it returns the stored records of the listed ids, no more entries than
   * the list has ids, newest first.
   */
  lemma AllRSVPsListsStoredRecords(data: Data)
    ensures AllRSVPs(data).Error? <==> ReadIndex(data, RsvpIndexKey).Error?
    ensures AllRSVPs(data).Ok? ==>
      var ids := IndexIds(data, RsvpIndexKey);
      var listed := AllRSVPs(data).value;
      && |listed| <= |ids|
      && NewestFirst(listed)
      && multiset(listed) == multiset(CollectRSVPs(ids, data))
      && (forall e :: e in listed <==>
            exists i :: 0 <= i < |ids| && RsvpKey(ids[i]) in data && data[RsvpKey(ids[i])] == Rsvp(e))
  {
    if AllRSVPs(data).Ok? {
      var ids := IndexIds(data, RsvpIndexKey);
      var collected := CollectRSVPs(ids, data);
      SortNewestFirstSorts(collected);
      forall e
        ensures e in AllRSVPs(data).value <==>
          exists i :: 0 <= i < |ids| && RsvpKey(ids[i]) in data && data[RsvpKey(ids[i])] == Rsvp(e)
      {
        CollectRSVPsMembers(ids, data, e);
        assert e in AllRSVPs(data).value <==> e in multiset(AllRSVPs(data).value);
        assert e in collected <==> e in multiset(collected);
      }
    }
  }

  /**
   * On a consistent store the listing succeeds, has one entry per listed id
   * and holds every stored RSVP record.
   */
  lemma ConsistentListingIsComplete(data: Data)
    requires RsvpsConsistent(data)
    ensures AllRSVPs(data).Ok?
    ensures |AllRSVPs(data).value| == |IndexIds(data, RsvpIndexKey)|
    ensures forall id :: id != "list" && RsvpKey(id) in data ==> data[RsvpKey(id)].entry in AllRSVPs(data).value
  {
    var ids := IndexIds(data, RsvpIndexKey);
    CollectRSVPsComplete(ids, data);
    AllRSVPsListsStoredRecords(data);
    forall id | id != "list" && RsvpKey(id) in data
      ensures data[RsvpKey(id)].entry in AllRSVPs(data).value
    {
      var i :| 0 <= i < |ids| && ids[i] == id;
      assert data[RsvpKey(ids[i])] == Rsvp(data[RsvpKey(id)].entry);
    }
  }

  /** A saved RSVP appears in the listing that follows. */
  lemma SavedRSVPIsListed(data: Data, rsvp: RSVPEntry)
    requires Consistent(data)
    requires rsvp.id != "list"
    ensures AllRSVPs(SaveRSVPStep(data, rsvp).after).Ok?
    ensures rsvp in AllRSVPs(SaveRSVPStep(data, rsvp).after).value
  {
    var after := SaveRSVPStep(data, rsvp).after;
    SaveRSVPPreservesConsistency(data, rsvp);
    var ids := IndexIds(after, RsvpIndexKey);
    assert rsvp.id in ids;
    var i :| 0 <= i < |ids| && ids[i] == rsvp.id;
    assert RsvpKey(ids[i]) in after && after[RsvpKey(ids[i])] == Rsvp(rsvp);
    AllRSVPsListsStoredRecords(after);
  }

  /** Entries answering "yes" and "no" together never exceed the total, and reach it exactly when no other answer occurs. */
  lemma {:induction false} AnswersCoverTotal(rsvps: seq<RSVPEntry>)
    ensures CountAnswer(rsvps, "yes") + CountAnswer(rsvps, "no") <= |rsvps|
    ensures CountAnswer(rsvps, "yes") + CountAnswer(rsvps, "no") == |rsvps| <==>
      forall i :: 0 <= i < |rsvps| ==> rsvps[i].attending == "yes" || rsvps[i].attending == "no"
  {
    if rsvps != [] {
      AnswersCoverTotal(rsvps[1..]);
      if forall i :: 0 <= i < |rsvps| ==> rsvps[i].attending == "yes" || rsvps[i].attending == "no" {
        forall i | 0 <= i < |rsvps[1..]|
          ensures rsvps[1..][i].attending == "yes" || rsvps[1..][i].attending == "no"
        {
          assert rsvps[1..][i] == rsvps[i + 1];
        }
      } else {
        var k :| 0 <= k < |rsvps| && rsvps[k].attending != "yes" && rsvps[k].attending != "no";
        if k > 0 {
          assert rsvps[1..][k - 1] == rsvps[k];
        }
      }
    }
  }

  lemma {:induction false} InsertKeepsCounts(e: RSVPEntry, sorted: seq<RSVPEntry>, answer: string)
    ensures |Insert(e, sorted)| == |sorted| + 1
    ensures CountAnswer(Insert(e, sorted), answer) == CountAnswer([e] + sorted, answer)
    ensures GuestsAttending(Insert(e, sorted)) == GuestsAttending([e] + sorted)
  {
    if sorted != [] && e.submittedAt < sorted[0].submittedAt {
      InsertKeepsCounts(e, sorted[1..], answer);
      var ins := Insert(e, sorted);
      assert ins[0] == sorted[0] && ins[1..] == Insert(e, sorted[1..]);
      assert ([e] + sorted[1..])[0] == e && ([e] + sorted[1..])[1..] == sorted[1..];
      assert ([e] + sorted)[0] == e && ([e] + sorted)[1..] == sorted;
    }
  }

  lemma InsertKeepsStats(e: RSVPEntry, sorted: seq<RSVPEntry>)
    ensures RSVPStats(Insert(e, sorted)) == RSVPStats([e] + sorted)
  {
    InsertKeepsCounts(e, sorted, "yes");
    InsertKeepsCounts(e, sorted, "no");
  }

  /** The statistics of `[e] + rest` in terms of those of `rest`. */
  lemma StatsOfCons(e: RSVPEntry, rest: seq<RSVPEntry>)
    ensures var st := RSVPStats(rest);
      RSVPStats([e] + rest) == Stats(
        st.total + 1,
        st.attending + (if e.attending == "yes" then 1 else 0),
        st.notAttending + (if e.attending == "no" then 1 else 0),
        st.totalGuests + (if e.attending == "yes" then e.guestCount else 0))
  {
    assert ([e] + rest)[0] == e;
    assert ([e] + rest)[1..] == rest;
  }

  /** The newest-first sort changes none of the statistics. */
  lemma {:induction false} StatsIgnoreOrder(s: seq<RSVPEntry>)
    ensures RSVPStats(SortNewestFirst(s)) == RSVPStats(s)
  {
    if s != [] {
      var rest := SortNewestFirst(s[1..]);
      assert SortNewestFirst(s) == Insert(s[0], rest);
      StatsIgnoreOrder(s[1..]);
      InsertKeepsStats(s[0], rest);
      StatsOfCons(s[0], rest);
      StatsOfCons(s[0], s[1..]);
      assert s == [s[0]] + s[1..];
    }
  }

  /**
   * getRSVPStats throws exactly when the listing does; otherwise its counts
   * are exact over the stored records of the listed ids.
   */
  lemma StatsCountStoredRecords(data: Data)
    ensures AllRSVPs(data).Ok? ==>
      RSVPStats(AllRSVPs(data).value) == RSVPStats(CollectRSVPs(IndexIds(data, RsvpIndexKey), data))
  {
    if AllRSVPs(data).Ok? {
      StatsIgnoreOrder(CollectRSVPs(IndexIds(data, RsvpIndexKey), data));
    }
  }

  function SampleEntry(id: string, attending: string, guestCount: int, at: int): RSVPEntry
  {
    RSVPEntry(id, "", "", attending, guestCount, "", "", "", None, "", "", at)
  }

  /** Two "yes" answers with 2 and 1 guests and one "no" with 5 give 3, 2, 1 and 3 guests. */
  lemma StatsExample()
    ensures RSVPStats([SampleEntry("a", "yes", 2, 1), SampleEntry("b", "no", 5, 2), SampleEntry("c", "yes", 1, 3)])
      == Stats(3, 2, 1, 3)
  {
  }
}
