/**
 * The newest-first order of getAllRSVPs (src/lib/db.ts:61-63). The source
 * sorts with the stable library sort and a comparator on `submittedAt`; the
 * model uses a stable insertion sort and proves that it sorts, permutes and
 * keeps entries with equal timestamps in their original order.
 */
module RsvpOrder {
  import opened DbTypes

  /** Every entry is at least as recent as every entry after it. */
  ghost predicate NewestFirst(s: seq<RSVPEntry>)
  {
    forall i, j :: 0 <= i < j < |s| ==> s[i].submittedAt >= s[j].submittedAt
  }

  /** Inserts `e` in front of the first entry that is not newer than it. */
  function Insert(e: RSVPEntry, sorted: seq<RSVPEntry>): (r: seq<RSVPEntry>)
    ensures |r| == |sorted| + 1
    ensures multiset(r) == multiset(sorted) + multiset{e}
  {
    if sorted == [] || e.submittedAt >= sorted[0].submittedAt then [e] + sorted
    else
      assert sorted == [sorted[0]] + sorted[1..];
      [sorted[0]] + Insert(e, sorted[1..])
  }

  /** The entries of `s`, newest first; ties keep their order in `s`. */
  function SortNewestFirst(s: seq<RSVPEntry>): (r: seq<RSVPEntry>)
    ensures |r| == |s|
    ensures multiset(r) == multiset(s)
  {
    if s == [] then []
    else
      assert s == [s[0]] + s[1..];
      Insert(s[0], SortNewestFirst(s[1..]))
  }

  /** The entries of `s` submitted at time `t`, in their order in `s`. */
  function SubmittedAt(s: seq<RSVPEntry>, t: int): seq<RSVPEntry>
  {
    if s == [] then []
    else (if s[0].submittedAt == t then [s[0]] else []) + SubmittedAt(s[1..], t)
  }

  lemma {:induction false} InsertKeepsOrder(e: RSVPEntry, sorted: seq<RSVPEntry>)
    requires NewestFirst(sorted)
    ensures NewestFirst(Insert(e, sorted))
  {
    if sorted != [] && e.submittedAt < sorted[0].submittedAt {
      var rest := Insert(e, sorted[1..]);
      InsertKeepsOrder(e, sorted[1..]);
      forall k | 0 <= k < |rest|
        ensures rest[k].submittedAt <= sorted[0].submittedAt
      {
        assert rest[k] in multiset(rest);
        if rest[k] != e {
          assert rest[k] in multiset(sorted[1..]);
          var m :| 0 <= m < |sorted[1..]| && sorted[1..][m] == rest[k];
          assert sorted[m + 1] == rest[k];
        }
      }
    }
  }

  /** The sort returns the same entries, newest first. */
  lemma {:induction false} SortNewestFirstSorts(s: seq<RSVPEntry>)
    ensures NewestFirst(SortNewestFirst(s))
    ensures multiset(SortNewestFirst(s)) == multiset(s)
    ensures |SortNewestFirst(s)| == |s|
  {
    if s != [] {
      SortNewestFirstSorts(s[1..]);
      InsertKeepsOrder(s[0], SortNewestFirst(s[1..]));
      assert s == [s[0]] + s[1..];
    }
    assert |multiset(SortNewestFirst(s))| == |multiset(s)|;
  }

  lemma {:induction false} InsertStable(e: RSVPEntry, sorted: seq<RSVPEntry>, t: int)
    ensures SubmittedAt(Insert(e, sorted), t) == SubmittedAt([e] + sorted, t)
  {
    if sorted != [] && e.submittedAt < sorted[0].submittedAt {
      InsertStable(e, sorted[1..], t);
      assert ([sorted[0]] + Insert(e, sorted[1..]))[1..] == Insert(e, sorted[1..]);
      assert ([e] + sorted[1..])[1..] == sorted[1..];
      assert ([e] + sorted)[1..] == sorted;
    }
  }

  /** Entries with equal timestamps keep their relative order (the sort is stable). */
  lemma {:induction false} SortNewestFirstIsStable(s: seq<RSVPEntry>, t: int)
    ensures SubmittedAt(SortNewestFirst(s), t) == SubmittedAt(s, t)
  {
    if s != [] {
      SortNewestFirstIsStable(s[1..], t);
      InsertStable(s[0], SortNewestFirst(s[1..]), t);
      assert ([s[0]] + SortNewestFirst(s[1..]))[1..] == SortNewestFirst(s[1..]);
    }
  }
}
