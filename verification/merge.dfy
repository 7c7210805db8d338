/**
 * `merge_entries` (backend/transcript_parser.py): consecutive entries of one
 * speaker separated by at most `max_gap` seconds become a single entry.
 */
module Merge {
  import opened Strings
  import opened Entries

  const DefaultGap := 2.0

  /** The loop's test: same speaker as the open entry, and a gap after its end of at most `gap`. */
  predicate Mergeable(cur: Entry, next: Entry, gap: real) {
    next.speaker == cur.speaker && next.startTime - cur.endTime <= gap
  }

  /** The open entry extended to the end of `next`, their texts joined by a space. */
  function Absorb(cur: Entry, next: Entry): Entry
  {
    cur.(endTime := next.endTime, text := cur.text + " " + next.text)
  }

  /** The loop from the open entry `cur` over the entries still to come. */
  function MergeFrom(cur: Entry, rest: seq<Entry>, gap: real): (r: seq<Entry>)
    ensures 1 <= |r| <= |rest| + 1
    ensures r[0].startTime == cur.startTime && r[0].speaker == cur.speaker
    decreases |rest|
  {
    if |rest| == 0 then [cur]
    else if Mergeable(cur, rest[0], gap) then MergeFrom(Absorb(cur, rest[0]), rest[1..], gap)
    else [cur] + MergeFrom(rest[0], rest[1..], gap)
  }

  /** `merge_entries` */
  function MergeEntries(es: seq<Entry>, gap: real): (r: seq<Entry>)
    ensures |r| <= |es|
    ensures |r| == 0 <==> |es| == 0
    ensures |es| > 0 ==> r[0].startTime == es[0].startTime && r[0].speaker == es[0].speaker
  {
    if |es| == 0 then [] else MergeFrom(es[0], es[1..], gap)
  }

  function Last(es: seq<Entry>): Entry
    requires |es| > 0
  {
    es[|es| - 1]
  }

  /** No two neighbours would be merged. */
  predicate Separated(es: seq<Entry>, gap: real) {
    forall k :: 0 <= k < |es| - 1 ==> !Mergeable(es[k], es[k + 1], gap)
  }

  // ---------------------------------------------------------------------------
  // the last entry

  /** The last merged entry ends with the last input entry and has its speaker. */
  lemma {:induction false} MergeFromLast(cur: Entry, rest: seq<Entry>, gap: real)
    ensures Last(MergeFrom(cur, rest, gap)).endTime == Last([cur] + rest).endTime
    ensures Last(MergeFrom(cur, rest, gap)).speaker == Last([cur] + rest).speaker
    decreases |rest|
  {
    if |rest| > 0 {
      var all := [cur] + rest;
      if Mergeable(cur, rest[0], gap) {
        MergeFromLast(Absorb(cur, rest[0]), rest[1..], gap);
        if |rest| > 1 {
          assert Last([Absorb(cur, rest[0])] + rest[1..]) == Last(all);
        }
      } else {
        MergeFromLast(rest[0], rest[1..], gap);
        assert [rest[0]] + rest[1..] == rest;
        assert Last(MergeFrom(cur, rest, gap)) == Last(MergeFrom(rest[0], rest[1..], gap));
      }
    }
  }

  /** The merged transcript spans exactly the input's time range. */
  lemma MergeSpan(es: seq<Entry>, gap: real)
    requires |es| > 0
    ensures MergeEntries(es, gap)[0].startTime == es[0].startTime
    ensures Last(MergeEntries(es, gap)).endTime == Last(es).endTime
  {
    MergeFromLast(es[0], es[1..], gap);
    assert [es[0]] + es[1..] == es;
  }

  // ---------------------------------------------------------------------------
  // nothing is lost

  lemma JoinCons(a: string, t: seq<string>, sep: string)
    requires |t| > 0
    ensures Join([a] + t, sep) == a + sep + Join(t, sep)
  {
    assert ([a] + t)[1..] == t;
  }

  /** Merging keeps the words: the texts read the same, joined by spaces, before and after. */
  lemma {:induction false} MergeFromTexts(cur: Entry, rest: seq<Entry>, gap: real)
    ensures Join(Texts(MergeFrom(cur, rest, gap)), " ") == Join([cur.text] + Texts(rest), " ")
    decreases |rest|
  {
    if |rest| > 0 {
      var t := Texts(rest[1..]);
      assert Texts(rest) == [rest[0].text] + t;
      if Mergeable(cur, rest[0], gap) {
        var a := Absorb(cur, rest[0]);
        MergeFromTexts(a, rest[1..], gap);
        if |t| == 0 {
          assert [cur.text] + Texts(rest) == [cur.text, rest[0].text];
        } else {
          JoinCons(a.text, t, " ");
          JoinCons(rest[0].text, t, " ");
          JoinCons(cur.text, [rest[0].text] + t, " ");
          assert [cur.text] + ([rest[0].text] + t) == [cur.text] + Texts(rest);
        }
      } else {
        var m := MergeFrom(rest[0], rest[1..], gap);
        MergeFromTexts(rest[0], rest[1..], gap);
        assert Texts([cur] + m) == [cur.text] + Texts(m);
        JoinCons(cur.text, Texts(m), " ");
        JoinCons(cur.text, Texts(rest), " ");
        assert [rest[0].text] + t == Texts(rest);
      }
    }
  }

  lemma TextsCons(e: Entry, es: seq<Entry>)
    ensures Texts([e] + es) == [e.text] + Texts(es)
  {
  }

  /** `merge_entries` loses and adds no words. */
  lemma MergeKeepsText(es: seq<Entry>, gap: real)
    ensures Join(Texts(MergeEntries(es, gap)), " ") == Join(Texts(es), " ")
  {
    if |es| > 0 {
      MergeFromTexts(es[0], es[1..], gap);
      assert [es[0]] + es[1..] == es;
      TextsCons(es[0], es[1..]);
    }
  }

  // ---------------------------------------------------------------------------
  // the result is fully merged

  /** No two neighbouring results could be merged further. */
  lemma {:induction false} MergeFromSeparated(cur: Entry, rest: seq<Entry>, gap: real)
    ensures Separated(MergeFrom(cur, rest, gap), gap)
    decreases |rest|
  {
    if |rest| > 0 {
      if Mergeable(cur, rest[0], gap) {
        MergeFromSeparated(Absorb(cur, rest[0]), rest[1..], gap);
      } else {
        var m := MergeFrom(rest[0], rest[1..], gap);
        MergeFromSeparated(rest[0], rest[1..], gap);
        var r := [cur] + m;
        forall k | 0 <= k < |r| - 1
          ensures !Mergeable(r[k], r[k + 1], gap)
        {
          if k > 0 {
            assert r[k] == m[k - 1] && r[k + 1] == m[k];
          }
        }
      }
    }
  }

  lemma MergeSeparated(es: seq<Entry>, gap: real)
    ensures Separated(MergeEntries(es, gap), gap)
  {
    if |es| > 0 {
      MergeFromSeparated(es[0], es[1..], gap);
    }
  }

  /** A transcript with nothing to merge comes back unchanged. */
  lemma {:induction false} MergeFromIdentity(cur: Entry, rest: seq<Entry>, gap: real)
    requires Separated([cur] + rest, gap)
    ensures MergeFrom(cur, rest, gap) == [cur] + rest
    decreases |rest|
  {
    if |rest| > 0 {
      var all := [cur] + rest;
      assert all[0] == cur && all[1] == rest[0];
      forall k | 0 <= k < |rest| - 1
        ensures !Mergeable(([rest[0]] + rest[1..])[k], ([rest[0]] + rest[1..])[k + 1], gap)
      {
        assert all[k + 1] == rest[k] && all[k + 2] == rest[k + 1];
        assert [rest[0]] + rest[1..] == rest;
      }
      MergeFromIdentity(rest[0], rest[1..], gap);
      assert [rest[0]] + rest[1..] == rest;
    }
  }

  lemma MergeIdentity(es: seq<Entry>, gap: real)
    requires Separated(es, gap)
    ensures MergeEntries(es, gap) == es
  {
    if |es| > 0 {
      assert [es[0]] + es[1..] == es;
      MergeFromIdentity(es[0], es[1..], gap);
    }
  }

  /** Merging twice is merging once. */
  lemma MergeIdempotent(es: seq<Entry>, gap: real)
    ensures MergeEntries(MergeEntries(es, gap), gap) == MergeEntries(es, gap)
  {
    MergeSeparated(es, gap);
    MergeIdentity(MergeEntries(es, gap), gap);
  }

  // ---------------------------------------------------------------------------
  // merging in pieces

  lemma {:induction false} MergeFromAppend(cur: Entry, a: seq<Entry>, b: seq<Entry>, gap: real)
    requires |b| > 0 && !Mergeable(Last(MergeFrom(cur, a, gap)), b[0], gap)
    ensures MergeFrom(cur, a + b, gap) == MergeFrom(cur, a, gap) + MergeFrom(b[0], b[1..], gap)
    decreases |a|
  {
    if |a| == 0 {
      assert a + b == b;
    } else {
      assert (a + b)[0] == a[0] && (a + b)[1..] == a[1..] + b;
      var mb := MergeFrom(b[0], b[1..], gap);
      if Mergeable(cur, a[0], gap) {
        var c := Absorb(cur, a[0]);
        assert MergeFrom(cur, a, gap) == MergeFrom(c, a[1..], gap);
        assert MergeFrom(cur, a + b, gap) == MergeFrom(c, a[1..] + b, gap);
        MergeFromAppend(c, a[1..], b, gap);
      } else {
        var m := MergeFrom(a[0], a[1..], gap);
        assert MergeFrom(cur, a, gap) == [cur] + m;
        assert Last(MergeFrom(cur, a, gap)) == Last(m);
        assert MergeFrom(cur, a + b, gap) == [cur] + MergeFrom(a[0], a[1..] + b, gap);
        MergeFromAppend(a[0], a[1..], b, gap);
        assert [cur] + (m + mb) == ([cur] + m) + mb;
      }
    }
  }

  /** Two transcripts whose seam is not mergeable merge independently. */
  lemma MergeAppend(x: seq<Entry>, y: seq<Entry>, gap: real)
    requires |x| > 0 && |y| > 0 && !Mergeable(Last(x), y[0], gap)
    ensures MergeEntries(x + y, gap) == MergeEntries(x, gap) + MergeEntries(y, gap)
  {
    MergeFromLast(x[0], x[1..], gap);
    assert [x[0]] + x[1..] == x;
    assert (x + y)[0] == x[0] && (x + y)[1..] == x[1..] + y;
    MergeFromAppend(x[0], x[1..], y, gap);
  }
}
