/**
 The time-stamped transforms one frame keeps: an ordered set that ignores a second entry with the
 same stamp, a clean-up behind every insertion, and the choice of an entry for a lookup.
 */
module TimeSeries {
  import opened Wrappers

  datatype Stamp = Stamp(seconds: int, nanos: int)

  datatype Sample<G> = Sample(stamp: Stamp, value: G)

  const MEMORY_DURATION := 1000

  predicate Before(a: Stamp, b: Stamp)
  {
    a.seconds < b.seconds || (a.seconds == b.seconds && a.nanos < b.nanos)
  }

  ghost predicate Sorted<G>(s: seq<Sample<G>>)
  {
    forall i, j :: 0 <= i < j < |s| ==> Before(s[i].stamp, s[j].stamp)
  }

  /** Division as in C++, toward zero. */
  function TruncDiv(a: int, b: nat): (q: int)
    requires b > 0
  {
    if a >= 0 then a / b else -((-a) / b)
  }

  /** What the code takes for r - l in milliseconds; its nanoseconds are divided by a thousand only. */
  function DiffMs(l: Stamp, r: Stamp): (d: int)
  {
    (r.seconds - l.seconds) * 1000 + TruncDiv(r.nanos - l.nanos, 1000)
  }

  // ---------- Insertion and clean-up ----------

  /** Where `lower_bound` points: the first entry not before the stamp. */
  function LowerBound<G>(s: seq<Sample<G>>, t: Stamp): (i: nat)
    ensures i <= |s|
    ensures forall j :: 0 <= j < i ==> Before(s[j].stamp, t)
    ensures i < |s| ==> !Before(s[i].stamp, t)
  {
    if s == [] || !Before(s[0].stamp, t) then 0 else 1 + LowerBound(s[1..], t)
  }

  function Insert<G>(s: seq<Sample<G>>, e: Sample<G>): (s': seq<Sample<G>>)
  {
    var i := LowerBound(s, e.stamp);
    if i < |s| && s[i].stamp == e.stamp then s else s[..i] + [e] + s[i..]
  }

  /** The entries clean-up leaves, seen from the newest stamp. */
  function Retain<G>(s: seq<Sample<G>>, newest: Stamp): (s': seq<Sample<G>>)
  {
    if s == [] then []
    else
      var rest := Retain(s[..|s| - 1], newest);
      if DiffMs(newest, s[|s| - 1].stamp) > MEMORY_DURATION then rest else rest + [s[|s| - 1]]
  }

  function Pushed<G>(s: seq<Sample<G>>, isStatic: bool, e: Sample<G>): (s': seq<Sample<G>>)
  {
    var t := Insert(s, e);
    if isStatic || t == [] then t else Retain(t, t[|t| - 1].stamp)
  }

  /** The clean-up loop: an iterator that erases or moves on. */
  method Cleanup<G>(s: seq<Sample<G>>, isStatic: bool, current: Stamp) returns (kept: seq<Sample<G>>)
    ensures kept == if isStatic then s else Retain(s, current)
  {
    if isStatic {
      return s;
    }
    kept := s;
    var it := 0;
    ghost var seen := 0;
    while it < |kept|
      invariant 0 <= seen <= |s| && it <= |kept|
      invariant kept[..it] == Retain(s[..seen], current)
      invariant kept[it..] == s[seen..]
      decreases |s| - seen
    {
      assert s[..seen + 1][..seen] == s[..seen] && kept[it] == s[seen..][0] == s[seen];
      if DiffMs(current, kept[it].stamp) > MEMORY_DURATION {
        ghost var head := kept[..it];
        kept := kept[..it] + kept[it + 1..];
        assert kept[..it] == head;
        assert kept[it..] == s[seen..][1..] == s[seen + 1..];
      } else {
        assert kept[..it + 1] == kept[..it] + [s[seen]];
        assert kept[it + 1..] == s[seen..][1..] == s[seen + 1..];
        it := it + 1;
      }
      seen := seen + 1;
    }
    assert kept[..it] == kept && s[..seen] == s;
  }

  method Push<G>(s: seq<Sample<G>>, isStatic: bool, e: Sample<G>) returns (s': seq<Sample<G>>)
    ensures s' == Pushed(s, isStatic, e)
  {
    var inserted := Insert(s, e);
    InsertNonempty(s, e);
    s' := Cleanup(inserted, isStatic, inserted[|inserted| - 1].stamp);
  }

  lemma InsertNonempty<G>(s: seq<Sample<G>>, e: Sample<G>)
    ensures Insert(s, e) != []
  {
  }

  // ---------- What is kept ----------

  /** The difference is a thousand for each second, and one for each whole thousand nanoseconds. */
  lemma DiffMsIs(l: Stamp, r: Stamp)
    ensures var q, n := DiffMs(l, r) - 1000 * (r.seconds - l.seconds), r.nanos - l.nanos;
      && (n >= 0 ==> 1000 * q <= n < 1000 * (q + 1))
      && (n <= 0 ==> 1000 * (q - 1) < n <= 1000 * q)
    ensures DiffMs(r, l) == -DiffMs(l, r)
  {
  }

  /** An entry with a new stamp is added in its place, whichever that is; with a stamp that is there, nothing is. */
  lemma InsertIs<G>(s: seq<Sample<G>>, e: Sample<G>)
    requires Sorted(s)
    ensures Sorted(Insert(s, e))
    ensures forall x :: x in Insert(s, e) <==> x in s || (x == e && forall y :: y in s ==> y.stamp != e.stamp)
  {
    InsertSorted(s, e);
    var i, t := LowerBound(s, e.stamp), Insert(s, e);
    if t == s {
      assert s[i] in s;
    } else {
      forall y | y in s ensures y.stamp != e.stamp {
        var k :| 0 <= k < |s| && s[k] == y;
        if i < k { assert Before(s[i].stamp, s[k].stamp); }
      }
      Spliced(s, i, e);
    }
  }

  lemma Spliced<G>(s: seq<Sample<G>>, i: nat, e: Sample<G>)
    requires i <= |s|
    ensures forall x :: x in s[..i] + [e] + s[i..] <==> x in s || x == e
  {
    assert s == s[..i] + s[i..];
  }

  lemma {:induction false} RetainIff<G>(s: seq<Sample<G>>, newest: Stamp)
    ensures forall x :: x in Retain(s, newest) <==> x in s && DiffMs(newest, x.stamp) <= MEMORY_DURATION
    decreases |s|
  {
    if s != [] {
      RetainIff(s[..|s| - 1], newest);
      assert s == s[..|s| - 1] + [s[|s| - 1]];
    }
  }

  /** The newest stamp of a series to which an entry was offered. */
  function NewestStamp<G>(s: seq<Sample<G>>, e: Sample<G>): (t: Stamp)
  {
    if s != [] && !Before(s[|s| - 1].stamp, e.stamp) then s[|s| - 1].stamp else e.stamp
  }

  /**
   Exactly what one push leaves: the series is sorted, and has the entries that were there and the new one,
   if its stamp is new; of these, in a frame that is not static, those whose difference to the newest does not
   exceed the limit.
   */
  lemma PushedIff<G>(s: seq<Sample<G>>, isStatic: bool, e: Sample<G>)
    requires Sorted(s)
    ensures Sorted(Pushed(s, isStatic, e))
    ensures forall x :: x in Pushed(s, isStatic, e) <==>
      && (x in s || (x == e && forall y :: y in s ==> y.stamp != e.stamp))
      && (isStatic || DiffMs(NewestStamp(s, e), x.stamp) <= MEMORY_DURATION)
  {
    InsertSorted(s, e);
    InsertIs(s, e);
    PushedNewest(s, isStatic, e);
    var t := Insert(s, e);
    LastStamp(s, e);
    RetainIff(t, t[|t| - 1].stamp);
  }

  lemma LastStamp<G>(s: seq<Sample<G>>, e: Sample<G>)
    requires Sorted(s)
    ensures var t := Insert(s, e); t != [] && t[|t| - 1].stamp == NewestStamp(s, e)
  {
    InsertSorted(s, e);
  }

  /** A stamp as messages carry it. */
  predicate Normal(t: Stamp)
  {
    0 <= t.nanos < 1_000_000_000
  }

  /**
   What that comes to, the nanoseconds being divided by a thousand: an entry is dropped only if its nanoseconds
   are ahead of those of the newest by more than a thousand for each of its thousandths of a second behind, and
   one that is 999 seconds old or older is never dropped.
   */
  lemma DroppedIff(newest: Stamp, t: Stamp)
    requires Normal(newest) && Normal(t) && !Before(newest, t)
    ensures DiffMs(newest, t) > MEMORY_DURATION <==>
      t.nanos - newest.nanos >= 1000 * (1000 * (newest.seconds - t.seconds) + 1001)
    ensures newest.seconds - t.seconds >= 999 ==> DiffMs(newest, t) <= MEMORY_DURATION
  {
    DiffMsIs(newest, t);
  }

  /** So clean-up drops an entry of the second before the newest that is hardly older than it, and keeps one of
      999 seconds ago. */
  lemma CleanupIsBackwards<G>(a: Sample<G>, b: Sample<G>, e: Sample<G>)
    requires Normal(a.stamp) && Normal(b.stamp) && Normal(e.stamp)
    requires a.stamp.seconds + 999 <= e.stamp.seconds
    requires b.stamp.seconds + 1 == e.stamp.seconds && b.stamp.nanos >= e.stamp.nanos + 2_001_000
    ensures var s := Pushed([a, b], false, e); a in s && b !in s && e in s
  {
    Differences(a.stamp, b.stamp, e.stamp);
    DropsMiddle(a, b, e);
  }

  lemma Differences(a: Stamp, b: Stamp, e: Stamp)
    requires Normal(a) && Normal(b) && Normal(e) && a.seconds + 999 <= e.seconds
    requires b.seconds + 1 == e.seconds && b.nanos >= e.nanos + 2_001_000
    ensures Before(a, b) && Before(b, e)
    ensures DiffMs(e, b) > MEMORY_DURATION && DiffMs(e, a) <= MEMORY_DURATION && DiffMs(e, e) <= MEMORY_DURATION
  {
    DroppedIff(e, a);
    DroppedIff(e, b);
  }

  lemma DropsMiddle<G>(a: Sample<G>, b: Sample<G>, e: Sample<G>)
    requires Before(a.stamp, b.stamp) && Before(b.stamp, e.stamp)
    requires DiffMs(e.stamp, b.stamp) > MEMORY_DURATION && DiffMs(e.stamp, a.stamp) <= MEMORY_DURATION
    requires DiffMs(e.stamp, e.stamp) <= MEMORY_DURATION
    ensures var s := Pushed([a, b], false, e); a in s && b !in s && e in s
  {
    assert !Before(b.stamp, b.stamp) && !Before(e.stamp, e.stamp) && Before(a.stamp, e.stamp);
    PushedIff([a, b], false, e);
  }

  // ---------- The newest entry ----------

  /** e is the first to arrive with the greatest stamp in the history. */
  ghost predicate FirstGreatest<G>(history: seq<Sample<G>>, e: Sample<G>)
  {
    exists i :: 0 <= i < |history| && FirstGreatestAt(history, i) && history[i] == e
  }

  ghost predicate FirstGreatestAt<G>(history: seq<Sample<G>>, i: nat)
    requires i < |history|
  {
    && (forall j :: 0 <= j < |history| ==> !Before(history[i].stamp, history[j].stamp))
    && (forall j :: 0 <= j < i ==> history[j].stamp != history[i].stamp)
  }

  lemma InsertSorted<G>(s: seq<Sample<G>>, e: Sample<G>)
    requires Sorted(s)
    ensures Sorted(Insert(s, e))
    ensures var t := Insert(s, e);
      t[|t| - 1] == if s != [] && !Before(s[|s| - 1].stamp, e.stamp) then s[|s| - 1] else e
  {
    var i := LowerBound(s, e.stamp);
    var t := Insert(s, e);
    if t != s {
      forall j, k | 0 <= j < k < |t| ensures Before(t[j].stamp, t[k].stamp)
      {
        if i < k && i < |s| && k - 1 != i { assert Before(s[i].stamp, s[k - 1].stamp); }
      }
    }
  }

  lemma {:induction false} RetainSorted<G>(s: seq<Sample<G>>, newest: Stamp)
    requires Sorted(s)
    ensures Sorted(Retain(s, newest))
    ensures forall e :: e in Retain(s, newest) ==> e in s
    decreases |s|
  {
    if s != [] {
      var init := s[..|s| - 1];
      RetainSorted(init, newest);
      var rest := Retain(init, newest);
      forall i | 0 <= i < |rest| ensures Before(rest[i].stamp, s[|s| - 1].stamp)
      {
        assert rest[i] in init;
      }
    }
  }

  lemma PushedNewest<G>(s: seq<Sample<G>>, isStatic: bool, e: Sample<G>)
    requires Sorted(s)
    ensures var t := Pushed(s, isStatic, e);
      && Sorted(t) && t != []
      && t[|t| - 1] == if s != [] && !Before(s[|s| - 1].stamp, e.stamp) then s[|s| - 1] else e
  {
    InsertSorted(s, e);
    var t := Insert(s, e);
    RetainSorted(t, t[|t| - 1].stamp);
    assert DiffMs(t[|t| - 1].stamp, t[|t| - 1].stamp) == 0;
  }

  /** All that was pushed to one frame, and whether it was static at the time. */
  ghost function PushAll<G>(history: seq<(Sample<G>, bool)>): (s: seq<Sample<G>>)
  {
    if history == [] then []
    else
      var last := history[|history| - 1];
      Pushed(PushAll(history[..|history| - 1]), last.1, last.0)
  }

  ghost function Samples<G>(history: seq<(Sample<G>, bool)>): (s: seq<Sample<G>>)
  {
    if history == [] then [] else Samples(history[..|history| - 1]) + [history[|history| - 1].0]
  }

  /** The series is sorted, and ends with the first to have arrived with the greatest stamp. */
  ghost predicate EndsNewest<G>(h: seq<Sample<G>>, s: seq<Sample<G>>)
  {
    Sorted(s) && (s == [] <==> h == []) && (s != [] ==> FirstGreatest(h, s[|s| - 1]))
  }

  /**
   The newest transform survives: after any pushes the series is strictly sorted, and its last entry
   is the first to have arrived with the greatest stamp ever pushed.
   */
  lemma {:induction false} NewestSurvives<G>(history: seq<(Sample<G>, bool)>)
    ensures EndsNewest(Samples(history), PushAll(history))
    decreases |history|
  {
    if history != [] {
      var init, last := history[..|history| - 1], history[|history| - 1];
      NewestSurvives(init);
      NewestStep(Samples(init), PushAll(init), last.1, last.0);
    }
  }

  lemma NewestStep<G>(h: seq<Sample<G>>, s: seq<Sample<G>>, isStatic: bool, e: Sample<G>)
    requires EndsNewest(h, s)
    ensures EndsNewest(h + [e], Pushed(s, isStatic, e))
  {
    PushedNewest(s, isStatic, e);
    if s != [] {
      GreatestStep(h, s[|s| - 1], e);
    } else {
      assert FirstGreatestAt(h + [e], 0);
    }
  }

  lemma GreatestStep<G>(h: seq<Sample<G>>, top: Sample<G>, e: Sample<G>)
    requires FirstGreatest(h, top)
    ensures FirstGreatest(h + [e], if Before(top.stamp, e.stamp) then e else top)
  {
    var h' := h + [e];
    var i :| 0 <= i < |h| && FirstGreatestAt(h, i) && h[i] == top;
    if Before(top.stamp, e.stamp) {
      forall j | 0 <= j < |h'| ensures !Before(e.stamp, h'[j].stamp) && (j < |h| ==> h'[j].stamp != e.stamp)
      {
        if j < |h| { assert !Before(h[i].stamp, h[j].stamp); }
      }
      assert FirstGreatestAt(h', |h|);
    } else {
      forall j | 0 <= j < |h'| ensures !Before(h'[i].stamp, h'[j].stamp)
      {
        if j < |h| { assert !Before(h[i].stamp, h[j].stamp); }
      }
      assert FirstGreatestAt(h', i);
    }
  }

  // ---------- Choosing an entry ----------

  function Abs(x: int): (a: nat)
  {
    if x < 0 then -x else x
  }

  /** The entry a lookup uses: the newest for a static frame or a negative tolerance; otherwise the
      first not before the stamp, or else the newest, if it is within the tolerance. */
  function Choose<G>(s: seq<Sample<G>>, isStatic: bool, stamp: Stamp, tolerance: int): (v: Option<G>)
    ensures s == [] ==> v == None
    ensures s != [] && (isStatic || tolerance < 0) ==> v == Some(s[|s| - 1].value)
  {
    if s == [] then None
    else if isStatic || tolerance < 0 then Some(s[|s| - 1].value)
    else
      var i := LowerBound(s, stamp);
      var found := if i == |s| then s[|s| - 1] else s[i];
      if Abs(DiffMs(stamp, found.stamp)) <= tolerance then Some(found.value) else None
  }

  /** Exactly what a lookup with a tolerance gets, from a frame that is not static: the value of entry i, the
      first not before the stamp, or the last of all if every entry is before it, if the difference between the
      stamps is within the tolerance. */
  lemma ChooseIs<G>(s: seq<Sample<G>>, stamp: Stamp, tolerance: nat, i: nat)
    requires Sorted(s) && i < |s| && (i > 0 ==> Before(s[i - 1].stamp, stamp))
    requires !Before(s[i].stamp, stamp) || i == |s| - 1
    ensures Choose(s, false, stamp, tolerance)
         == var d := DiffMs(stamp, s[i].stamp);
            if d <= tolerance && -d <= tolerance then Some(s[i].value) else None
  {
    forall j | 0 <= j < i ensures Before(s[j].stamp, stamp) {
      if j < i - 1 { assert Before(s[j].stamp, s[i - 1].stamp); }
    }
  }

  /** On a sorted series the first entry not before the stamp is the one with the least such stamp. */
  lemma ChooseIsEarliest<G>(s: seq<Sample<G>>, stamp: Stamp, tolerance: nat, k: nat)
    requires Sorted(s) && k < |s| && !Before(s[k].stamp, stamp)
    ensures var i := LowerBound(s, stamp);
      && i <= k && !Before(s[k].stamp, s[i].stamp)
      && (Choose(s, false, stamp, tolerance) == Some(s[i].value) || Choose(s, false, stamp, tolerance) == None)
  {
    var i := LowerBound(s, stamp);
    if i < k { assert Before(s[i].stamp, s[k].stamp); }
  }
}
