/** The reference definition of how one upload call turns per-file progress
    events into aggregate progress values. The upload hook's imperative
    session is proved against these functions. */
module UploadProgress {
  import opened Wrappers

  /** A progress report from the uploader: a file name and its percentage. */
  datatype ProgressEvent = ProgressEvent(file: string, progress: nat)

  /** The sum of the percentages in a progress map. */
  ghost function Sum(m: map<string, nat>): nat
    decreases |m|
  {
    if m == map[] then 0
    else
      var k :| k in m;
      m[k] + Sum(m - {k})
  }

  /** The sum does not depend on which entry is taken out first. */
  lemma {:induction false} SumRemove(m: map<string, nat>, k: string)
    requires k in m
    ensures Sum(m) == m[k] + Sum(m - {k})
    decreases |m|
  {
    var j :| j in m && Sum(m) == m[j] + Sum(m - {j});
    if j != k {
      assert (m - {j}).Keys == m.Keys - {j};
      assert (m - {k}).Keys == m.Keys - {k};
      SumRemove(m - {j}, k);
      SumRemove(m - {k}, j);
      assert m - {j} - {k} == m - {k} - {j};
    }
  }

  /** A map whose percentages are all at most `bound` sums to at most
      `bound` times its size. */
  lemma {:induction false} SumAtMost(m: map<string, nat>, bound: nat)
    requires forall k :: k in m ==> m[k] <= bound
    ensures Sum(m) <= bound * |m|
    decreases |m|
  {
    if m != map[] {
      var k :| k in m;
      var rest := m - {k};
      SumRemove(m, k);
      assert rest.Keys == m.Keys - {k};
      SumAtMost(rest, bound);
      AddBound(m[k], Sum(rest), bound, |rest|);
    }
  }

  /** Arithmetic step of `SumAtMost`. */
  lemma AddBound(x: nat, y: nat, bound: nat, n: nat)
    requires x <= bound && y <= bound * n
    ensures x + y <= bound * (n + 1)
  {
    assert bound * (n + 1) == bound * n + bound;
  }

  /** `Math.floor(sum / size / 10) * 10` on naturals: the mean `sum / size`
      rounded down to a multiple of ten. It is at most the mean and less
      than ten below it. */
  function FloorMeanToTen(sum: nat, size: nat): (avg: nat)
    requires size > 0
    ensures avg % 10 == 0
    ensures avg * size <= sum < (avg + 10) * size
  {
    DivisionBounds(sum, 10 * size);
    var q: nat := sum / (10 * size);
    TenTimes(q, size);
    10 * q
  }

  /** Euclidean division brackets the dividend. */
  lemma DivisionBounds(sum: nat, d: nat)
    requires d > 0
    ensures 0 <= sum / d
    ensures d * (sum / d) <= sum < d * (sum / d) + d
  {
  }

  /** Rearranging `10 * q` times `size`. */
  lemma TenTimes(q: nat, size: nat)
    ensures (10 * q) * size == (10 * size) * q
    ensures (10 * q + 10) * size == (10 * size) * q + 10 * size
  {
  }

  /** The aggregate of a progress map: its mean percentage rounded down to
      a multiple of ten. When every percentage is at most 100, so is the
      aggregate. */
  ghost function Aggregate(m: map<string, nat>): (avg: nat)
    requires |m| > 0
    ensures avg % 10 == 0
    ensures avg * |m| <= Sum(m) < (avg + 10) * |m|
    ensures (forall k :: k in m ==> m[k] <= 100) ==> avg <= 100
  {
    var avg := FloorMeanToTen(Sum(m), |m|);
    BoundedMean(m, avg);
    avg
  }

  /** Helper for the bound of `Aggregate`. */
  lemma BoundedMean(m: map<string, nat>, avg: nat)
    requires |m| > 0 && avg * |m| <= Sum(m)
    ensures (forall k :: k in m ==> m[k] <= 100) ==> avg <= 100
  {
    if forall k :: k in m ==> m[k] <= 100 {
      SumAtMost(m, 100);
      if avg > 100 {
        MulMonotone(101, avg, |m|);
      }
    }
  }

  /** Multiplication by a natural number keeps the order. */
  lemma {:induction false} MulMonotone(a: nat, b: nat, n: nat)
    requires a <= b
    ensures a * n <= b * n
    decreases n
  {
    if n > 0 {
      MulMonotone(a, b, n - 1);
      assert a * n == a * (n - 1) + a;
      assert b * n == b * (n - 1) + b;
    }
  }

  /** The progress map at the start of a call: every file name at 0. */
  function Seed(names: seq<string>): (m: map<string, nat>)
    ensures m.Keys == set n | n in names
    ensures forall k :: k in m ==> m[k] == 0
    decreases |names|
  {
    if names == [] then map[]
    else
      var init := names[..|names| - 1];
      assert names == init + [names[|names| - 1]];
      Seed(init)[names[|names| - 1] := 0]
  }

  /** The state a progress handler keeps between events: the progress map
      and the last aggregate it emitted. */
  datatype Tracker = Tracker(progress: map<string, nat>, last: nat)

  /** The map after an event: that file's entry overwritten or added. */
  function Record(t: Tracker, e: ProgressEvent): (m: map<string, nat>)
    ensures m.Keys == t.progress.Keys + {e.file} && |m| > 0
    ensures e.file in m && m[e.file] == e.progress
  {
    t.progress[e.file := e.progress]
  }

  /** An event leaves every other file's entry as it was. */
  lemma RecordKeepsOthers(t: Tracker, e: ProgressEvent, k: string)
    requires k in t.progress && k != e.file
    ensures k in Record(t, e) && Record(t, e)[k] == t.progress[k]
  {
  }

  /** What an event makes the handler emit: the new aggregate, unless it
      equals the last one emitted. */
  ghost function Emission(t: Tracker, e: ProgressEvent): (r: Option<nat>)
    ensures r.Some? ==> r.value != t.last && r.value % 10 == 0
    ensures r.None? ==> Aggregate(Record(t, e)) == t.last
  {
    var avg := Aggregate(Record(t, e));
    if avg != t.last then Some(avg) else None
  }

  /** The handler's state after an event. Whether or not it emits, the last
      emitted value is then the new aggregate. */
  ghost function Advance(t: Tracker, e: ProgressEvent): (r: Tracker)
    ensures r.progress.Keys == t.progress.Keys + {e.file}
    ensures r.last % 10 == 0
  {
    Tracker(Record(t, e), Aggregate(Record(t, e)))
  }

  /** The handler's state after a run of events. After at least one event
      the remembered value is a multiple of ten. */
  ghost function Replay(t: Tracker, events: seq<ProgressEvent>): (r: Tracker)
    ensures events != [] ==> r.last % 10 == 0
    decreases |events|
  {
    if events == [] then t
    else Advance(Replay(t, events[..|events| - 1]), events[|events| - 1])
  }

  /** The map after a run of events holds exactly the files it started
      with and those the events name. */
  lemma {:induction false} ReplayKeys(t: Tracker, events: seq<ProgressEvent>)
    ensures Replay(t, events).progress.Keys == t.progress.Keys + (set i | 0 <= i < |events| :: events[i].file)
    decreases |events|
  {
    if events != [] {
      var init, last := events[..|events| - 1], events[|events| - 1];
      ReplayKeys(t, init);
      NamedFilesSnoc(events);
      var before := Replay(t, init);
      assert Replay(t, events) == Advance(before, last);
      assert Advance(before, last).progress.Keys == before.progress.Keys + {last.file};
    }
  }

  /** An option as a sequence of zero or one values. */
  function AsSeq(o: Option<nat>): seq<nat> {
    if o.Some? then [o.value] else []
  }

  /** The values a run of events makes the handler emit, in order: at most
      one per event. */
  ghost function Emissions(t: Tracker, events: seq<ProgressEvent>): (r: seq<nat>)
    ensures |r| <= |events|
    decreases |events|
  {
    if events == [] then []
    else
      var init := events[..|events| - 1];
      Emissions(t, init) + AsSeq(Emission(Replay(t, init), events[|events| - 1]))
  }

  /** The files a run of events names are those its prefix names and the
      file of its last event. */
  lemma NamedFilesSnoc(events: seq<ProgressEvent>)
    requires events != []
    ensures var init := events[..|events| - 1];
            (set i | 0 <= i < |events| :: events[i].file)
              == (set i | 0 <= i < |init| :: init[i].file) + {events[|events| - 1].file}
  {
    var init := events[..|events| - 1];
    var named := set i | 0 <= i < |events| :: events[i].file;
    var namedBefore := set i | 0 <= i < |init| :: init[i].file;
    forall x | x in named
      ensures x in namedBefore + {events[|events| - 1].file}
    {
      var i :| 0 <= i < |events| && events[i].file == x;
      if i < |init| {
        assert init[i] == events[i];
      }
    }
    forall x | x in namedBefore
      ensures x in named
    {
      var i :| 0 <= i < |init| && init[i].file == x;
      assert events[i] == init[i];
    }
  }

  /** One more event: the state advances by it, and what it emits is
      appended. */
  lemma EmissionsSnoc(t: Tracker, init: seq<ProgressEvent>, e: ProgressEvent)
    ensures Replay(t, init + [e]) == Advance(Replay(t, init), e)
    ensures Emissions(t, init + [e]) == Emissions(t, init) + AsSeq(Emission(Replay(t, init), e))
  {
    assert (init + [e])[..|init|] == init;
  }

  /** No two neighbours are equal. */
  ghost predicate NoAdjacentRepeats(s: seq<nat>) {
    forall i :: 0 < i < |s| ==> s[i - 1] != s[i]
  }

  /** Appending a value that differs from the last one keeps neighbours
      distinct. */
  lemma AppendKeepsNoAdjacentRepeats(s: seq<nat>, x: nat)
    requires NoAdjacentRepeats(s) && (s != [] ==> s[|s| - 1] != x)
    ensures NoAdjacentRepeats(s + [x])
  {
    var t := s + [x];
    forall i | 0 < i < |t|
      ensures t[i - 1] != t[i]
    {
      if i < |s| {
        assert t[i - 1] == s[i - 1] && t[i] == s[i];
      }
    }
  }

  /** Concatenation is associative. */
  lemma AppendAssociates(a: seq<nat>, b: seq<nat>, c: seq<nat>)
    ensures a + (b + c) == (a + b) + c
  {
  }

  /** The last value the callback saw (the starting value if none was
      emitted) is the one the handler remembers. */
  lemma {:induction false} LastEmittedIsRemembered(t: Tracker, events: seq<ProgressEvent>)
    ensures var seen := [t.last] + Emissions(t, events);
            seen[|seen| - 1] == Replay(t, events).last
    decreases |events|
  {
    if events != [] {
      var init := events[..|events| - 1];
      var before := Replay(t, init);
      var e := events[|events| - 1];
      LastEmittedIsRemembered(t, init);
      var extra := AsSeq(Emission(before, e));
      assert Emissions(t, events) == Emissions(t, init) + extra;
      AppendAssociates([t.last], Emissions(t, init), extra);
      assert Replay(t, events).last == Aggregate(Record(before, e));
    }
  }

  /** The callback never receives the same value twice in a row, counting
      the value the handler starts from. */
  lemma {:induction false} EmissionsNoAdjacentRepeats(t: Tracker, events: seq<ProgressEvent>)
    ensures NoAdjacentRepeats([t.last] + Emissions(t, events))
    decreases |events|
  {
    if events != [] {
      var init := events[..|events| - 1];
      EmissionsNoAdjacentRepeats(t, init);
      LastEmittedIsRemembered(t, init);
      var before := [t.last] + Emissions(t, init);
      var extra := AsSeq(Emission(Replay(t, init), events[|events| - 1]));
      assert Emissions(t, events) == Emissions(t, init) + extra;
      AppendAssociates([t.last], Emissions(t, init), extra);
      if extra != [] {
        AppendKeepsNoAdjacentRepeats(before, extra[0]);
      }
    }
  }

  /** Every emitted value is the aggregate of the map at that moment, so
      every one is a multiple of ten. */
  lemma {:induction false} EmissionsAreMultiplesOfTen(t: Tracker, events: seq<ProgressEvent>)
    ensures forall i :: 0 <= i < |Emissions(t, events)| ==> Emissions(t, events)[i] % 10 == 0
    decreases |events|
  {
    if events != [] {
      EmissionsAreMultiplesOfTen(t, events[..|events| - 1]);
    }
  }

  /** Every percentage of the map is at most 100. */
  ghost predicate Percentages(m: map<string, nat>) {
    forall k :: k in m ==> m[k] <= 100
  }

  /** Replaying events whose percentages are at most 100 keeps the map's
      percentages at most 100. */
  lemma {:induction false} ReplayKeepsPercentages(t: Tracker, events: seq<ProgressEvent>)
    requires Percentages(t.progress)
    requires forall i :: 0 <= i < |events| ==> events[i].progress <= 100
    ensures Percentages(Replay(t, events).progress)
    decreases |events|
  {
    if events != [] {
      ReplayKeepsPercentages(t, events[..|events| - 1]);
    }
  }

  /** With percentages in [0, 100], every emitted value is in [0, 100]. */
  lemma {:induction false} EmissionsAtMostHundred(t: Tracker, events: seq<ProgressEvent>)
    requires Percentages(t.progress)
    requires forall i :: 0 <= i < |events| ==> events[i].progress <= 100
    ensures forall i :: 0 <= i < |Emissions(t, events)| ==> Emissions(t, events)[i] <= 100
    decreases |events|
  {
    if events != [] {
      var init := events[..|events| - 1];
      EmissionsAtMostHundred(t, init);
      ReplayKeepsPercentages(t, init);
      assert Percentages(Record(Replay(t, init), events[|events| - 1]));
    }
  }
}
