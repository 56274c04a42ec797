/** `startUpload` of the React upload hook: the per-call progress state it
    keeps (the hook's refs and its `isUploading` flag), the progress
    handler it gives the uploader, how it settles the call from the
    uploader's outcome, and the `finally` block that resets the state. */
module UploadHook {
  import opened Wrappers
  import opened UploadProgress

  // ---------------------------------------------------------------------
  // Errors and outcomes

  /** An `UploadThingError`: its code, message and optional cause text. */
  datatype UploadThingError = UploadThingError(code: string, message: string, cause: Option<string>)

  /** What the uploader can reject with: an `UploadAbortedError` (the
      caller's abort signal fired), an `UploadThingError`, or anything else,
      described by its text. */
  datatype Thrown =
    | UploadAborted
    | Typed(error: UploadThingError)
    | Unexpected(cause: string)

  /** What the `catch` block does with a rejection: rethrow it, or hand an
      `UploadThingError` to the error callback. */
  datatype Disposition = Rethrow(thrown: Thrown) | Report(error: UploadThingError)

  /** The `catch` block's classification. `fatalClientError` stands for the
      library's normaliser that wraps an unexpected error. An abort is
      rethrown untouched; a typed error is reported as it is; anything else
      is reported wrapped. */
  function Classify(e: Thrown, fatalClientError: string -> UploadThingError): (d: Disposition)
    ensures d.Rethrow? <==> e.UploadAborted?
    ensures d.Rethrow? ==> d.thrown == e
    ensures e.Typed? ==> d == Report(e.error)
    ensures e.Unexpected? ==> d == Report(fatalClientError(e.cause))
  {
    match e
    case UploadAborted => Rethrow(e)
    case Typed(error) => Report(error)
    case Unexpected(cause) => Report(fatalClientError(cause))
  }

  /** How the uploader's promise settled: with the per-file results, or
      with a rejection. */
  datatype UploaderOutcome<R> = Resolved(results: R) | Rejected(thrown: Thrown)

  /** How the promise `startUpload` returns settles: resolved with a value
      (`None` for `undefined`), or rejected. */
  datatype CallResult<R> = Resolves(value: Option<R>) | Rejects(thrown: Thrown)

  /** The end of one call: the argument the completion callback receives
      (if it is called), the argument the error callback receives (if it is
      called), and how the returned promise settles. */
  datatype Settlement<R> = Settlement(completed: Option<R>, reported: Option<UploadThingError>, result: CallResult<R>)

  /** The `try`/`catch` of `startUpload` after the uploader settles. */
  function Settle<R>(outcome: UploaderOutcome<R>, fatalClientError: string -> UploadThingError): (s: Settlement<R>)
    ensures outcome.Resolved? ==> s == Settlement(Some(outcome.results), None, Resolves(Some(outcome.results)))
    ensures outcome.Rejected? ==> s.completed.None?
    ensures s.result.Rejects? <==> outcome == Rejected(UploadAborted)
    ensures s.result.Rejects? ==> s.result.thrown == UploadAborted && s.reported.None?
    ensures outcome.Rejected? && !outcome.thrown.UploadAborted? ==>
              && s.result == Resolves(None)
              && s.reported == Some(Classify(outcome.thrown, fatalClientError).error)
  {
    match outcome
    case Resolved(results) => Settlement(Some(results), None, Resolves(Some(results)))
    case Rejected(thrown) =>
      match Classify(thrown, fatalClientError)
      case Rethrow(e) => Settlement(None, None, Rejects(e))
      case Report(error) => Settlement(None, Some(error), Resolves(None))
  }

  /** The error callback is called exactly when the uploader rejects with
      something other than an abort, and then with the typed error itself
      or the wrapped unexpected one; the promise then resolves to
      `undefined`. On success the completion callback gets the very results
      the promise resolves to. */
  lemma SettleCallbacks<R>(outcome: UploaderOutcome<R>, fatalClientError: string -> UploadThingError)
    ensures var s := Settle(outcome, fatalClientError);
            && (s.reported.Some? <==> outcome.Rejected? && !outcome.thrown.UploadAborted?)
            && (outcome == Rejected(UploadAborted) ==> s.reported.None? && s.completed.None?)
            && (outcome.Rejected? && outcome.thrown.Typed? ==> s.reported == Some(outcome.thrown.error))
            && (outcome.Rejected? && outcome.thrown.Unexpected? ==> s.reported == Some(fatalClientError(outcome.thrown.cause)))
            && (s.reported.Some? ==> s.result == Resolves(None))
            && (s.completed.Some? ==> s.result == Resolves(s.completed))
  {
  }

  /** The files the call uploads: those `onBeforeUploadBegin` returns, or
      the given ones when it is absent or returns nothing. */
  function FilesToUpload(files: seq<string>, intercepted: Option<seq<string>>): (r: seq<string>)
    ensures intercepted.None? ==> r == files
    ensures intercepted.Some? ==> r == intercepted.value
  {
    intercepted.GetOr(files)
  }

  // ---------------------------------------------------------------------
  // Aggregation

  /** The aggregate the handler computes: the `forEach` loop summing the
      map into `sum`, then `Math.floor(sum / size / 10) * 10`. */
  method ComputeAggregate(m: map<string, nat>) returns (avg: nat)
    requires |m| > 0
    ensures avg == Aggregate(m)
  {
    var sum: nat := 0;
    var rest := m;
    while rest != map[]
      invariant sum + Sum(rest) == Sum(m)
      decreases |rest|
    {
      var k :| k in rest;
      SumRemove(rest, k);
      sum := sum + rest[k];
      rest := rest - {k};
    }
    avg := FloorMeanToTen(sum, |m|);
  }

  // ---------------------------------------------------------------------
  // The hook's per-call state

  /** The state one `useUploadThing` hook keeps for its uploads: the
      `isUploading` flag, the `fileProgress` map from file name to last
      reported percentage, the `uploadProgress` ref holding the last
      aggregate emitted by the handler, and (for the proofs) the values the
      current call has passed to `onUploadProgress`. */
  class UploadSession {
    var isUploading: bool
    var fileProgress: map<string, nat>
    var uploadProgress: nat
    ghost var emitted: seq<nat>

    /** Idle means reset; while uploading, the last value passed to the
        callback is the one remembered (0 before any), and the callback
        never saw the same value twice in a row. */
    ghost predicate Valid()
      reads this
    {
      && (!isUploading ==> fileProgress == map[] && uploadProgress == 0)
      && uploadProgress % 10 == 0
      && (isUploading ==>
            && (emitted == [] ==> uploadProgress == 0)
            && (emitted != [] ==> emitted[|emitted| - 1] == uploadProgress)
            && NoAdjacentRepeats(emitted))
    }

    /** The hook's initial state: `useState(false)`, `useRef(0)` and
        `useRef(new Map())`. */
    constructor ()
      ensures Valid()
      ensures !isUploading && fileProgress == map[] && uploadProgress == 0 && emitted == []
    {
      isUploading := false;
      fileProgress := map[];
      uploadProgress := 0;
      emitted := [];
    }

    /** The start of a call: the flag is set, every file is seeded at 0,
        and the callback, if there is one, receives 0 exactly once. */
    method Begin(names: seq<string>, hasProgressCallback: bool) returns (beginEmission: Option<nat>)
      requires Valid() && !isUploading
      modifies this
      ensures Valid() && isUploading
      ensures fileProgress == Seed(names) && uploadProgress == 0
      ensures forall n :: n in names ==> n in fileProgress && fileProgress[n] == 0
      ensures beginEmission == (if hasProgressCallback then Some(0) else None)
      ensures emitted == AsSeq(beginEmission)
    {
      isUploading := true;
      for i := 0 to |names|
        invariant isUploading && uploadProgress == 0 && emitted == old(emitted)
        invariant fileProgress == Seed(names[..i])
      {
        assert names[..i + 1][..i] == names[..i];
        fileProgress := fileProgress[names[i] := 0];
      }
      assert names[..|names|] == names;
      beginEmission := if hasProgressCallback then Some(0) else None;
      emitted := AsSeq(beginEmission);
    }

    /** The `onUploadProgress` handler. Without a progress callback it
        changes nothing. Otherwise it overwrites (or adds) the event's file
        and nothing else, recomputes the aggregate, and emits it exactly
        when it differs from the last value emitted, which it then
        remembers. */
    method OnProgress(e: ProgressEvent, hasProgressCallback: bool) returns (emission: Option<nat>)
      requires Valid() && isUploading
      modifies this
      ensures Valid() && isUploading
      ensures !hasProgressCallback ==>
                && emission.None?
                && fileProgress == old(fileProgress) && uploadProgress == old(uploadProgress)
      ensures hasProgressCallback ==>
                && fileProgress == Record(Tracker(old(fileProgress), old(uploadProgress)), e)
                && e.file in fileProgress && fileProgress[e.file] == e.progress && |fileProgress| > 0
                && (forall k :: k in old(fileProgress) && k != e.file ==> k in fileProgress && fileProgress[k] == old(fileProgress)[k])
                && fileProgress.Keys == old(fileProgress).Keys + {e.file}
                && Tracker(fileProgress, uploadProgress) == Advance(Tracker(old(fileProgress), old(uploadProgress)), e)
                && emission == Emission(Tracker(old(fileProgress), old(uploadProgress)), e)
      ensures emission.Some? ==> emission.value != old(uploadProgress) && uploadProgress == emission.value
      ensures emitted == old(emitted) + AsSeq(emission)
    {
      if !hasProgressCallback {
        return None;
      }
      ghost var before := Tracker(fileProgress, uploadProgress);
      fileProgress := fileProgress[e.file := e.progress];
      assert fileProgress == Record(before, e);
      var avg := ComputeAggregate(fileProgress);
      assert Advance(before, e) == Tracker(fileProgress, avg);
      if avg != uploadProgress {
        AppendKeepsNoAdjacentRepeats(emitted, avg);
        emission := Some(avg);
        emitted := emitted + [avg];
        uploadProgress := avg;
        assert emitted[|emitted| - 1] == uploadProgress;
      } else {
        emission := None;
      }
      assert emission == Emission(before, e);
    }

    /** The `finally` block: whatever the outcome, the flag is cleared, the
        map emptied and the counter reset. */
    method Finish()
      modifies this
      ensures Valid()
      ensures !isUploading && fileProgress == map[] && uploadProgress == 0
      ensures emitted == old(emitted)
    {
      isUploading := false;
      fileProgress := map[];
      uploadProgress := 0;
    }

    /** One whole `startUpload` call, given the files, what the interceptor
        returned, the progress events the uploader reports while it runs and
        how it settles. The callback sees 0 and then exactly the emissions
        of the reference definition; the call settles as `Settle` says; and
        afterwards the session is idle and reset whatever the outcome. */
    method StartUpload<R>(files: seq<string>, intercepted: Option<seq<string>>, events: seq<ProgressEvent>,
                          outcome: UploaderOutcome<R>, hasProgressCallback: bool,
                          fatalClientError: string -> UploadThingError)
      returns (s: Settlement<R>)
      requires Valid() && !isUploading
      modifies this
      ensures Valid()
      ensures !isUploading && fileProgress == map[] && uploadProgress == 0
      ensures s == Settle(outcome, fatalClientError)
      ensures hasProgressCallback ==>
                emitted == [0] + Emissions(Tracker(Seed(FilesToUpload(files, intercepted)), 0), events)
      ensures !hasProgressCallback ==> emitted == []
    {
      var names := FilesToUpload(files, intercepted);
      var _ := Begin(names, hasProgressCallback);
      ghost var start := Tracker(Seed(names), 0);
      for i := 0 to |events|
        invariant Valid() && isUploading
        invariant hasProgressCallback ==>
                    && Tracker(fileProgress, uploadProgress) == Replay(start, events[..i])
                    && emitted == [0] + Emissions(start, events[..i])
        invariant !hasProgressCallback ==> emitted == []
      {
        assert events[..i + 1][..i] == events[..i];
        EmissionsSnoc(start, events[..i], events[i]);
        var _ := OnProgress(events[i], hasProgressCallback);
        AppendAssociates([0], Emissions(start, events[..i]), AsSeq(Emission(Replay(start, events[..i]), events[i])));
      }
      assert events[..|events|] == events;
      s := Settle(outcome, fatalClientError);
      Finish();
    }
  }

  /** The callback values of a whole call never repeat back to back, are
      multiples of ten, start at 0 and, with percentages in [0, 100], stay
      in [0, 100]. */
  lemma CallbackSequence(names: seq<string>, events: seq<ProgressEvent>)
    requires forall i :: 0 <= i < |events| ==> events[i].progress <= 100
    ensures var seen := [0] + Emissions(Tracker(Seed(names), 0), events);
            && seen[0] == 0
            && NoAdjacentRepeats(seen)
            && (forall i :: 0 <= i < |seen| ==> seen[i] % 10 == 0 && seen[i] <= 100)
  {
    var start := Tracker(Seed(names), 0);
    var emitted := Emissions(start, events);
    var seen := [0] + emitted;
    assert seen == [start.last] + emitted;
    EmissionsNoAdjacentRepeats(start, events);
    EmissionsAreMultiplesOfTen(start, events);
    EmissionsAtMostHundred(start, events);
    forall i | 0 <= i < |seen|
      ensures seen[i] % 10 == 0 && seen[i] <= 100
    {
      if i > 0 {
        assert seen[i] == emitted[i - 1];
      }
    }
  }

  /** Two files, each reported at 100 in turn: after the 0 of the start,
      the callback sees 50 when the first file completes, then 100. */
  lemma TwoFilesExample()
    ensures Emissions(Tracker(Seed(["a", "b"]), 0), [ProgressEvent("a", 100), ProgressEvent("b", 100)]) == [50, 100]
  {
    var start := Tracker(Seed(["a", "b"]), 0);
    var e1, e2 := ProgressEvent("a", 100), ProgressEvent("b", 100);
    assert "a" in ["a", "b"] && "b" in ["a", "b"];
    TwoFilesFirstStep(start, e1);
    TwoFilesSecondStep(Advance(start, e1), e2);
    EmissionsSnoc(start, [], e1);
    assert [] + [e1] == [e1];
    EmissionsSnoc(start, [e1], e2);
    assert [e1] + [e2] == [e1, e2];
  }

  /** The first event of the two-file run: average 50, which is emitted. */
  lemma TwoFilesFirstStep(t: Tracker, e: ProgressEvent)
    requires t.progress.Keys == {"a", "b"} && t.progress["b"] == 0 && t.last == 0
    requires e == ProgressEvent("a", 100)
    ensures Emission(t, e) == Some(50)
    ensures Advance(t, e).progress.Keys == {"a", "b"} && Advance(t, e).progress["a"] == 100
    ensures Advance(t, e).last == 50
  {
    var m := Record(t, e);
    assert m["b"] == 0;
    TwoEntryAggregate(m, "a", "b", 50);
  }

  /** The second event of the two-file run: average 100, which is emitted. */
  lemma TwoFilesSecondStep(t: Tracker, e: ProgressEvent)
    requires t.progress.Keys == {"a", "b"} && t.progress["a"] == 100 && t.last == 50
    requires e == ProgressEvent("b", 100)
    ensures Emission(t, e) == Some(100)
  {
    var m := Record(t, e);
    assert m["a"] == 100;
    TwoEntryAggregate(m, "a", "b", 100);
  }

  /** One file reported at 50 and then at 10: the handler overwrites the
      entry, so after the 0 of the start the callback sees 50 and then 10;
      emitted values are not kept non-decreasing. */
  lemma ProgressCanDecreaseExample()
    ensures Emissions(Tracker(Seed(["a"]), 0), [ProgressEvent("a", 50), ProgressEvent("a", 10)]) == [50, 10]
  {
    var start := Tracker(Seed(["a"]), 0);
    var e1, e2 := ProgressEvent("a", 50), ProgressEvent("a", 10);
    assert "a" in ["a"];
    OneFileStep(start, e1, 50);
    OneFileStep(Advance(start, e1), e2, 10);
    EmissionsSnoc(start, [], e1);
    assert [] + [e1] == [e1];
    EmissionsSnoc(start, [e1], e2);
    assert [e1] + [e2] == [e1, e2];
  }

  /** An event on the only file of a run sets the average to its progress,
      which is emitted when it differs from the last value. */
  lemma OneFileStep(t: Tracker, e: ProgressEvent, p: nat)
    requires t.progress.Keys == {"a"} && e == ProgressEvent("a", p) && p % 10 == 0 && p != t.last
    ensures Emission(t, e) == Some(p)
    ensures Advance(t, e).progress.Keys == {"a"} && Advance(t, e).last == p
  {
    OneEntryAggregate(Record(t, e), "a", p);
  }

  /** The aggregate of a one-entry map holding a multiple of ten. */
  lemma OneEntryAggregate(m: map<string, nat>, a: string, avg: nat)
    requires m.Keys == {a} && m[a] == avg && avg % 10 == 0
    ensures |m| == 1 && Aggregate(m) == avg
  {
    OneEntrySum(m, a);
    var r := Aggregate(m);
    assert r * 1 <= avg < (r + 10) * 1;
  }

  /** The aggregate of a two-entry map whose entries sum to twice `avg`. */
  lemma TwoEntryAggregate(m: map<string, nat>, a: string, b: string, avg: nat)
    requires a != b && m.Keys == {a, b} && m[a] + m[b] == 2 * avg && avg % 10 == 0
    ensures Aggregate(m) == avg
  {
    TwoEntrySum(m, a, b);
    var r := Aggregate(m);
    assert r * 2 <= 2 * avg < (r + 10) * 2;
  }

  /** The sum of a one-entry map. */
  lemma OneEntrySum(m: map<string, nat>, a: string)
    requires m.Keys == {a}
    ensures Sum(m) == m[a]
  {
    SumRemove(m, a);
    assert m - {a} == map[];
  }

  /** The sum of a two-entry map. */
  lemma TwoEntrySum(m: map<string, nat>, a: string, b: string)
    requires a != b && m.Keys == {a, b}
    ensures Sum(m) == m[a] + m[b] && |m| == 2
  {
    SumRemove(m, a);
    assert (m - {a}).Keys == {b};
    OneEntrySum(m - {a}, b);
  }
}
