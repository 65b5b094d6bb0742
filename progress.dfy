/** `compress_files`: process every path and emit one progress event per
    finished file, numbered by a shared counter.

    The source runs the files on a thread pool and increments the counter
    under a mutex; the model takes the order in which the files finish as a
    parameter (`order[k]` is the index of the k-th file to finish) and runs
    them one after another in that order. Emitting an event is modelled as
    appending it to the returned sequence. */
module Progress {
  import opened Common
  import opened Process

  /** `ProgressEvent`: how many files are done, how many there are, and the
      result of the file that just finished. */
  datatype ProgressEvent = ProgressEvent(done: nat, total: nat, result: CompressionResult)

  /** A completion order for `n` files: `n` entries, each an index below
      `n`, and `n` distinct ones among them, so each index occurs once. */
  ghost predicate IsSchedule(order: seq<nat>, n: nat)
  {
    |order| == n &&
    (forall k | 0 <= k < |order| :: order[k] < n) &&
    |Values(order)| == n
  }

  /** The result `process_single_file` reports for each path, given the
      outcomes of the external calls for each path. */
  function Report(options: CompressionOptions, world: string -> Env): string -> CompressionResult
  {
    p => Process.Process(p, options, world(p)).result
  }

  /** The events emitted once the files `order` names have finished, in
      that order. */
  function Events(paths: seq<string>, report: string -> CompressionResult, order: seq<nat>): (r: seq<ProgressEvent>)
    requires forall k | 0 <= k < |order| :: order[k] < |paths|
    ensures |r| == |order|
  {
    if order == [] then []
    else
      var p := paths[order[|order| - 1]];
      Events(paths, report, order[..|order| - 1]) +
        [ProgressEvent(|order|, |paths|, report(p))]
  }

  /** The k-th event says k + 1 files are done out of all of them, and
      carries the result of the k-th file to finish. */
  lemma {:induction false} EventAt(paths: seq<string>, report: string -> CompressionResult, order: seq<nat>, k: nat)
    requires forall j | 0 <= j < |order| :: order[j] < |paths|
    requires k < |order|
    ensures Events(paths, report, order)[k] ==
              ProgressEvent(k + 1, |paths|, report(paths[order[k]]))
  {
    var init, last := order[..|order| - 1], order[|order| - 1];
    var tail := ProgressEvent(|order|, |paths|, report(paths[last]));
    assert Events(paths, report, order) == Events(paths, report, init) + [tail];
    if k < |init| {
      EventAt(paths, report, init, k);
      assert order[k] == init[k];
    }
  }

  /** All events at once: their number, and each as `EventAt` says. */
  lemma EventsLayout(paths: seq<string>, report: string -> CompressionResult, order: seq<nat>)
    requires forall k | 0 <= k < |order| :: order[k] < |paths|
    ensures |Events(paths, report, order)| == |order|
    ensures forall k | 0 <= k < |order| ::
              Events(paths, report, order)[k] ==
                ProgressEvent(k + 1, |paths|, report(paths[order[k]]))
  {
    forall k | 0 <= k < |order|
      ensures Events(paths, report, order)[k] ==
                ProgressEvent(k + 1, |paths|, report(paths[order[k]]))
    {
      EventAt(paths, report, order, k);
    }
  }

  /** The done counter of each event is one more than the one before, and
      the last event of a non-empty run says every file is done. */
  lemma CounterCounts(paths: seq<string>, report: string -> CompressionResult, order: seq<nat>)
    requires IsSchedule(order, |paths|)
    ensures var ev := Events(paths, report, order);
      (forall k | 0 < k < |ev| :: ev[k].done == ev[k - 1].done + 1) &&
      (forall k | 0 <= k < |ev| :: ev[k].total == |paths| && 1 <= ev[k].done <= |paths|) &&
      (paths != [] ==> ev[|ev| - 1].done == ev[|ev| - 1].total)
  {
    EventsLayout(paths, report, order);
  }

  /** Each event of a run of `process_single_file` names the file it
      reports on, and its result is well formed. */
  lemma EventsNameFiles(paths: seq<string>, options: CompressionOptions, world: string -> Env, order: seq<nat>)
    requires forall k | 0 <= k < |order| :: order[k] < |paths|
    ensures var ev := Events(paths, Report(options, world), order);
      forall k | 0 <= k < |order| :: ev[k].result.filePath == paths[order[k]] && WellFormed(ev[k].result, paths[order[k]])
  {
    var report := Report(options, world);
    forall k | 0 <= k < |order|
      ensures Events(paths, report, order)[k].result.filePath == paths[order[k]]
      ensures WellFormed(Events(paths, report, order)[k].result, paths[order[k]])
    {
      EventAt(paths, report, order, k);
      ResultShape(paths[order[k]], options, world(paths[order[k]]));
    }
  }

  /** The values occurring in `s`. */
  ghost function Values(s: seq<nat>): set<int>
  {
    if s == [] then {} else Values(s[..|s| - 1]) + {s[|s| - 1]}
  }

  /** The indices below `n`. */
  ghost function Below(n: nat): set<int>
  {
    if n == 0 then {} else Below(n - 1) + {n - 1}
  }

  /** The values of `s` are its elements, and there are at most as many
      as elements. */
  lemma {:induction false} ValuesMembers(s: seq<nat>)
    ensures forall x :: x in Values(s) <==> x in s
    ensures |Values(s)| <= |s|
  {
    if s != [] {
      var init := s[..|s| - 1];
      ValuesMembers(init);
      assert s == init + [s[|s| - 1]];
    }
  }

  /** A sequence without repeats has as many values as elements. */
  lemma {:induction false} DistinctCount(s: seq<nat>)
    requires forall j, k | 0 <= j < k < |s| :: s[j] != s[k]
    ensures |Values(s)| == |s|
  {
    if s != [] {
      var init := s[..|s| - 1];
      DistinctCount(init);
      ValuesMembers(init);
      assert s[|s| - 1] !in init;
    }
  }

  /** Conversely, as many values as elements means no repeats. */
  lemma {:induction false} CountDistinct(s: seq<nat>)
    requires |Values(s)| == |s|
    ensures forall j, k | 0 <= j < k < |s| :: s[j] != s[k]
  {
    if s != [] {
      var init, x := s[..|s| - 1], s[|s| - 1];
      ValuesMembers(init);
      assert x in Values(init) ==> Values(s) == Values(init);
      assert x !in Values(init);
      assert |Values(init)| == |init|;
      CountDistinct(init);
      forall j, k | 0 <= j < k < |s| ensures s[j] != s[k] {
        if k < |init| {
          assert s[j] == init[j] && s[k] == init[k];
        } else {
          assert s[j] == init[j] && s[j] in init;
        }
      }
    }
  }

  /** There are `n` indices below `n`. */
  lemma {:induction false} BelowCount(n: nat)
    ensures |Below(n)| == n
    ensures forall i :: i in Below(n) <==> 0 <= i < n
  {
    if n > 0 {
      BelowCount(n - 1);
    }
  }

  /** Any arrangement of the indices below `n` without repeats is a
      completion order. */
  lemma ScheduleOfDistinct(order: seq<nat>, n: nat)
    requires |order| == n && forall k | 0 <= k < |order| :: order[k] < n
    requires forall j, k | 0 <= j < k < |order| :: order[j] != order[k]
    ensures IsSchedule(order, n)
  {
    DistinctCount(order);
  }

  /** A completion order names every file: no file is left unreported. */
  lemma ScheduleCoversAll(order: seq<nat>, n: nat)
    requires IsSchedule(order, n)
    ensures forall i | 0 <= i < n :: i in order
  {
    var seen, all := Values(order), Below(n);
    ValuesMembers(order);
    BelowCount(n);
    forall x | x in seen ensures x in all {
      var k :| 0 <= k < |order| && order[k] == x;
    }
    assert all * seen == seen;
    assert |all - seen| == 0;
    forall i | 0 <= i < n ensures i in order {
      assert i in all;
      assert i !in all - seen;
    }
  }

  /** Every input path gets exactly one event, and that event carries its
      result. */
  lemma EveryFileReportedOnce(paths: seq<string>, report: string -> CompressionResult, order: seq<nat>, i: nat)
    requires IsSchedule(order, |paths|) && i < |paths|
    ensures exists k | 0 <= k < |order| :: order[k] == i &&
              Events(paths, report, order)[k].result ==
                report(paths[i])
    ensures forall j, k | 0 <= j < |order| && 0 <= k < |order| && order[j] == i && order[k] == i :: j == k
  {
    ScheduleCoversAll(order, |paths|);
    CountDistinct(order);
    assert i in order;
    var k :| 0 <= k < |order| && order[k] == i;
    EventsLayout(paths, report, order);
    var ev := Events(paths, report, order);
    assert ev[k].result == report(paths[order[k]]);
    assert order[k] == i && ev[k].result == report(paths[i]);
  }

  /** The body of `compress_files`: process each file as it finishes,
      increment the shared counter, and emit the event. */
  method CompressFiles(paths: seq<string>, options: CompressionOptions, world: string -> Env, order: seq<nat>)
    returns (events: seq<ProgressEvent>)
    requires IsSchedule(order, |paths|)
    ensures events == Events(paths, Report(options, world), order)
    ensures |events| == |paths|
    ensures forall k | 0 <= k < |events| :: events[k].done == k + 1 && events[k].total == |paths|
  {
    ghost var report := Report(options, world);
    var total := |paths|;
    var done := 0;
    events := [];
    var i := 0;
    while i < |order|
      invariant 0 <= i <= |order|
      invariant done == i
      invariant events == Events(paths, report, order[..i])
    {
      var p := paths[order[i]];
      var result, _ := ProcessSingleFile(p, options, world(p));
      done := done + 1;
      events := events + [ProgressEvent(done, total, result)];
      assert order[..i + 1][..i] == order[..i];
      i := i + 1;
    }
    assert order[..i] == order;
    EventsLayout(paths, report, order);
  }
}
