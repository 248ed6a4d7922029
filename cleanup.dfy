/** The post-job step of the action (src/cleanup.ts): optimise the nix
    store, measure its size, collect garbage only when the size is strictly
    above the `max-size` limit, then save the cache directory. A step that
    throws ends the run; an `Error` is reported with `setFailed`. */
module Cleanup {
  import opened Wrappers
  import Js

  /** The external steps `main` takes: `nix store optimise`; the `bash -c`
      pipeline `nix path-info --json --all | jq 'map(.narSize) | add'`;
      `nix store gc`; and `cache.saveCache(["/tmp/nix-cache"], "nix-store")`. */
  datatype Step = Optimise | MeasureSize | CollectGarbage | SaveStore

  /** `max-size` when the input is empty: 5 GB. */
  const DefaultMaxSize := "5000000000"

  /** What a thrown value is: an `Error` with its message, or anything else. */
  datatype Thrown = ErrorObject(message: string) | OtherValue

  /** How a step ends: with its standard output, or by throwing (a
      non-zero exit status makes `exec` throw). */
  datatype Run = Done(stdout: string) | Threw(thrown: Thrown)

  /** How the run is reported: normally, through `setFailed` with the
      error's message, or not at all when something other than an `Error`
      was thrown. */
  datatype Report = Completed | SetFailed(message: string) | Silent

  /** The steps attempted, in order, and the report. */
  datatype Ended = Ended(attempted: seq<Step>, report: Report)

  function ReportOf(t: Thrown): Report
  {
    match t
    case ErrorObject(message) => SetFailed(message)
    case OtherValue => Silent
  }

  /** `size > maxSize` with NaN (`None`) on either side comparing false. */
  predicate Exceeds(size: Option<int>, maxSize: Option<int>)
  {
    size.Some? && maxSize.Some? && size.value > maxSize.value
  }

  /** `core.getInput("max-size") || "5000000000"`. */
  function Limit(maxSizeInput: string): string
  {
    if maxSizeInput != "" then maxSizeInput else DefaultMaxSize
  }

  /** Whether garbage is collected, given the size step's output. */
  predicate GcRequired(sizeOutput: string, maxSizeInput: string)
  {
    Exceeds(Js.ParseInt(Js.Trim(sizeOutput)), Js.ParseInt(Limit(maxSizeInput)))
  }

  /** The steps and the `catch` around them, once it is known whether
      garbage is to be collected. */
  function Steps(run: Step -> Run, gc: bool): Ended
  {
    if run(Optimise).Threw? then Ended([Optimise], ReportOf(run(Optimise).thrown))
    else if run(MeasureSize).Threw? then Ended([Optimise, MeasureSize], ReportOf(run(MeasureSize).thrown))
    else
      var before := [Optimise, MeasureSize] + (if gc then [CollectGarbage] else []);
      if gc && run(CollectGarbage).Threw? then Ended(before, ReportOf(run(CollectGarbage).thrown))
      else if run(SaveStore).Threw? then Ended(before + [SaveStore], ReportOf(run(SaveStore).thrown))
      else Ended(before + [SaveStore], Completed)
  }

  /** The run of `main` and the `catch` around it: the specification of
      `RunCleanup`. */
  function Cleanup(maxSizeInput: string, run: Step -> Run): Ended
  {
    Steps(run, run(MeasureSize).Done? && GcRequired(run(MeasureSize).stdout, maxSizeInput))
  }

  /** The size read from the size step's output, the limit read from the
      input, and `size > maxSize`. */
  method Compare(sizeOutput: string, maxSizeInput: string) returns (gc: bool)
    ensures gc == GcRequired(sizeOutput, maxSizeInput)
  {
    var size := Js.ParseInt(Js.Trim(sizeOutput));
    var maxSize := Js.ParseInt(Limit(maxSizeInput));
    gc := Exceeds(size, maxSize);
  }

  /** `main` with its `catch`: `run` stands for the commands, `maxSizeInput`
      for `core.getInput("max-size")`. */
  method RunCleanup(maxSizeInput: string, run: Step -> Run) returns (attempted: seq<Step>, report: Report)
    ensures Ended(attempted, report) == Cleanup(maxSizeInput, run)
  {
    attempted := [Optimise];
    var r := run(Optimise);
    if r.Threw? {
      return attempted, ReportOf(r.thrown);
    }
    attempted := attempted + [MeasureSize];
    r := run(MeasureSize);
    if r.Threw? {
      return attempted, ReportOf(r.thrown);
    }
    var gc := Compare(r.stdout, maxSizeInput);
    assert Cleanup(maxSizeInput, run) == Steps(run, gc);
    if gc {
      attempted := attempted + [CollectGarbage];
      r := run(CollectGarbage);
      if r.Threw? {
        return attempted, ReportOf(r.thrown);
      }
    }
    attempted := attempted + [SaveStore];
    r := run(SaveStore);
    if r.Threw? {
      return attempted, ReportOf(r.thrown);
    }
    report := Completed;
  }

  /** The steps in the order `main` takes them. */
  function Planned(gc: bool): seq<Step>
  {
    [Optimise, MeasureSize] + (if gc then [CollectGarbage] else []) + [SaveStore]
  }

  /** The steps are attempted in the planned order and the run stops at
      the first one that throws: every earlier step succeeded, and the run
      completes exactly when the last step attempted succeeded, which is
      then the cache save. A failure is reported with the thrown value. */
  lemma StepOrder(run: Step -> Run, gc: bool)
    ensures var e := Steps(run, gc);
      var plan := Planned(gc);
      var last := e.attempted[|e.attempted| - 1];
      && 1 <= |e.attempted| <= |plan| && e.attempted == plan[..|e.attempted|]
      && (forall k :: 0 <= k < |e.attempted| - 1 ==> run(e.attempted[k]).Done?)
      && (e.report.Completed? <==> run(last).Done?)
      && (e.report.Completed? ==> e.attempted == plan)
      && (run(last).Threw? ==> e.report == ReportOf(run(last).thrown))
  {
    var e := Steps(run, gc);
    var plan := Planned(gc);
    if run(Optimise).Threw? {
      assert e.attempted == plan[..1];
    } else if run(MeasureSize).Threw? {
      assert e.attempted == plan[..2];
    } else if gc {
      assert plan == [Optimise, MeasureSize, CollectGarbage, SaveStore];
      if run(CollectGarbage).Threw? {
        assert e.attempted == plan[..3];
      } else {
        assert e.attempted == plan[..4];
      }
    } else {
      assert plan == [Optimise, MeasureSize, SaveStore];
      assert e.attempted == plan[..3];
    }
  }

  /** When no step throws, the run completes and saves the cache on either
      branch, after collecting garbage exactly when that was decided. */
  lemma CompletedRun(run: Step -> Run, gc: bool)
    requires run(Optimise).Done? && run(MeasureSize).Done? && run(CollectGarbage).Done? && run(SaveStore).Done?
    ensures Steps(run, gc) == Ended(Planned(gc), Completed)
  {
  }

  /** Garbage is collected exactly when optimising and measuring succeeded
      and the size is strictly above the limit. */
  lemma GcIffExceeds(maxSizeInput: string, run: Step -> Run)
    ensures CollectGarbage in Cleanup(maxSizeInput, run).attempted
        <==> run(Optimise).Done? && run(MeasureSize).Done? && GcRequired(run(MeasureSize).stdout, maxSizeInput)
  {
    GcStep(run, run(MeasureSize).Done? && GcRequired(run(MeasureSize).stdout, maxSizeInput));
  }

  lemma GcStep(run: Step -> Run, gc: bool)
    ensures CollectGarbage in Steps(run, gc).attempted <==> run(Optimise).Done? && run(MeasureSize).Done? && gc
  {
  }

  /** An empty `max-size` is the 5 GB default. */
  lemma DefaultLimit()
    ensures Js.ParseInt(Limit("")) == Some(5000000000)
  {
    assert Js.Decimal(5) == "5";
    assert Js.Decimal(50) == "50";
    assert Js.Decimal(500) == "500";
    assert Js.Decimal(5000) == "5000";
    assert Js.Decimal(50000) == "50000";
    assert Js.Decimal(500000) == "500000";
    assert Js.Decimal(5000000) == "5000000";
    assert Js.Decimal(50000000) == "50000000";
    assert Js.Decimal(500000000) == "500000000";
    assert Js.Decimal(5000000000) == DefaultMaxSize;
    Js.ParseIntOfNumeral(5000000000);
  }

  /** A size or a limit that is not a number never triggers collection:
      NaN compares false (`jq` prints "null" for an empty store). */
  lemma NaNNeverCollects(sizeOutput: string, maxSizeInput: string)
    requires Js.ParseInt(Js.Trim(sizeOutput)).None? || Js.ParseInt(Limit(maxSizeInput)).None?
    ensures !GcRequired(sizeOutput, maxSizeInput)
  {
  }

  /** For a size printed as jq prints it, one number and a newline, and a
      limit written as a number: collection happens exactly when the size
      is strictly greater; a store exactly at the limit is kept. */
  lemma GcStrictlyAbove(size: nat, limit: nat)
    ensures GcRequired(Js.Decimal(size) + "\n", Js.Decimal(limit)) <==> size > limit
    ensures !GcRequired(Js.Decimal(limit) + "\n", Js.Decimal(limit))
  {
    ReadSize(size);
    ReadSize(limit);
    Js.ParseIntOfNumeral(limit);
    assert Limit(Js.Decimal(limit)) == Js.Decimal(limit);
  }

  /** With the default limit, a store of more than 5 GB is collected and one
      of at most 5 GB is not. */
  lemma DefaultThreshold(size: nat)
    ensures GcRequired(Js.Decimal(size) + "\n", "") <==> size > 5000000000
  {
    DefaultLimit();
    ReadSize(size);
  }

  /** The size step's output, a number and a newline, reads back as that
      number. */
  lemma ReadSize(n: nat)
    ensures Js.ParseInt(Js.Trim(Js.Decimal(n) + "\n")) == Some(n)
  {
    var d := Js.Decimal(n);
    assert Js.AllSpace("\n");
    assert Js.IsDigit(d[0]) && Js.IsDigit(d[|d| - 1]);
    assert [] + d + "\n" == d + "\n";
    Js.TrimOf([], d, "\n");
    Js.ParseIntOfNumeral(n);
  }
}
