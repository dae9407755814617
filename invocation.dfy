/**
  The progress callback calls one `runRsyncCommand` run makes: one per stdout
  chunk that contains a marker, then one from the `exec` completion callback
  when the process ends without an error. Spawning the process and the event
  stream are not modelled; the chunks arrive as a sequence.
*/
module Invocation {
  import opened Wrappers
  import opened Text
  import opened Progress

  /** How `exec` completes: without an error, or with one (carrying stderr). */
  datatype ExecOutcome = Completed | Failed(stderr: string)

  /** The progress call of the completion callback: 100 exactly when the
      process ended without an error, nothing otherwise. */
  function CompletionReport(outcome: ExecOutcome): (r: Option<nat>)
    ensures r.Some? <==> outcome.Completed?
    ensures r.Some? ==> r.value == 100
  {
    if outcome.Completed? then Some(100) else None
  }

  function Calls(r: Option<nat>): seq<nat> {
    if r.Some? then [r.value] else []
  }

  /** The values the `data` handler passes on, chunk by chunk. */
  function DataTrace(chunks: seq<string>): seq<nat> {
    if chunks == [] then []
    else DataTrace(chunks[..|chunks| - 1]) + Calls(ExtractPercent(chunks[|chunks| - 1]))
  }

  /** Every progress value one run reports, in order. */
  function ProgressTrace(chunks: seq<string>, outcome: ExecOutcome): seq<nat> {
    DataTrace(chunks) + Calls(CompletionReport(outcome))
  }

  /** The handler keeps no state between chunks: the report of a stream is
      the report of its first part followed by that of the rest. */
  lemma {:induction false} DataTraceAppend(a: seq<string>, b: seq<string>)
    ensures DataTrace(a + b) == DataTrace(a) + DataTrace(b)
    decreases |b|
  {
    if b == [] {
      assert a + b == a;
    } else {
      assert (a + b)[..|a + b| - 1] == a + b[..|b| - 1];
      DataTraceAppend(a, b[..|b| - 1]);
    }
  }

  /** At most one call per chunk, and the trace of one chunk is its match. */
  lemma {:induction false} DataTraceBound(chunks: seq<string>)
    ensures |DataTrace(chunks)| <= |chunks|
    ensures |chunks| == 1 ==> DataTrace(chunks) == Calls(ExtractPercent(chunks[0]))
  {
    if chunks != [] {
      DataTraceBound(chunks[..|chunks| - 1]);
    }
  }

  /** A successful run ends with a call reporting 100; a failed run makes
      no call beyond those of its chunks. */
  lemma CompletionEndsTrace(chunks: seq<string>, outcome: ExecOutcome)
    ensures outcome.Completed? ==>
              |ProgressTrace(chunks, outcome)| == |DataTrace(chunks)| + 1
              && ProgressTrace(chunks, outcome)[|DataTrace(chunks)|] == 100
    ensures outcome.Failed? ==> ProgressTrace(chunks, outcome) == DataTrace(chunks)
  {
  }

  /** Values are passed on as they come: a lower value after a higher one is
      still reported, and a successful run still ends with 100. */
  lemma NoMonotonicFilter()
    ensures ProgressTrace(["10%", "5%"], Completed) == [10, 5, 100]
  {
    assert ExtractPercent("10%") == Some(10) by {
      assert "10%"[0..2] == "10";
      assert DigitsValue("10") == 10 by {
        assert "10"[..1] == "1";
      }
      ExtractPercentComplete("10%", 0, 2);
    }
    assert ExtractPercent("5%") == Some(5) by {
      assert "5%"[0..1] == "5";
      ExtractPercentComplete("5%", 0, 1);
    }
    var c := ["10%", "5%"];
    assert c[..1] == ["10%"];
    assert DataTrace(["10%"]) == [10] by {
      assert ["10%"][..0] == [];
    }
  }
}
