/** What the upload achieves, over every run. */
module Te2Safety {
  import opened Te2Loader
  import opened Te2Protocol
  import opened Te2Window
  import opened Wrappers

  // What it means

  /** Once the host has seen F, the target memory is the initial memory with every record
      written over it, each exactly once and in order, and both sides hold the same stream
      CRC; a jump has been taken, if at all, only from there and only to the entry. */
  lemma UploadSafe(u: Upload, memory: seq<byte>, es: seq<Event>, trace: seq<State>, i: nat)
    requires u.WellFormed() && |memory| >= LOADER_BASE && Run(u, memory, es, trace) && i < |trace|
    ensures trace[i].phase > u.Count() || trace[i].jump.Some? ==>
              && trace[i].stored == u.records
              && trace[i].loader.memory == Overlay(memory, u.records)
              && trace[i].loader.stream == StreamCrc(u, u.Count())
              && trace[i].loader.finalized
    ensures trace[i].jump.Some? ==> trace[i].jump.value == u.entry
    ensures trace[i].phase == u.Count() + 2 ==> trace[i].jump.Some?
  {
    hide Run, HostLine, Awaited, StreamCrc, LoaderStep, Refusal, Overlay;
    var c, d := WindowInvariant(u, memory, es, trace, i);
    assert u.records[..u.Count()] == u.records;
  }

  /** At every moment what has been stored is a prefix of the image, as long as the host's
      count of acknowledged records or one record longer. */
  lemma StoredIsPrefix(u: Upload, memory: seq<byte>, es: seq<Event>, trace: seq<State>, i: nat)
    requires u.WellFormed() && |memory| >= LOADER_BASE && Run(u, memory, es, trace) && i < |trace|
    ensures trace[i].stored <= u.records
    ensures trace[i].phase <= u.Count() ==>
              |trace[i].stored| == trace[i].phase || |trace[i].stored| == trace[i].phase + 1
    ensures trace[i].loader.memory == Overlay(memory, trace[i].stored)
  {
    hide Run, HostLine, Awaited, StreamCrc, LoaderStep, Refusal, Overlay;
    var c, d := WindowInvariant(u, memory, es, trace, i);
  }

  // The upload is never wedged

  /** The last state of a trace. */
  function Now(trace: seq<State>): State
    requires trace != []
  {
    trace[|trace| - 1]
  }

  /** A longer run. */
  ghost predicate Continues(u: Upload, memory: seq<byte>, trace: seq<State>, es': seq<Event>, trace': seq<State>) {
    Run(u, memory, es', trace') && trace <= trace'
  }

  lemma Extend(u: Upload, memory: seq<byte>, es: seq<Event>, trace: seq<State>, e: Event)
    requires Run(u, memory, es, trace) && Now(trace).loader.Valid() && Enabled(u, Now(trace), e)
    ensures Continues(u, memory, trace, es + [e], trace + [Step(u, Now(trace), e)])
  {
    hide Enabled, Step;
    var es', trace' := es + [e], trace + [Step(u, Now(trace), e)];
    forall i | 0 <= i < |es'| ensures Goes(u, trace'[i], es'[i], trace'[i + 1]) {
      assert i < |es| ==> Goes(u, trace[i], es[i], trace[i + 1]);
    }
  }

  /** Both channels can run dry. */
  lemma {:induction false} Quiet(u: Upload, memory: seq<byte>, es: seq<Event>, trace: seq<State>)
      returns (es': seq<Event>, trace': seq<State>)
    requires Run(u, memory, es, trace) && Now(trace).loader.Valid()
    ensures Continues(u, memory, trace, es', trace')
    ensures Now(trace') == Now(trace).(toTarget := [], toHost := [])
    decreases |Now(trace).toTarget| + |Now(trace).toHost|
  {
    var s := Now(trace);
    if s.toTarget != [] {
      Extend(u, memory, es, trace, LostToTarget(0));
      hide Run;
      es', trace' := Quiet(u, memory, es + [LostToTarget(0)], trace + [Step(u, s, LostToTarget(0))]);
    } else if s.toHost != [] {
      Extend(u, memory, es, trace, LostToHost(0));
      hide Run;
      es', trace' := Quiet(u, memory, es + [LostToHost(0)], trace + [Step(u, s, LostToHost(0))]);
    } else {
      es', trace' := es, trace;
      assert s == s.(toTarget := [], toHost := []);
    }
  }

  /** With quiet channels, one line sent and one answer read move the host on. */
  lemma OneExchange(u: Upload, memory: seq<byte>, es: seq<Event>, trace: seq<State>)
      returns (es': seq<Event>, trace': seq<State>)
    requires u.WellFormed() && |memory| >= LOADER_BASE && Run(u, memory, es, trace)
    requires var s := Now(trace);
             s.toTarget == [] && s.toHost == [] && s.phase <= u.Count() + 1 && s.jump.None?
    ensures Continues(u, memory, trace, es', trace') && Now(trace').phase == Now(trace).phase + 1
    ensures Now(trace').jump.None? || Now(trace).phase == u.Count() + 1
  {
    hide HostLine, Awaited, StreamCrc, LoaderStep, LoaderAt, Refusal, Run;
    assert |trace| == |es| + 1 by { RunLength(u, memory, es, trace); }
    var s := Now(trace);
    var c, d := WindowInvariant(u, memory, es, trace, |trace| - 1);
    var t := Progress(u, s);
    Extend(u, memory, es, trace, HostSends);
    var es1, trace1 := es + [HostSends], trace + [Step(u, s, HostSends)];
    if t == s.phase {
      NextLine(u, memory, t);
    } else {
      LastLineAgain(u, memory, t);
    }
    Extend(u, memory, es1, trace1, TargetReceives);
    var es2, trace2 := es1 + [TargetReceives], trace1 + [Step(u, Now(trace1), TargetReceives)];
    assert Now(trace2).toHost == [Awaited(u, s.phase)];
    Extend(u, memory, es2, trace2, HostReceives);
    es', trace' := es2 + [HostReceives], trace2 + [Step(u, Now(trace2), HostReceives)];
  }

  lemma RunLength(u: Upload, memory: seq<byte>, es: seq<Event>, trace: seq<State>)
    requires Run(u, memory, es, trace)
    ensures |trace| == |es| + 1
  {
  }

  /** From wherever losses and noise have led, the host can still come to see F. */
  lemma {:induction false} CanFinish(u: Upload, memory: seq<byte>, es: seq<Event>, trace: seq<State>)
      returns (es': seq<Event>, trace': seq<State>)
    requires u.WellFormed() && |memory| >= LOADER_BASE && Run(u, memory, es, trace)
    requires Now(trace).phase <= u.Count()
    ensures Continues(u, memory, trace, es', trace') && Now(trace').phase == u.Count() + 1
    decreases u.Count() - Now(trace).phase
  {
    hide HostLine, Awaited, StreamCrc, LoaderStep, LoaderAt, Refusal, Run;
    RunLength(u, memory, es, trace);
    var c, d := WindowInvariant(u, memory, es, trace, |trace| - 1);
    es', trace' := Quiet(u, memory, es, trace);
    RunLength(u, memory, es', trace');
    es', trace' := OneExchange(u, memory, es', trace');
    RunLength(u, memory, es', trace');
    if Now(trace).phase < u.Count() {
      es', trace' := CanFinish(u, memory, es', trace');
    }
  }
}
