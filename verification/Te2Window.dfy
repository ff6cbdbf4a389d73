/** What every event of the upload keeps: host and target stay within one step of each
    other, and the channels hold only lines of the current phase and the one before. */
module Te2Window {
  import opened Crc
  import opened Te2Wire
  import opened Te2Loader
  import opened Te2Protocol
  import opened Wrappers

  // The invariant

  /** The loader after `t` steps forward: records first, then E. */
  function LoaderAt(u: Upload, memory: seq<byte>, t: nat): (l: LoaderState)
    requires u.WellFormed() && |memory| >= LOADER_BASE
    ensures l.Valid() && l.finalized == (t > u.Count())
  {
    var k := if t < u.Count() then t else u.Count();
    LoaderState(k % 65536, StreamCrc(u, k), t > u.Count(), Overlay(memory, u.records[..k]))
  }

  /** How far the target is. */
  function Progress(u: Upload, s: State): nat {
    |s.stored| + (if s.loader.finalized then 1 else 0) + (if s.jump.Some? then 1 else 0)
  }

  function Sent(u: Upload, k: int): Option<string> {
    if 0 <= k <= u.Count() + 1 then Some(HostLine(u, k)) else None
  }

  function Answer(u: Upload, k: int): Option<string> {
    if 0 <= k <= u.Count() + 1 then Some(Awaited(u, k)) else None
  }

  /** Lines of the phase before, then lines of this phase, refusals anywhere. */
  ghost predicate Window(q: seq<string>, cut: nat, early: Option<string>, late: Option<string>, refusals: bool) {
    && cut <= |q|
    && (forall i :: 0 <= i < cut ==> Some(q[i]) == early || (refusals && Refusal(q[i])))
    && (forall i :: cut <= i < |q| ==> Some(q[i]) == late || (refusals && Refusal(q[i])))
  }

  /** The target is level with the host or one step ahead. */
  ghost predicate InStep(u: Upload, memory: seq<byte>, s: State)
    requires u.WellFormed() && |memory| >= LOADER_BASE
  {
    var n, t := u.Count(), Progress(u, s);
    && (t == s.phase || t == s.phase + 1) && t <= n + 2
    && s.stored == u.records[..if t < n then t else n]
    && s.loader == LoaderAt(u, memory, t)
    && s.jump == if t == n + 2 then Some(u.entry) else None
  }

  ghost predicate Inv(u: Upload, memory: seq<byte>, s: State, c: nat, d: nat)
    requires u.WellFormed() && |memory| >= LOADER_BASE
  {
    && s.loader.Valid() && InStep(u, memory, s)
    && Window(s.toTarget, d, Sent(u, s.phase - 1), Sent(u, s.phase), false)
    && Window(s.toHost, c, Answer(u, s.phase - 1), Answer(u, s.phase), true)
    && (Progress(u, s) == s.phase ==> c == |s.toHost|)
    && (Progress(u, s) == s.phase + 1 ==> d == 0)
  }

  // What the loader does with the lines of the protocol

  lemma NextRecord(u: Upload, memory: seq<byte>, t: nat)
    requires u.WellFormed() && |memory| >= LOADER_BASE && t < u.Count()
    ensures LoaderStep(LoaderAt(u, memory, t), Some(HostLine(u, t)))
         == Reaction(LoaderAt(u, memory, t + 1), Awaited(u, t), Some(u.records[t]), None)
  {
    hide Hex, RecordBytes, CrcBytes, Store, DataLine, LoaderStep;
    RecordAccepted(LoaderAt(u, memory, t), u.records[t].address, u.records[t].data);
    assert u.records[..t + 1][..t] == u.records[..t];
  }

  lemma NextEndOrGo(u: Upload, memory: seq<byte>, t: nat)
    requires u.WellFormed() && |memory| >= LOADER_BASE && u.Count() <= t <= u.Count() + 1
    ensures LoaderStep(LoaderAt(u, memory, t), Some(HostLine(u, t)))
         == Reaction(LoaderAt(u, memory, t + 1), Awaited(u, t), None,
                     if t == u.Count() + 1 then Some(u.entry) else None)
  {
    hide Hex, DataLine, EndLine, GoLine, Num, DataStep, Overlay, StreamCrc, Value;
    if t == u.Count() {
      EndLineRoundTrip(t % 65536, StreamCrc(u, t));
    } else {
      GoLineRoundTrip(u.entry);
    }
  }

  lemma NextLine(u: Upload, memory: seq<byte>, t: nat)
    requires u.WellFormed() && |memory| >= LOADER_BASE && t <= u.Count() + 1
    ensures LoaderStep(LoaderAt(u, memory, t), Some(HostLine(u, t)))
         == Reaction(LoaderAt(u, memory, t + 1), Awaited(u, t),
                     if t < u.Count() then Some(u.records[t]) else None,
                     if t == u.Count() + 1 then Some(u.entry) else None)
  {
    hide LoaderStep, LoaderAt, HostLine, Awaited;
    if t < u.Count() {
      NextRecord(u, memory, t);
    } else {
      NextEndOrGo(u, memory, t);
    }
  }

  lemma LastLineAgain(u: Upload, memory: seq<byte>, t: nat)
    requires u.WellFormed() && |memory| >= LOADER_BASE && 0 < t <= u.Count() + 1
    ensures LoaderStep(LoaderAt(u, memory, t), Some(HostLine(u, t - 1)))
         == Reaction(LoaderAt(u, memory, t), Awaited(u, t - 1), None, None)
  {
    hide Hex, HexBytes, HexValue, RecordCrc, NumBytes, Pow16, RecordBytes, CrcBytes, Store, DataLine, EndLine,
          GoLine, Num, DataStep, Overlay, StreamCrc;
    var n := u.Count();
    var s := LoaderAt(u, memory, t);
    if t <= n {
      assert (s.expected - 1) % 65536 == (t - 1) % 65536;
      DuplicateAcknowledged(s, u.records[t - 1].address, u.records[t - 1].data);
    } else {
      EndLineRoundTrip(n % 65536, StreamCrc(u, n));
    }
  }

  lemma AcksDiffer(a: nat, b: nat)
    requires a < 65536 && b < 65536 && a != b
    ensures Ack('A', a) != Ack('A', b)
  {
    Powers();
    HexRoundTrip(a, 4);
    HexRoundTrip(b, 4);
    assert Ack('A', a)[1..] == Hex(a, 4) && Ack('A', b)[1..] == Hex(b, 4);
  }

  /** The answers to one phase and the next differ, and neither is a refusal. */
  lemma AnswersDiffer(u: Upload, k: nat)
    requires k <= u.Count() + 1
    ensures !Refusal(Awaited(u, k)) && (k > 0 ==> Awaited(u, k - 1) != Awaited(u, k))
  {
    hide Hex;
    if 0 < k < u.Count() {
      AcksDiffer((k - 1) % 65536, k % 65536);
    } else if k > 0 {
      assert Awaited(u, k)[0] != Awaited(u, k - 1)[0];
    }
  }

  // Each event keeps the invariant

  lemma SendKeeps(u: Upload, memory: seq<byte>, s: State, c: nat, d: nat)
    requires u.WellFormed() && |memory| >= LOADER_BASE && Inv(u, memory, s, c, d)
    requires Enabled(u, s, HostSends)
    ensures Inv(u, memory, Step(u, s, HostSends), c, d)
  {
    hide HostLine, Awaited, Overlay, StreamCrc, LoaderStep;
  }

  lemma HostKeeps(u: Upload, memory: seq<byte>, s: State, c: nat, d: nat) returns (c': nat, d': nat)
    requires u.WellFormed() && |memory| >= LOADER_BASE && Inv(u, memory, s, c, d) && s.toHost != []
    ensures Inv(u, memory, Step(u, s, HostReceives), c', d')
  {
    hide HostLine, Awaited, Overlay, StreamCrc, LoaderStep, LoaderAt, Refusal;
    if s.phase <= u.Count() + 1 && s.toHost[0] == Awaited(u, s.phase) {
      AnswersDiffer(u, s.phase);
      assert c == 0;
      c', d' := |s.toHost| - 1, |s.toTarget|;
    } else {
      c', d' := if c > 0 then c - 1 else 0, d;
    }
  }

  lemma TargetKeeps(u: Upload, memory: seq<byte>, s: State, c: nat, d: nat) returns (d': nat)
    requires u.WellFormed() && |memory| >= LOADER_BASE && Inv(u, memory, s, c, d)
    requires Enabled(u, s, TargetReceives)
    ensures exists c' :: Inv(u, memory, Step(u, s, TargetReceives), c', d')
  {
    hide HostLine, Awaited, Overlay, StreamCrc, LoaderStep, LoaderAt, Refusal;
    var t, n := Progress(u, s), u.Count();
    assert t <= n + 1;
    var s' := Step(u, s, TargetReceives);
    if t == s.phase && d == 0 {
      NextLine(u, memory, t);
      d' := 0;
      assert t < n ==> u.records[..t + 1] == u.records[..t] + [u.records[t]];
      assert Inv(u, memory, s', c, d');
    } else {
      LastLineAgain(u, memory, t);
      d' := if d == 0 then 0 else d - 1;
      if t == s.phase {
        assert Inv(u, memory, s', c + 1, d');
      } else {
        assert Inv(u, memory, s', c, d');
      }
    }
  }

  lemma DropKeeps(q: seq<string>, cut: nat, i: nat, early: Option<string>, late: Option<string>, refusals: bool)
    requires Window(q, cut, early, late, refusals) && i < |q|
    ensures Window(Drop(q, i), if i < cut then cut - 1 else cut, early, late, refusals)
  {
  }

  lemma LossToTargetKeeps(u: Upload, memory: seq<byte>, s: State, c: nat, d: nat, i: nat) returns (d': nat)
    requires u.WellFormed() && |memory| >= LOADER_BASE && Inv(u, memory, s, c, d)
    requires Enabled(u, s, LostToTarget(i))
    ensures Inv(u, memory, Step(u, s, LostToTarget(i)), c, d')
  {
    hide HostLine, Awaited, Overlay, StreamCrc, LoaderStep, LoaderAt, Refusal, Window, Drop;
    d' := if i < d then d - 1 else d;
    DropKeeps(s.toTarget, d, i, Sent(u, s.phase - 1), Sent(u, s.phase), false);
  }

  lemma LossToHostKeeps(u: Upload, memory: seq<byte>, s: State, c: nat, d: nat, i: nat) returns (c': nat)
    requires u.WellFormed() && |memory| >= LOADER_BASE && Inv(u, memory, s, c, d)
    requires Enabled(u, s, LostToHost(i))
    ensures Inv(u, memory, Step(u, s, LostToHost(i)), c', d)
  {
    hide HostLine, Awaited, Overlay, StreamCrc, LoaderStep, LoaderAt, Refusal, Window;
    c' := if i < c then c - 1 else c;
    DropKeeps(s.toHost, c, i, Answer(u, s.phase - 1), Answer(u, s.phase), true);
  }

  lemma NoiseKeeps(u: Upload, memory: seq<byte>, s: State, c: nat, d: nat, line: Option<string>) returns (c': nat)
    requires u.WellFormed() && |memory| >= LOADER_BASE && Inv(u, memory, s, c, d)
    requires Enabled(u, s, TargetHears(line))
    ensures Inv(u, memory, Step(u, s, TargetHears(line)), c', d)
  {
    hide HostLine, Awaited, Overlay, StreamCrc, LoaderStep, LoaderAt, Refusal;
    AnswersTellTruth(s.loader, line);
    assert s.stored + [] == s.stored;
    c' := if Progress(u, s) == s.phase then c + 1 else c;
  }

  /** Every event keeps the invariant. */
  lemma StepKeeps(u: Upload, memory: seq<byte>, s: State, e: Event, c: nat, d: nat) returns (c': nat, d': nat)
    requires u.WellFormed() && |memory| >= LOADER_BASE && Inv(u, memory, s, c, d)
    requires Enabled(u, s, e)
    ensures Inv(u, memory, Step(u, s, e), c', d')
  {
    hide HostLine, Awaited, Overlay, StreamCrc, LoaderStep, LoaderAt, Refusal, Window, InStep, TargetReads, Progress;
    c', d' := c, d;
    match e
    case HostSends => SendKeeps(u, memory, s, c, d);
    case HostReceives => c', d' := HostKeeps(u, memory, s, c, d);
    case HostHears(noise) =>
    case TargetReceives =>
      d' := TargetKeeps(u, memory, s, c, d);
      c' :| Inv(u, memory, Step(u, s, e), c', d');
    case TargetHears(line) => c' := NoiseKeeps(u, memory, s, c, d, line);
    case LostToTarget(i) => d' := LossToTargetKeeps(u, memory, s, c, d, i);
    case LostToHost(i) => c' := LossToHostKeeps(u, memory, s, c, d, i);
  }

  lemma StartHolds(u: Upload, memory: seq<byte>)
    requires u.WellFormed() && |memory| >= LOADER_BASE
    ensures Inv(u, memory, Start(memory), 0, 0)
  {
  }

  /** The window holds at every moment of any run, of any length, for any number of
      records. */
  lemma {:induction false} WindowInvariant(u: Upload, memory: seq<byte>, es: seq<Event>, trace: seq<State>, i: nat)
      returns (c: nat, d: nat)
    requires u.WellFormed() && |memory| >= LOADER_BASE && Run(u, memory, es, trace) && i < |trace|
    ensures Inv(u, memory, trace[i], c, d)
    decreases i
  {
    hide HostLine, Awaited, StreamCrc, LoaderStep, Refusal, Step, Enabled, Inv, Start;
    if i == 0 {
      c, d := 0, 0;
      StartHolds(u, memory);
    } else {
      c, d := WindowInvariant(u, memory, es, trace, i - 1);
      assert Goes(u, trace[i - 1], es[i - 1], trace[i]);
      c, d := StepKeeps(u, memory, trace[i - 1], es[i - 1], c, d);
    }
  }
}
