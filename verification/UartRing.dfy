/** The interrupt-driven echo program: a handler puts received characters into a ring, the
    main loop takes them out and sends them back. The handler may run between any two steps
    of the main loop. */
module UartRing {
  import opened Wrappers

  const BUFSZ: nat := 16

  /** Where the main loop is about to go on. */
  datatype Pc = Test | Fetch | Advance | Echo | Enable

  /** `pending` is what the UART will still deliver, `taken` and `sent` what has been read
      from it and written to it. `c` is the main loop's character. */
  datatype State = State(cbuf: seq<byte>, ridx: nat, widx: nat, enabled: bool, pc: Pc, c: byte,
                         pending: seq<byte>, taken: seq<byte>, sent: seq<byte>)
  {
    predicate Valid() { |cbuf| == BUFSZ && ridx < BUFSZ && widx < BUFSZ }
  }

  /** `n` places on around the ring. */
  function Around(i: nat, n: nat): (j: nat)
    requires i < BUFSZ && n <= BUFSZ
    ensures j < BUFSZ
  {
    if i + n < BUFSZ then i + n else i + n - BUFSZ
  }

  function Next(i: nat): (j: nat)
    requires i < BUFSZ
    ensures j < BUFSZ && j == (i + 1) % BUFSZ
  {
    Around(i, 1)
  }

  /** uartcisr, when the UART has a character and its interrupt is on. */
  function Handler(s: State): (s': State)
    requires s.Valid() && s.enabled && s.pending != []
    ensures s'.Valid()
  {
    if Next(s.widx) != s.ridx then
      s.(cbuf := s.cbuf[s.widx := s.pending[0]], widx := Next(s.widx),
         taken := s.taken + [s.pending[0]], pending := s.pending[1..])
    else s.(enabled := false)
  }

  /** One step of the main loop. */
  function Main(s: State): (s': State)
    requires s.Valid()
    ensures s'.Valid()
  {
    match s.pc
    case Test => s.(pc := if s.ridx == s.widx then Enable else Fetch)
    case Fetch => s.(c := s.cbuf[s.ridx], pc := Advance)
    case Advance => s.(ridx := Next(s.ridx), pc := Echo)
    case Echo => s.(sent := s.sent + [s.c], pc := Test)
    case Enable => s.(enabled := true, pc := Test)
  }

  // The ring as a queue

  ghost predicate Started(s: State, input: seq<byte>) {
    && s.ridx == 0 && s.widx == 0 && !s.enabled && s.pc == Test
    && s.pending == input && s.taken == [] && s.sent == []
  }

  function Distance(r: nat, w: nat): (n: nat)
    requires r < BUFSZ && w < BUFSZ
    ensures n < BUFSZ && Around(r, n) == w
  {
    if w >= r then w - r else w + BUFSZ - r
  }

  function Count(s: State): nat
    requires s.Valid()
  {
    Distance(s.ridx, s.widx)
  }

  /** The characters in the ring from index `i` on, `n` of them. */
  function Held(cbuf: seq<byte>, i: nat, n: nat): (q: seq<byte>)
    requires |cbuf| == BUFSZ && i < BUFSZ
    ensures |q| == n
    decreases n
  {
    if n == 0 then [] else [cbuf[i]] + Held(cbuf, Next(i), n - 1)
  }

  /** Taken out of the ring but not sent yet. */
  function InFlight(s: State): seq<byte> { if s.pc == Echo then [s.c] else [] }

  /** What has been read is what has been sent, the character in flight and the ring, in
      this order; the ring is never full; a fetched character is still the first. */
  ghost predicate Inv(s: State, input: seq<byte>) {
    && s.Valid()
    && s.taken == s.sent + InFlight(s) + Held(s.cbuf, s.ridx, Count(s))
    && s.taken + s.pending == input
    && (s.pc == Fetch || s.pc == Advance ==> Count(s) > 0)
    && (s.pc == Advance ==> s.c == s.cbuf[s.ridx])
  }

  lemma {:induction false} HeldAppend(cbuf: seq<byte>, i: nat, n: nat, b: byte)
    requires |cbuf| == BUFSZ && i < BUFSZ && n < BUFSZ
    ensures Held(cbuf[Around(i, n) := b], i, n + 1) == Held(cbuf, i, n) + [b]
    decreases n
  {
    if n > 0 {
      assert Around(i, n) == Around(Next(i), n - 1) != i;
      HeldAppend(cbuf, Next(i), n - 1, b);
    } else {
      assert Held(cbuf[i := b], i, 1) == [b] + Held(cbuf[i := b], Next(i), 0);
    }
  }

  lemma CountGrows(r: nat, w: nat)
    requires r < BUFSZ && w < BUFSZ && Next(w) != r
    ensures Distance(r, Next(w)) == Distance(r, w) + 1
  {
  }

  lemma HandlerKeeps(s: State, input: seq<byte>)
    requires Inv(s, input) && s.enabled && s.pending != []
    ensures Inv(Handler(s), input)
  {
    hide Held;
    if Next(s.widx) != s.ridx {
      var b, n, q := s.pending[0], Count(s), Held(s.cbuf, s.ridx, Count(s));
      CountGrows(s.ridx, s.widx);
      HeldAppend(s.cbuf, s.ridx, n, b);
      assert s.sent + InFlight(s) + q + [b] == s.sent + InFlight(s) + (q + [b]);
      assert s.pending == [b] + s.pending[1..];
      if s.pc == Advance { assert s.widx != s.ridx; }
    }
  }

  lemma MainKeeps(s: State, input: seq<byte>)
    requires Inv(s, input)
    ensures Inv(Main(s), input)
  {
    hide Held, Distance;
    RingEmpty(s.ridx, s.widx);
    if s.pc == Advance {
      RingShrinks(s.cbuf, s.ridx, s.widx);
      var rest := Held(s.cbuf, Next(s.ridx), Count(s) - 1);
      assert s.sent + ([s.c] + rest) == s.sent + [s.c] + rest;
    }
  }

  lemma RingEmpty(r: nat, w: nat)
    requires r < BUFSZ && w < BUFSZ
    ensures Distance(r, w) == 0 <==> r == w
  {
  }

  /** The oldest character leaves the ring. */
  lemma RingShrinks(cbuf: seq<byte>, r: nat, w: nat)
    requires |cbuf| == BUFSZ && r < BUFSZ && w < BUFSZ && r != w
    ensures Distance(Next(r), w) == Distance(r, w) - 1
    ensures Held(cbuf, r, Distance(r, w)) == [cbuf[r]] + Held(cbuf, Next(r), Distance(r, w) - 1)
  {
  }

  // Runs

  /** Each entry says whether the handler runs or the main loop. */
  ghost predicate Run(from: State, handler: seq<bool>, s: State)
    decreases |handler|
  {
    if handler == [] then s == from
    else
      var n := |handler| - 1;
      exists m: State :: Run(from, handler[..n], m) && m.Valid()
        && if handler[n] then m.enabled && m.pending != [] && s == Handler(m) else s == Main(m)
  }

  /** Over any interleaving nothing is lost, overwritten or reordered: what has been echoed
      is what has been received but for the character in flight and the ring. */
  lemma {:induction false} EchoesInOrder(from: State, input: seq<byte>, handler: seq<bool>, s: State)
    requires from.Valid() && Started(from, input) && Run(from, handler, s)
    ensures Inv(s, input)
    decreases |handler|
  {
    if handler == [] {
    } else {
      var n := |handler| - 1;
      var m: State :| Run(from, handler[..n], m) && m.Valid()
        && if handler[n] then m.enabled && m.pending != [] && s == Handler(m) else s == Main(m);
      EchoesInOrder(from, input, handler[..n], m);
      if handler[n] {
        HandlerKeeps(m, input);
      } else {
        MainKeeps(m, input);
      }
    }
  }

  function MainTimes(s: State, n: nat): (s': State)
    requires s.Valid()
    ensures s'.Valid()
    decreases n
  {
    if n == 0 then s else MainTimes(Main(s), n - 1)
  }

  /** Main loop steps left until the interrupt is switched on. */
  function StepsLeft(s: State): nat
    requires s.Valid()
  {
    match s.pc
    case Test => 4 * Count(s) + 2
    case Fetch => 4 * Count(s) + 1
    case Advance => 4 * Count(s)
    case Echo => 4 * Count(s) + 3
    case Enable => 1
  }

  /** With the interrupt off the main loop drains the ring and switches it on again, within
      63 steps, so a waiting character is never left for good. */
  lemma {:induction false} SwitchedOnAgain(s: State, input: seq<byte>)
    requires Inv(s, input) && !s.enabled
    ensures 0 < StepsLeft(s) <= 63 && MainTimes(s, StepsLeft(s)).enabled
    decreases StepsLeft(s)
  {
    MainKeeps(s, input);
    if s.pc == Enable {
      assert MainTimes(Main(s), 0).enabled;
    } else {
      StepTaken(s, input);
      SwitchedOnAgain(Main(s), input);
    }
  }

  lemma StepTaken(s: State, input: seq<byte>)
    requires Inv(s, input) && s.pc != Enable
    ensures StepsLeft(Main(s)) == StepsLeft(s) - 1 && Main(s).enabled == s.enabled
  {
    hide Held;
    if s.pc == Test && s.ridx != s.widx {
      assert Count(s) > 0;
    }
  }

  /** What a step of the main loop does. */
  lemma MainMoves(s: State, input: seq<byte>)
    requires Inv(s, input)
    ensures var s' := Main(s);
      && Inv(s', input) && s'.pending == s.pending && (s.enabled ==> s'.enabled)
      && s'.sent + InFlight(s') + Held(s'.cbuf, s'.ridx, Count(s'))
         == s.sent + InFlight(s) + Held(s.cbuf, s.ridx, Count(s))
      && if s.pc == Enable then s'.enabled else StepsLeft(s') == StepsLeft(s) - 1
  {
    hide Held;
    MainKeeps(s, input);
    if s.pc != Enable {
      StepTaken(s, input);
    }
  }

  /** What the handler does to the ring. */
  lemma HandlerAppends(s: State)
    requires s.Valid() && s.enabled && s.pending != []
    ensures var q, s' := Held(s.cbuf, s.ridx, Count(s)), Handler(s);
      && (s'.enabled <==> |q| < BUFSZ - 1)
      && Held(s'.cbuf, s'.ridx, Count(s')) == q + if s'.enabled then [s.pending[0]] else []
  {
    hide Held;
    if Next(s.widx) != s.ridx {
      CountGrows(s.ridx, s.widx);
      HeldAppend(s.cbuf, s.ridx, Count(s), s.pending[0]);
    }
  }

  class Program {
    const cbuf: array<byte>
    var ridx: nat
    var widx: nat
    var enabled: bool
    var pc: Pc
    var c: byte
    var pending: seq<byte>
    var taken: seq<byte>
    var sent: seq<byte>

    function ToState(): State
      reads this, cbuf
    {
      State(cbuf[..], ridx, widx, enabled, pc, c, pending, taken, sent)
    }

    constructor (input: seq<byte>)
      ensures ToState().Valid() && fresh(cbuf)
      ensures Started(ToState(), input)
    {
      cbuf := new byte[BUFSZ];
      ridx, widx, enabled, pc, c := 0, 0, false, Test, 0;
      pending, taken, sent := input, [], [];
    }

    /** The characters in the ring, oldest first. */
    ghost function Ring(): seq<byte>
      requires ToState().Valid()
      reads this, cbuf
    {
      Held(cbuf[..], ridx, Count(ToState()))
    }

    /** The handler appends the next character to the ring, or, when 15 characters wait in it,
        leaves everything as it is and switches the interrupt off. */
    method Uartcisr(ghost input: seq<byte>)
      requires Inv(ToState(), input) && enabled && pending != []
      modifies this, cbuf
      ensures Inv(ToState(), input) && ToState() == Handler(old(ToState()))
      ensures enabled <==> |old(Ring())| < BUFSZ - 1
      ensures Ring() == old(Ring()) + if enabled then [old(pending[0])] else []
      ensures sent == old(sent) && InFlight(ToState()) == old(InFlight(ToState()))
    {
      hide Held;
      ghost var s := ToState();
      HandlerKeeps(s, input);
      HandlerAppends(s);
      if (widx + 1) % BUFSZ != ridx {
        cbuf[widx] := pending[0];
        widx := (widx + 1) % BUFSZ;
        taken, pending := taken + [pending[0]], pending[1..];
      } else {
        enabled := false;
      }
      assert ToState() == Handler(s);
    }

    /** A step of the main loop moves nothing but the oldest character of the ring towards the
        UART. It comes nearer to the point where the interrupt is switched on, or is there. */
    method MainStep(ghost input: seq<byte>)
      requires Inv(ToState(), input)
      modifies this
      ensures Inv(ToState(), input) && ToState() == Main(old(ToState()))
      ensures sent + InFlight(ToState()) + Ring() == old(sent + InFlight(ToState()) + Ring())
      ensures pending == old(pending) && (old(enabled) ==> enabled)
      ensures if old(pc) == Enable then enabled else StepsLeft(ToState()) == old(StepsLeft(ToState())) - 1
    {
      hide Held, Inv, StepsLeft, InFlight, Count;
      ghost var s := ToState();
      MainMoves(s, input);
      match pc
      case Test => pc := if ridx == widx then Enable else Fetch;
      case Fetch => c, pc := cbuf[ridx], Advance;
      case Advance => ridx, pc := (ridx + 1) % BUFSZ, Echo;
      case Echo => sent, pc := sent + [c], Test;
      case Enable => enabled, pc := true, Test;
      assert ToState() == Main(s);
    }

    /** The program under any schedule: the handler runs where `interrupts` says so and it can.
        At the end everything received has been sent but for the character in flight and the
        ring, in order. */
    method Execute(interrupts: seq<bool>, ghost input: seq<byte>)
      requires Started(ToState(), input) && ToState().Valid()
      modifies this, cbuf
      ensures Inv(ToState(), input)
      ensures sent + InFlight(ToState()) + Ring() + pending == input
    {
      for i := 0 to |interrupts|
        invariant Inv(ToState(), input)
      {
        if interrupts[i] && enabled && pending != [] {
          Uartcisr(input);
        } else {
          MainStep(input);
        }
      }
    }
  }
}
