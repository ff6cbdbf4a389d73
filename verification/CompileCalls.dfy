/** Calls in compiled code, and the correctness of whole expressions and programs. */
module CompileCalls {
  import opened Words24
  import opened LispSource
  import opened Cor24
  import opened Codegen
  import opened CompileCorrect

  /** The argument values are on the stack, the first one on top. */
  ghost predicate ArgsOn(img: Image, fin: CState, vs: seq<Value>, m: Machine) {
    forall i :: 0 <= i < |vs| ==> Stands(img, fin, vs[i], Read(m.mem, m.sp + 3 * i))
  }

  /** Everything an expression's code may rely on when it starts. */
  ghost predicate Ready(img: Image, fin: CState, env: Env, loc: Locals, w: World, m: Machine) {
    Whole(img, fin) && Frame(img, fin, env, loc, m) && Agree(img, fin, w, m)
  }

  lemma FnItems(code: seq<Item>, p: int, l: nat, c: seq<Item>)
    requires At(code, p, [Label(l)] + (PROLOGUE + (c + EPILOGUE)))
    ensures 0 <= p && p + 10 + |c| <= |code|
    ensures code[p] == Label(l) && PrologueAt(code, p + 1)
    ensures At(code, p + 5, c) && EpilogueAt(code, p + 5 + |c|)
  {
    AtSplit(code, p, [Label(l)], PROLOGUE + (c + EPILOGUE));
    AtItem(code, p, [Label(l)], 0);
    AtSplit(code, p + 1, PROLOGUE, c + EPILOGUE);
    AtItem(code, p + 1, PROLOGUE, 0);
    AtItem(code, p + 1, PROLOGUE, 1);
    AtItem(code, p + 1, PROLOGUE, 2);
    AtItem(code, p + 1, PROLOGUE, 3);
    AtSplit(code, p + 5, c, EPILOGUE);
    EpilogueItems(code, p + 5 + |c|);
  }

  ghost predicate EpilogueAt(code: seq<Item>, p: int) {
    && 0 <= p && p + 5 <= |code|
    && code[p] == SpFromFp && code[p + 1] == Pop(R1) && code[p + 2] == Pop(R2) && code[p + 3] == Pop(FP)
    && code[p + 4] == Jump(R1)
  }

  lemma EpilogueItems(code: seq<Item>, p: int)
    requires At(code, p, EPILOGUE)
    ensures EpilogueAt(code, p)
  {
    AtItem(code, p, EPILOGUE, 0);
    AtItem(code, p, EPILOGUE, 1);
    AtItem(code, p, EPILOGUE, 2);
    AtItem(code, p, EPILOGUE, 3);
    AtItem(code, p, EPILOGUE, 4);
  }

  ghost predicate PrologueAt(code: seq<Item>, p: int) {
    && 0 <= p && p + 4 <= |code|
    && code[p] == Push(FP) && code[p + 1] == Push(R2) && code[p + 2] == Push(R1) && code[p + 3] == FpFromSp
  }

  /** The frame a prologue builds. */
  ghost predicate Framed(img: Image, m: Machine, m': Machine) {
    && m'.sp == m.sp - 9 && m'.fp == m.sp - 9
    && Read(m'.mem, m.sp - 9) == m.r1 && Read(m'.mem, m.sp - 6) == m.r2 && Read(m'.mem, m.sp - 3) == m.fp
    && SameFrom(m.sp, m.mem, m'.mem) && Quiet(img, m, m')
  }

  lemma PrologueRuns(img: Image, m: Machine) returns (m': Machine)
    requires PrologueAt(img.code, m.pc) && Room(img, m, 9)
    ensures Runs(img, m, m') && m'.pc == m.pc + 4 && Framed(img, m, m')
  {
    PushRuns(img, m, FP);
    var m1 := Pushed(m, m.fp);
    PushRuns(img, m1, R2);
    var m2 := Pushed(m1, m.r2);
    PushRuns(img, m2, R1);
    var m3 := Pushed(m2, m.r1);
    hide Step;
    StepIs(img, m3, FpFromSp);
    m' := Step(img, m3);
    Runs4(img, m, m1, m2, m3, m');
  }

  /** The epilogue undoes the prologue that built the frame at fp. */
  lemma EpilogueRuns(img: Image, m: Machine, fp0: int, r20: int, ret: int) returns (m': Machine)
    requires EpilogueAt(img.code, m.pc) && 0 <= m.fp && m.fp + 9 < MODULUS
    requires Read(m.mem, m.fp) == ret && Read(m.mem, m.fp + 3) == r20 && Read(m.mem, m.fp + 6) == fp0
    ensures Runs(img, m, m')
    ensures m' == m.(sp := m.fp + 9, fp := fp0, r1 := ret, r2 := r20, pc := img.target(ret))
  {
    hide Step, Effect, Runs, Read;
    FrameDropped(img, m);
    var m1 := Step(img, m);
    var m2 := PopRuns(img, m1, R1);
    var m3 := PopRuns(img, m2, R2);
    var m4 := PopRuns(img, m3, FP);
    JumpBack(img, m4);
    m' := Step(img, m4);
    Runs4(img, m, m1, m2, m3, m4);
    RunsStep(img, m4);
    RunsTrans(img, m, m4, m');
  }

  lemma FrameDropped(img: Image, m: Machine)
    requires 0 <= m.pc < |img.code| && img.code[m.pc] == SpFromFp
    ensures Step(img, m) == m.(sp := m.fp, pc := m.pc + 1)
  {
  }

  lemma JumpBack(img: Image, m: Machine)
    requires 0 <= m.pc < |img.code| && img.code[m.pc] == Jump(R1)
    ensures Step(img, m) == m.(pc := img.target(m.r1))
  {
  }

  /** jal to a compiled function reaches its label, with the return address in r1. */
  lemma JumpLinkRuns(img: Image, m: Machine, p: int) returns (m': Machine)
    requires Linked(img) && 0 <= m.pc < |img.code| && img.code[m.pc] == JumpLink
    requires 0 <= p <= |img.code| && m.r0 == img.adr(p)
    ensures Runs(img, m, m') && m' == m.(r1 := img.adr(m.pc + 1), pc := p)
  {
    assert forall rt :: img.adr(p) != img.routineAdr(rt);
    hide Step, CallRoutine, Linked;
    StepIs(img, m, JumpLink);
    var m1 := Step(img, m);
    RunsStep(img, m);
    JumpArrives(img, m1, p);
    m' := m1.(pc := p);
    RunsTrans(img, m, m1, m');
  }

  /** From the call to the first instruction of the body. */
  lemma EnterRuns(img: Image, fin: CState, w: World, m: Machine, p: int, l: nat) returns (m': Machine)
    requires Linked(img) && 0 <= m.pc < |img.code| && img.code[m.pc] == JumpLink
    requires 0 <= p < |img.code| && img.code[p] == Label(l) && PrologueAt(img.code, p + 1)
    requires m.r0 == img.adr(p) && Room(img, m, 9) && Agree(img, fin, w, m)
    ensures Runs(img, m, m') && m'.pc == p + 5 && Agree(img, fin, w, m')
    ensures Framed(img, m.(r1 := img.adr(m.pc + 1), pc := p + 1), m')
  {
    hide Step, Linked, Runs, Agree, Framed, PrologueAt;
    var m1 := JumpLinkRuns(img, m, p);
    StepIs(img, m1, Label(l));
    var m2 := m1.(pc := p + 1);
    RunsStep(img, m1);
    m' := PrologueRuns(img, m2);
    RunsTrans(img, m, m1, m2);
    RunsTrans(img, m, m2, m');
    FramedAgree(img, fin, w, m, m2, m');
  }

  lemma FramedAgree(img: Image, fin: CState, w: World, m: Machine, m2: Machine, m': Machine)
    requires Linked(img) && Agree(img, fin, w, m) && m2 == m.(r1 := m2.r1, pc := m2.pc) && Framed(img, m2, m')
    ensures Agree(img, fin, w, m')
  {
    QuietAgree(img, fin, w, m, m');
  }

  /** The parameters, bound and laid out side by side. */
  lemma {:induction false} ParamsFrame(img: Image, fin: CState, ps: seq<symbol>, vs: seq<Value>, off: int, env: Env,
        loc: Locals, m: Machine)
    requires |ps| <= |vs| && off >= 0 && Frame(img, fin, env, loc, m)
    requires forall k :: 0 <= k < |ps| ==>
               m.sp <= m.fp + off + 3 * k < MODULUS && Stands(img, fin, vs[k], Read(m.mem, m.fp + off + 3 * k))
    ensures Frame(img, fin, EnvParams(ps, off, env), Bind(ps, vs, loc), m)
    decreases |ps|
  {
    hide Frame, Stands, Read;
    if ps != [] {
      assert m.fp + off + 3 * 0 == m.fp + off;
      FrameGrows(img, fin, ps[0], vs[0], off, env, loc, m);
      forall k | 0 <= k < |ps[1..]|
        ensures m.sp <= m.fp + (off + 3) + 3 * k < MODULUS
        ensures Stands(img, fin, vs[1..][k], Read(m.mem, m.fp + (off + 3) + 3 * k))
      {
        assert vs[1..][k] == vs[k + 1] && m.fp + (off + 3) + 3 * k == m.fp + off + 3 * (k + 1);
      }
      ParamsFrame(img, fin, ps[1..], vs[1..], off + 3, [(ps[0], off)] + env, [(ps[0], vs[0])] + loc, m);
    }
  }

  /** One more parameter in front. */
  lemma FrameGrows(img: Image, fin: CState, p: symbol, v: Value, off: int, env: Env, loc: Locals, m: Machine)
    requires Frame(img, fin, env, loc, m) && off >= 0
    requires m.sp <= m.fp + off < MODULUS && Stands(img, fin, v, Read(m.mem, m.fp + off))
    ensures Frame(img, fin, [(p, off)] + env, [(p, v)] + loc, m)
  {
    hide Stands, Read;
  }

  /** The words saved by the prologue are still there behind the body. */
  lemma FrameSaved(img: Image, m: Machine, me: Machine, mb: Machine)
    requires Framed(img, m.(r1 := img.adr(m.pc + 1), pc := me.pc - 4), me)
    requires mb.fp == me.fp && SameFrom(me.sp, me.mem, mb.mem)
    ensures mb.fp == m.sp - 9 && SameFrom(m.sp, m.mem, mb.mem)
    ensures Read(mb.mem, mb.fp) == img.adr(m.pc + 1)
    ensures Read(mb.mem, mb.fp + 3) == m.r2 && Read(mb.mem, mb.fp + 6) == m.fp
  {
    hide Read;
  }

  /** From the end of the body back to the caller. */
  lemma ReturnRuns(img: Image, fin: CState, m: Machine, me: Machine, mb: Machine, n: nat, v: Value,
        w: World) returns (m': Machine)
    requires Linked(img) && 0 <= m.pc < |img.code| && m.sp < MODULUS && 9 <= m.sp
    requires Runs(img, m, me) && Framed(img, m.(r1 := img.adr(m.pc + 1), pc := me.pc - 4), me)
    requires Arrives(img, fin, me, mb, n, 0, v, w) && EpilogueAt(img.code, mb.pc)
    ensures Arrives(img, fin, m, m', 1, 0, v, w) && m'.r2 == m.r2
  {
    hide Step, Linked, Runs, Stands, Agree, Framed, SameFrom, Read, EpilogueAt;
    FrameSaved(img, m, me, mb);
    var m1 := EpilogueRuns(img, mb, m.fp, m.r2, img.adr(m.pc + 1));
    JumpArrives(img, m1, m.pc + 1);
    m' := m1.(pc := m.pc + 1);
    RunsTrans(img, m, me, mb);
    RunsTrans(img, m, mb, m1);
    RunsTrans(img, m, m1, m');
    QuietAgree(img, fin, w, mb, m');
  }

  /** The body starts with its parameters in the frame. */
  lemma BodyReady(img: Image, fin: CState, w: World, m: Machine, me: Machine, ps: seq<symbol>, vs: seq<Value>)
    requires Whole(img, fin) && |ps| <= |vs| && m.sp + 3 * |vs| < MODULUS && 9 <= m.sp
    requires ArgsOn(img, fin, vs, m) && Agree(img, fin, w, me)
    requires Framed(img, m.(r1 := img.adr(m.pc + 1), pc := me.pc - 4), me)
    ensures Ready(img, fin, EnvParams(ps, 9, []), Bind(ps, vs, []), w, me)
  {
    hide Whole, Agree, Stands, EnvParams, Bind, ArgsOn, Framed, Read;
    forall k | 0 <= k < |ps|
      ensures me.sp <= me.fp + 9 + 3 * k < MODULUS && Stands(img, fin, vs[k], Read(me.mem, me.fp + 9 + 3 * k))
    {
      ArgInFrame(img, fin, m, me, vs, k);
    }
    ParamsFrame(img, fin, ps, vs, 9, [], [], me);
  }

  /** An argument on the caller's stack, seen from the callee's frame. */
  lemma ArgInFrame(img: Image, fin: CState, m: Machine, me: Machine, vs: seq<Value>, k: nat)
    requires k < |vs| && m.sp + 3 * |vs| < MODULUS && ArgsOn(img, fin, vs, m)
    requires Framed(img, m.(r1 := img.adr(m.pc + 1), pc := me.pc - 4), me)
    ensures me.sp <= me.fp + 9 + 3 * k < MODULUS && Stands(img, fin, vs[k], Read(me.mem, me.fp + 9 + 3 * k))
  {
    hide Stands, Read;
    assert me.fp + 9 + 3 * k == m.sp + 3 * k;
    assert Read(me.mem, m.sp + 3 * k) == Read(m.mem, m.sp + 3 * k);
  }

  lemma CallItems(code: seq<Item>, p: int, c: seq<Item>, ch: seq<Item>, n: nat)
    requires At(code, p, c + (ch + ([JumpLink] + PopArgs(n))))
    ensures At(code, p, c) && At(code, p + |c|, ch)
    ensures 0 <= p + |c| + |ch| < |code| && code[p + |c| + |ch|] == JumpLink
    ensures At(code, p + |c| + |ch| + 1, PopArgs(n))
  {
    AtSplit(code, p, c, ch + ([JumpLink] + PopArgs(n)));
    AtSplit(code, p + |c|, ch, [JumpLink] + PopArgs(n));
    AtSplit(code, p + |c| + |ch|, [JumpLink], PopArgs(n));
    AtItem(code, p + |c| + |ch|, [JumpLink], 0);
  }

  lemma ArgItems(code: seq<Item>, p: int, c: seq<Item>, c0: seq<Item>)
    requires At(code, p, c + (c0 + [Push(R0)]))
    ensures At(code, p, c) && At(code, p + |c|, c0)
    ensures 0 <= p + |c| + |c0| < |code| && code[p + |c| + |c0|] == Push(R0)
  {
    AtSplit(code, p, c, c0 + [Push(R0)]);
    AtSplit(code, p + |c|, c0, [Push(R0)]);
    AtItem(code, p + |c| + |c0|, [Push(R0)], 0);
  }

  /** add sp,3n after a call, or nothing when there were no arguments. */
  lemma PopArgsRuns(img: Image, fin: CState, m: Machine, n: nat, v: Value, w: World) returns (m': Machine)
    requires Linked(img) && At(img.code, m.pc, PopArgs(n)) && 0 <= m.sp && m.sp + 3 * n < MODULUS
    requires Stands(img, fin, v, m.r0) && Agree(img, fin, w, m)
    ensures Arrives(img, fin, m, m', |PopArgs(n)|, 3 * n, v, w)
  {
    if n > 0 {
      AtItem(img.code, m.pc, PopArgs(n), 0);
      StepIs(img, m, AddSp(n * 3));
      m' := Step(img, m);
      RunsStep(img, m);
    } else {
      m' := m;
      RunsZero(img, m);
    }
    QuietAgree(img, fin, w, m, m');
  }

  /** Arguments on the stack stay there while code below them runs. */
  lemma ArgsKept(img: Image, fin: CState, vs: seq<Value>, m: Machine, m': Machine)
    requires ArgsOn(img, fin, vs, m) && m'.sp == m.sp && SameFrom(m.sp, m.mem, m'.mem)
    ensures ArgsOn(img, fin, vs, m')
  {
  }

  /** One more argument in front. */
  lemma ArgsMore(img: Image, fin: CState, v: Value, vs: seq<Value>, m: Machine, m1: Machine, n: nat, w: World)
    requires Linked(img) && ArgsOn(img, fin, vs, m) && Arrives(img, fin, m, m1, n, 0, v, w) && Room(img, m, 3)
    requires 0 <= m1.pc < |img.code| && img.code[m1.pc] == Push(R0)
    ensures ArgsOn(img, fin, [v] + vs, Pushed(m1, m1.r0)) && Agree(img, fin, w, Pushed(m1, m1.r0))
    ensures Runs(img, m, Pushed(m1, m1.r0)) && SameFrom(m.sp, m.mem, Pushed(m1, m1.r0).mem)
  {
    hide Stands, Runs, Agree, Linked;
    var m2 := Pushed(m1, m1.r0);
    PushRuns(img, m1, R0);
    QuietAgree(img, fin, w, m1, m2);
    RunsTrans(img, m, m1, m2);
    PushedArgs(img, fin, v, vs, m, m1);
  }

  lemma PushedArgs(img: Image, fin: CState, v: Value, vs: seq<Value>, m: Machine, m1: Machine)
    requires ArgsOn(img, fin, vs, m) && Stands(img, fin, v, m1.r0) && Room(img, m, 3) && img.floor >= 0
    requires m1.sp == m.sp && SameFrom(m.sp, m.mem, m1.mem)
    ensures ArgsOn(img, fin, [v] + vs, Pushed(m1, m1.r0))
  {
    hide Stands;
    var m2 := Pushed(m1, m1.r0);
    forall i | 0 <= i < |[v] + vs| ensures Stands(img, fin, ([v] + vs)[i], Read(m2.mem, m2.sp + 3 * i)) {
      if i > 0 {
        assert m2.sp + 3 * i == m.sp + 3 * (i - 1) && ([v] + vs)[i] == vs[i - 1];
        assert Read(m2.mem, m.sp + 3 * (i - 1)) == Read(m.mem, m.sp + 3 * (i - 1));
      }
    }
  }

  // The theorem, by induction over call depth and expression size

  lemma ExprLater(e: SExpr, env: Env, st: CState, fin: CState)
    requires Later(Gen(e, env, st).1, fin)
    ensures Later(st, fin)
  {
    hide Gen, View, Later, Pending;
    GenGrown(e, env, st);
    LaterTrans(st, Gen(e, env, st).1, fin);
  }

  lemma SeqLater(es: seq<SExpr>, env: Env, st: CState, fin: CState)
    requires Later(GenSeq(es, env, st).1, fin)
    ensures Later(st, fin)
  {
    hide GenSeq, Later, Pending;
    GenSeqGrown(es, env, st);
    LaterTrans(st, GenSeq(es, env, st).1, fin);
  }

  /** The situation the theorem is about: the code of `e` is next, the machine holds the
      frame and the world, evaluation has outcome `r` and there is stack for it. */
  ghost predicate Starts(img: Image, fin: CState, bud: Budget, fuel: nat, e: SExpr, env: Env, st: CState,
                         loc: Locals, w: World, m: Machine, r: Outcome) {
    && bud == Budget(img.need, img.capacity) && Ready(img, fin, env, loc, w, m)
    && At(img.code, m.pc, Gen(e, env, st).0) && Later(Gen(e, env, st).1, fin)
    && r == Eval(bud, fuel, e, loc, w) && r.Done? && Room(img, m, r.deep)
  }

  /** Running the code of an expression leaves its value in r0, with sp, fp and all
      stack words from sp up as they were, and the world as evaluation leaves it. */
  lemma {:induction false} Correct(img: Image, fin: CState, bud: Budget, fuel: nat, e: SExpr, env: Env, st: CState,
                                   loc: Locals, w: World, m: Machine, r: Outcome) returns (m': Machine)
    requires Starts(img, fin, bud, fuel, e, env, st, loc, w, m, r)
    ensures Arrives(img, fin, m, m', |Gen(e, env, st).0|, 0, r.value, r.world)
    decreases fuel, Size(e), 2
  {
    hide View, Later, Frame, Agree, Stands, Linked, Runs, AddFn, AddGlobal, GenVar, GenQuote, GenOp1, GenOp2,
         GenTest, GenElse, EvalQuote, Apply1, Apply2, Need1, Need2, Lookup, At, SameFrom, FnPlaced;
    match View(e) {
      case Const(c) => m' := ConstRuns(img, fin, m, w, c);
      case Var(sym) => m' := VarRuns(img, fin, env, loc, m, w, sym, st);
      case Quote(d) => m' := QuoteRuns(img, fin, m, w, bud, d, r.value, r.world, r.deep);
      case If(t, a, b) => m' := IfRuns(img, fin, bud, fuel, e, env, st, loc, w, m, r);
      case Begin(es) => m' := SeqRuns(img, fin, bud, fuel, es, env, st, loc, w, m, r);
      case DefineFn(sym, ps, body) => m' := DefineFnRuns(img, fin, m, w, st, sym, ps, body);
      case Define(sym, e1) => m' := DefineRuns(img, fin, bud, fuel, e, env, st, loc, w, m, r);
      case Lambda(ps, body) => m' := LambdaRuns(img, fin, m, w, st, ps, body);
      case Unary(op, a) => m' := UnaryRuns(img, fin, bud, fuel, e, env, st, loc, w, m, r);
      case Binary(op, a, b) => m' := BinaryRuns(img, fin, bud, fuel, e, env, st, loc, w, m, r);
      case Call(head, args) => m' := CallRuns(img, fin, bud, fuel, e, env, st, loc, w, m, r);
    }
  }

  lemma {:induction false} DefineRuns(img: Image, fin: CState, bud: Budget, fuel: nat, e: SExpr, env: Env, st: CState,
                                      loc: Locals, w: World, m: Machine, r: Outcome) returns (m': Machine)
    requires Starts(img, fin, bud, fuel, e, env, st, loc, w, m, r) && View(e).Define?
    ensures Arrives(img, fin, m, m', |Gen(e, env, st).0|, 0, r.value, r.world)
    decreases fuel, Size(e), 1
  {
    hide View, Later, Frame, Agree, Stands, Linked, Runs, AddGlobal, At, SameFrom, FnPlaced;
    var Define(sym, e1) := View(e);
    var st0 := AddGlobal(st, sym);
    var c := Gen(e1, env, st0).0;
    AtSplit(img.code, m.pc, c, [LoadGlobal(R1, sym), Store]);
    var r1 := Eval(bud, fuel, e1, loc, w);
    var m1 := Correct(img, fin, bud, fuel, e1, env, st0, loc, w, m, r1);
    ExprLater(e1, env, st0, fin);
    InTable(st, sym, fin);
    m' := StoreRuns(img, fin, m1, r1.world, sym, r1.value);
    RunsZero(img, m1);
    Then(img, fin, m, m1, |c|, r1.value, r1.world, m1, m', 2, |c| + 2, r.value, r.world);
  }

  lemma DefineFnRuns(img: Image, fin: CState, m: Machine, w: World, st: CState, sym: symbol, ps: seq<symbol>,
        body: SExpr)
      returns (m': Machine)
    requires Linked(img) && Agree(img, fin, w, m) && img.floor <= m.sp
    requires At(img.code, m.pc, [LoadLabel(R0, st.lbl), LoadGlobal(R1, sym), Store])
    requires Later(AddFn(AddGlobal(st, sym), ps, body), fin)
    ensures Arrives(img, fin, m, m', 3, 0, VFun(ps, body), w.(globals := w.globals[sym := VFun(ps, body)]))
  {
    hide Agree, Stands, Linked, Runs, At, Later;
    var st0 := AddGlobal(st, sym);
    assert [LoadLabel(R0, st.lbl), LoadGlobal(R1, sym), Store] == [LoadLabel(R0, st0.lbl)] + [LoadGlobal(R1, sym),
          Store];
    AtSplit(img.code, m.pc, [LoadLabel(R0, st0.lbl)], [LoadGlobal(R1, sym), Store]);
    var m1 := LambdaRuns(img, fin, m, w, st0, ps, body);
    GrownFn(st0, ps, body);
    LaterTrans(st0, AddFn(st0, ps, body), fin);
    InTable(st, sym, fin);
    m' := StoreRuns(img, fin, m1, w, sym, VFun(ps, body));
    RunsZero(img, m1);
    Then(img, fin, m, m1, 1, VFun(ps, body), w, m1, m', 2, 3, VFun(ps, body),
          w.(globals := w.globals[sym := VFun(ps, body)]));
  }

  lemma {:induction false} UnaryRuns(img: Image, fin: CState, bud: Budget, fuel: nat, e: SExpr, env: Env, st: CState,
                                     loc: Locals, w: World, m: Machine, r: Outcome) returns (m': Machine)
    requires Starts(img, fin, bud, fuel, e, env, st, loc, w, m, r) && View(e).Unary?
    ensures Arrives(img, fin, m, m', |Gen(e, env, st).0|, 0, r.value, r.world)
    decreases fuel, Size(e), 1
  {
    hide View, Later, Frame, Agree, Stands, Linked, Runs, GenOp1, Apply1, Need1, At, SameFrom, FnPlaced;
    var Unary(op, a) := View(e);
    var st0 := st.(lbl := st.lbl + Labels1(op));
    var c := Gen(a, env, st0).0;
    AtSplit(img.code, m.pc, c, GenOp1(op, st.lbl));
    var r1 := Eval(bud, fuel, a, loc, w);
    var m1 := Correct(img, fin, bud, fuel, a, env, st0, loc, w, m, r1);
    m' := Op1Runs(img, fin, op, st.lbl, m1, r1.value, r1.world, r.value, r.world);
    RunsZero(img, m1);
    var n := |GenOp1(op, st.lbl)|;
    Then(img, fin, m, m1, |c|, r1.value, r1.world, m1, m', n, |c| + n, r.value, r.world);
  }

  /** The code and the value of an if form, by its parts. */
  lemma IfMeans(bud: Budget, fuel: nat, e: SExpr, env: Env, st: CState, loc: Locals, w: World)
    requires View(e).If?
    ensures var If(t, a, b) := View(e);
      var l := st.lbl;
      var (ct, st1) := Gen(t, env, st.(lbl := l + 3));
      var (ca, st2) := Gen(a, env, st1);
      var (cb, st3) := Gen(b, env, st2);
      && Gen(e, env, st) == (ct + (GenTest(l, l + 1) + (ca + (GenElse(l + 1, l + 2) + (cb + [Label(l + 2)])))), st3)
      && |Gen(e, env, st).0| == |ct| + 6 + |ca| + 3 + |cb| + 1
    ensures var If(t, a, b) := View(e);
      var r := Eval(bud, fuel, e, loc, w);
      var r1 := Eval(bud, fuel, t, loc, w);
      r.Done? ==>
        && r1.Done?
        && var r2 := Eval(bud, fuel, if r1.value != VNil then a else b, loc, r1.world);
           r2.Done? && r == Done(r2.value, r2.world, Max(r1.deep, r2.deep))
  {
    hide View, GenTest;
    TestLength(st.lbl, st.lbl + 1);
  }

  lemma {:induction false} IfRuns(img: Image, fin: CState, bud: Budget, fuel: nat, e: SExpr, env: Env, st: CState,
                                  loc: Locals, w: World, m: Machine, r: Outcome) returns (m': Machine)
    requires Starts(img, fin, bud, fuel, e, env, st, loc, w, m, r) && View(e).If?
    ensures Arrives(img, fin, m, m', |Gen(e, env, st).0|, 0, r.value, r.world)
    decreases fuel, Size(e), 1
  {
    hide View, Later, Frame, Agree, Stands, Linked, Runs, At, SameFrom, FnPlaced, Gen, Eval, GenTest, GenElse;
    var If(t, a, b) := View(e);
    IfMeans(bud, fuel, e, env, st, loc, w);
    var l := st.lbl;
    var (ct, st1) := Gen(t, env, st.(lbl := l + 3));
    var (ca, st2) := Gen(a, env, st1);
    var (cb, st3) := Gen(b, env, st2);
    IfItems(img.code, m.pc, ct, ca, cb, l);
    ExprLater(b, env, st2, fin);
    ExprLater(a, env, st1, fin);
    var r1 := Eval(bud, fuel, t, loc, w);
    var m1 := Correct(img, fin, bud, fuel, t, env, st.(lbl := l + 3), loc, w, m, r1);
    var q := m.pc + |ct| + 6 + |ca| + 2;
    var m2 := TestRuns(img, m1, l, l + 1, q);
    StandsNil(img, fin, r1.value, m1.r0);
    BetweenParts(img, fin, env, loc, m, m1, |ct|, r1.value, r1.world, m2);
    if r1.value != VNil {
      var r2 := Eval(bud, fuel, a, loc, r1.world);
      var m3 := Correct(img, fin, bud, fuel, a, env, st1, loc, r1.world, m2, r2);
      m' := LongJump(img, m3, l + 2, q + |cb| + 1);
      EndPart(img, fin, m, m1, |ct|, r1.value, r1.world, m2, m3, |ca|, r.value, r.world, m', |Gen(e, env, st).0|);
    } else {
      var r2 := Eval(bud, fuel, b, loc, r1.world);
      var m3 := Correct(img, fin, bud, fuel, b, env, st2, loc, r1.world, m2, r2);
      StepIs(img, m3, Label(l + 2));
      m' := m3.(pc := m3.pc + 1);
      RunsStep(img, m3);
      EndPart(img, fin, m, m1, |ct|, r1.value, r1.world, m2, m3, |cb|, r.value, r.world, m', |Gen(e, env, st).0|);
    }
  }

  /** After a piece of code, moving on without touching memory. */
  lemma BetweenParts(img: Image, fin: CState, env: Env, loc: Locals, m: Machine, m1: Machine, n1: nat, v1: Value,
        w1: World, m2: Machine)
    requires Linked(img) && Arrives(img, fin, m, m1, n1, 0, v1, w1) && Frame(img, fin, env, loc, m)
    requires m2 == m1.(r1 := m2.r1, r2 := m2.r2, c := m2.c, pc := m2.pc)
    ensures Frame(img, fin, env, loc, m2) && Agree(img, fin, w1, m2)
  {
    QuietAgree(img, fin, w1, m1, m2);
    FrameKept(img, fin, env, loc, m, m2);
  }

  lemma EndPart(img: Image, fin: CState, m: Machine, m1: Machine, n1: nat, v1: Value, w1: World, m2: Machine,
                m3: Machine, n3: nat, v: Value, w: World, m4: Machine, n: nat)
    requires Linked(img) && Arrives(img, fin, m, m1, n1, 0, v1, w1)
    requires Runs(img, m1, m2) && m2 == m1.(r1 := m2.r1, r2 := m2.r2, c := m2.c, pc := m2.pc)
    requires Arrives(img, fin, m2, m3, n3, 0, v, w)
    requires Runs(img, m3, m4) && m4 == m3.(r2 := m4.r2, pc := m.pc + n)
    ensures Arrives(img, fin, m, m4, n, 0, v, w)
  {
    RunsTrans(img, m, m1, m2);
    RunsTrans(img, m, m2, m3);
    RunsTrans(img, m, m3, m4);
    QuietAgree(img, fin, w, m3, m4);
  }

  lemma {:induction false} BinaryRuns(img: Image, fin: CState, bud: Budget, fuel: nat, e: SExpr, env: Env, st: CState,
                                      loc: Locals, w: World, m: Machine, r: Outcome) returns (m': Machine)
    requires Starts(img, fin, bud, fuel, e, env, st, loc, w, m, r) && View(e).Binary?
    ensures Arrives(img, fin, m, m', |Gen(e, env, st).0|, 0, r.value, r.world)
    decreases fuel, Size(e), 1
  {
    hide View, Later, Frame, Agree, Stands, Linked, Runs, GenOp2, Apply2, Need2, At, FnPlaced;
    var Binary(op, a, b) := View(e);
    var st0 := st.(lbl := st.lbl + Labels2(op));
    var (cb, st1) := Gen(b, env, st0);
    var ca := Gen(a, env, st1).0;
    BinaryItems(img.code, m.pc, cb, ca, GenOp2(op, st.lbl));
    ExprLater(a, env, st1, fin);
    var rb := Eval(bud, fuel, b, loc, w);
    var m1 := Correct(img, fin, bud, fuel, b, env, st0, loc, w, m, rb);
    PushFits(img, fin, m, m1, |cb|, rb.value, rb.world, env, loc);
    var m2 := Pushed(m1, m1.r0);
    var ra := Eval(bud, fuel, a, loc, rb.world);
    var m3 := Correct(img, fin, bud, fuel, a, env, st1, loc, rb.world, m2, ra);
    assert Read(m3.mem, m3.sp) == Read(m2.mem, m2.sp);
    m' := Op2Runs(img, fin, op, st.lbl, m3, ra.value, rb.value, ra.world, r.value, r.world);
    BinaryFits(img, fin, m, m1, |cb|, rb.value, rb.world, m3, |ca|, ra.value, ra.world,
               m', |GenOp2(op, st.lbl)|, r.value, r.world);
  }

  lemma BinaryItems(code: seq<Item>, p: int, cb: seq<Item>, ca: seq<Item>, tail: seq<Item>)
    requires At(code, p, cb + ([Push(R0)] + (ca + tail)))
    ensures At(code, p, cb) && 0 <= p + |cb| < |code| && code[p + |cb|] == Push(R0)
    ensures At(code, p + |cb| + 1, ca) && At(code, p + |cb| + 1 + |ca|, tail)
  {
    AtSplit(code, p, cb, [Push(R0)] + (ca + tail));
    AtSplit(code, p + |cb|, [Push(R0)], ca + tail);
    AtItem(code, p + |cb|, [Push(R0)], 0);
    AtSplit(code, p + |cb| + 1, ca, tail);
  }

  lemma {:induction false} SeqRuns(img: Image, fin: CState, bud: Budget, fuel: nat, es: seq<SExpr>, env: Env,
        st: CState,
                                   loc: Locals, w: World, m: Machine, r: Outcome) returns (m': Machine)
    requires bud == Budget(img.need, img.capacity) && Ready(img, fin, env, loc, w, m) && es != []
    requires At(img.code, m.pc, GenSeq(es, env, st).0) && Later(GenSeq(es, env, st).1, fin)
    requires r == EvalSeq(bud, fuel, es, loc, w) && r.Done? && Room(img, m, r.deep)
    ensures Arrives(img, fin, m, m', |GenSeq(es, env, st).0|, 0, r.value, r.world)
    decreases fuel, Sizes(es), 3
  {
    hide View, Later, Frame, Agree, Stands, Linked, Runs, Gen, Eval, At, SameFrom, FnPlaced;
    var (c0, st1) := Gen(es[0], env, st);
    var c := GenSeq(es[1..], env, st1).0;
    AtSplit(img.code, m.pc, c0, c);
    SeqLater(es[1..], env, st1, fin);
    var r0 := Eval(bud, fuel, es[0], loc, w);
    var m1 := Correct(img, fin, bud, fuel, es[0], env, st, loc, w, m, r0);
    if |es| == 1 {
      assert c == [];
      m' := m1;
    } else {
      FrameKept(img, fin, env, loc, m, m1);
      var r1 := EvalSeq(bud, fuel, es[1..], loc, r0.world);
      m' := SeqRuns(img, fin, bud, fuel, es[1..], env, st1, loc, r0.world, m1, r1);
      RunsZero(img, m1);
      Then(img, fin, m, m1, |c0|, r0.value, r0.world, m1, m', |c|, |c0| + |c|, r.value, r.world);
    }
  }

  /** Evaluating the arguments leaves them on the stack, the first one on top. */
  lemma {:induction false} ArgsRuns(img: Image, fin: CState, bud: Budget, fuel: nat, args: seq<SExpr>, env: Env,
        st: CState,
                                    loc: Locals, w: World, m: Machine, r: Outcomes) returns (m': Machine)
    requires bud == Budget(img.need, img.capacity) && Ready(img, fin, env, loc, w, m)
    requires At(img.code, m.pc, GenArgs(args, env, st).0) && Later(GenArgs(args, env, st).1, fin)
    requires r == EvalArgs(bud, fuel, args, loc, w) && r.Dones? && Room(img, m, r.deep)
    ensures Runs(img, m, m') && m'.pc == m.pc + |GenArgs(args, env, st).0|
    ensures m'.sp == m.sp - 3 * |args| && m'.fp == m.fp && SameFrom(m.sp, m.mem, m'.mem)
    ensures ArgsOn(img, fin, r.values, m') && Agree(img, fin, r.world, m')
    decreases fuel, Sizes(args), 3
  {
    hide View, Later, Frame, Agree, Stands, Linked, Runs, Gen, Eval, At, FnPlaced;
    if args == [] {
      m' := m;
      RunsZero(img, m);
    } else {
      var (c, st1) := GenArgs(args[1..], env, st);
      var c0 := Gen(args[0], env, st1).0;
      ArgItems(img.code, m.pc, c, c0);
      ExprLater(args[0], env, st1, fin);
      var r1 := EvalArgs(bud, fuel, args[1..], loc, w);
      var m1 := ArgsRuns(img, fin, bud, fuel, args[1..], env, st, loc, w, m, r1);
      FrameKept(img, fin, env, loc, m, m1);
      var r0 := Eval(bud, fuel, args[0], loc, r1.world);
      var m2 := Correct(img, fin, bud, fuel, args[0], env, st1, loc, r1.world, m1, r0);
      ArgsMore(img, fin, r0.value, r1.values, m1, m2, |c0|, r0.world);
      m' := Pushed(m2, m2.r0);
      RunsTrans(img, m, m1, m');
    }
  }

  /** The function of a call: a variable, or any other expression. */
  ghost function HeadCode(head: SExpr, env: Env, st: CState): Code {
    if head.Sym? then GenVar(head.i, env, st) else Gen(head, env, st)
  }

  ghost function HeadValue(bud: Budget, fuel: nat, head: SExpr, loc: Locals, w: World): Outcome {
    if head.Sym? then Done(Lookup(head.i, loc, w), w, 0) else Eval(bud, fuel, head, loc, w)
  }

  lemma {:induction false} HeadRuns(img: Image, fin: CState, bud: Budget, fuel: nat, head: SExpr, env: Env, st: CState,
                                    loc: Locals, w: World, m: Machine, r: Outcome) returns (m': Machine)
    requires bud == Budget(img.need, img.capacity) && Ready(img, fin, env, loc, w, m) && 0 <= m.sp < MODULUS
    requires At(img.code, m.pc, HeadCode(head, env, st).0) && Later(HeadCode(head, env, st).1, fin)
    requires r == HeadValue(bud, fuel, head, loc, w) && r.Done? && (!head.Sym? ==> Room(img, m, r.deep))
    ensures Arrives(img, fin, m, m', |HeadCode(head, env, st).0|, 0, r.value, r.world)
    decreases fuel, Size(head), 3
  {
    hide Gen, GenVar, Eval, Later, Frame, Agree, Runs, At, Lookup, Arrives;
    if head.Sym? {
      m' := VarRuns(img, fin, env, loc, m, w, head.i, st);
    } else {
      m' := Correct(img, fin, bud, fuel, head, env, st, loc, w, m, r);
    }
  }

  lemma {:induction false} CallRuns(img: Image, fin: CState, bud: Budget, fuel: nat, e: SExpr, env: Env, st: CState,
                                    loc: Locals, w: World, m: Machine, r: Outcome) returns (m': Machine)
    requires Starts(img, fin, bud, fuel, e, env, st, loc, w, m, r) && View(e).Call?
    ensures Arrives(img, fin, m, m', |Gen(e, env, st).0|, 0, r.value, r.world)
    decreases fuel, Size(e), 1
  {
    hide View, Later, Frame, Agree, Stands, Linked, Runs, GenVar, At, SameFrom, FnPlaced, Lookup, ArgsOn, Bind;
    var Call(head, args) := View(e);
    var (c, st1) := GenArgs(args, env, st);
    var (ch, st2) := HeadCode(head, env, st1);
    CallItems(img.code, m.pc, c, ch, |args|);
    if head.Sym? { VarLater(head.i, env, st1, fin); } else { ExprLater(head, env, st1, fin); }
    var r1 := EvalArgs(bud, fuel, args, loc, w);
    var m1 := ArgsRuns(img, fin, bud, fuel, args, env, st, loc, w, m, r1);
    FrameKept(img, fin, env, loc, m, m1);
    var rh := HeadValue(bud, fuel, head, loc, r1.world);
    var m2 := HeadRuns(img, fin, bud, fuel, head, env, st1, loc, r1.world, m1, rh);
    ArgsKept(img, fin, r1.values, m1, m2);
    var f := rh.value;
    var rb := Eval(bud, fuel - 1, f.body, Bind(f.params, r1.values, []), rh.world);
    var m3 := BodyRuns(img, fin, bud, fuel - 1, f.params, f.body, r1.values, rh.world, m2, rb);
    m' := PopArgsRuns(img, fin, m3, |args|, rb.value, rb.world);
    RunsTrans(img, m, m1, m2);
    RunsTrans(img, m, m2, m3);
    RunsTrans(img, m, m3, m');
    CallFits(img, fin, m, m1, |c|, m2, |ch|, f, rh.world, m3, m', |args|, r.value, r.world);
  }

  lemma VarLater(sym: symbol, env: Env, st: CState, fin: CState)
    requires Later(GenVar(sym, env, st).1, fin)
    ensures Later(st, fin)
  {
    AddGlobalLater(st, sym);
    LaterTrans(st, GenVar(sym, env, st).1, fin);
  }

  lemma CallFits(img: Image, fin: CState, m: Machine, m1: Machine, nc: nat, m2: Machine, nh: nat, f: Value, w2: World,
                 m3: Machine, m4: Machine, n: nat, v: Value, w: World)
    requires Runs(img, m, m4) && m1.pc == m.pc + nc && m1.sp == m.sp - 3 * n && m1.fp == m.fp && SameFrom(m.sp,
          m.mem, m1.mem)
    requires Arrives(img, fin, m1, m2, nh, 0, f, w2) && Arrives(img, fin, m2, m3, 1, 0, v, w)
    requires Arrives(img, fin, m3, m4, |PopArgs(n)|, 3 * n, v, w)
    ensures Arrives(img, fin, m, m4, nc + nh + 1 + |PopArgs(n)|, 0, v, w)
  {
  }

  /** jal to a function whose arguments are on the stack: its body runs and returns. */
  lemma {:induction false} BodyRuns(img: Image, fin: CState, bud: Budget, fuel: nat, ps: seq<symbol>, body: SExpr,
                                    vs: seq<Value>, w: World, m: Machine, r: Outcome) returns (m': Machine)
    requires bud == Budget(img.need, img.capacity) && Whole(img, fin) && Agree(img, fin, w, m)
    requires 0 <= m.pc < |img.code| && img.code[m.pc] == JumpLink
    requires Stands(img, fin, VFun(ps, body), m.r0) && ArgsOn(img, fin, vs, m) && |ps| <= |vs|
    requires r == Eval(bud, fuel, body, Bind(ps, vs, []), w) && r.Done?
    requires Room(img, m, 9 + r.deep) && m.sp + 3 * |vs| < MODULUS
    ensures Arrives(img, fin, m, m', 1, 0, r.value, r.world)
    decreases fuel, Size(body), 3
  {
    hide View, Later, Frame, Agree, Linked, Runs, Gen, Eval, At, SameFrom, Framed, ArgsOn, Bind, EpilogueAt, PrologueAt;
    var k :| 0 <= k < |fin.fns| && IsFn(img, fin.fns[k], ps, body, m.r0);
    var f := fin.fns[k];
    var p := FindLabel(img.code, f.lbl);
    assert FnPlaced(img, fin, f);
    var st :| At(img.code, p, GenFn(f, st).0) && Later(GenFn(f, st).1, fin);
    var c := Gen(f.body, f.env, st).0;
    FnItems(img.code, p, f.lbl, c);
    var me := EnterRuns(img, fin, w, m, p, f.lbl);
    BodyReady(img, fin, w, m, me, ps, vs);
    FramedSp(img, m, me);
    var mb := Correct(img, fin, bud, fuel, body, f.env, st, Bind(ps, vs, []), w, me, r);
    m' := ReturnRuns(img, fin, m, me, mb, |c|, r.value, r.world);
  }

  lemma FramedSp(img: Image, m: Machine, me: Machine)
    requires Framed(img, m.(r1 := img.adr(m.pc + 1), pc := me.pc - 4), me)
    ensures me.sp == m.sp - 9
  {
  }
}
