/** The code that compile.h emits, as a function of the expression and of the
    compiler's counters and tables. */
module Codegen {
  import opened LispSource
  import opened Cor24

  /** Compile-time environment, innermost binding first: symbol and frame offset. */
  type Env = seq<(symbol, int)>

  /** A function whose body is still to be emitted. */
  datatype Fn = Fn(lbl: nat, body: SExpr, env: Env)

  /** The next label, the functions met so far, the globals met so far. */
  datatype CState = CState(lbl: nat, fns: seq<Fn>, globs: seq<symbol>)

  type Code = (seq<Item>, CState)

  const START: CState := CState(0, [], [])

  /** The tagged word of a constant, signed as ce_li prints it. */
  function ConstWord(e: SExpr): int {
    match e
    case Fix(n) => 4 * n
    case Sym(i) => 4 * i + 2
    case _ => 2
  }

  const NIL_WORD: int := 2
  const T_WORD: int := 6

  /** Frame offset of the innermost binding, -9999 for none. */
  function EnvGet(sym: symbol, env: Env): int {
    if env == [] then -9999
    else if env[0].0 == sym then env[0].1
    else EnvGet(sym, env[1..])
  }

  /** First parameter at fp+9, then three bytes each; later parameters in front. */
  function EnvParams(params: seq<symbol>, off: int, env: Env): Env {
    if params == [] then env else EnvParams(params[1..], off + 3, [(params[0], off)] + env)
  }

  function AddGlobal(st: CState, sym: symbol): CState {
    if sym in st.globs then st else st.(globs := st.globs + [sym])
  }

  function AddFn(st: CState, params: seq<symbol>, body: SExpr): CState {
    st.(lbl := st.lbl + 1, fns := st.fns + [Fn(st.lbl, body, EnvParams(params, 9, []))])
  }

  function GenQuote(e: SExpr): seq<Item> {
    match e
    case Pair(a, d) =>
      GenQuote(d) + ([Push(R0)] + (GenQuote(a) + [Push(R0), LoadRoutine(RtCons), JumpLink, AddSp(6)]))
    case _ => [LoadImm(R0, ConstWord(e))]
  }

  function GenVar(sym: symbol, env: Env, st: CState): Code {
    var off := EnvGet(sym, env);
    if off != -9999 then ([LoadFrame(off)], st)
    else ([LoadGlobal(R1, sym), Fetch], AddGlobal(st, sym))
  }

  /** nil or t in r0, by the condition bit. */
  function GenTruth(yes: nat, end: nat): seq<Item> {
    ([BranchTrue(yes), LoadImm(R0, NIL_WORD), LoadLabel(R2, end), Jump(R2)] + [Label(yes)])
    + ([LoadImm(R0, T_WORD)] + [Label(end)])
  }

  /** The condition bit of an operator that answers yes or no. */
  function Test1(op: Op1): seq<Item> {
    if op.PairOp? then [LoadImm(R1, 3), And, LoadImm(R1, 1), TestEq] else [LoadImm(R1, NIL_WORD), TestEq]
  }

  function Test2(op: Op2): seq<Item> { [Pop(R1), if op.LessOp? then TestLess else TestEq] }

  function GenOp1(op: Op1, l: nat): seq<Item> {
    match op
    case CarOp => [Push(R0), LoadRoutine(RtCar), JumpLink, AddSp(3)]
    case CdrOp => [Push(R0), LoadRoutine(RtCdr), JumpLink, AddSp(3)]
    case PrintOp => [Push(R0), Push(R0), LoadRoutine(RtPrint), JumpLink, AddSp(3), Pop(R0)]
    case _ => Test1(op) + GenTruth(l, l + 1)
  }

  function GenOp2(op: Op2, l: nat): seq<Item> {
    match op
    case AddOp => [Pop(R1), Add]
    case SubOp => [Pop(R1), Sub]
    case MulOp => [Pop(R1), LoadImm(R2, 2), ShiftRight, Mul]
    case ConsOp => [Push(R0), LoadRoutine(RtCons), JumpLink, AddSp(6)]
    case _ => Test2(op) + GenTruth(l, l + 1)
  }

  /** Labels an operator takes before its operands are compiled. */
  function Labels1(op: Op1): nat { if op.NullOp? || op.PairOp? || op.NotOp? then 2 else 0 }

  function Labels2(op: Op2): nat { if op.LessOp? || op.EqualOp? then 2 else 0 }

  function GenTest(yes: nat, no: nat): seq<Item> {
    [LoadImm(R1, NIL_WORD), TestEq, BranchFalse(yes), LoadLabel(R2, no), Jump(R2)] + [Label(yes)]
  }

  /** The end of the then part: on to `end`, and the else part starts. */
  function GenElse(no: nat, end: nat): seq<Item> { [LoadLabel(R2, end), Jump(R2)] + [Label(no)] }

  function PopArgs(n: nat): seq<Item> { if n > 0 then [AddSp(n * 3)] else [] }

  /** Result in r0.  The arguments of a call are compiled last to first. */
  function Gen(e: SExpr, env: Env, st: CState): Code
    decreases Size(e), 0
  {
    match View(e)
    case Const(c) => ([LoadImm(R0, ConstWord(c))], st)
    case Var(sym) => GenVar(sym, env, st)
    case Quote(d) => (GenQuote(d), st)
    case If(t, a, b) =>
      var l := st.lbl;
      var (ct, st1) := Gen(t, env, st.(lbl := l + 3));
      var (ca, st2) := Gen(a, env, st1);
      var (cb, st3) := Gen(b, env, st2);
      (ct + (GenTest(l, l + 1) + (ca + (GenElse(l + 1, l + 2) + (cb + [Label(l + 2)])))), st3)
    case Begin(es) => GenSeq(es, env, st)
    case DefineFn(sym, ps, body) =>
      var st1 := AddGlobal(st, sym);
      ([LoadLabel(R0, st.lbl), LoadGlobal(R1, sym), Store], AddFn(st1, ps, body))
    case Define(sym, e1) =>
      var (c, st1) := Gen(e1, env, AddGlobal(st, sym));
      (c + [LoadGlobal(R1, sym), Store], st1)
    case Lambda(ps, body) => ([LoadLabel(R0, st.lbl)], AddFn(st, ps, body))
    case Unary(op, a) =>
      var (c, st1) := Gen(a, env, st.(lbl := st.lbl + Labels1(op)));
      (c + GenOp1(op, st.lbl), st1)
    case Binary(op, a, b) =>
      var (cb, st1) := Gen(b, env, st.(lbl := st.lbl + Labels2(op)));
      var (ca, st2) := Gen(a, env, st1);
      (cb + ([Push(R0)] + (ca + GenOp2(op, st.lbl))), st2)
    case Call(head, args) =>
      var (c, st1) := GenArgs(args, env, st);
      var (ch, st2) := if head.Sym? then GenVar(head.i, env, st1) else Gen(head, env, st1);
      (c + (ch + ([JumpLink] + PopArgs(|args|))), st2)
    case Bad => ([], st)
  }

  function GenArgs(args: seq<SExpr>, env: Env, st: CState): Code
    decreases Sizes(args), 1
  {
    if args == [] then ([], st)
    else
      var (c, st1) := GenArgs(args[1..], env, st);
      var (c0, st2) := Gen(args[0], env, st1);
      (c + (c0 + [Push(R0)]), st2)
  }

  function GenSeq(es: seq<SExpr>, env: Env, st: CState): Code
    decreases Sizes(es), 1
  {
    if es == [] then ([], st)
    else
      var (c0, st1) := Gen(es[0], env, st);
      var (c, st2) := GenSeq(es[1..], env, st1);
      (c0 + c, st2)
  }

  const PROLOGUE: seq<Item> := [Push(FP), Push(R2), Push(R1), FpFromSp]
  const EPILOGUE: seq<Item> := [SpFromFp, Pop(R1), Pop(R2), Pop(FP), Jump(R1)]

  /** A deferred function, label first. */
  function GenFn(f: Fn, st: CState): Code {
    var (c, st1) := Gen(f.body, f.env, st);
    ([Label(f.lbl)] + (PROLOGUE + (c + EPILOGUE)), st1)
  }

  /** What is left to emit: the body sizes from function `done` on. */
  function Pending(fns: seq<Fn>, done: nat): nat
    decreases |fns| - done
  {
    if done >= |fns| then 0 else Size(fns[done].body) + Pending(fns, done + 1)
  }

  predicate NoRepeats(s: seq<symbol>) { forall i, j :: 0 <= i < j < |s| ==> s[i] != s[j] }

  /** `b` is a later state of the compiler than `a`: tables only grow, and no global is
      entered twice. */
  ghost predicate Later(a: CState, b: CState) {
    a.lbl <= b.lbl && a.fns <= b.fns && a.globs <= b.globs && (NoRepeats(a.globs) ==> NoRepeats(b.globs))
  }

  lemma {:induction false} PendingAppend(fns: seq<Fn>, more: seq<Fn>, done: nat)
    requires done <= |fns|
    ensures Pending(fns + more, done) == Pending(fns, done) + Pending(more, 0)
    decreases |fns| - done
  {
    if done == |fns| {
      PendingShift(fns, more, 0);
    } else {
      PendingAppend(fns, more, done + 1);
    }
  }

  lemma {:induction false} PendingShift(fns: seq<Fn>, more: seq<Fn>, k: nat)
    requires k <= |more|
    ensures Pending(fns + more, |fns| + k) == Pending(more, k)
    decreases |more| - k
  {
    if k < |more| {
      PendingShift(fns, more, k + 1);
    }
  }

  lemma LaterTrans(a: CState, b: CState, c: CState)
    requires Later(a, b) && Later(b, c)
    ensures Later(a, c)
  {
  }

  lemma AddGlobalLater(st: CState, sym: symbol)
    ensures Later(st, AddGlobal(st, sym)) && sym in AddGlobal(st, sym).globs
    ensures AddGlobal(st, sym).fns == st.fns
  {
  }

  /** `b` is later than `a`, and the functions deferred in between have bodies of total
      size at most `n`. */
  ghost predicate Grown(a: CState, b: CState, n: int) {
    && Later(a, b)
    && (forall done: nat :: done <= |a.fns| ==> Pending(b.fns, done) <= Pending(a.fns, done) + n)
  }

  lemma GrownSeq(a: CState, b: CState, n: int, c: CState, m: int, total: int)
    requires Grown(a, b, n) && Grown(b, c, m) && n + m <= total
    ensures Grown(a, c, total)
  {
    LaterTrans(a, b, c);
  }

  lemma GrownSeq3(st: CState, st0: CState, st1: CState, n1: int, st2: CState, n2: int, st3: CState, n3: int, total: int)
    requires Grown(st, st0, 0) && Grown(st0, st1, n1) && Grown(st1, st2, n2) && Grown(st2, st3, n3)
    requires n1 + n2 + n3 <= total
    ensures Grown(st, st3, total)
  {
    hide Grown;
    GrownSeq(st, st0, 0, st1, n1, n1);
    GrownSeq(st, st1, n1, st2, n2, n1 + n2);
    GrownSeq(st, st2, n1 + n2, st3, n3, total);
  }

  /** Taking labels or noting a global defers nothing. */
  lemma GrownLabels(st: CState, k: nat, n: nat)
    ensures Grown(st, st.(lbl := st.lbl + k), n)
  {
  }

  lemma GrownGlobal(st: CState, sym: symbol, n: nat)
    ensures Grown(st, AddGlobal(st, sym), n)
  {
    AddGlobalLater(st, sym);
  }

  lemma GrownFn(st: CState, ps: seq<symbol>, body: SExpr)
    ensures Grown(st, AddFn(st, ps, body), Size(body))
  {
    var f := Fn(st.lbl, body, EnvParams(ps, 9, []));
    forall done: nat | done <= |st.fns|
      ensures Pending(AddFn(st, ps, body).fns, done) <= Pending(st.fns, done) + Size(body)
    {
      PendingAppend(st.fns, [f], done);
      assert Pending([f], 0) == Size(body) + Pending([f], 1);
    }
  }

  /** Compiling an expression defers only bodies that are proper parts of it. */
  lemma {:induction false} GenGrown(e: SExpr, env: Env, st: CState)
    ensures Grown(st, Gen(e, env, st).1, Size(e) - 1)
    decreases Size(e), 1
  {
    hide View, Later, Grown, AddFn, AddGlobal, GenVar, GenArgs, GenSeq, GenQuote, GenOp1, GenOp2, GenTest, GenElse,
          PopArgs, Size, Sizes, EnvParams, ConstWord, Labels1, Labels2;
    GrownLabels(st, 0, Size(e) - 1);
    match View(e) {
      case Const(c) =>
      case Var(sym) => GrownVar(sym, env, st, Size(e) - 1);
      case Quote(d) =>
      case If(t, a, b) => GrownIf(e, t, a, b, env, st);
      case Begin(es) =>
        GenSeqGrown(es, env, st);
        GrownLabels(GenSeq(es, env, st).1, 0, 0);
        GrownSeq(st, GenSeq(es, env, st).1, Sizes(es), GenSeq(es, env, st).1, 0, Size(e) - 1);
      case DefineFn(sym, ps, body) => GrownDefineFn(e, sym, ps, body, env, st);
      case Define(sym, e1) => GrownDefine(e, sym, e1, env, st);
      case Lambda(ps, body) =>
        GrownFn(st, ps, body);
        GrownLabels(AddFn(st, ps, body), 0, 0);
        GrownSeq(st, AddFn(st, ps, body), Size(body), AddFn(st, ps, body), 0, Size(e) - 1);
      case Unary(op, a) => GrownUnary(e, op, a, env, st);
      case Binary(op, a, b) => GrownBinary(e, op, a, b, env, st);
      case Call(head, args) => GrownCall(e, head, args, env, st);
      case Bad =>
    }
  }

  lemma {:induction false} GrownIf(e: SExpr, t: SExpr, a: SExpr, b: SExpr, env: Env, st: CState)
    requires View(e) == If(t, a, b)
    ensures Grown(st, Gen(e, env, st).1, Size(e) - 1)
    decreases Size(e), 0
  {
    hide View, Later, Grown, AddFn, AddGlobal, GenVar, GenArgs, GenSeq, GenQuote, GenOp1, GenOp2, GenTest, GenElse,
          PopArgs, Size, Sizes, EnvParams, ConstWord, Labels1, Labels2;
    var st0 := st.(lbl := st.lbl + 3);
    var st1 := Gen(t, env, st0).1;
    var st2 := Gen(a, env, st1).1;
    GrownLabels(st, 3, 0);
    GenGrown(t, env, st0);
    GenGrown(a, env, st1);
    GenGrown(b, env, st2);
    GrownSeq3(st, st0, st1, Size(t) - 1, st2, Size(a) - 1, Gen(b, env, st2).1, Size(b) - 1, Size(e) - 1);
  }

  lemma GrownDefineFn(e: SExpr, sym: symbol, ps: seq<symbol>, body: SExpr, env: Env, st: CState)
    requires View(e) == DefineFn(sym, ps, body)
    ensures Grown(st, Gen(e, env, st).1, Size(e) - 1)
  {
    hide View, Later, Grown, AddFn, AddGlobal, GenVar, GenArgs, GenSeq, GenQuote, GenOp1, GenOp2, GenTest, GenElse,
          PopArgs, Size, Sizes, EnvParams, ConstWord, Labels1, Labels2;
    var st0 := AddGlobal(st, sym);
    GrownGlobal(st, sym, 0);
    GrownFn(st0, ps, body);
    GrownSeq(st, st0, 0, AddFn(st0, ps, body), Size(body), Size(e) - 1);
  }

  lemma {:induction false} GrownDefine(e: SExpr, sym: symbol, e1: SExpr, env: Env, st: CState)
    requires View(e) == Define(sym, e1)
    ensures Grown(st, Gen(e, env, st).1, Size(e) - 1)
    decreases Size(e), 0
  {
    hide View, Later, Grown, AddFn, AddGlobal, GenVar, GenArgs, GenSeq, GenQuote, GenOp1, GenOp2, GenTest, GenElse,
          PopArgs, Size, Sizes, EnvParams, ConstWord, Labels1, Labels2;
    var st0 := AddGlobal(st, sym);
    GrownGlobal(st, sym, 0);
    GenGrown(e1, env, st0);
    GrownSeq(st, st0, 0, Gen(e1, env, st0).1, Size(e1) - 1, Size(e) - 1);
  }

  lemma {:induction false} GrownUnary(e: SExpr, op: Op1, a: SExpr, env: Env, st: CState)
    requires View(e) == Unary(op, a)
    ensures Grown(st, Gen(e, env, st).1, Size(e) - 1)
    decreases Size(e), 0
  {
    hide View, Later, Grown, AddFn, AddGlobal, GenVar, GenArgs, GenSeq, GenQuote, GenOp1, GenOp2, GenTest, GenElse,
          PopArgs, Size, Sizes, EnvParams, ConstWord, Labels1, Labels2;
    var st0 := st.(lbl := st.lbl + Labels1(op));
    GrownLabels(st, Labels1(op), 0);
    GenGrown(a, env, st0);
    GrownSeq(st, st0, 0, Gen(a, env, st0).1, Size(a) - 1, Size(e) - 1);
  }

  lemma {:induction false} GrownBinary(e: SExpr, op: Op2, a: SExpr, b: SExpr, env: Env, st: CState)
    requires View(e) == Binary(op, a, b)
    ensures Grown(st, Gen(e, env, st).1, Size(e) - 1)
    decreases Size(e), 0
  {
    hide View, Later, Grown, AddFn, AddGlobal, GenVar, GenArgs, GenSeq, GenQuote, GenOp1, GenOp2, GenTest, GenElse,
          PopArgs, Size, Sizes, EnvParams, ConstWord, Labels1, Labels2;
    var st0 := st.(lbl := st.lbl + Labels2(op));
    var st1 := Gen(b, env, st0).1;
    GrownLabels(st, Labels2(op), 0);
    GenGrown(b, env, st0);
    GenGrown(a, env, st1);
    GrownLabels(st0, 0, 0);
    GrownSeq3(st, st0, st0, 0, st1, Size(b) - 1, Gen(a, env, st1).1, Size(a) - 1, Size(e) - 1);
  }

  lemma {:induction false} GrownCall(e: SExpr, head: SExpr, args: seq<SExpr>, env: Env, st: CState)
    requires View(e) == Call(head, args)
    ensures Grown(st, Gen(e, env, st).1, Size(e) - 1)
    decreases Size(e), 0
  {
    hide View, Later, Grown, AddFn, AddGlobal, GenVar, GenArgs, GenSeq, GenQuote, GenOp1, GenOp2, GenTest, GenElse,
          PopArgs, Size, Sizes, EnvParams, ConstWord, Labels1, Labels2;
    var st1 := GenArgs(args, env, st).1;
    GenArgsGrown(args, env, st);
    if head.Sym? {
      GrownVar(head.i, env, st1, 0);
      GrownSeq(st, st1, Sizes(args), GenVar(head.i, env, st1).1, 0, Size(e) - 1);
    } else {
      GenGrown(head, env, st1);
      GrownSeq(st, st1, Sizes(args), Gen(head, env, st1).1, Size(head) - 1, Size(e) - 1);
    }
  }

  lemma GrownVar(sym: symbol, env: Env, st: CState, n: nat)
    ensures Grown(st, GenVar(sym, env, st).1, n)
  {
    GrownGlobal(st, sym, n);
    GrownLabels(st, 0, n);
  }

  lemma {:induction false} GenArgsGrown(args: seq<SExpr>, env: Env, st: CState)
    ensures Grown(st, GenArgs(args, env, st).1, Sizes(args))
    decreases Sizes(args), 2
  {
    hide Grown, Later, Gen;
    if args != [] {
      var st1 := GenArgs(args[1..], env, st).1;
      GenArgsGrown(args[1..], env, st);
      GenGrown(args[0], env, st1);
      GrownSeq(st, st1, Sizes(args[1..]), Gen(args[0], env, st1).1, Size(args[0]) - 1, Sizes(args));
    } else {
      GrownLabels(st, 0, 0);
    }
  }

  lemma {:induction false} GenSeqGrown(es: seq<SExpr>, env: Env, st: CState)
    ensures Grown(st, GenSeq(es, env, st).1, Sizes(es))
    decreases Sizes(es), 2
  {
    hide Grown, Later, Gen;
    if es != [] {
      var st1 := Gen(es[0], env, st).1;
      GenGrown(es[0], env, st);
      GenSeqGrown(es[1..], env, st1);
      GrownSeq(st, st1, Size(es[0]) - 1, GenSeq(es[1..], env, st1).1, Sizes(es[1..]), Sizes(es));
    } else {
      GrownLabels(st, 0, 0);
    }
  }

  lemma GenFnPending(st: CState, done: nat)
    requires done < |st.fns|
    ensures Later(st, GenFn(st.fns[done], st).1)
    ensures Pending(GenFn(st.fns[done], st).1.fns, done + 1) < Pending(st.fns, done)
  {
    hide Gen, Later;
    GenGrown(st.fns[done].body, st.fns[done].env, st);
  }

  /** All deferred functions from number `done` on, with those they defer in turn. */
  function GenFns(st: CState, done: nat): Code
    decreases Pending(st.fns, done)
  {
    if done >= |st.fns| then ([], st)
    else
      GenFnPending(st, done);
      var (c, st1) := GenFn(st.fns[done], st);
      var (rest, st2) := GenFns(st1, done + 1);
      (c + rest, st2)
  }

  /** One .word per global. */
  function GenData(globs: seq<symbol>): seq<Item> {
    if globs == [] then [] else GenData(globs[..|globs| - 1]) + [GlobalWord(globs[|globs| - 1])]
  }

  /** The text of a whole program: _cmain, the functions, the data. */
  function GenProgram(exprs: seq<SExpr>): Code {
    var (c, st1) := GenSeq(exprs, [], START);
    var (fs, st2) := GenFns(st1, 0);
    (PROLOGUE + (c + (EPILOGUE + (fs + GenData(st2.globs)))), st2)
  }
}
