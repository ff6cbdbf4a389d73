/** The emitted text is closed: every label and every global it mentions is defined
    exactly once. */
module Labels {
  import opened LispSource
  import opened Cor24
  import opened Codegen

  function CountLabel(code: seq<Item>, l: nat): nat {
    if code == [] then 0 else (if code[0] == Label(l) then 1 else 0) + CountLabel(code[1..], l)
  }

  function CountFn(fns: seq<Fn>, l: nat): nat {
    if fns == [] then 0 else (if fns[0].lbl == l then 1 else 0) + CountFn(fns[1..], l)
  }

  function CountWord(code: seq<Item>, g: nat): nat {
    if code == [] then 0 else (if code[0] == GlobalWord(g) then 1 else 0) + CountWord(code[1..], g)
  }

  lemma {:induction false} CountAppend(a: seq<Item>, b: seq<Item>, l: nat)
    ensures CountLabel(a + b, l) == CountLabel(a, l) + CountLabel(b, l)
    ensures CountWord(a + b, l) == CountWord(a, l) + CountWord(b, l)
  {
    if a == [] {
      assert a + b == b;
    } else {
      assert (a + b)[1..] == a[1..] + b;
      CountAppend(a[1..], b, l);
    }
  }

  lemma {:induction false} CountFnAppend(a: seq<Fn>, b: seq<Fn>, l: nat)
    ensures CountFn(a + b, l) == CountFn(a, l) + CountFn(b, l)
  {
    if a == [] {
      assert a + b == b;
    } else {
      assert (a + b)[1..] == a[1..] + b;
      CountFnAppend(a[1..], b, l);
    }
  }

  function Within(lo: nat, l: nat, hi: nat): nat { if lo <= l < hi then 1 else 0 }

  /** Between `st` and `st'`, label `l` was taken from the counter exactly as often as
      it was placed in the code `c` or handed to a deferred function. */
  ghost predicate Balanced(c: seq<Item>, st: CState, st': CState, l: nat) {
    && st.lbl <= st'.lbl
    && CountLabel(c, l) + CountFn(st'.fns, l) == CountFn(st.fns, l) + Within(st.lbl, l, st'.lbl)
  }

  lemma BalancedSeq(c: seq<Item>, d: seq<Item>, st: CState, st1: CState, st2: CState, l: nat)
    requires Balanced(c, st, st1, l) && Balanced(d, st1, st2, l)
    ensures Balanced(c + d, st, st2, l)
  {
    CountAppend(c, d, l);
  }

  /** Code without labels. */
  predicate Plain(c: seq<Item>) { forall k :: 0 <= k < |c| ==> !c[k].Label? }

  lemma {:induction false} PlainCount(c: seq<Item>, l: nat)
    requires Plain(c)
    ensures CountLabel(c, l) == 0
  {
    if c != [] {
      PlainCount(c[1..], l);
    }
  }

  lemma {:induction false} QuotePlain(e: SExpr)
    ensures Plain(GenQuote(e))
  {
    if e.Pair? {
      QuotePlain(e.cdr);
      QuotePlain(e.car);
    }
  }

  lemma TruthCount(yes: nat, end: nat, l: nat)
    ensures CountLabel(GenTruth(yes, end), l) == (if l == yes then 1 else 0) + (if l == end then 1 else 0)
  {
    var a, b := [BranchTrue(yes), LoadImm(R0, NIL_WORD), LoadLabel(R2, end), Jump(R2)], [LoadImm(R0, T_WORD)];
    LabelLast(a, yes, l);
    LabelLast(b, end, l);
    CountAppend(a + [Label(yes)], b + [Label(end)], l);
  }

  lemma Op1Count(op: Op1, n: nat, l: nat)
    ensures CountLabel(GenOp1(op, n), l) == Within(n, l, n + Labels1(op))
  {
    var c := GenOp1(op, n);
    if Labels1(op) == 2 {
      var pre := Test1(op);
      PlainCount(pre, l);
      CountAppend(pre, GenTruth(n, n + 1), l);
      TruthCount(n, n + 1, l);
    } else {
      PlainCount(c, l);
    }
  }

  lemma Op2Count(op: Op2, n: nat, l: nat)
    ensures CountLabel(GenOp2(op, n), l) == Within(n, l, n + Labels2(op))
  {
    var c := GenOp2(op, n);
    if Labels2(op) == 2 {
      var pre := Test2(op);
      PlainCount(pre, l);
      CountAppend(pre, GenTruth(n, n + 1), l);
      TruthCount(n, n + 1, l);
    } else {
      PlainCount(c, l);
    }
  }

  lemma AddFnBalanced(c: seq<Item>, st: CState, ps: seq<symbol>, body: SExpr, l: nat)
    requires Plain(c)
    ensures Balanced(c, st, AddFn(st, ps, body), l)
  {
    var f := Fn(st.lbl, body, EnvParams(ps, 9, []));
    PlainCount(c, l);
    CountFnAppend(st.fns, [f], l);
    assert CountFn([f], l) == (if f.lbl == l then 1 else 0) + CountFn([], l);
  }

  /** Plain code that ends in one label. */
  lemma LabelLast(c: seq<Item>, n: nat, l: nat)
    requires Plain(c)
    ensures CountLabel(c + [Label(n)], l) == if l == n then 1 else 0
  {
    PlainCount(c, l);
    CountAppend(c, [Label(n)], l);
    assert CountLabel([Label(n)], l) == (if l == n then 1 else 0) + CountLabel([], l);
  }

  lemma VarBalanced(sym: symbol, env: Env, st: CState, l: nat)
    ensures Balanced(GenVar(sym, env, st).0, st, GenVar(sym, env, st).1, l)
  {
    PlainCount(GenVar(sym, env, st).0, l);
  }

  lemma Count6(a: seq<Item>, b: seq<Item>, c: seq<Item>, d: seq<Item>, e: seq<Item>, f: seq<Item>, l: nat)
    ensures CountLabel(a + (b + (c + (d + (e + f)))), l)
         == CountLabel(a, l) + CountLabel(b, l) + CountLabel(c, l) + CountLabel(d, l) + CountLabel(e,
               l) + CountLabel(f, l)
  {
    hide CountLabel, CountWord;
    CountAppend(e, f, l);
    CountAppend(d, e + f, l);
    CountAppend(c, d + (e + f), l);
    CountAppend(b, c + (d + (e + f)), l);
    CountAppend(a, b + (c + (d + (e + f))), l);
  }

  lemma IfBalanced(ct: seq<Item>, ca: seq<Item>, cb: seq<Item>, st: CState, st1: CState, st2: CState, st3: CState,
        l: nat)
    requires Balanced(ct, st.(lbl := st.lbl + 3), st1, l) && Balanced(ca, st1, st2, l) && Balanced(cb, st2, st3, l)
    ensures Balanced(ct + (GenTest(st.lbl, st.lbl + 1) + (ca + (GenElse(st.lbl + 1,
          st.lbl + 2) + (cb + [Label(st.lbl + 2)])))),
                     st, st3, l)
  {
    hide CountLabel, GenTest, GenElse;
    var n := st.lbl;
    TestCount(n, n + 1, l);
    ElseCount(n + 1, n + 2, l);
    OneLabel(n + 2, l);
    Count6(ct, GenTest(n, n + 1), ca, GenElse(n + 1, n + 2), cb, [Label(n + 2)], l);
  }

  lemma OneLabel(n: nat, l: nat)
    ensures CountLabel([Label(n)], l) == if l == n then 1 else 0
  {
    assert CountLabel([Label(n)], l) == (if l == n then 1 else 0) + CountLabel([], l);
  }

  lemma UnaryBalanced(op: Op1, c: seq<Item>, st: CState, st1: CState, l: nat)
    requires Balanced(c, st.(lbl := st.lbl + Labels1(op)), st1, l)
    ensures Balanced(c + GenOp1(op, st.lbl), st, st1, l)
  {
    hide CountLabel, GenOp1;
    CountAppend(c, GenOp1(op, st.lbl), l);
    Op1Count(op, st.lbl, l);
  }

  lemma BinaryBalanced(op: Op2, cb: seq<Item>, ca: seq<Item>, st: CState, st1: CState, st2: CState, l: nat)
    requires Balanced(cb, st.(lbl := st.lbl + Labels2(op)), st1, l) && Balanced(ca, st1, st2, l)
    ensures Balanced(cb + ([Push(R0)] + (ca + GenOp2(op, st.lbl))), st, st2, l)
  {
    hide CountLabel, GenOp2;
    var push, tail := [Push(R0)], GenOp2(op, st.lbl);
    CountAppend(cb, push + (ca + tail), l);
    CountAppend(push, ca + tail, l);
    CountAppend(ca, tail, l);
    PlainItem(Push(R0), l);
    Op2Count(op, st.lbl, l);
  }

  /** Code without labels changes nothing. */
  lemma PlainBalanced(c: seq<Item>, d: seq<Item>, st: CState, st1: CState, l: nat)
    requires Balanced(c, st, st1, l) && Plain(d)
    ensures Balanced(c + d, st, st1, l)
  {
    CountAppend(c, d, l);
    PlainCount(d, l);
  }

  lemma PlainOnly(c: seq<Item>, st: CState, st1: CState, l: nat)
    requires Plain(c) && st1.lbl == st.lbl && st1.fns == st.fns
    ensures Balanced(c, st, st1, l)
  {
    PlainCount(c, l);
  }

  lemma TestCount(yes: nat, no: nat, l: nat)
    ensures CountLabel(GenTest(yes, no), l) == if l == yes then 1 else 0
  {
    LabelLast([LoadImm(R1, NIL_WORD), TestEq, BranchFalse(yes), LoadLabel(R2, no), Jump(R2)], yes, l);
  }

  lemma ElseCount(no: nat, end: nat, l: nat)
    ensures CountLabel(GenElse(no, end), l) == if l == no then 1 else 0
  {
    LabelLast([LoadLabel(R2, end), Jump(R2)], no, l);
  }

  lemma {:induction false} GenBalanced(e: SExpr, env: Env, st: CState, l: nat)
    ensures Balanced(Gen(e, env, st).0, st, Gen(e, env, st).1, l)
    decreases Size(e), 0
  {
    hide View, Balanced, GenOp1, GenOp2, GenTest, GenElse, AddFn, GenVar, GenQuote;
    match View(e) {
      case Const(c) => PlainOnly([LoadImm(R0, ConstWord(c))], st, st, l);
      case Var(sym) => VarBalanced(sym, env, st, l);
      case Quote(d) =>
        QuotePlain(d);
        PlainOnly(GenQuote(d), st, st, l);
      case If(t, a, b) =>
        var st0 := st.(lbl := st.lbl + 3);
        var (ct, st1) := Gen(t, env, st0);
        var (ca, st2) := Gen(a, env, st1);
        var (cb, st3) := Gen(b, env, st2);
        GenBalanced(t, env, st0, l);
        GenBalanced(a, env, st1, l);
        GenBalanced(b, env, st2, l);
        IfBalanced(ct, ca, cb, st, st1, st2, st3, l);
      case Begin(es) => GenSeqBalanced(es, env, st, l);
      case DefineFn(sym, ps, body) =>
        AddFnBalanced([LoadLabel(R0, st.lbl), LoadGlobal(R1, sym), Store], AddGlobal(st, sym), ps, body, l);
        StartBalanced(Gen(e, env, st).0, st, sym, Gen(e, env, st).1, l);
      case Define(sym, e1) =>
        var st0 := AddGlobal(st, sym);
        var (c, st1) := Gen(e1, env, st0);
        GenBalanced(e1, env, st0, l);
        PlainBalanced(c, [LoadGlobal(R1, sym), Store], st0, st1, l);
        StartBalanced(Gen(e, env, st).0, st, sym, st1, l);
      case Lambda(ps, body) => AddFnBalanced([LoadLabel(R0, st.lbl)], st, ps, body, l);
      case Unary(op, a) =>
        var st0 := st.(lbl := st.lbl + Labels1(op));
        GenBalanced(a, env, st0, l);
        UnaryBalanced(op, Gen(a, env, st0).0, st, Gen(a, env, st0).1, l);
      case Binary(op, a, b) =>
        var st0 := st.(lbl := st.lbl + Labels2(op));
        var (cb, st1) := Gen(b, env, st0);
        var (ca, st2) := Gen(a, env, st1);
        GenBalanced(b, env, st0, l);
        GenBalanced(a, env, st1, l);
        BinaryBalanced(op, cb, ca, st, st1, st2, l);
      case Call(head, args) =>
        var (c, st1) := GenArgs(args, env, st);
        var (ch, st2) := if head.Sym? then GenVar(head.i, env, st1) else Gen(head, env, st1);
        GenArgsBalanced(args, env, st, l);
        if head.Sym? {
          VarBalanced(head.i, env, st1, l);
        } else {
          GenBalanced(head, env, st1, l);
        }
        PlainBalanced(ch, [JumpLink] + PopArgs(|args|), st1, st2, l);
        BalancedSeq(c, ch + ([JumpLink] + PopArgs(|args|)), st, st1, st2, l);
      case Bad => PlainOnly([], st, st, l);
    }
  }

  /** Noting a global takes no label. */
  lemma StartBalanced(c: seq<Item>, st: CState, sym: symbol, st1: CState, l: nat)
    requires Balanced(c, AddGlobal(st, sym), st1, l)
    ensures Balanced(c, st, st1, l)
  {
  }

  lemma CountNil(l: nat)
    ensures CountLabel([], l) == 0
  {
  }

  lemma PlainItem(item: Item, l: nat)
    requires !item.Label?
    ensures CountLabel([item], l) == 0
  {
    PlainCount([item], l);
  }

  lemma {:induction false} GenArgsBalanced(args: seq<SExpr>, env: Env, st: CState, l: nat)
    ensures Balanced(GenArgs(args, env, st).0, st, GenArgs(args, env, st).1, l)
    decreases Sizes(args), 1
  {
    if args != [] {
      var (c, st1) := GenArgs(args[1..], env, st);
      var c0 := Gen(args[0], env, st1).0;
      GenArgsBalanced(args[1..], env, st, l);
      GenBalanced(args[0], env, st1, l);
      CountAppend(c, c0 + [Push(R0)], l);
      CountAppend(c0, [Push(R0)], l);
      PlainCount([Push(R0)], l);
    }
  }

  lemma {:induction false} GenSeqBalanced(es: seq<SExpr>, env: Env, st: CState, l: nat)
    ensures Balanced(GenSeq(es, env, st).0, st, GenSeq(es, env, st).1, l)
    decreases Sizes(es), 1
  {
    if es != [] {
      var (c0, st1) := Gen(es[0], env, st);
      GenBalanced(es[0], env, st, l);
      GenSeqBalanced(es[1..], env, st1, l);
      CountAppend(c0, GenSeq(es[1..], env, st1).0, l);
    }
  }

  /** Emitting a deferred function places the label it was given, beside its own. */
  lemma GenFnBalanced(f: Fn, st: CState, l: nat)
    ensures Balanced(GenFn(f, st).0, st, GenFn(f, st).1, l)
         || l == f.lbl
    ensures CountLabel(GenFn(f, st).0, l) + CountFn(GenFn(f, st).1.fns, l)
         == CountFn(st.fns, l) + Within(st.lbl, l, GenFn(f, st).1.lbl) + if l == f.lbl then 1 else 0
    ensures st.lbl <= GenFn(f, st).1.lbl
  {
    var c := Gen(f.body, f.env, st).0;
    hide CountLabel, Gen;
    GenBalanced(f.body, f.env, st, l);
    CountAppend([Label(f.lbl)], PROLOGUE + (c + EPILOGUE), l);
    CountAppend(PROLOGUE, c + EPILOGUE, l);
    CountAppend(c, EPILOGUE, l);
    PlainCount(PROLOGUE, l);
    PlainCount(EPILOGUE, l);
    LabelLast([], f.lbl, l);
    assert [] + [Label(f.lbl)] == [Label(f.lbl)];
  }

  /** Draining the queue places every label still owed to a function, and all new ones. */
  lemma {:induction false} GenFnsBalanced(st: CState, done: nat, l: nat)
    requires done <= |st.fns|
    ensures st.lbl <= GenFns(st, done).1.lbl
    ensures CountLabel(GenFns(st, done).0, l)
         == CountFn(st.fns[done..], l) + Within(st.lbl, l, GenFns(st, done).1.lbl)
    decreases Pending(st.fns, done)
  {
    hide CountLabel, CountFn, GenFn, Pending, NoRepeats;
    CountNil(l);
    CountFnNil(l);
    if done < |st.fns| {
      var f := st.fns[done];
      GenFnPending(st, done);
      var (c, st1) := GenFn(f, st);
      var (rest, st2) := GenFns(st1, done + 1);
      GenFnBalanced(f, st, l);
      GenFnsBalanced(st1, done + 1, l);
      CountAppend(c, rest, l);
      CountFnTail(st.fns, st1.fns, done, l);
    } else {
      assert st.fns[done..] == [];
    }
  }

  /** The functions left after one more is emitted, in a table that has grown. */
  lemma CountFnTail(a: seq<Fn>, b: seq<Fn>, done: nat, l: nat)
    requires a <= b && done < |a|
    ensures CountFn(b[done + 1..], l) + CountFn(a, l) + (if a[done].lbl == l then 1 else 0)
         == CountFn(b, l) + CountFn(a[done..], l)
  {
    hide CountFn;
    assert a == a[..done] + a[done..] && b == a[..done] + b[done..];
    CountFnAppend(a[..done], a[done..], l);
    CountFnAppend(a[..done], b[done..], l);
    assert b[done..] == [a[done]] + b[done + 1..];
    CountFnAppend([a[done]], b[done + 1..], l);
    CountFnOne(a[done], l);
  }

  lemma CountFnNil(l: nat)
    ensures CountFn([], l) == 0
  {
  }

  lemma CountFnOne(f: Fn, l: nat)
    ensures CountFn([f], l) == if f.lbl == l then 1 else 0
  {
    assert CountFn([f], l) == (if f.lbl == l then 1 else 0) + CountFn([], l);
  }

  lemma {:induction false} DataPlain(globs: seq<symbol>)
    ensures Plain(GenData(globs))
  {
    if globs != [] {
      DataPlain(globs[..|globs| - 1]);
    }
  }

  /** Every label below the final counter is defined exactly once in the program text,
      and no other label is. */
  lemma LabelsOnce(exprs: seq<SExpr>, l: nat)
    ensures CountLabel(GenProgram(exprs).0, l) == Within(0, l, GenProgram(exprs).1.lbl)
  {
    hide CountLabel, GenSeq, GenFns, GenData;
    var (c, st1) := GenSeq(exprs, [], START);
    var (fs, st2) := GenFns(st1, 0);
    var data := GenData(st2.globs);
    GenSeqBalanced(exprs, [], START, l);
    GenFnsBalanced(st1, 0, l);
    assert st1.fns[0..] == st1.fns;
    CountAppend(PROLOGUE, c + (EPILOGUE + (fs + data)), l);
    CountAppend(c, EPILOGUE + (fs + data), l);
    CountAppend(EPILOGUE, fs + data, l);
    CountAppend(fs, data, l);
    PlainCount(PROLOGUE, l);
    PlainCount(EPILOGUE, l);
    DataPlain(st2.globs);
    PlainCount(data, l);
  }

  lemma {:induction false} CountHas(code: seq<Item>, l: nat, i: int)
    requires 0 <= i < |code| && code[i] == Label(l)
    ensures CountLabel(code, l) >= 1
    ensures forall j :: i < j < |code| && code[j] == Label(l) ==> CountLabel(code, l) >= 2
  {
    if i > 0 {
      CountHas(code[1..], l, i - 1);
      forall j | i < j < |code| && code[j] == Label(l) ensures CountLabel(code, l) >= 2 {
        assert code[1..][j - 1] == Label(l);
      }
    } else {
      forall j | i < j < |code| && code[j] == Label(l) ensures CountLabel(code, l) >= 2 {
        assert code[1..][j - 1] == Label(l);
        CountHas(code[1..], l, j - 1);
      }
    }
  }

  lemma ProgramUnique(exprs: seq<SExpr>)
    ensures UniqueLabels(GenProgram(exprs).0)
  {
    var code := GenProgram(exprs).0;
    forall i, j | 0 <= i < |code| && 0 <= j < |code| && code[i].Label? && code[i] == code[j] ensures i == j {
      LabelsOnce(exprs, code[i].l);
      if i < j { CountHas(code, code[i].l, i); }
      if j < i { CountHas(code, code[i].l, j); }
    }
  }

  // References

  /** An item of the text section mentions only labels below `st.lbl` and globals of
      `st.globs`. */
  predicate Known(x: Item, st: CState) {
    match x
    case LoadLabel(_, l) => l < st.lbl
    case BranchTrue(l) => l < st.lbl
    case BranchFalse(l) => l < st.lbl
    case LoadGlobal(_, g) => g in st.globs
    case GlobalWord(_) => false
    case _ => true
  }

  predicate AllKnown(c: seq<Item>, st: CState) { forall k :: 0 <= k < |c| ==> Known(c[k], st) }

  lemma KnownLater(c: seq<Item>, st: CState, st': CState)
    requires AllKnown(c, st) && Later(st, st')
    ensures AllKnown(c, st')
  {
    forall k | 0 <= k < |c| ensures Known(c[k], st') {
      assert Known(c[k], st);
      if c[k].LoadGlobal? {
        var i :| 0 <= i < |st.globs| && st.globs[i] == c[k].g;
        assert st'.globs[i] == st.globs[i];
      }
    }
  }

  lemma KnownSeq(a: seq<Item>, st: CState, b: seq<Item>, st': CState)
    requires AllKnown(a, st) && Later(st, st') && AllKnown(b, st')
    ensures AllKnown(a + b, st')
  {
    KnownLater(a, st, st');
  }

  lemma GenLater(e: SExpr, env: Env, st: CState)
    ensures Later(st, Gen(e, env, st).1)
  {
    hide Gen, View, Later, Pending;
    GenGrown(e, env, st);
  }

  lemma GenSeqLater(es: seq<SExpr>, env: Env, st: CState)
    ensures Later(st, GenSeq(es, env, st).1)
  {
    hide GenSeq, Later, Pending;
    GenSeqGrown(es, env, st);
  }

  lemma {:induction false} QuoteKnown(e: SExpr, st: CState)
    ensures AllKnown(GenQuote(e), st)
  {
    if e.Pair? {
      QuoteKnown(e.cdr, st);
      QuoteKnown(e.car, st);
    }
  }

  lemma VarKnown(sym: symbol, env: Env, st: CState)
    ensures AllKnown(GenVar(sym, env, st).0, GenVar(sym, env, st).1) && Later(st, GenVar(sym, env, st).1)
  {
    AddGlobalLater(st, sym);
  }

  lemma TruthKnown(l: nat, st: CState)
    requires l + 2 <= st.lbl
    ensures AllKnown(GenTruth(l, l + 1), st)
  {
    var a, b := [BranchTrue(l), LoadImm(R0, NIL_WORD), LoadLabel(R2, l + 1), Jump(R2)], [LoadImm(R0, T_WORD)];
    KnownSame(a, [Label(l)], st);
    KnownSame(b, [Label(l + 1)], st);
    KnownSame(a + [Label(l)], b + [Label(l + 1)], st);
  }

  lemma Op1Known(op: Op1, l: nat, st: CState)
    requires l + Labels1(op) <= st.lbl
    ensures AllKnown(GenOp1(op, l), st)
  {
    if Labels1(op) == 2 {
      TruthKnown(l, st);
      KnownSame(Test1(op), GenTruth(l, l + 1), st);
    }
  }

  lemma Op2Known(op: Op2, l: nat, st: CState)
    requires l + Labels2(op) <= st.lbl
    ensures AllKnown(GenOp2(op, l), st)
  {
    if Labels2(op) == 2 {
      TruthKnown(l, st);
      KnownSame(Test2(op), GenTruth(l, l + 1), st);
    }
  }

  lemma IfKnown(ct: seq<Item>, ca: seq<Item>, cb: seq<Item>, n: nat, st1: CState, st2: CState, st3: CState)
    requires AllKnown(ct, st1) && AllKnown(ca, st2) && AllKnown(cb, st3)
    requires n + 3 <= st1.lbl && Later(st1, st2) && Later(st2, st3)
    ensures AllKnown(ct + (GenTest(n, n + 1) + (ca + (GenElse(n + 1, n + 2) + (cb + [Label(n + 2)])))), st3)
  {
    var t, e := GenTest(n, n + 1), GenElse(n + 1, n + 2);
    assert AllKnown(t, st2) && AllKnown(e, st3) && AllKnown([Label(n + 2)], st3);
    hide Known, GenTest, GenElse;
    assert AllKnown(cb + [Label(n + 2)], st3);
    assert AllKnown(e + (cb + [Label(n + 2)]), st3);
    KnownSeq(ca, st2, e + (cb + [Label(n + 2)]), st3);
    KnownSeq(t, st2, ca + (e + (cb + [Label(n + 2)])), st3);
    KnownLater(ct, st1, st2);
    KnownSeq(ct, st2, t + (ca + (e + (cb + [Label(n + 2)]))), st3);
  }

  lemma {:induction false} GenKnown(e: SExpr, env: Env, st: CState)
    ensures AllKnown(Gen(e, env, st).0, Gen(e, env, st).1)
    decreases Size(e), 0
  {
    hide View, Later, GenVar, GenQuote, GenOp1, GenOp2, GenTest, GenElse, AddGlobal, AddFn, AllKnown;
    match View(e) {
      case Const(c) => OneKnown(LoadImm(R0, ConstWord(c)), st);
      case Var(sym) => VarKnown(sym, env, st);
      case Quote(d) => QuoteKnown(d, st);
      case If(t, a, b) =>
        var st0 := st.(lbl := st.lbl + 3);
        var (ct, st1) := Gen(t, env, st0);
        var (ca, st2) := Gen(a, env, st1);
        var (cb, st3) := Gen(b, env, st2);
        GenKnown(t, env, st0);
        GenLater(t, env, st0);
        LaterLbl(st0, st1);
        GenKnown(a, env, st1);
        GenLater(a, env, st1);
        GenKnown(b, env, st2);
        GenLater(b, env, st2);
        IfKnown(ct, ca, cb, st.lbl, st1, st2, st3);
      case Begin(es) => GenSeqKnown(es, env, st);
      case DefineFn(sym, ps, body) => DefineKnown(st, sym, ps, body);
      case Define(sym, e1) =>
        var st0 := AddGlobal(st, sym);
        var (c, st1) := Gen(e1, env, st0);
        GenKnown(e1, env, st0);
        GenLater(e1, env, st0);
        StoreKnown(st, sym, st1);
        KnownSame(c, [LoadGlobal(R1, sym), Store], st1);
      case Lambda(ps, body) => LambdaKnown(st, ps, body);
      case Unary(op, a) =>
        var st0 := st.(lbl := st.lbl + Labels1(op));
        var (c, st1) := Gen(a, env, st0);
        GenKnown(a, env, st0);
        GenLater(a, env, st0);
        LaterLbl(st0, st1);
        Op1Known(op, st.lbl, st1);
        KnownSame(c, GenOp1(op, st.lbl), st1);
      case Binary(op, a, b) =>
        var st0 := st.(lbl := st.lbl + Labels2(op));
        var (cb, st1) := Gen(b, env, st0);
        var (ca, st2) := Gen(a, env, st1);
        GenKnown(b, env, st0);
        GenLater(b, env, st0);
        GenKnown(a, env, st1);
        GenLater(a, env, st1);
        LaterLbl(st0, st1);
        LaterLbl(st1, st2);
        Op2Known(op, st.lbl, st2);
        KnownSame(ca, GenOp2(op, st.lbl), st2);
        OneKnown(Push(R0), st2);
        KnownSame([Push(R0)], ca + GenOp2(op, st.lbl), st2);
        KnownSeq(cb, st1, [Push(R0)] + (ca + GenOp2(op, st.lbl)), st2);
      case Call(head, args) =>
        var (c, st1) := GenArgs(args, env, st);
        var (ch, st2) := if head.Sym? then GenVar(head.i, env, st1) else Gen(head, env, st1);
        GenArgsKnown(args, env, st);
        if head.Sym? {
          VarKnown(head.i, env, st1);
        } else {
          GenKnown(head, env, st1);
          GenLater(head, env, st1);
        }
        CallKnown(|args|, st2);
        KnownSame(ch, [JumpLink] + PopArgs(|args|), st2);
        KnownSeq(c, st1, ch + ([JumpLink] + PopArgs(|args|)), st2);
      case Bad => NoneKnown(st);
    }
  }

  lemma NoneKnown(st: CState) ensures AllKnown([], st) {}

  lemma OneKnown(x: Item, st: CState) requires Known(x, st) ensures AllKnown([x], st) {}

  lemma KnownSame(a: seq<Item>, b: seq<Item>, st: CState)
    requires AllKnown(a, st) && AllKnown(b, st)
    ensures AllKnown(a + b, st)
  {
  }

  lemma LaterLbl(a: CState, b: CState) requires Later(a, b) ensures a.lbl <= b.lbl {}

  lemma CallKnown(n: nat, st: CState) ensures AllKnown([JumpLink] + PopArgs(n), st) {}

  lemma DefineKnown(st: CState, sym: symbol, ps: seq<symbol>, body: SExpr)
    ensures AllKnown([LoadLabel(R0, st.lbl), LoadGlobal(R1, sym), Store], AddFn(AddGlobal(st, sym), ps, body))
  {
    AddGlobalLater(st, sym);
  }

  lemma LambdaKnown(st: CState, ps: seq<symbol>, body: SExpr)
    ensures AllKnown([LoadLabel(R0, st.lbl)], AddFn(st, ps, body))
  {
  }

  lemma StoreKnown(st: CState, sym: symbol, st1: CState)
    requires Later(AddGlobal(st, sym), st1)
    ensures AllKnown([LoadGlobal(R1, sym), Store], st1)
  {
    AddGlobalLater(st, sym);
    KnownLater([LoadGlobal(R1, sym), Store], AddGlobal(st, sym), st1);
  }

  lemma {:induction false} GenArgsKnown(args: seq<SExpr>, env: Env, st: CState)
    ensures AllKnown(GenArgs(args, env, st).0, GenArgs(args, env, st).1)
    decreases Sizes(args), 1
  {
    hide AllKnown, Later;
    if args != [] {
      var (c, st1) := GenArgs(args[1..], env, st);
      var (c0, st2) := Gen(args[0], env, st1);
      GenArgsKnown(args[1..], env, st);
      GenKnown(args[0], env, st1);
      GenLater(args[0], env, st1);
      OneKnown(Push(R0), st2);
      KnownSame(c0, [Push(R0)], st2);
      KnownSeq(c, st1, c0 + [Push(R0)], st2);
    } else {
      NoneKnown(st);
    }
  }

  lemma {:induction false} GenSeqKnown(es: seq<SExpr>, env: Env, st: CState)
    ensures AllKnown(GenSeq(es, env, st).0, GenSeq(es, env, st).1)
    decreases Sizes(es), 1
  {
    hide AllKnown, Later;
    if es != [] {
      var (c0, st1) := Gen(es[0], env, st);
      GenKnown(es[0], env, st);
      GenSeqKnown(es[1..], env, st1);
      GenSeqLater(es[1..], env, st1);
      KnownSeq(c0, st1, GenSeq(es[1..], env, st1).0, GenSeq(es[1..], env, st1).1);
    } else {
      NoneKnown(st);
    }
  }

  lemma {:induction false} GenFnsKnown(st: CState, done: nat)
    requires done <= |st.fns|
    ensures Later(st, GenFns(st, done).1)
    ensures AllKnown(GenFns(st, done).0, GenFns(st, done).1)
    decreases Pending(st.fns, done)
  {
    hide AllKnown, Gen, Known, Pending;
    if done < |st.fns| {
      var f := st.fns[done];
      GenFnPending(st, done);
      var (c, st1) := GenFn(f, st);
      GenKnown(f.body, f.env, st);
      FrameKnown(f.lbl, Gen(f.body, f.env, st).0, st1);
      GenFnsKnown(st1, done + 1);
      LaterTrans(st, st1, GenFns(st1, done + 1).1);
      KnownSeq(c, st1, GenFns(st1, done + 1).0, GenFns(st1, done + 1).1);
    } else {
      NoneKnown(st);
    }
  }

  lemma FrameKnown(l: nat, c: seq<Item>, st: CState)
    requires AllKnown(c, st)
    ensures AllKnown([Label(l)] + (PROLOGUE + (c + EPILOGUE)), st)
  {
  }

  /** The text section of a program: all but its data. */
  function Text(exprs: seq<SExpr>): seq<Item> {
    var (c, st1) := GenSeq(exprs, [], START);
    PROLOGUE + (c + (EPILOGUE + GenFns(st1, 0).0))
  }

  lemma TextAndData(exprs: seq<SExpr>)
    ensures GenProgram(exprs).0 == Text(exprs) + GenData(GenProgram(exprs).1.globs)
  {
    hide GenSeq, GenFns, GenData;
    var (c, st1) := GenSeq(exprs, [], START);
    var (fs, st2) := GenFns(st1, 0);
    var data := GenData(st2.globs);
    assert EPILOGUE + (fs + data) == EPILOGUE + fs + data;
    assert c + (EPILOGUE + fs + data) == c + (EPILOGUE + fs) + data;
    assert PROLOGUE + (c + (EPILOGUE + fs) + data) == PROLOGUE + (c + (EPILOGUE + fs)) + data;
  }

  /** Every label and global the program text mentions is one it defines. */
  lemma TextKnown(exprs: seq<SExpr>)
    ensures AllKnown(Text(exprs), GenProgram(exprs).1)
    ensures NoRepeats(GenProgram(exprs).1.globs)
  {
    hide AllKnown, GenSeq, GenFns, GenData, Known;
    var (c, st1) := GenSeq(exprs, [], START);
    var (fs, st2) := GenFns(st1, 0);
    GenSeqKnown(exprs, [], START);
    GenSeqLater(exprs, [], START);
    GenFnsKnown(st1, 0);
    KnownLater(c, st1, st2);
    EdgesKnown(st2);
    KnownSame(EPILOGUE, fs, st2);
    KnownSame(c, EPILOGUE + fs, st2);
    KnownSame(PROLOGUE, c + (EPILOGUE + fs), st2);
  }

  lemma EdgesKnown(st: CState) ensures AllKnown(PROLOGUE, st) && AllKnown(EPILOGUE, st) {}

  lemma {:induction false} NoWord(c: seq<Item>, st: CState, g: nat)
    requires AllKnown(c, st)
    ensures CountWord(c, g) == 0
  {
    if c != [] {
      assert Known(c[0], st);
      assert AllKnown(c[1..], st);
      NoWord(c[1..], st, g);
    }
  }

  lemma {:induction false} DataOnce(globs: seq<symbol>, g: symbol)
    requires NoRepeats(globs)
    ensures CountWord(GenData(globs), g) == if g in globs then 1 else 0
  {
    if globs != [] {
      var n := |globs| - 1;
      DataOnce(globs[..n], g);
      CountAppend(GenData(globs[..n]), [GlobalWord(globs[n])], g);
      assert CountWord([GlobalWord(globs[n])], g) == (if globs[n] == g then 1 else 0) + CountWord([], g);
      assert globs == globs[..n] + [globs[n]];
    }
  }

  /** Every global the program mentions has exactly one data word. */
  lemma GlobalsOnce(exprs: seq<SExpr>, g: symbol)
    ensures CountWord(GenProgram(exprs).0, g) == if g in GenProgram(exprs).1.globs then 1 else 0
  {
    hide GenProgram, Text, GenData, CountWord;
    var st := GenProgram(exprs).1;
    TextAndData(exprs);
    TextKnown(exprs);
    CountAppend(Text(exprs), GenData(st.globs), g);
    NoWord(Text(exprs), st, g);
    DataOnce(st.globs, g);
  }
}
