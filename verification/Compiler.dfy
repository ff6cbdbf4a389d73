/** The compiler of compile.h in its own form: an object that appends to the output
    while it updates its counters and tables. */
module Compiler {
  import opened LispSource
  import opened Cor24
  import opened Codegen
  import opened Wrappers

  /** No part of `e` that the compiler looks at is malformed. */
  ghost predicate WellFormed(e: SExpr)
    decreases Size(e)
  {
    match View(e)
    case If(t, a, b) => WellFormed(t) && WellFormed(a) && WellFormed(b)
    case Begin(es) => forall i {:trigger es[i]} :: 0 <= i < |es| ==> Size(es[i]) < Size(e) && WellFormed(es[i])
    case DefineFn(_, _, body) => WellFormed(body)
    case Define(_, e1) => WellFormed(e1)
    case Lambda(_, body) => WellFormed(body)
    case Unary(_, a) => WellFormed(a)
    case Binary(_, a, b) => WellFormed(a) && WellFormed(b)
    case Call(head, es) =>
      && (head.Sym? || WellFormed(head))
      && forall i {:trigger es[i]} :: 0 <= i < |es| ==> Size(es[i]) < Size(e) && WellFormed(es[i])
    case Bad => false
    case _ => true
  }

  ghost predicate AllWellFormed(es: seq<SExpr>) {
    forall i :: 0 <= i < |es| ==> WellFormed(es[i])
  }

  ghost predicate FnsWellFormed(st: CState) {
    forall i :: 0 <= i < |st.fns| ==> WellFormed(st.fns[i].body)
  }

  /** What the lists that cexpr takes apart are, for each form. */
  lemma IfParts(e: SExpr)
    requires View(e).If? && WellFormed(e)
    ensures e.Pair? && e.cdr.Pair? && e.cdr.cdr.Pair? && View(e).test == e.cdr.car && View(e).yes == e.cdr.cdr.car
    ensures e.cdr.cdr.cdr != NIL ==> e.cdr.cdr.cdr.Pair? && View(e).no == e.cdr.cdr.cdr.car
    ensures e.cdr.cdr.cdr == NIL ==> View(e).no == NIL
    ensures WellFormed(View(e).test) && WellFormed(View(e).yes) && WellFormed(View(e).no)
    ensures Size(View(e).test) + Size(View(e).yes) + Size(View(e).no) < Size(e)
  {
    hide Elements, Symbols, LambdaParts, ViewDefine, ViewPrim, Size;
  }

  lemma DefineParts(e: SExpr)
    requires (View(e).Define? || View(e).DefineFn?) && WellFormed(e)
    ensures e.Pair? && e.cdr.Pair? && e.cdr.car.Sym? && View(e).sym == e.cdr.car.i && e.cdr.cdr.Pair?
    ensures var v := e.cdr.cdr.car;
            if v.Pair? && v.car == Sym(SYM_LAMBDA)
            then v.cdr.Pair? && v.cdr.cdr.Pair? && Symbols(v.cdr.car).Some?
                 && View(e) == DefineFn(e.cdr.car.i, Symbols(v.cdr.car).value, v.cdr.cdr.car)
            else View(e) == Define(e.cdr.car.i, v) && WellFormed(v) && Size(v) < Size(e)
  {
    hide Elements, Symbols, ViewIf, ViewPrim, Size;
  }

  lemma UnaryParts(e: SExpr)
    requires View(e).Unary? && WellFormed(e)
    ensures e.Pair? && View(e).arg == Arg1(e.cdr) && WellFormed(View(e).arg) && Size(View(e).arg) < Size(e)
  {
    hide Elements, Symbols, LambdaParts, ViewIf, ViewDefine, Size;
  }

  lemma ViewBinary(e: SExpr)
    requires View(e).Binary?
    ensures e.Pair? && View(e).left == Arg1(e.cdr) && View(e).right == Arg2(e.cdr)
  {
    hide Elements, Symbols, LambdaParts, ViewIf, ViewDefine, Size, Smaller;
  }

  lemma BinaryParts(e: SExpr)
    requires View(e).Binary? && WellFormed(e)
    ensures e.Pair? && View(e).left == Arg1(e.cdr) && View(e).right == Arg2(e.cdr)
    ensures WellFormed(View(e).left) && WellFormed(View(e).right)
    ensures Size(View(e).left) + Size(View(e).right) < Size(e)
  {
    hide View, Size, Arg1, Arg2;
    ViewBinary(e);
  }

  lemma CallParts(e: SExpr)
    requires View(e).Call? && WellFormed(e)
    ensures e.Pair? && View(e).head == e.car && Elements(e.cdr) == Some(View(e).args)
    ensures AllWellFormed(View(e).args) && (e.car.Sym? || WellFormed(e.car))
    ensures Size(e.car) < Size(e) && Size(e.cdr) < Size(e)
  {
    hide Elements, Symbols, LambdaParts, ViewIf, ViewDefine, ViewPrim;
  }

  /** Compiling well formed expressions defers only well formed bodies. */
  lemma {:induction false} ExprWellFormed(e: SExpr, env: Env, st: CState)
    requires WellFormed(e) && FnsWellFormed(st)
    ensures FnsWellFormed(Gen(e, env, st).1)
    decreases Size(e), 0
  {
    hide View, GenQuote, GenOp1, GenOp2, GenTest, GenElse, FnsWellFormed;
    match View(e) {
      case If(t, a, b) =>
        SkipWellFormed(st, 3);
        var st1 := Gen(t, env, st.(lbl := st.lbl + 3)).1;
        ExprWellFormed(t, env, st.(lbl := st.lbl + 3));
        ExprWellFormed(a, env, st1);
        ExprWellFormed(b, env, Gen(a, env, st1).1);
      case Begin(es) => SeqWellFormed(es, env, st);
      case DefineFn(sym, ps, body) =>
        GlobalWellFormed(st, sym);
        FnAddWellFormed(AddGlobal(st, sym), ps, body);
      case Define(sym, e1) =>
        GlobalWellFormed(st, sym);
        ExprWellFormed(e1, env, AddGlobal(st, sym));
      case Lambda(ps, body) => FnAddWellFormed(st, ps, body);
      case Unary(op, a) =>
        SkipWellFormed(st, Labels1(op));
        ExprWellFormed(a, env, st.(lbl := st.lbl + Labels1(op)));
      case Binary(op, a, b) =>
        SkipWellFormed(st, Labels2(op));
        ExprWellFormed(b, env, st.(lbl := st.lbl + Labels2(op)));
        ExprWellFormed(a, env, Gen(b, env, st.(lbl := st.lbl + Labels2(op))).1);
      case Call(head, args) =>
        ArgsWellFormed(args, env, st);
        if head.Sym? {
          GlobalWellFormed(GenArgs(args, env, st).1, head.i);
        } else {
          ExprWellFormed(head, env, GenArgs(args, env, st).1);
        }
      case Var(sym) => GlobalWellFormed(st, sym);
      case _ =>
    }
  }

  lemma SkipWellFormed(st: CState, n: nat)
    requires FnsWellFormed(st)
    ensures FnsWellFormed(st.(lbl := st.lbl + n))
  {
  }

  lemma GlobalWellFormed(st: CState, sym: symbol)
    requires FnsWellFormed(st)
    ensures FnsWellFormed(AddGlobal(st, sym))
  {
  }

  lemma FnAddWellFormed(st: CState, ps: seq<symbol>, body: SExpr)
    requires FnsWellFormed(st) && WellFormed(body)
    ensures FnsWellFormed(AddFn(st, ps, body))
  {
  }

  lemma FnWellFormed(st: CState, done: nat)
    requires FnsWellFormed(st) && done < |st.fns|
    ensures WellFormed(st.fns[done].body) && FnsWellFormed(GenFn(st.fns[done], st).1)
  {
    ExprWellFormed(st.fns[done].body, st.fns[done].env, st);
  }

  lemma LaterSize(a: CState, b: CState)
    requires Later(a, b)
    ensures |a.fns| <= |b.fns|
  {
  }

  lemma {:induction false} ArgsWellFormed(args: seq<SExpr>, env: Env, st: CState)
    requires AllWellFormed(args) && FnsWellFormed(st)
    ensures FnsWellFormed(GenArgs(args, env, st).1)
    decreases Sizes(args), 1
  {
    hide FnsWellFormed, WellFormed, Gen;
    if args != [] {
      assert AllWellFormed(args[1..]);
      ArgsWellFormed(args[1..], env, st);
      ExprWellFormed(args[0], env, GenArgs(args[1..], env, st).1);
    }
  }

  lemma {:induction false} SeqWellFormed(es: seq<SExpr>, env: Env, st: CState)
    requires AllWellFormed(es) && FnsWellFormed(st)
    ensures FnsWellFormed(GenSeq(es, env, st).1)
    decreases Sizes(es), 1
  {
    hide FnsWellFormed, WellFormed, Gen;
    if es != [] {
      assert AllWellFormed(es[1..]);
      ExprWellFormed(es[0], env, st);
      SeqWellFormed(es[1..], env, Gen(es[0], env, st).1);
    }
  }

  // The text of three forms by their parts

  function IfCode(t: SExpr, a: SExpr, b: SExpr, env: Env, st: CState): Code {
    var l := st.lbl;
    var (ct, st1) := Gen(t, env, st.(lbl := l + 3));
    var (ca, st2) := Gen(a, env, st1);
    var (cb, st3) := Gen(b, env, st2);
    (ct + (GenTest(l, l + 1) + (ca + (GenElse(l + 1, l + 2) + (cb + [Label(l + 2)])))), st3)
  }

  function UnaryCode(op: Op1, a: SExpr, env: Env, st: CState): Code {
    var (c, st1) := Gen(a, env, st.(lbl := st.lbl + Labels1(op)));
    (c + GenOp1(op, st.lbl), st1)
  }

  function BinaryCode(op: Op2, a: SExpr, b: SExpr, env: Env, st: CState): Code {
    var (cb, st1) := Gen(b, env, st.(lbl := st.lbl + Labels2(op)));
    var (ca, st2) := Gen(a, env, st1);
    (cb + ([Push(R0)] + (ca + GenOp2(op, st.lbl))), st2)
  }

  lemma PartsCode(e: SExpr, env: Env, st: CState)
    ensures var f := View(e);
            && (f.If? ==> Gen(e, env, st) == IfCode(f.test, f.yes, f.no, env, st))
            && (f.Unary? ==> Gen(e, env, st) == UnaryCode(f.op1, f.arg, env, st))
            && (f.Binary? ==> Gen(e, env, st) == BinaryCode(f.op2, f.left, f.right, env, st))
  {
    hide View, Size, GenVar, GenQuote, GenSeq, GenArgs, GenOp1, GenOp2, GenTest, GenElse, AddFn, AddGlobal;
  }

  class Compiler {
    var out: seq<Item>
    var clbl: nat
    /** The deferred functions (cf_lbl, cf_body, cf_env up to cf_n). */
    var cf: seq<Fn>
    var cfDone: nat
    /** The globals (cg_sym up to cg_n). */
    var cg: seq<symbol>

    /** The counters and tables as a value. */
    ghost function State(): CState
      reads `clbl, `cf, `cg
    {
      CState(clbl, cf, cg)
    }

    constructor ()
      ensures State() == START && out == [] && cfDone == 0
    {
      out, clbl, cf, cfDone, cg := [], 0, [], 0, [];
    }

    method Emit(items: seq<Item>)
      modifies `out
      ensures State() == old(State()) && out == old(out) + items
    {
      out := out + items;
    }

    method ClNew() returns (l: nat)
      modifies `clbl
      ensures l == old(clbl) && clbl == l + 1
    {
      l := clbl;
      clbl := clbl + 1;
    }

    method CgAdd(sym: symbol)
      modifies `cg
      ensures cg == AddGlobal(old(State()), sym).globs
    {
      var i := 0;
      while i < |cg|
        invariant 0 <= i <= |cg| && forall k :: 0 <= k < i ==> cg[k] != sym
      {
        if cg[i] == sym { return; }
        i := i + 1;
      }
      cg := cg + [sym];
    }

    /** Enters a function in the table of deferred bodies. */
    method CfAdd(fl: nat, params: SExpr, body: SExpr)
      requires Symbols(params).Some?
      modifies `cf
      ensures cf == old(cf) + [Fn(fl, body, EnvParams(Symbols(params).value, 9, []))]
    {
      var env := CenvParams(params);
      cf := cf + [Fn(fl, body, env)];
    }

    static method CenvParams(params: SExpr) returns (env: Env)
      requires Symbols(params).Some?
      ensures env == EnvParams(Symbols(params).value, 9, [])
    {
      env := [];
      var p, off := params, 9;
      while p != NIL
        invariant Symbols(p).Some?
        invariant EnvParams(Symbols(p).value, off, env) == EnvParams(Symbols(params).value, 9, [])
        decreases p
      {
        env := [(p.car.i, off)] + env;
        p := p.cdr;
        off := off + 3;
      }
    }

    static method CenvGet(sym: symbol, env: Env) returns (off: int)
      ensures off == EnvGet(sym, env)
    {
      var e := env;
      while e != []
        invariant EnvGet(sym, e) == EnvGet(sym, env)
        decreases |e|
      {
        if e[0].0 == sym { return e[0].1; }
        e := e[1..];
      }
      off := -9999;
    }

    static method Clen(lst: SExpr) returns (n: nat)
      requires Elements(lst).Some?
      ensures n == |Elements(lst).value|
    {
      n := 0;
      var l := lst;
      while l != NIL
        invariant Elements(l).Some? && n + |Elements(l).value| == |Elements(lst).value|
        decreases l
      {
        n := n + 1;
        l := l.cdr;
      }
    }

    method CQuote(val: SExpr)
      modifies `out
      ensures State() == old(State())
      ensures out == old(out) + GenQuote(val)
      decreases val
    {
      if val.Fix? || val.Sym? {
        Emit([LoadImm(R0, ConstWord(val))]);
        return;
      }
      if val.Pair? {
        CQuote(val.cdr);
        Emit([Push(R0)]);
        CQuote(val.car);
        Emit([Push(R0), LoadRoutine(RtCons), JumpLink, AddSp(6)]);
        Regroup4(old(out), GenQuote(val.cdr), [Push(R0)], GenQuote(val.car), [Push(R0), LoadRoutine(RtCons),
              JumpLink, AddSp(6)]);
        return;
      }
      Emit([LoadImm(R0, NIL_WORD)]);
    }

    /** A variable, from the frame or from its global word. */
    method CVar(sym: symbol, env: Env)
      modifies `out, `cg
      ensures out == old(out) + GenVar(sym, env, old(State())).0
      ensures State() == GenVar(sym, env, old(State())).1
    {
      var off := CenvGet(sym, env);
      if off != -9999 {
        Emit([LoadFrame(off)]);
      } else {
        CgAdd(sym);
        Emit([LoadGlobal(R1, sym), Fetch]);
      }
    }

    method CPushArgs(args: SExpr, env: Env)
      requires Elements(args).Some? && AllWellFormed(Elements(args).value)
      modifies `out, `clbl, `cf, `cg
      ensures out == old(out) + GenArgs(Elements(args).value, env, old(State())).0
      ensures State() == GenArgs(Elements(args).value, env, old(State())).1
      decreases Size(args), 0
    {
      if args == NIL { return; }
      ghost var es := Elements(args).value;
      ghost var st1 := GenArgs(es[1..], env, State()).1;
      assert Elements(args.cdr).value == es[1..];
      CPushArgs(args.cdr, env);
      CExpr(args.car, env);
      Emit([Push(R0)]);
      Regroup3(old(out), GenArgs(es[1..], env, old(State())).0, Gen(es[0], env, st1).0, [Push(R0)]);
    }

    /** Result in r0. */
    method CExpr(expr: SExpr, env: Env)
      requires WellFormed(expr)
      modifies `out, `clbl, `cf, `cg
      ensures out == old(out) + Gen(expr, env, old(State())).0
      ensures State() == Gen(expr, env, old(State())).1
      decreases Size(expr), 2
    {
      if expr.Fix? {
        Emit([LoadImm(R0, ConstWord(expr))]);
        return;
      }
      if expr == NIL {
        Emit([LoadImm(R0, NIL_WORD)]);
        return;
      }
      if expr == T {
        Emit([LoadImm(R0, T_WORD)]);
        return;
      }
      if expr.Sym? {
        CVar(expr.i, env);
        return;
      }
      if !expr.Pair? {
        Emit([LoadImm(R0, NIL_WORD)]);
        return;
      }
      var head, args := expr.car, expr.cdr;
      PartsCode(expr, env, State());
      if head == Sym(SYM_QUOTE) {
        CQuote(args.car);
        return;
      }
      if head == Sym(SYM_IF) {
        IfParts(expr);
        CIf(args.car, args.cdr.car, args.cdr.cdr, View(expr).no, env);
        return;
      }
      if head == Sym(SYM_BEGIN) {
        CSeq(args, env);
        return;
      }
      if head == Sym(SYM_DEFINE) {
        CDefine(expr, env);
        return;
      }
      if head == Sym(SYM_LAMBDA) {
        var fl := ClNew();
        CfAdd(fl, args.car, args.cdr.car);
        Emit([LoadLabel(R0, fl)]);
        return;
      }
      if head.Sym? {
        if Prim1(head.i).Some? {
          UnaryParts(expr);
          CUnary(Prim1(head.i).value, Arg1(args), env);
          return;
        }
        if Prim2(head.i).Some? {
          BinaryParts(expr);
          CBinary(Prim2(head.i).value, Arg1(args), Arg2(args), env);
          return;
        }
      }
      CCall(expr, env);
    }

    method CIf(t: SExpr, a: SExpr, rest: SExpr, ghost b: SExpr, env: Env)
      requires WellFormed(t) && WellFormed(a) && WellFormed(b)
      requires if rest == NIL then b == NIL else rest.Pair? && rest.car == b
      modifies `out, `clbl, `cf, `cg
      ensures out == old(out) + IfCode(t, a, b, env, old(State())).0
      ensures State() == IfCode(t, a, b, env, old(State())).1
      decreases Size(t) + Size(a) + Size(b), 4
    {
      hide Gen, WellFormed, GenTest, GenElse;
      ghost var (ct, st1) := Gen(t, env, State().(lbl := clbl + 3));
      ghost var (ca, st2) := Gen(a, env, st1);
      var lt := ClNew();
      var le := ClNew();
      var lx := ClNew();
      CExpr(t, env);
      Emit(GenTest(lt, le));
      CExpr(a, env);
      Emit(GenElse(le, lx));
      CElse(rest, b, env);
      Emit([Label(lx)]);
      Regroup6(old(out), ct, GenTest(lt, le), ca, GenElse(le, lx), Gen(b, env, st2).0, [Label(lx)]);
    }

    /** The else part, nil when there is none. */
    method CElse(rest: SExpr, ghost b: SExpr, env: Env)
      requires WellFormed(b)
      requires if rest == NIL then b == NIL else rest.Pair? && rest.car == b
      modifies `out, `clbl, `cf, `cg
      ensures out == old(out) + Gen(b, env, old(State())).0
      ensures State() == Gen(b, env, old(State())).1
      decreases Size(b), 3
    {
      if rest != NIL {
        CExpr(rest.car, env);
      } else {
        Emit([LoadImm(R0, NIL_WORD)]);
      }
    }

    method CDefine(expr: SExpr, env: Env)
      requires WellFormed(expr)
      requires View(expr).Define? || View(expr).DefineFn?
      modifies `out, `clbl, `cf, `cg
      ensures out == old(out) + Gen(expr, env, old(State())).0
      ensures State() == Gen(expr, env, old(State())).1
      decreases Size(expr), 1
    {
      DefineParts(expr);
      hide View, WellFormed, EnvParams, Later, PopArgs, GenArgs, GenSeq, Symbols, Elements, GenTest, GenElse,
            GenOp1, GenOp2, GenVar, GenQuote, Size, AddFn, AddGlobal;
      var args := expr.cdr;
      var sym, vexpr := args.car.i, args.cdr.car;
      ghost var st0 := AddGlobal(State(), sym);
      if vexpr.Pair? && vexpr.car == Sym(SYM_LAMBDA) {
        CgAdd(sym);
        var fl := ClNew();
        CfAdd(fl, vexpr.cdr.car, vexpr.cdr.cdr.car);
        Emit([LoadLabel(R0, fl), LoadGlobal(R1, sym), Store]);
        return;
      }
      CgAdd(sym);
      CExpr(vexpr, env);
      Emit([LoadGlobal(R1, sym), Store]);
      Regroup2(old(out), Gen(vexpr, env, st0).0, [LoadGlobal(R1, sym), Store]);
    }

    method CUnary(op: Op1, a1: SExpr, env: Env)
      requires WellFormed(a1)
      modifies `out, `clbl, `cf, `cg
      ensures out == old(out) + UnaryCode(op, a1, env, old(State())).0
      ensures State() == UnaryCode(op, a1, env, old(State())).1
      decreases Size(a1), 3
    {
      hide Gen, WellFormed, GenOp1;
      var l := clbl;
      if Labels1(op) == 2 {
        var lt := ClNew();
        var lx := ClNew();
      }
      ghost var c := Gen(a1, env, State()).0;
      CExpr(a1, env);
      Emit(GenOp1(op, l));
      Regroup2(old(out), c, GenOp1(op, l));
    }

    method CBinary(op: Op2, a1: SExpr, a2: SExpr, env: Env)
      requires WellFormed(a1) && WellFormed(a2)
      modifies `out, `clbl, `cf, `cg
      ensures out == old(out) + BinaryCode(op, a1, a2, env, old(State())).0
      ensures State() == BinaryCode(op, a1, a2, env, old(State())).1
      decreases Size(a1) + Size(a2), 3
    {
      hide Gen, WellFormed, GenOp2;
      var l := clbl;
      if Labels2(op) == 2 {
        var lt := ClNew();
        var lx := ClNew();
      }
      ghost var (cb, st1) := Gen(a2, env, State());
      CExpr(a2, env);
      Emit([Push(R0)]);
      CExpr(a1, env);
      Emit(GenOp2(op, l));
      Regroup4(old(out), cb, [Push(R0)], Gen(a1, env, st1).0, GenOp2(op, l));
    }

    method CCall(expr: SExpr, env: Env)
      requires WellFormed(expr) && View(expr).Call?
      modifies `out, `clbl, `cf, `cg
      ensures out == old(out) + Gen(expr, env, old(State())).0
      ensures State() == Gen(expr, env, old(State())).1
      decreases Size(expr), 1
    {
      CallParts(expr);
      hide View, WellFormed, EnvParams, Later, PopArgs, GenArgs, GenSeq, Symbols, Elements, GenTest, GenElse,
            GenOp1, GenOp2, GenVar, GenQuote, Size, AddFn, AddGlobal;
      var head, args := expr.car, expr.cdr;
      ghost var es := View(expr).args;
      ghost var (c, st1) := GenArgs(es, env, State());
      ghost var ch := if head.Sym? then GenVar(head.i, env, st1).0 else Gen(head, env, st1).0;
      var nargs := Clen(args);
      CPushArgs(args, env);
      if head.Sym? {
        CVar(head.i, env);
      } else {
        CExpr(head, env);
      }
      Emit([JumpLink]);
      if nargs > 0 {
        Emit([AddSp(nargs * 3)]);
      }
      Regroup4(old(out), c, ch, [JumpLink], PopArgs(nargs));
    }

    /** The expressions of a list one after the other: begin, and the top level. */
    method CSeq(exprs: SExpr, env: Env)
      requires Elements(exprs).Some? && AllWellFormed(Elements(exprs).value)
      modifies `out, `clbl, `cf, `cg
      ensures out == old(out) + GenSeq(Elements(exprs).value, env, old(State())).0
      ensures State() == GenSeq(Elements(exprs).value, env, old(State())).1
      decreases Size(exprs), 3
    {
      var es := exprs;
      ghost var whole := GenSeq(Elements(exprs).value, env, State());
      while es != NIL
        invariant Elements(es).Some? && AllWellFormed(Elements(es).value) && Size(es) <= Size(exprs)
        invariant out + GenSeq(Elements(es).value, env, State()).0 == old(out) + whole.0
        invariant GenSeq(Elements(es).value, env, State()).1 == whole.1
        decreases es
      {
        ghost var l := Elements(es).value;
        ghost var (c0, st1) := Gen(l[0], env, State());
        assert Elements(es.cdr).value == l[1..];
        Regroup2(out, c0, GenSeq(l[1..], env, st1).0);
        CExpr(es.car, env);
        es := es.cdr;
      }
      assert out + [] == out;
    }

    /** One deferred function, with its frame. */
    method CemitFn(i: nat)
      requires i < |cf| && WellFormed(cf[i].body)
      modifies `out, `clbl, `cf, `cg
      ensures out == old(out) + GenFn(old(cf)[i], old(State())).0
      ensures State() == GenFn(old(cf)[i], old(State())).1
    {
      hide Gen, WellFormed;
      ghost var c := Gen(cf[i].body, cf[i].env, State()).0;
      Emit([Label(cf[i].lbl)]);
      Emit(PROLOGUE);
      CExpr(cf[i].body, cf[i].env);
      Emit(EPILOGUE);
      Regroup4(old(out), [Label(old(cf)[i].lbl)], PROLOGUE, c, EPILOGUE);
    }

    /** All deferred functions; the table may grow while it is drained. */
    method CemitFns()
      requires cfDone <= |cf| && FnsWellFormed(State())
      modifies `out, `clbl, `cf, `cg, `cfDone
      ensures out == old(out) + GenFns(old(State()), old(cfDone)).0
      ensures State() == GenFns(old(State()), old(cfDone)).1
    {
      hide GenFn, FnsWellFormed, WellFormed, Pending;
      ghost var whole := GenFns(State(), cfDone);
      while cfDone < |cf|
        invariant cfDone <= |cf| && FnsWellFormed(State())
        invariant out + GenFns(State(), cfDone).0 == old(out) + whole.0
        invariant GenFns(State(), cfDone).1 == whole.1
        decreases Pending(cf, cfDone)
      {
        ghost var st := State();
        GenFnPending(st, cfDone);
        FnWellFormed(st, cfDone);
        ghost var (c, st1) := GenFn(cf[cfDone], st);
        Regroup2(out, c, GenFns(st1, cfDone + 1).0);
        LaterSize(st, st1);
        CemitFn(cfDone);
        cfDone := cfDone + 1;
      }
      assert out + [] == out;
    }

    method CemitData()
      modifies `out
      ensures out == old(out) + GenData(cg)
    {
      var i := 0;
      assert out + [] == out;
      while i < |cg|
        invariant 0 <= i <= |cg| && out == old(out) + GenData(cg[..i])
      {
        assert cg[..i + 1][..i] == cg[..i];
        Regroup2(old(out), GenData(cg[..i]), [GlobalWord(cg[i])]);
        Emit([GlobalWord(cg[i])]);
        i := i + 1;
      }
      assert cg[..i] == cg;
    }

    /** A whole program on a fresh compiler. */
    method CompileProgram(exprs: SExpr)
      requires State() == START && out == [] && cfDone == 0
      requires Elements(exprs).Some? && AllWellFormed(Elements(exprs).value)
      modifies this
      ensures out == GenProgram(Elements(exprs).value).0
      ensures State() == GenProgram(Elements(exprs).value).1
    {
      assert FnsWellFormed(START);
      hide GenSeq, GenFns, GenData, FnsWellFormed, AllWellFormed, Elements;
      ghost var es := Elements(exprs).value;
      ghost var (c, st1) := GenSeq(es, [], START);
      ghost var (fs, st2) := GenFns(st1, 0);
      Emit(PROLOGUE);
      assert out == PROLOGUE;
      CSeq(exprs, []);
      Emit(EPILOGUE);
      SeqWellFormed(es, [], START);
      CemitFns();
      CemitData();
      Regroup4(PROLOGUE, c, EPILOGUE, fs, GenData(st2.globs));
    }
  }

  lemma Regroup2(o: seq<Item>, a: seq<Item>, b: seq<Item>)
    ensures o + a + b == o + (a + b)
  {
  }

  lemma Regroup3(o: seq<Item>, a: seq<Item>, b: seq<Item>, c: seq<Item>)
    ensures o + a + b + c == o + (a + (b + c))
  {
    Regroup2(o + a, b, c);
    Regroup2(o, a, b + c);
  }

  lemma Regroup4(o: seq<Item>, a: seq<Item>, b: seq<Item>, c: seq<Item>, d: seq<Item>)
    ensures o + a + b + c + d == o + (a + (b + (c + d)))
  {
    Regroup3(o + a, b, c, d);
    Regroup2(o, a, b + (c + d));
  }

  lemma Regroup6(o: seq<Item>, a: seq<Item>, b: seq<Item>, c: seq<Item>, d: seq<Item>, e: seq<Item>, f: seq<Item>)
    ensures o + a + b + c + d + e + f == o + (a + (b + (c + (d + (e + f)))))
  {
    Regroup4(o + a + b, c, d, e, f);
    Regroup2(o + a, b, c + (d + (e + f)));
    Regroup2(o, a, b + (c + (d + (e + f))));
  }
}
