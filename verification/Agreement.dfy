/** The compiler and the interpreter agree: a first-order expression to which both give a value has
    the same value under LispSource, which compiled code computes, and under Meaning, which the
    interpreter computes, unless the interpreter complains on the way. */
module Agreement {
  import opened Tml
  import opened FirstOrder
  import opened SameValues
  import CompileProgram
  import L = LispSource
  import M = Meaning
  import P = Primitives

  // Values agree

  /** The interpreter comes to a value and complains about nothing. */
  predicate Quietly(s: M.State, r: M.Result) { r.Done? && r.s.out == s.out }

  /** In the state behind it variables have only been added, and the value is the same. */
  predicate Agrees(w: L.World, v: L.Value, s: M.State, r: M.Result) {
    Quietly(s, r) && Further(s, r.s) && Same(w.heap, v, r.v, s.global)
  }

  lemma {:induction false} QuoteSame(heap: seq<(L.Value, L.Value)>, v: L.Value, d: L.SExpr, all: M.Env)
    requires CompileProgram.Denotes(heap, v, d) && PlainData(d)
    ensures Same(heap, v, Tree(d), all)
    decreases d
  {
    if d.Pair? {
      QuoteSame(heap, heap[v.id].0, d.car, all);
      QuoteSame(heap, heap[v.id].1, d.cdr, all);
    }
  }

  /** Parts that complain about nothing, when the whole does not. */
  lemma PartQuiet(s: M.State, r: M.Result, r2: M.Result)
    requires r.Done? && M.Onward(s, r) && M.Onward(r.s, r2) && Quietly(s, r2)
    ensures Quietly(s, r) && Quietly(r.s, r2)
  {
  }

  lemma AgreesThen(w: L.World, v: L.Value, s: M.State, s1: M.State, r: M.Result)
    requires Further(s, s1) && Agrees(w, v, s1, r)
    ensures Agrees(w, v, s, r)
  {
    hide Same;
  }

  lemma {:induction false} Agree(bud: L.Budget, fuel: nat, g: nat, e: L.SExpr, loc: L.Locals, w: L.World, env: M.Env,
                                 s: M.State, live: seq<int>)
    requires First(e) && Linked(w, s) && SameLocals(w.heap, loc, env, s)
    requires L.Eval(bud, fuel, e, loc, w).Done? && Quietly(s, M.Eval(P.Pure, g, Tree(e), env, s, live))
    ensures var l := L.Eval(bud, fuel, e, loc, w);
      Agrees(l.world, l.value, s, M.Eval(P.Pure, g, Tree(e), env, s, live))
    decreases g, 1
  {
    hide Linked, SameLocals, First, L.EvalQuote, L.Lookup, M.If, M.Begin, M.Call, M.Lookup, M.Quasi, M.DefineForm,
         M.Set, M.Catch, P.Pure, L.Apply1, L.Apply2, L.Bind;
    match L.View(e)
    case Const(_) => ConstShape(e);
    case Var(sym) =>
      VarShape(e, sym);
      if M.Lookup(env, s, MakeSymbol(sym)).Some? {
        LookupSame(w, s, loc, env, sym);
      }
    case Quote(d) =>
      QuoteShape(e, d);
      CompileProgram.QuoteBuilds(bud, d, w);
      QuoteSame(L.EvalQuote(bud, d, w).world.heap, L.EvalQuote(bud, d, w).value, d, s.global);
    case If(t, a, b) => AgreeIf(bud, fuel, g, e, t, a, b, loc, w, env, s, live);
    case Begin(es) =>
      BeginShape(e, es);
      AgreeSeq(bud, fuel, g - 1, es, loc, w, env, s, live);
    case Unary(op, a) => AgreeUnary(bud, fuel, g, e, op, a, loc, w, env, s, live);
    case Binary(op, a, b) => AgreeBinary(bud, fuel, g, e, op, a, b, loc, w, env, s, live);
    case Call(head, es) => AgreeCall(bud, fuel, g, e, head, es, loc, w, env, s, live);
    case _ => NotFirst(e);
  }

  lemma ConstShape(e: L.SExpr)
    requires First(e) && L.View(e).Const?
    ensures e.Fix? || e == L.NIL || e == L.T
  {
    hide L.Size, L.Symbols, L.LambdaParts, L.ViewDefine, L.ViewPrim, L.Smaller, L.ViewIf, L.Elements;
  }

  lemma VarShape(e: L.SExpr, sym: L.symbol)
    requires First(e) && L.View(e) == L.Var(sym)
    ensures e == L.Sym(sym) && User(sym)
  {
    hide L.Size, L.Symbols, L.LambdaParts, L.ViewDefine, L.ViewPrim, L.Smaller, L.ViewIf, L.Elements;
  }

  lemma NotFirst(e: L.SExpr)
    requires First(e)
    ensures !L.View(e).Bad? && !L.View(e).Define? && !L.View(e).DefineFn? && !L.View(e).Lambda?
  {
  }

  lemma {:induction false} AgreeIf(bud: L.Budget, fuel: nat, g: nat, e: L.SExpr, t: L.SExpr, a: L.SExpr, b: L.SExpr,
                                   loc: L.Locals, w: L.World, env: M.Env, s: M.State, live: seq<int>)
    requires First(e) && L.View(e) == L.If(t, a, b) && Linked(w, s) && SameLocals(w.heap, loc, env, s)
    requires L.Eval(bud, fuel, e, loc, w).Done? && Quietly(s, M.Eval(P.Pure, g, Tree(e), env, s, live))
    ensures var l := L.Eval(bud, fuel, e, loc, w);
      Agrees(l.world, l.value, s, M.Eval(P.Pure, g, Tree(e), env, s, live))
    decreases g, 0
  {
    hide Linked, SameLocals, First, L.View, Same, Further, FirstWorld, L.Eval, M.Eval, M.If;
    IfShape(e, t, a, b);
    IfRuns(bud, fuel, e, t, a, b, loc, w);
    IfUnfolds(g, e, env, s, live);
    var r, r1, l1 := M.Eval(P.Pure, g, Tree(e), env, s, live), M.Eval(P.Pure, g - 2, Tree(t), env, s, live),
                     L.Eval(bud, fuel, t, loc, w);
    PartQuiet(s, r1, r);
    Agree(bud, fuel, g - 2, t, loc, w, env, s, live);
    Next(bud, fuel, t, loc, w, env, s, r1);
    SameTruth(l1.world.heap, l1.value, r1.v, s.global);
    var branch := if l1.value != L.VNil then a else b;
    var l2 := L.Eval(bud, fuel, branch, loc, l1.world);
    if l1.value == L.VNil && e.cdr.cdr.cdr == L.NIL {
      NilRuns(bud, fuel, loc, l1.world);
      NilAgrees(l1.world, r1.s);
      AgreesThen(l2.world, l2.value, s, r1.s, r);
    } else {
      Agree(bud, fuel, g - 2, branch, loc, l1.world, env, r1.s, live);
      AgreesThen(l2.world, l2.value, s, r1.s, r);
    }
  }

  lemma NilAgrees(w: L.World, s: M.State)
    ensures Agrees(w, L.VNil, s, M.Done(M.NIL, s))
  {
  }

  lemma NilRuns(bud: L.Budget, fuel: nat, loc: L.Locals, w: L.World)
    ensures L.Eval(bud, fuel, L.NIL, loc, w) == L.Done(L.VNil, w, 0)
  {
    assert L.View(L.NIL) == L.Const(L.NIL);
  }

  lemma IfRuns(bud: L.Budget, fuel: nat, e: L.SExpr, t: L.SExpr, a: L.SExpr, b: L.SExpr, loc: L.Locals, w: L.World)
    requires L.View(e) == L.If(t, a, b) && L.Eval(bud, fuel, e, loc, w).Done?
    ensures var l, l1 := L.Eval(bud, fuel, e, loc, w), L.Eval(bud, fuel, t, loc, w);
      && l1.Done?
      && var l2 := L.Eval(bud, fuel, if l1.value != L.VNil then a else b, loc, l1.world);
         l2.Done? && l.value == l2.value && l.world == l2.world
  {
    hide L.View;
  }

  lemma IfUnfolds(g: nat, e: L.SExpr, env: M.Env, s: M.State, live: seq<int>)
    requires e.Pair? && e.car == L.Sym(3) && e.cdr.Pair? && e.cdr.cdr.Pair?
    requires M.Eval(P.Pure, g, Tree(e), env, s, live).Done?
    ensures g > 1
    ensures var t, a, rest := Tree(e.cdr.car), Tree(e.cdr.cdr.car), e.cdr.cdr.cdr;
      var r, r1 := M.Eval(P.Pure, g, Tree(e), env, s, live), M.Eval(P.Pure, g - 2, t, env, s, live);
      && r1.Done? && M.Onward(s, r1) && M.Onward(r1.s, r)
      && (r1.v != M.NIL ==> r == M.Eval(P.Pure, g - 2, a, env, r1.s, live))
      && (r1.v == M.NIL && rest == L.NIL ==> r == M.Done(M.NIL, r1.s))
      && (r1.v == M.NIL && rest.Pair? ==> r == M.Eval(P.Pure, g - 2, Tree(rest.car), env, r1.s, live))
  {
    var args := Tree(e.cdr);
    assert M.Eval(P.Pure, g, Tree(e), env, s, live) == M.If(P.Pure, g - 1, args, env, s, live) by {
      hide M.If, M.Onward;
    }
    assert args.cdr == Tree(e.cdr.cdr) && args.cdr.car == Tree(e.cdr.cdr.car) && args.cdr.cdr == Tree(e.cdr.cdr.cdr);
    hide M.Onward, M.Eval;
  }

  /** Behind an expression both are still linked. */
  lemma Next(bud: L.Budget, fuel: nat, e: L.SExpr, loc: L.Locals, w: L.World, env: M.Env, s: M.State, r: M.Result)
    requires First(e) && Linked(w, s) && SameLocals(w.heap, loc, env, s) && L.Eval(bud, fuel, e, loc, w).Done?
    requires r.Done? && Further(s, r.s)
    ensures var w1 := L.Eval(bud, fuel, e, loc, w).world; Linked(w1, r.s) && SameLocals(w1.heap, loc, env, r.s)
  {
    hide First, Same, L.Eval;
    EvalKeeps(bud, fuel, e, loc, w);
    hide FirstWorld, FirstLocals;
    LinkedKept(w, s, L.Eval(bud, fuel, e, loc, w).world, r.s);
    LocalsKept(w, L.Eval(bud, fuel, e, loc, w).world, loc, env, s, r.s);
  }

  lemma SameTruth(heap: seq<(L.Value, L.Value)>, v: L.Value, x: M.Val, all: M.Env)
    requires Same(heap, v, x, all)
    ensures v == L.VNil <==> x == M.NIL
  {
  }

  lemma {:induction false} AgreeSeq(bud: L.Budget, fuel: nat, g: nat, es: seq<L.SExpr>, loc: L.Locals, w: L.World,
                                    env: M.Env, s: M.State, live: seq<int>)
    requires es != [] && Firsts(es) && Linked(w, s) && SameLocals(w.heap, loc, env, s)
    requires L.EvalSeq(bud, fuel, es, loc, w).Done? && Quietly(s, M.Begin(P.Pure, g, Trees(es), env, s, live))
    ensures var l := L.EvalSeq(bud, fuel, es, loc, w);
      Agrees(l.world, l.value, s, M.Begin(P.Pure, g, Trees(es), env, s, live))
    decreases g, 0
  {
    hide Linked, SameLocals, First, Same, Further, L.Eval, M.Eval;
    var r1, whole := M.Eval(P.Pure, g - 1, Tree(es[0]), env, s, live), M.Begin(P.Pure, g, Trees(es), env, s, live);
    TreesNil(es);
    if |es| == 1 {
      Agree(bud, fuel, g - 1, es[0], loc, w, env, s, live);
    } else {
      PartQuiet(s, r1, whole);
      Agree(bud, fuel, g - 1, es[0], loc, w, env, s, live);
      Next(bud, fuel, es[0], loc, w, env, s, r1);
      var w1 := L.Eval(bud, fuel, es[0], loc, w).world;
      AgreeSeq(bud, fuel, g - 1, es[1..], loc, w1, env, r1.s, live);
      var l2 := L.EvalSeq(bud, fuel, es[1..], loc, w1);
      AgreesThen(l2.world, l2.value, s, r1.s, M.Begin(P.Pure, g - 1, Trees(es[1..]), env, r1.s, live));
    }
  }

  lemma TreesNil(es: seq<L.SExpr>)
    requires es != []
    ensures Trees(es[1..]) == M.NIL <==> |es| == 1
  {
  }

  /** The values of arguments, which the compiled code finds last to first and the interpreter
      first to last. */
  lemma {:induction false} AgreeArgs(bud: L.Budget, fuel: nat, g: nat, es: seq<L.SExpr>, loc: L.Locals, w: L.World,
                                     env: M.Env, s: M.State, live: seq<int>)
    requires Firsts(es) && Linked(w, s) && SameLocals(w.heap, loc, env, s)
    requires L.EvalArgs(bud, fuel, es, loc, w).Dones? && Quietly(s, M.Args(P.Pure, g, Trees(es), env, s, live))
    ensures var l, r := L.EvalArgs(bud, fuel, es, loc, w), M.Args(P.Pure, g, Trees(es), env, s, live);
      Further(s, r.s) && SameList(l.world.heap, l.values, r.v, s.global)
    decreases g, 0
  {
    hide Linked, SameLocals, First, Same, L.Eval, M.Eval, FirstWorld, FirstValue;
    if es != [] {
      var r1, whole := M.Eval(P.Pure, g - 1, Tree(es[0]), env, s, live), M.Args(P.Pure, g, Trees(es), env, s, live);
      var r2 := M.Args(P.Pure, g - 1, Trees(es[1..]), env, r1.s, live);
      assert r2.Done? && whole.s == r2.s;
      PartQuiet(s, r1, r2);
      var l1 := L.EvalArgs(bud, fuel, es[1..], loc, w);
      NextArgs(bud, fuel, es[1..], loc, w, env, s, M.Done(M.NIL, s));
      Agree(bud, fuel, g - 1, es[0], loc, l1.world, env, s, live);
      LinkedKept(w, s, w, r1.s) by { Kept(w, s); }
      LocalsKept(w, w, loc, env, s, r1.s) by { Kept(w, s); }
      AgreeArgs(bud, fuel, g - 1, es[1..], loc, w, env, r1.s, live);
      var l2 := L.Eval(bud, fuel, es[0], loc, l1.world);
      EvalKeeps(bud, fuel, es[0], loc, l1.world) by { LinkedFirst(l1.world, loc, env, s); }
      ListKept(l1.world.heap, l2.world.heap, l1.values, r2.v, s.global);
      assert ([l2.value] + l1.values)[1..] == l1.values;
    }
  }

  lemma Kept(w: L.World, s: M.State)
    requires Linked(w, s)
    ensures Keeps(w, w)
  {
    hide First, Same;
  }

  lemma LinkedFirst(w: L.World, loc: L.Locals, env: M.Env, s: M.State)
    requires Linked(w, s) && SameLocals(w.heap, loc, env, s)
    ensures FirstWorld(w) && FirstLocals(loc)
  {
  }

  lemma NextArgs(bud: L.Budget, fuel: nat, es: seq<L.SExpr>, loc: L.Locals, w: L.World, env: M.Env, s: M.State,
                 r: M.Result)
    requires Firsts(es) && Linked(w, s) && SameLocals(w.heap, loc, env, s) && L.EvalArgs(bud, fuel, es, loc, w).Dones?
    requires r.Done? && Further(s, r.s)
    ensures var l := L.EvalArgs(bud, fuel, es, loc, w);
      Linked(l.world, r.s) && SameLocals(l.world.heap, loc, env, r.s) && FirstValues(l.values)
  {
    hide First, Same, L.EvalArgs;
    ArgsKeep(bud, fuel, es, loc, w);
    hide FirstWorld, FirstLocals;
    LinkedKept(w, s, L.EvalArgs(bud, fuel, es, loc, w).world, r.s);
    LocalsKept(w, L.EvalArgs(bud, fuel, es, loc, w).world, loc, env, s, r.s);
  }

  // Operators and calls

  /** A form whose head names a primitive. */
  lemma PrimitiveCall(g: nat, i: nat, e: L.SExpr, loc: L.Locals, w: L.World, env: M.Env, s: M.State, live: seq<int>)
    requires Linked(w, s) && SameLocals(w.heap, loc, env, s) && i < 16 && e.Pair? && e.car == L.Sym(14 + i)
    requires M.Eval(P.Pure, g, Tree(e), env, s, live).Done?
    ensures g > 2
    ensures var a := M.Args(P.Pure, g - 2, Tree(e.cdr), env, s, live);
      && a.Done? && P.Pure(i, a.v).Some?
      && M.Eval(P.Pure, g, Tree(e), env, s, live) == M.Done(P.Pure(i, a.v).value.0, a.s.Print(P.Pure(i, a.v).value.1))
  {
    hide Linked, SameLocals, M.Call, M.Args, P.Pure, M.Lookup, M.Onward;
    PrimitiveFound(w, s, loc, env, i);
    assert MakeSymbol(14 + i) != NIL_VAL && MakeSymbol(14 + i) != T_VAL;
    assert M.Eval(P.Pure, g - 1, M.Atom(MakeSymbol(14 + i)), env, s, live) == M.Done(M.Primitive(i), s);
    assert M.Eval(P.Pure, g, Tree(e), env, s, live)
        == M.Call(P.Pure, g - 1, M.Primitive(i), Tree(e.cdr), env, s, live);
    PrimitiveApplied(g - 1, i, Tree(e.cdr), env, s, live);
  }

  lemma PrimitiveApplied(g: nat, i: nat, args: M.Val, env: M.Env, s: M.State, live: seq<int>)
    requires i < 16 && M.Call(P.Pure, g, M.Primitive(i), args, env, s, live).Done?
    ensures g > 1
    ensures var a := M.Args(P.Pure, g - 1, args, env, s, live);
      var r := M.Call(P.Pure, g, M.Primitive(i), args, env, s, live);
      && a.Done? && P.Pure(i, a.v).Some?
      && r == M.Done(P.Pure(i, a.v).value.0, a.s.Print(P.Pure(i, a.v).value.1))
  {
    hide M.Args, P.Pure, M.Onward, M.ApplyPrim, M.Bind;
    var a := M.Args(P.Pure, g - 1, args, env, s, live);
    assert M.Apply(P.Pure, g - 1, M.Primitive(i), a.v, a.s, live)
        == M.ApplyPrim(P.Pure, g - 2, i, a.v, a.s, live);
    PrimitiveGives(g - 2, i, a.v, a.s, live);
  }

  lemma PrimitiveGives(g: nat, i: nat, x: M.Val, s: M.State, live: seq<int>)
    requires i < 16 && M.ApplyPrim(P.Pure, g, i, x, s, live).Done?
    ensures P.Pure(i, x).Some?
    ensures M.ApplyPrim(P.Pure, g, i, x, s, live) == M.Done(P.Pure(i, x).value.0, s.Print(P.Pure(i, x).value.1))
  {
    hide P.Pure, M.Onward, M.Apply, M.Eval, M.Expand;
  }

  lemma {:induction false} AgreeUnary(bud: L.Budget, fuel: nat, g: nat, e: L.SExpr, op: L.Op1, a: L.SExpr,
                                      loc: L.Locals, w: L.World, env: M.Env, s: M.State, live: seq<int>)
    requires First(e) && L.View(e) == L.Unary(op, a) && Linked(w, s) && SameLocals(w.heap, loc, env, s)
    requires L.Eval(bud, fuel, e, loc, w).Done? && Quietly(s, M.Eval(P.Pure, g, Tree(e), env, s, live))
    ensures var l := L.Eval(bud, fuel, e, loc, w);
      Agrees(l.world, l.value, s, M.Eval(P.Pure, g, Tree(e), env, s, live))
    decreases g, 0
  {
    hide Linked, SameLocals, First, L.View, Same, SameList, M.Eval, M.Args, P.Pure, L.Apply1, FirstWorld, L.EvalArgs;
    UnaryShape(e, op, a);
    PrimitiveCall(g, Id1(op), e, loc, w, env, s, live);
    var r1 := M.Args(P.Pure, g - 2, Trees([a]), env, s, live);
    var l1 := L.EvalArgs(bud, fuel, [a], loc, w);
    OneArg(bud, fuel, a, loc, w);
    AgreeArgs(bud, fuel, g - 2, [a], loc, w, env, s, live);
    OneSame(l1.world.heap, l1.values[0], r1.v, s.global);
    OperatorSame(op, l1.values[0], r1.v.car, l1.world, s.global);
  }

  lemma OneSame(heap: seq<(L.Value, L.Value)>, v: L.Value, x: M.Val, all: M.Env)
    requires SameList(heap, [v], x, all)
    ensures x.Pair? && x == M.Pair(x.car, M.NIL) && Same(heap, v, x.car, all)
  {
    hide Same;
    assert [v][1..] == [];
  }

  lemma TwoSame(heap: seq<(L.Value, L.Value)>, v: L.Value, u: L.Value, x: M.Val, all: M.Env)
    requires SameList(heap, [v, u], x, all)
    ensures x.Pair? && x.cdr.Pair? && x == M.Pair(x.car, M.Pair(x.cdr.car, M.NIL))
    ensures Same(heap, v, x.car, all) && Same(heap, u, x.cdr.car, all)
  {
    hide Same;
    assert [v, u][1..] == [u] && [u][1..] == [];
    OneSame(heap, u, x.cdr, all);
  }

  lemma OneArg(bud: L.Budget, fuel: nat, a: L.SExpr, loc: L.Locals, w: L.World)
    requires L.Eval(bud, fuel, a, loc, w).Done?
    ensures var l, r := L.Eval(bud, fuel, a, loc, w), L.EvalArgs(bud, fuel, [a], loc, w);
      r.Dones? && r.values == [l.value] && r.world == l.world
  {
    hide L.Eval;
    assert [a][1..] == [];
    assert L.EvalArgs(bud, fuel, [], loc, w) == L.Dones([], w, 0);
  }

  lemma TwoArgs(bud: L.Budget, fuel: nat, a: L.SExpr, b: L.SExpr, loc: L.Locals, w: L.World)
    requires L.Eval(bud, fuel, b, loc, w).Done?
    requires L.Eval(bud, fuel, a, loc, L.Eval(bud, fuel, b, loc, w).world).Done?
    ensures var lb := L.Eval(bud, fuel, b, loc, w);
      var la, r := L.Eval(bud, fuel, a, loc, lb.world), L.EvalArgs(bud, fuel, [a, b], loc, w);
      r.Dones? && r.values == [la.value, lb.value] && r.world == la.world
  {
    hide L.Eval;
    OneArg(bud, fuel, b, loc, w);
    assert [a, b][1..] == [b];
  }

  lemma {:induction false} AgreeBinary(bud: L.Budget, fuel: nat, g: nat, e: L.SExpr, op: L.Op2, a: L.SExpr, b: L.SExpr,
                                       loc: L.Locals, w: L.World, env: M.Env, s: M.State, live: seq<int>)
    requires First(e) && L.View(e) == L.Binary(op, a, b) && Linked(w, s) && SameLocals(w.heap, loc, env, s)
    requires L.Eval(bud, fuel, e, loc, w).Done? && Quietly(s, M.Eval(P.Pure, g, Tree(e), env, s, live))
    ensures var l := L.Eval(bud, fuel, e, loc, w);
      Agrees(l.world, l.value, s, M.Eval(P.Pure, g, Tree(e), env, s, live))
    decreases g, 0
  {
    hide Linked, SameLocals, First, L.View, Same, SameList, M.Eval, M.Args, P.Pure, L.Apply2, FirstWorld, L.EvalArgs;
    BinaryShape(e, op, a, b);
    PrimitiveCall(g, Id2(op), e, loc, w, env, s, live);
    var r1 := M.Args(P.Pure, g - 2, Trees([a, b]), env, s, live);
    var l1 := L.EvalArgs(bud, fuel, [a, b], loc, w);
    TwoArgs(bud, fuel, a, b, loc, w);
    AgreeArgs(bud, fuel, g - 2, [a, b], loc, w, env, s, live);
    TwoSame(l1.world.heap, l1.values[0], l1.values[1], r1.v, s.global);
    OperatorsSame(op, l1.values[0], r1.v.car, l1.values[1], r1.v.cdr.car, l1.world, bud.pairs, s.global);
  }

  /** Binding parameters to arguments. */
  lemma {:induction false} BindSame(heap: seq<(L.Value, L.Value)>, ps: seq<L.symbol>, vs: seq<L.Value>, x: M.Val,
                                    loc: L.Locals, env: M.Env, s: M.State)
    requires Users(ps) && |ps| <= |vs| && FirstValues(vs) && SameList(heap, vs, x, s.global)
    requires SameLocals(heap, loc, env, s)
    ensures var b := M.Bind(ParamTree(ps), x, env, s);
      b.Scope? && SameLocals(heap, L.Bind(ps, vs, loc), b.env, b.s) && Further(s, b.s)
    decreases |ps|
  {
    hide First, Same;
    if ps != [] {
      var sym := MakeSymbol(ps[0]);
      var scope := M.Extend(sym, x.car, env, s);
      var loc1 := [(ps[0], vs[0])] + loc;
      assert scope.env[|loc1|..] == env[|loc|..];
      BindSame(heap, ps[1..], vs[1..], x.cdr, loc1, scope.env, scope.s);
    }
  }

  /** A call in compiled code: the arguments, the function, its body. */
  lemma CallRuns(bud: L.Budget, fuel: nat, e: L.SExpr, head: L.SExpr, es: seq<L.SExpr>, loc: L.Locals, w: L.World)
    requires L.View(e) == L.Call(head, es) && L.Eval(bud, fuel, e, loc, w).Done? && (head.Sym? ==> User(head.i))
    ensures L.EvalArgs(bud, fuel, es, loc, w).Dones?
    ensures var la := L.EvalArgs(bud, fuel, es, loc, w);
      var lf := L.Eval(bud, fuel, head, loc, la.world);
      && lf.Done? && fuel > 0 && lf.value.VFun? && |lf.value.params| <= |la.values|
      && var lb := L.Eval(bud, fuel - 1, lf.value.body, L.Bind(lf.value.params, la.values, []), lf.world);
         var l := L.Eval(bud, fuel, e, loc, w);
         lb.Done? && l.value == lb.value && l.world == lb.world
  {
    hide L.EvalArgs, L.Bind, L.Lookup, L.Size, L.Sizes;
    if head.Sym? {
      assert L.View(head) == L.Var(head.i);
    }
  }

  /** A call in the interpreter: the function, the arguments, the body. */
  lemma CallUnfolds(g: nat, e: L.SExpr, env: M.Env, s: M.State, live: seq<int>)
    requires e.Pair? && (e.car.Sym? ==> User(e.car.i)) && M.Eval(P.Pure, g, Tree(e), env, s, live).Done?
    ensures g > 0
    ensures var rf, r := M.Eval(P.Pure, g - 1, Tree(e.car), env, s, live), M.Eval(P.Pure, g, Tree(e), env, s, live);
      && rf.Done? && M.Onward(s, rf) && M.Onward(rf.s, r)
      && (rf.v.Closure? ==>
            && g > 2
            && var ra := M.Args(P.Pure, g - 2, Tree(e.cdr), env, rf.s, live);
               && ra.Done? && M.Onward(rf.s, ra) && M.Onward(ra.s, r)
               && var b := M.Bind(rf.v.params, ra.v, rf.v.env, ra.s);
                  b.Scope? && r == M.Eval(P.Pure, g - 3, rf.v.body, b.env, b.s, live))
  {
    hide M.Call, M.Args, P.Pure, M.Lookup, M.Bind, M.If, M.Begin, M.Quasi, M.DefineForm, M.Set, M.Catch, M.Onward;
    var rf := M.Eval(P.Pure, g - 1, Tree(e.car), env, s, live);
    assert M.Eval(P.Pure, g, Tree(e), env, s, live)
        == match rf
           case Done(fn, s1) => M.Call(P.Pure, g - 1, fn, Tree(e.cdr), env, s1, live)
           case other => other;
    if rf.v.Closure? {
      ClosureApplied(g - 1, rf.v, Tree(e.cdr), env, rf.s, live);
    }
  }

  lemma ClosureApplied(g: nat, fn: M.Val, args: M.Val, env: M.Env, s: M.State, live: seq<int>)
    requires fn.Closure? && M.Call(P.Pure, g, fn, args, env, s, live).Done?
    ensures g > 1
    ensures var ra, r := M.Args(P.Pure, g - 1, args, env, s, live), M.Call(P.Pure, g, fn, args, env, s, live);
      && ra.Done? && M.Onward(s, ra) && M.Onward(ra.s, r)
      && var b := M.Bind(fn.params, ra.v, fn.env, ra.s);
         b.Scope? && r == M.Eval(P.Pure, g - 2, fn.body, b.env, b.s, live)
  {
    hide M.Args, P.Pure, M.Bind, M.Onward, M.Eval;
  }

  /** The function knows the globals there were. */
  lemma ClosureLocals(heap: seq<(L.Value, L.Value)>, v: L.Value, x: M.Val, s: M.State)
    requires Same(heap, v, x, s.global) && v.VFun?
    ensures x.Closure? && x.params == ParamTree(v.params) && x.body == Tree(v.body)
    ensures SameLocals(heap, [], x.env, s)
  {
    assert x.env[0..] == x.env;
  }

  lemma {:induction false} AgreeCall(bud: L.Budget, fuel: nat, g: nat, e: L.SExpr, head: L.SExpr, es: seq<L.SExpr>,
                                     loc: L.Locals, w: L.World, env: M.Env, s: M.State, live: seq<int>)
    requires First(e) && L.View(e) == L.Call(head, es) && Linked(w, s) && SameLocals(w.heap, loc, env, s)
    requires L.Eval(bud, fuel, e, loc, w).Done? && Quietly(s, M.Eval(P.Pure, g, Tree(e), env, s, live))
    ensures var l := L.Eval(bud, fuel, e, loc, w);
      Agrees(l.world, l.value, s, M.Eval(P.Pure, g, Tree(e), env, s, live))
    decreases g, 0
  {
    hide Linked, SameLocals, First, L.View, Same, FirstWorld, FirstLocals, M.Bind, L.Bind, M.Args, M.Apply, L.Eval,
         M.Eval, L.EvalArgs, SameList;
    CallShape(e, head, es);
    CallUnfolds(g, e, env, s, live);
    CallRuns(bud, fuel, e, head, es, loc, w);
    var r, rf := M.Eval(P.Pure, g, Tree(e), env, s, live), M.Eval(P.Pure, g - 1, Tree(head), env, s, live);
    var la := L.EvalArgs(bud, fuel, es, loc, w);
    var lf := L.Eval(bud, fuel, head, loc, la.world);
    PartQuiet(s, rf, r);
    NextArgs(bud, fuel, es, loc, w, env, s, M.Done(M.NIL, s));
    Agree(bud, fuel, g - 1, head, loc, la.world, env, s, live);
    LinkedKept(w, s, w, rf.s) by { Kept(w, s); }
    LocalsKept(w, w, loc, env, s, rf.s) by { Kept(w, s); }
    ClosureLocals(lf.world.heap, lf.value, rf.v, s);
    var ra := M.Args(P.Pure, g - 2, Trees(es), env, rf.s, live);
    PartQuiet(rf.s, ra, r);
    AgreeArgs(bud, fuel, g - 2, es, loc, w, env, rf.s, live);
    EvalKeeps(bud, fuel, head, loc, la.world) by { LinkedFirst(la.world, loc, env, s); }
    AgreeBody(bud, fuel - 1, g - 3, la, lf, rf.v, ra, s, r, live);
  }

  /** The body, with the parameters bound. */
  lemma {:induction false} AgreeBody(bud: L.Budget, fuel: nat, g: nat, la: L.Outcomes, lf: L.Outcome, fn: M.Val,
                                     ra: M.Result, s: M.State, r: M.Result, live: seq<int>)
    requires la.Dones? && lf.Done? && lf.value.VFun? && |lf.value.params| <= |la.values| && ra.Done? && fn.Closure?
    requires Linked(la.world, s) && Keeps(la.world, lf.world) && FirstValue(lf.value) && FirstValues(la.values)
    requires Same(lf.world.heap, lf.value, fn, s.global) && SameList(la.world.heap, la.values, ra.v, s.global)
    requires Further(s, ra.s) && Quietly(ra.s, r)
    requires var b := M.Bind(fn.params, ra.v, fn.env, ra.s);
      b.Scope? && r == M.Eval(P.Pure, g, fn.body, b.env, b.s, live)
    requires L.Eval(bud, fuel, lf.value.body, L.Bind(lf.value.params, la.values, []), lf.world).Done?
    ensures var lb := L.Eval(bud, fuel, lf.value.body, L.Bind(lf.value.params, la.values, []), lf.world);
      Agrees(lb.world, lb.value, s, r)
    decreases g, 2
  {
    hide Linked, SameLocals, First, Same, FirstWorld, M.Bind, L.Bind, L.Eval, M.Eval, SameList;
    ListKept(la.world.heap, lf.world.heap, la.values, ra.v, s.global);
    ClosureLocals(lf.world.heap, lf.value, fn, s);
    ClosureLocals(lf.world.heap, lf.value, fn, ra.s);
    BindSame(lf.world.heap, lf.value.params, la.values, ra.v, [], fn.env, ra.s);
    var b := M.Bind(fn.params, ra.v, fn.env, ra.s);
    LinkedKept(la.world, s, lf.world, b.s);
    Agree(bud, fuel, g, lf.value.body, L.Bind(lf.value.params, la.values, []), lf.world, b.env, b.s, live);
    var lb := L.Eval(bud, fuel, lf.value.body, L.Bind(lf.value.params, la.values, []), lf.world);
    AgreesThen(lb.world, lb.value, s, b.s, r);
  }
}
