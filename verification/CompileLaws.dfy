/** What the expressions of the compiled language mean, by their symbols and written out as the
    pairs the reader makes of them, and what their code leaves in r0. */
module CompileLaws {
  import opened Words24
  import opened LispSource
  import opened Cor24
  import opened Codegen
  import opened CompileCorrect
  import opened CompileCalls
  import opened Wrappers
  import CompileProgram

  /** `(head a)` and `(head a b)`. */
  function List1(head: symbol, a: SExpr): SExpr { Pair(Sym(head), Pair(a, Sym(0))) }
  function List2(head: symbol, a: SExpr, b: SExpr): SExpr { Pair(Sym(head), Pair(a, Pair(b, Sym(0)))) }

  // Operators; symbol 0 is nil and symbol 1 is t

  lemma View2(op: symbol, a: SExpr, b: SExpr)
    requires Prim2(op).Some? && Prim1(op).None? && op !in {2, 3, 4, 5, 7, 13}
    ensures View(List2(op, a, b)) == Binary(Prim2(op).value, a, b)
  {
    hide Size, Elements, Symbols, LambdaParts, ViewIf, ViewDefine, Prim1, Prim2, Smaller;
  }

  lemma View1(op: symbol, a: SExpr)
    requires Prim1(op).Some? && op !in {2, 3, 4, 5, 7, 13}
    ensures View(List1(op, a)) == Unary(Prim1(op).value, a)
  {
    hide Size, Elements, Symbols, LambdaParts, ViewIf, ViewDefine, Prim1, Prim2, Smaller;
  }

  lemma Binaries(op: symbol, a: SExpr, b: SExpr, bud: Budget, fuel: nat, loc: Locals, w: World)
    requires Prim2(op).Some? && Prim1(op).None? && op !in {2, 3, 4, 5, 7, 13}
    requires Eval(bud, fuel, b, loc, w).Done?
    requires Eval(bud, fuel, a, loc, Eval(bud, fuel, b, loc, w).world).Done?
    ensures var rb := Eval(bud, fuel, b, loc, w);
      var ra := Eval(bud, fuel, a, loc, rb.world);
      var x := Apply2(Prim2(op).value, ra.value, rb.value, ra.world, bud.pairs);
      var r := Eval(bud, fuel, List2(op, a, b), loc, w);
      && (r.Done? <==> x.Some?) && (r.Done? ==> r.value == x.value.0 && r.world == x.value.1)
  {
    View2(op, a, b);
    hide View, List2, Prim1, Prim2, Apply2, Need2;
  }

  lemma Unaries(op: symbol, a: SExpr, bud: Budget, fuel: nat, loc: Locals, w: World)
    requires Prim1(op).Some? && op !in {2, 3, 4, 5, 7, 13} && Eval(bud, fuel, a, loc, w).Done?
    ensures var ra := Eval(bud, fuel, a, loc, w);
      var x, r := Apply1(Prim1(op).value, ra.value, ra.world), Eval(bud, fuel, List1(op, a), loc, w);
      && (r.Done? <==> x.Some?) && (r.Done? ==> r.value == x.value.0 && r.world == x.value.1)
  {
    View1(op, a);
    hide View, List1, Prim1, Prim2, Apply1, Need1;
  }

  /** Symbols 14, 15, 16, 19 and 20, interned as +, -, *, < and =: the second operand is evaluated,
      then the first. */
  lemma ArithmeticMeans(bud: Budget, fuel: nat, op: symbol, a: SExpr, b: SExpr, loc: Locals, w: World)
    requires op in {14, 15, 16, 19, 20} && Eval(bud, fuel, b, loc, w).Done?
    requires Eval(bud, fuel, a, loc, Eval(bud, fuel, b, loc, w).world).Done?
    requires Eval(bud, fuel, b, loc, w).value.VFix?
    requires Eval(bud, fuel, a, loc, Eval(bud, fuel, b, loc, w).world).value.VFix?
    ensures var rb := Eval(bud, fuel, b, loc, w);
      var ra := Eval(bud, fuel, a, loc, rb.world);
      var x, y, r := ra.value.n, rb.value.n, Eval(bud, fuel, List2(op, a, b), loc, w);
      && r.Done? && r.world == ra.world
      && (op == 14 ==> r.value == VFix(Fold(x + y)))
      && (op == 15 ==> r.value == VFix(Fold(x - y)))
      && (op == 16 ==> r.value == VFix(Fold(x * y)))
      && (op == 19 ==> r.value == VSym(if x < y then 1 else 0))
      && (op == 20 ==> r.value == VSym(if x == y then 1 else 0))
  {
    hide Fold, Eval, List2, Prim1, Prim2, Apply2, View;
    var rb := Eval(bud, fuel, b, loc, w);
    var ra := Eval(bud, fuel, a, loc, rb.world);
    Arithmetic(op, ra.value.n, rb.value.n, ra.world, bud.pairs);
    Binaries(op, a, b, bud, fuel, loc, w);
  }

  lemma Arithmetic(op: symbol, x: fixnum, y: fixnum, w: World, pairs: nat)
    requires op in {14, 15, 16, 19, 20}
    ensures Prim2(op).Some? && Prim1(op).None?
    ensures var r := Apply2(Prim2(op).value, VFix(x), VFix(y), w, pairs);
      && r.Some? && r.value.1 == w
      && (op == 14 ==> r.value.0 == VFix(Fold(x + y)))
      && (op == 15 ==> r.value.0 == VFix(Fold(x - y)))
      && (op == 16 ==> r.value.0 == VFix(Fold(x * y)))
      && (op == 19 ==> r.value.0 == VSym(if x < y then 1 else 0))
      && (op == 20 ==> r.value.0 == VSym(if x == y then 1 else 0))
  {
    hide Fold;
  }

  /** Symbol 21, cons. */
  lemma ConsMeans(bud: Budget, fuel: nat, a: SExpr, b: SExpr, loc: Locals, w: World)
    requires Eval(bud, fuel, b, loc, w).Done?
    requires Eval(bud, fuel, a, loc, Eval(bud, fuel, b, loc, w).world).Done?
    ensures var rb := Eval(bud, fuel, b, loc, w);
      var ra := Eval(bud, fuel, a, loc, rb.world);
      var w2, r := ra.world, Eval(bud, fuel, List2(21, a, b), loc, w);
      && (r.Done? <==> |w2.heap| < bud.pairs)
      && (r.Done? ==> r.value == VPair(|w2.heap|) && r.world == w2.(heap := w2.heap + [(ra.value, rb.value)]))
  {
    hide Eval, List2, Prim1, Prim2;
    ConsIs();
    Binaries(21, a, b, bud, fuel, loc, w);
  }

  lemma ConsIs()
    ensures Prim2(21) == Some(ConsOp) && Prim1(21).None?
  {
  }

  /** Symbols 22 and 23, car and cdr, of a pair that has been made. */
  lemma PartsMean(bud: Budget, fuel: nat, a: SExpr, loc: Locals, w: World)
    requires var r := Eval(bud, fuel, a, loc, w); r.Done? && r.value.VPair? && r.value.id < |r.world.heap|
    ensures var r := Eval(bud, fuel, a, loc, w);
      var r22, r23 := Eval(bud, fuel, List1(22, a), loc, w), Eval(bud, fuel, List1(23, a), loc, w);
      && r22.Done? && r22.value == r.world.heap[r.value.id].0 && r22.world == r.world
      && r23.Done? && r23.value == r.world.heap[r.value.id].1 && r23.world == r.world
  {
    Unaries(22, a, bud, fuel, loc, w);
    Unaries(23, a, bud, fuel, loc, w);
    hide Eval, List1;
  }

  /** Symbols 25 and 29, null? and not, and 26, pair?, which a function's address may mislead. */
  lemma TestsMean(bud: Budget, fuel: nat, a: SExpr, loc: Locals, w: World)
    requires Eval(bud, fuel, a, loc, w).Done?
    ensures var r := Eval(bud, fuel, a, loc, w);
      var nil, r26 := VSym(if r.value == VSym(0) then 1 else 0), Eval(bud, fuel, List1(26, a), loc, w);
      && (forall op: symbol :: op in {25, 29} ==>
            var r1 := Eval(bud, fuel, List1(op, a), loc, w); r1.Done? && r1.value == nil && r1.world == r.world)
      && (!r.value.VFun? ==>
            r26.Done? && r26.value == VSym(if r.value.VPair? then 1 else 0) && r26.world == r.world)
  {
    Unaries(25, a, bud, fuel, loc, w);
    Unaries(26, a, bud, fuel, loc, w);
    Unaries(29, a, bud, fuel, loc, w);
    hide Eval, List1;
  }

  /** Symbol 30, print. */
  lemma PrintMeans(bud: Budget, fuel: nat, a: SExpr, loc: Locals, w: World)
    requires Eval(bud, fuel, a, loc, w).Done?
    ensures var r, p := Eval(bud, fuel, a, loc, w), Eval(bud, fuel, List1(30, a), loc, w);
      p.Done? && p.value == r.value && p.world == r.world.(out := r.world.out + [r.value])
  {
    Unaries(30, a, bud, fuel, loc, w);
    hide Eval, List1;
  }

  // Special forms

  /** Symbol 3, if, with an else part and without one. */
  lemma IfLaw(bud: Budget, fuel: nat, t: SExpr, a: SExpr, b: SExpr, loc: Locals, w: World)
    requires Eval(bud, fuel, t, loc, w).Done?
    ensures var r := Eval(bud, fuel, t, loc, w);
      var both := Eval(bud, fuel, Pair(Sym(3), Pair(t, Pair(a, Pair(b, Sym(0))))), loc, w);
      var one := Eval(bud, fuel, List2(3, t, a), loc, w);
      && SameResult(both, Eval(bud, fuel, if r.value == VSym(0) then b else a, loc, r.world))
      && (r.value != VSym(0) ==> SameResult(one, Eval(bud, fuel, a, loc, r.world)))
      && (r.value == VSym(0) ==> one.Done? && one.value == VSym(0) && one.world == r.world)
  {
    assert View(Sym(0)) == Const(Sym(0));
  }

  /** Equal but for the stack needed. */
  predicate SameResult(r: Outcome, s: Outcome) {
    (r.Done? <==> s.Done?) && (r.Done? ==> r.value == s.value && r.world == s.world)
  }

  /** Symbol 7, begin: the value of the last form, each in the world the one before left. */
  lemma BeginLaw(bud: Budget, fuel: nat, e: SExpr, rest: SExpr, loc: Locals, w: World)
    requires Elements(rest).Some? && Eval(bud, fuel, e, loc, w).Done?
    ensures var r := Eval(bud, fuel, e, loc, w);
      SameResult(Eval(bud, fuel, Pair(Sym(7), Pair(e, rest)), loc, w),
                 if rest == Sym(0) then r else Eval(bud, fuel, Pair(Sym(7), rest), loc, r.world))
  {
    var es := [e] + Elements(rest).value;
    assert es[1..] == Elements(rest).value;
    assert View(Pair(Sym(7), Pair(e, rest))) == Begin(es);
  }

  /** Symbol 4, define, of anything but a lambda form. */
  lemma DefineLaw(bud: Budget, fuel: nat, sym: symbol, e: SExpr, loc: Locals, w: World)
    requires !(e.Pair? && e.car == Sym(5)) && Eval(bud, fuel, e, loc, w).Done?
    ensures var r, d := Eval(bud, fuel, e, loc, w), Eval(bud, fuel, List2(4, Sym(sym), e), loc, w);
      d.Done? && d.value == r.value && d.world == r.world.(globals := r.world.globals[sym := r.value])
  {
  }

  /** Symbol 5, lambda, by itself and in a definition. */
  lemma LambdaLaw(bud: Budget, fuel: nat, sym: symbol, ps: SExpr, body: SExpr, loc: Locals, w: World)
    requires Symbols(ps).Some?
    ensures var fn, lambda := VFun(Symbols(ps).value, body), Pair(Sym(5), Pair(ps, Pair(body, Sym(0))));
      && Eval(bud, fuel, lambda, loc, w) == Done(fn, w, 0)
      && Eval(bud, fuel, List2(4, Sym(sym), lambda), loc, w) == Done(fn, w.(globals := w.globals[sym := fn]), 0)
  {
  }

  /** Symbol 2, quote: a copy of the datum. */
  lemma QuoteLaw(bud: Budget, fuel: nat, d: SExpr, loc: Locals, w: World)
    requires Eval(bud, fuel, List1(2, d), loc, w).Done?
    ensures var r := Eval(bud, fuel, List1(2, d), loc, w);
      && CompileProgram.Denotes(r.world.heap, r.value, d) && w.heap <= r.world.heap
      && r.world == w.(heap := r.world.heap)
  {
    hide EvalQuote;
    CompileProgram.QuoteBuilds(bud, d, w);
  }

  // Variables and calls

  /** A parameter stands for its argument. */
  lemma {:induction false} ParamIs(ps: seq<symbol>, vs: seq<Value>, loc: Locals, i: nat)
    requires i < |ps| <= |vs| && forall j :: i < j < |ps| ==> ps[j] != ps[i]
    ensures Local(ps[i], Bind(ps, vs, loc)) == Some(vs[i])
    decreases |ps|
  {
    if i == 0 {
      Kept(ps[1..], vs[1..], [(ps[0], vs[0])] + loc, ps[0]);
    } else {
      ParamIs(ps[1..], vs[1..], [(ps[0], vs[0])] + loc, i - 1);
    }
  }

  /** What is no parameter is left alone. */
  lemma {:induction false} Kept(ps: seq<symbol>, vs: seq<Value>, loc: Locals, sym: symbol)
    requires |ps| <= |vs| && sym !in ps
    ensures Local(sym, Bind(ps, vs, loc)) == Local(sym, loc)
    decreases |ps|
  {
    if ps != [] {
      Kept(ps[1..], vs[1..], [(ps[0], vs[0])] + loc, sym);
      assert ([(ps[0], vs[0])] + loc)[1..] == loc;
    }
  }

  /** A variable is a parameter or else a global, which is 0 until it is defined. */
  lemma VariableLaw(bud: Budget, fuel: nat, sym: symbol, loc: Locals, w: World)
    requires sym >= 2
    ensures var r := Eval(bud, fuel, Sym(sym), loc, w);
      && r.Done? && r.world == w
      && (Local(sym, loc).Some? ==> r.value == Local(sym, loc).value)
      && (Local(sym, loc).None? ==> r.value == if sym in w.globals then w.globals[sym] else VFix(0))
  {
  }

  /** Arguments are evaluated last to first. */
  lemma ArgsLaw(bud: Budget, fuel: nat, e: SExpr, es: seq<SExpr>, loc: Locals, w: World)
    ensures var rest, all := EvalArgs(bud, fuel, es, loc, w), EvalArgs(bud, fuel, [e] + es, loc, w);
      && (all.Dones? <==> rest.Dones? && Eval(bud, fuel, e, loc, rest.world).Done?)
      && (all.Dones? ==> var r := Eval(bud, fuel, e, loc, rest.world);
                         all.values == [r.value] + rest.values && all.world == r.world)
  {
    hide Eval;
    assert ([e] + es)[1..] == es;
  }

  /** A call with any number of arguments: the body is evaluated with each parameter bound to its
      argument and no other local variable. */
  lemma CallsLaw(bud: Budget, fuel: nat, f: symbol, args: SExpr, ps: seq<symbol>, body: SExpr, loc: Locals, w: World)
      returns (bound: Locals)
    requires f !in {0, 1, 2, 3, 4, 5, 7, 13, 14, 15, 16, 19, 20, 21, 22, 23, 25, 26, 29, 30} && Elements(args).Some?
    requires EvalArgs(bud, fuel + 1, Elements(args).value, loc, w).Dones?
    requires var r := EvalArgs(bud, fuel + 1, Elements(args).value, loc, w);
      |ps| <= |r.values| && Lookup(f, loc, r.world) == VFun(ps, body)
    requires forall i, j :: 0 <= i < j < |ps| ==> ps[i] != ps[j]
    ensures var r := EvalArgs(bud, fuel + 1, Elements(args).value, loc, w);
      && SameResult(Eval(bud, fuel + 1, Pair(Sym(f), args), loc, w), Eval(bud, fuel, body, bound, r.world))
      && (forall i :: 0 <= i < |ps| ==> Local(ps[i], bound) == Some(r.values[i]))
      && (forall s: symbol :: s !in ps ==> Local(s, bound).None?)
  {
    hide Lookup, EvalArgs;
    assert View(Pair(Sym(f), args)) == Call(Sym(f), Elements(args).value);
    var r := EvalArgs(bud, fuel + 1, Elements(args).value, loc, w);
    bound := Bind(ps, r.values, []);
    forall i | 0 <= i < |ps| ensures Local(ps[i], bound) == Some(r.values[i]) {
      ParamIs(ps, r.values, [], i);
    }
    forall s: symbol | s !in ps ensures Local(s, bound).None? {
      Kept(ps, r.values, [], s);
    }
  }

  // What the code leaves

  /** The code of an arithmetic expression leaves the word of its result in r0 and the stack as it
      was. */
  lemma ArithmeticRuns(img: Image, fin: CState, bud: Budget, fuel: nat, op: symbol, a: SExpr, b: SExpr, env: Env,
                       st: CState, loc: Locals, w: World, m: Machine, r: Outcome) returns (m': Machine)
    requires op in {14, 15, 16, 19, 20}
    requires Starts(img, fin, bud, fuel, List2(op, a, b), env, st, loc, w, m, r)
    requires var rb := Eval(bud, fuel, b, loc, w); rb.Done? && rb.value.VFix?
    requires var ra := Eval(bud, fuel, a, loc, Eval(bud, fuel, b, loc, w).world); ra.Done? && ra.value.VFix?
    ensures var rb := Eval(bud, fuel, b, loc, w);
      var ra := Eval(bud, fuel, a, loc, rb.world);
      var x, y := ra.value.n, rb.value.n;
      && Runs(img, m, m') && m'.pc == m.pc + |Gen(List2(op, a, b), env, st).0|
      && m'.sp == m.sp && m'.fp == m.fp && SameFrom(m.sp, m.mem, m'.mem) && Agree(img, fin, ra.world, m')
      && (op == 14 ==> m'.r0 == Wrap(4 * (x + y)))
      && (op == 15 ==> m'.r0 == Wrap(4 * (x - y)))
      && (op == 16 ==> m'.r0 == Wrap(4 * (x * y)))
      && (op == 19 ==> m'.r0 == if x < y then 6 else 2)
      && (op == 20 ==> m'.r0 == if x == y then 6 else 2)
  {
    hide Eval, Gen, Agree, Runs, SameFrom, Fold, Wrap, List2;
    m' := Correct(img, fin, bud, fuel, List2(op, a, b), env, st, loc, w, m, r);
    ArithmeticMeans(bud, fuel, op, a, b, loc, w);
    var rb := Eval(bud, fuel, b, loc, w);
    var ra := Eval(bud, fuel, a, loc, rb.world);
    var x: int, y: int := ra.value.n, rb.value.n;
    FixWordFold(x + y);
    FixWordFold(x - y);
    FixWordFold(x * y);
    WordsOf(img, fin, r.value, m'.r0);
  }

  lemma WordsOf(img: Image, fin: CState, v: Value, word: int)
    requires Stands(img, fin, v, word)
    ensures v.VFix? ==> word == FixWord(v.n)
    ensures v == VSym(0) ==> word == 2
    ensures v == VSym(1) ==> word == 6
  {
  }

  /** The program `(print (+ 1 2))` prints 3. */
  lemma PrintsThree(bud: Budget)
    ensures var r := EvalSeq(bud, 0, [List1(30, List2(14, Fix(1), Fix(2)))], [], World(map[], [], []));
      r.Done? && r.value == VFix(3) && r.world.out == [VFix(3)]
  {
    hide Eval, List1, List2, Fold;
    var w := World(map[], [], []);
    NumberMeans(bud, 1, w);
    NumberMeans(bud, 2, w);
    ArithmeticMeans(bud, 0, 14, Fix(1), Fix(2), [], w);
    assert Fold(3) == 3 by { Three(); }
    PrintMeans(bud, 0, List2(14, Fix(1), Fix(2)), [], w);
  }

  lemma NumberMeans(bud: Budget, n: fixnum, w: World)
    ensures Eval(bud, 0, Fix(n), [], w) == Done(VFix(n), w, 0)
  {
  }

  lemma Three()
    ensures Fold(3) == 3
  {
  }
}
