/** First-order expressions of the compiled language: what their evaluation leaves as it was. */
module FirstOrder {
  import opened LispSource

  /** A symbol that names no special form and no primitive of the interpreter; there are 64 of
      these. */
  predicate User(i: symbol) { i >= 64 }

  predicate Users(ps: seq<symbol>) { forall i :: 0 <= i < |ps| ==> User(ps[i]) }

  /** Quoted data without strings, which the compiler does not know. */
  predicate PlainData(d: SExpr) {
    match d
    case Pair(a, b) => PlainData(a) && PlainData(b)
    case _ => !d.Obj?
  }

  /** Numbers, nil and t, variables, quoted data, if, begin, the list and arithmetic operators on as
      many operands as they have, and calls. No function or definition inside, no shadowed name. */
  predicate First(e: SExpr)
    decreases Size(e)
  {
    match View(e)
    case Const(_) => !e.Obj?
    case Var(i) => User(i)
    case Quote(d) => PlainData(d)
    case If(t, a, b) => First(t) && First(a) && First(b)
    case Begin(es) => es != [] && forall i :: 0 <= i < |es| ==> First(es[i])
    case Unary(op, a) => !op.PrintOp? && e.cdr.Pair? && e.cdr.cdr == NIL && First(a)
    case Binary(_, a, b) => Pairs(e, 3) && First(a) && First(b)
    case Call(head, es) =>
      (head.Sym? ==> User(head.i)) && First(head) && forall i :: 0 <= i < |es| ==> First(es[i])
    case _ => false
  }

  /** A list of this many elements. */
  predicate Pairs(e: SExpr, n: nat) { if n == 0 then e == NIL else e.Pair? && Pairs(e.cdr, n - 1) }

  predicate Firsts(es: seq<SExpr>) { forall i :: 0 <= i < |es| ==> First(es[i]) }

  // Functions are first-order ones

  predicate FirstValue(v: Value) { v.VFun? ==> First(v.body) && Users(v.params) }

  predicate FirstValues(vs: seq<Value>) { forall i :: 0 <= i < |vs| ==> FirstValue(vs[i]) }

  predicate FirstWorld(w: World) {
    && (forall i :: 0 <= i < |w.heap| ==> FirstValue(w.heap[i].0) && FirstValue(w.heap[i].1))
    && forall s :: s in w.globals ==> FirstValue(w.globals[s])
  }

  predicate FirstLocals(loc: Locals) { forall i :: 0 <= i < |loc| ==> User(loc[i].0) && FirstValue(loc[i].1) }

  /** Globals and output stay, pairs are only added. */
  predicate Keeps(w: World, w1: World) {
    w1.globals == w.globals && w1.out == w.out && w.heap <= w1.heap && FirstWorld(w1)
  }

  lemma {:induction false} BindFirst(ps: seq<symbol>, vs: seq<Value>, loc: Locals)
    requires |ps| <= |vs| && Users(ps) && FirstValues(vs) && FirstLocals(loc)
    ensures FirstLocals(Bind(ps, vs, loc))
    decreases |ps|
  {
    if ps != [] {
      BindFirst(ps[1..], vs[1..], [(ps[0], vs[0])] + loc);
    }
  }

  lemma {:induction false} LookupFirst(sym: symbol, loc: Locals, w: World)
    requires FirstLocals(loc) && FirstWorld(w)
    ensures FirstValue(Lookup(sym, loc, w))
    decreases |loc|
  {
    hide First;
    if loc != [] && loc[0].0 != sym {
      LookupFirst(sym, loc[1..], w);
    }
  }

  lemma {:induction false} QuoteKeeps(bud: Budget, d: SExpr, w: World)
    requires FirstWorld(w) && EvalQuote(bud, d, w).Done?
    ensures var r := EvalQuote(bud, d, w); Keeps(w, r.world) && FirstValue(r.value)
    decreases d
  {
    hide First;
    if d.Pair? {
      var rd := EvalQuote(bud, d.cdr, w);
      QuoteKeeps(bud, d.cdr, w);
      QuoteKeeps(bud, d.car, rd.world);
    }
  }

  lemma OperatorKeeps(op: Op1, v: Value, w: World)
    requires FirstWorld(w) && FirstValue(v) && !op.PrintOp? && Apply1(op, v, w).Some?
    ensures var (r, w1) := Apply1(op, v, w).value; Keeps(w, w1) && FirstValue(r)
  {
    hide First;
  }

  lemma OperatorsKeep(op: Op2, a: Value, b: Value, w: World, pairs: nat)
    requires FirstWorld(w) && FirstValue(a) && FirstValue(b) && Apply2(op, a, b, w, pairs).Some?
    ensures var (r, w1) := Apply2(op, a, b, w, pairs).value; Keeps(w, w1) && FirstValue(r)
  {
    hide First;
  }

  /** Evaluating a first-order expression changes no global, prints nothing and makes no
      functions. */
  lemma {:induction false} EvalKeeps(bud: Budget, fuel: nat, e: SExpr, loc: Locals, w: World)
    requires First(e) && FirstWorld(w) && FirstLocals(loc) && Eval(bud, fuel, e, loc, w).Done?
    ensures var r := Eval(bud, fuel, e, loc, w); Keeps(w, r.world) && FirstValue(r.value)
    decreases fuel, Size(e), 0
  {
    hide View, EvalQuote, Lookup, Apply1, Apply2, Bind, Need1, Need2, Max, FirstWorld, FirstLocals;
    var r := Eval(bud, fuel, e, loc, w);
    match View(e)
    case Const(_) => KeptWorld(w);
    case Var(sym) =>
      KeptWorld(w);
      LookupFirst(sym, loc, w);
    case Quote(d) => QuoteKeeps(bud, d, w);
    case If(t, a, b) =>
      EvalKeeps(bud, fuel, t, loc, w);
      var r1 := Eval(bud, fuel, t, loc, w);
      EvalKeeps(bud, fuel, if r1.value != VNil then a else b, loc, r1.world);
    case Begin(es) => SeqKeeps(bud, fuel, es, loc, w);
    case Unary(op, a) =>
      EvalKeeps(bud, fuel, a, loc, w);
      var ra := Eval(bud, fuel, a, loc, w);
      OperatorKeeps(op, ra.value, ra.world);
    case Binary(op, a, b) =>
      EvalKeeps(bud, fuel, b, loc, w);
      var rb := Eval(bud, fuel, b, loc, w);
      EvalKeeps(bud, fuel, a, loc, rb.world);
      var ra := Eval(bud, fuel, a, loc, rb.world);
      OperatorsKeep(op, ra.value, rb.value, ra.world, bud.pairs);
    case Call(head, es) => CallKeeps(bud, fuel, e, head, es, loc, w);
  }

  lemma KeptWorld(w: World)
    requires FirstWorld(w)
    ensures Keeps(w, w)
  {
  }

  lemma {:induction false} CallKeeps(bud: Budget, fuel: nat, e: SExpr, head: SExpr, es: seq<SExpr>, loc: Locals,
                                     w: World)
    requires First(e) && FirstWorld(w) && FirstLocals(loc) && Eval(bud, fuel, e, loc, w).Done?
    requires View(e) == Call(head, es)
    ensures var r := Eval(bud, fuel, e, loc, w); Keeps(w, r.world) && FirstValue(r.value)
    decreases fuel, Size(e), 0, 0
  {
    hide View, EvalQuote, Lookup, Apply1, Apply2, Bind, Need1, Need2, Max, FirstWorld, FirstLocals;
    ArgsKeep(bud, fuel, es, loc, w);
    var ra := EvalArgs(bud, fuel, es, loc, w);
    var rh := if head.Sym? then Done(Lookup(head.i, loc, ra.world), ra.world, 0)
              else Eval(bud, fuel, head, loc, ra.world);
    if head.Sym? {
      LookupFirst(head.i, loc, ra.world);
    } else {
      EvalKeeps(bud, fuel, head, loc, ra.world);
    }
    BindFirst(rh.value.params, ra.values, []) by { NoLocals(); }
    EvalKeeps(bud, fuel - 1, rh.value.body, Bind(rh.value.params, ra.values, []), rh.world);
  }

  lemma NoLocals()
    ensures FirstLocals([])
  {
  }

  lemma {:induction false} ArgsKeep(bud: Budget, fuel: nat, es: seq<SExpr>, loc: Locals, w: World)
    requires Firsts(es) && FirstWorld(w) && FirstLocals(loc) && EvalArgs(bud, fuel, es, loc, w).Dones?
    ensures var r := EvalArgs(bud, fuel, es, loc, w); Keeps(w, r.world) && FirstValues(r.values)
    decreases fuel, Sizes(es), 1
  {
    hide Eval, First, Max, FirstWorld, FirstLocals;
    if es == [] {
      KeptWorld(w);
    } else {
      ArgsKeep(bud, fuel, es[1..], loc, w);
      EvalKeeps(bud, fuel, es[0], loc, EvalArgs(bud, fuel, es[1..], loc, w).world);
    }
  }

  lemma {:induction false} SeqKeeps(bud: Budget, fuel: nat, es: seq<SExpr>, loc: Locals, w: World)
    requires es != [] && Firsts(es) && FirstWorld(w) && FirstLocals(loc) && EvalSeq(bud, fuel, es, loc, w).Done?
    ensures var r := EvalSeq(bud, fuel, es, loc, w); Keeps(w, r.world) && FirstValue(r.value)
    decreases fuel, Sizes(es), 1
  {
    hide Eval, First, Max, FirstWorld, FirstLocals;
    EvalKeeps(bud, fuel, es[0], loc, w);
    if |es| > 1 {
      SeqKeeps(bud, fuel, es[1..], loc, Eval(bud, fuel, es[0], loc, w).world);
    }
  }
}
