/** A compiled program, from _cmain to its return. */
module CompileProgram {
  import opened Words24
  import opened LispSource
  import opened Cor24
  import opened Codegen
  import opened Labels
  import opened CompileCorrect
  import opened CompileCalls

  const EMPTY: World := World(map[], [], [])

  /** Every function the compiler met stands behind its label. */
  lemma {:induction false} FnsPlaced(img: Image, st: CState, done: nat, p: int, k: int)
    requires UniqueLabels(img.code) && done <= k < |GenFns(st, done).1.fns|
    requires At(img.code, p, GenFns(st, done).0) && done <= |st.fns|
    ensures FnPlaced(img, GenFns(st, done).1, GenFns(st, done).1.fns[k])
    decreases Pending(st.fns, done)
  {
    hide Pending, FnPlaced, GenFn, Later, At;
    if done < |st.fns| {
      var f := st.fns[done];
      GenFnPending(st, done);
      var (c, st1) := GenFn(f, st);
      var (rest, fin) := GenFns(st1, done + 1);
      AtSplit(img.code, p, c, rest);
      FnsLater(st1, done + 1);
      PrefixAt(st, st1, fin, done);
      if k == done {
        PlaceFn(img, fin, f, st, p);
      } else {
        FnsPlaced(img, st1, done + 1, p + |c|, k);
      }
    }
  }

  lemma FnsLater(st: CState, done: nat)
    requires done <= |st.fns|
    ensures Later(st, GenFns(st, done).1)
  {
    hide GenFns, Later, AllKnown;
    GenFnsKnown(st, done);
  }

  lemma PrefixAt(a: CState, b: CState, c: CState, k: nat)
    requires Later(a, b) && Later(b, c) && k < |a.fns|
    ensures k < |b.fns| <= |c.fns| && c.fns[k] == a.fns[k]
  {
  }

  lemma PlaceFn(img: Image, fin: CState, f: Fn, st: CState, p: int)
    requires UniqueLabels(img.code) && At(img.code, p, GenFn(f, st).0) && Later(GenFn(f, st).1, fin)
    ensures FnPlaced(img, fin, f)
  {
    hide Gen;
    AtItem(img.code, p, GenFn(f, st).0, 0);
    LabelAt(img.code, f.lbl, p);
  }

  lemma ProgramItems(code: seq<Item>, exprs: seq<SExpr>)
    requires code == GenProgram(exprs).0
    ensures var (c, st1) := GenSeq(exprs, [], START);
            PrologueAt(code, 0) && At(code, 4, c) && EpilogueAt(code, 4 + |c|) && At(code, 4 + |c| + 5, GenFns(st1,
                  0).0)
  {
    hide GenSeq, GenFns, GenData;
    var (c, st1) := GenSeq(exprs, [], START);
    var (fs, st2) := GenFns(st1, 0);
    var data := GenData(st2.globs);
    assert At(code, 0, PROLOGUE + (c + (EPILOGUE + (fs + data))));
    AtSplit(code, 0, PROLOGUE, c + (EPILOGUE + (fs + data)));
    AtItem(code, 0, PROLOGUE, 0);
    AtItem(code, 0, PROLOGUE, 1);
    AtItem(code, 0, PROLOGUE, 2);
    AtItem(code, 0, PROLOGUE, 3);
    AtSplit(code, 4, c, EPILOGUE + (fs + data));
    AtSplit(code, 4 + |c|, EPILOGUE, fs + data);
    EpilogueItems(code, 4 + |c|);
    AtSplit(code, 4 + |c| + 5, fs, data);
  }

  /** The text of a program, once its addresses are assigned, is all the proofs about
      expressions ask for. */
  lemma ProgramWhole(img: Image, exprs: seq<SExpr>)
    requires Wired(img) && img.code == GenProgram(exprs).0
    ensures Whole(img, GenProgram(exprs).1)
    ensures Later(GenSeq(exprs, [], START).1, GenProgram(exprs).1)
  {
    hide GenSeq, GenFns, GenData, Wired, FnPlaced, Later;
    ProgramUnique(exprs);
    ProgramItems(img.code, exprs);
    var (c, st1) := GenSeq(exprs, [], START);
    var fin := GenProgram(exprs).1;
    FnsLater(st1, 0);
    forall k | 0 <= k < |fin.fns| ensures FnPlaced(img, fin, fin.fns[k]) {
      FnsPlaced(img, st1, 0, 4 + |c| + 5, k);
    }
  }

  /** A machine about to call _cmain: nothing allocated, nothing printed, globals zero. */
  ghost predicate Boot(img: Image, m: Machine) {
    && m.pc == 0 && m.hist == [] && m.out == []
    && forall g :: 0 <= g < 512 ==> Read(m.mem, img.globalAdr(g)) == 0
  }

  lemma BootAgrees(img: Image, fin: CState, m: Machine)
    requires Boot(img, m)
    ensures Agree(img, fin, EMPTY, m)
  {
    assert FixWord(0) == 0;
  }

  /** Compiling a program and running it from _cmain prints what the program prints,
      leaves the value of its last expression in r0, and returns to the caller with sp,
      fp, r2 and the stack as they were. */
  lemma ProgramCorrect(img: Image, exprs: seq<SExpr>, fuel: nat, m: Machine, r: Outcome) returns (m': Machine)
    requires Wired(img) && img.code == GenProgram(exprs).0 && Boot(img, m) && exprs != []
    requires r == EvalSeq(Budget(img.need, img.capacity), fuel, exprs, [], EMPTY) && r.Done?
    requires Room(img, m, 9 + r.deep)
    ensures Runs(img, m, m') && m'.pc == img.target(m.r1)
    ensures m'.sp == m.sp && m'.fp == m.fp && m'.r2 == m.r2 && SameFrom(m.sp, m.mem, m'.mem)
    ensures Stands(img, GenProgram(exprs).1, r.value, m'.r0)
    ensures Agree(img, GenProgram(exprs).1, r.world, m')
  {
    hide GenSeq, GenProgram, EvalSeq, Wired, Whole, Later, Agree, Stands, At, PrologueAt, EpilogueAt, Runs, Linked;
    var fin := GenProgram(exprs).1;
    ProgramWhole(img, exprs);
    ProgramItems(img.code, exprs);
    BootAgrees(img, fin, m);
    var me := PrologueRuns(img, m);
    StartReady(img, fin, m, me);
    var c := GenSeq(exprs, [], START).0;
    var mb := SeqRuns(img, fin, Budget(img.need, img.capacity), fuel, exprs, [], START, [], EMPTY, me, r);
    m' := EpilogueRuns(img, mb, m.fp, m.r2, m.r1);
    RunsTrans(img, m, me, mb);
    RunsTrans(img, m, mb, m');
    WholeLinked(img, fin);
    QuietAgree(img, fin, r.world, mb, m');
  }

  lemma WholeLinked(img: Image, fin: CState)
    requires Whole(img, fin)
    ensures Linked(img)
  {
  }

  lemma StartReady(img: Image, fin: CState, m: Machine, me: Machine)
    requires Whole(img, fin) && Agree(img, fin, EMPTY, m) && Framed(img, m, me)
    ensures Ready(img, fin, [], [], EMPTY, me)
  {
    QuietAgree(img, fin, EMPTY, m, me);
  }

  // Quoted data

  /** Value `v` is the datum `e`, built from the pairs of `heap`. */
  ghost predicate Denotes(heap: seq<(Value, Value)>, v: Value, e: SExpr)
    decreases e
  {
    match e
    case Pair(a, d) =>
      v.VPair? && v.id < |heap| && Denotes(heap, heap[v.id].0, a) && Denotes(heap, heap[v.id].1, d)
    case _ => v == ConstValue(e)
  }

  lemma {:induction false} DenotesGrows(heap: seq<(Value, Value)>, heap': seq<(Value, Value)>, v: Value, e: SExpr)
    requires Denotes(heap, v, e) && heap <= heap'
    ensures Denotes(heap', v, e)
    decreases e
  {
    if e.Pair? {
      DenotesGrows(heap, heap', heap[v.id].0, e.car);
      DenotesGrows(heap, heap', heap[v.id].1, e.cdr);
    }
  }

  /** The pairs that quote makes at run time rebuild the quoted datum; whatever existed
      before stays as it was. */
  lemma {:induction false} QuoteBuilds(bud: Budget, e: SExpr, w: World)
    requires EvalQuote(bud, e, w).Done?
    ensures var r := EvalQuote(bud, e, w); Denotes(r.world.heap, r.value, e) && w.heap <= r.world.heap
    ensures var r := EvalQuote(bud, e, w); r.world == w.(heap := r.world.heap)
    decreases e
  {
    if e.Pair? {
      var rd := EvalQuote(bud, e.cdr, w);
      var ra := EvalQuote(bud, e.car, rd.world);
      var r := EvalQuote(bud, e, w);
      QuoteBuilds(bud, e.cdr, w);
      QuoteBuilds(bud, e.car, rd.world);
      DenotesGrows(rd.world.heap, r.world.heap, rd.value, e.cdr);
      DenotesGrows(ra.world.heap, r.world.heap, ra.value, e.car);
    }
  }

  // Fuel is only a device

  /** More fuel changes no outcome. */
  lemma {:induction false} EvalMono(bud: Budget, fuel: nat, fuel': nat, e: SExpr, loc: Locals, w: World)
    requires fuel <= fuel' && Eval(bud, fuel, e, loc, w).Done?
    ensures Eval(bud, fuel', e, loc, w) == Eval(bud, fuel, e, loc, w)
    decreases fuel, Size(e), 0
  {
    hide View, EvalQuote, Lookup, Apply1, Apply2, Bind, Need1, Need2, Max, ConstValue;
    match View(e) {
      case If(t, a, b) =>
        EvalMono(bud, fuel, fuel', t, loc, w);
        var r1 := Eval(bud, fuel, t, loc, w);
        if r1.value != VNil {
          EvalMono(bud, fuel, fuel', a, loc, r1.world);
        } else {
          EvalMono(bud, fuel, fuel', b, loc, r1.world);
        }
      case Begin(es) => EvalSeqMono(bud, fuel, fuel', es, loc, w);
      case Define(sym, e1) => EvalMono(bud, fuel, fuel', e1, loc, w);
      case Unary(op, a) => EvalMono(bud, fuel, fuel', a, loc, w);
      case Binary(op, a, b) =>
        EvalMono(bud, fuel, fuel', b, loc, w);
        EvalMono(bud, fuel, fuel', a, loc, Eval(bud, fuel, b, loc, w).world);
      case Call(head, args) =>
        EvalArgsMono(bud, fuel, fuel', args, loc, w);
        var r1 := EvalArgs(bud, fuel, args, loc, w);
        if !head.Sym? {
          EvalMono(bud, fuel, fuel', head, loc, r1.world);
        }
        var rh := if head.Sym? then Done(Lookup(head.i, loc, r1.world), r1.world, 0) else Eval(bud, fuel, head, loc,
              r1.world);
        EvalMono(bud, fuel - 1, fuel' - 1, rh.value.body, Bind(rh.value.params, r1.values, []), rh.world);
      case _ =>
    }
  }

  lemma {:induction false} EvalArgsMono(bud: Budget, fuel: nat, fuel': nat, args: seq<SExpr>, loc: Locals, w: World)
    requires fuel <= fuel' && EvalArgs(bud, fuel, args, loc, w).Dones?
    ensures EvalArgs(bud, fuel', args, loc, w) == EvalArgs(bud, fuel, args, loc, w)
    decreases fuel, Sizes(args), 1
  {
    hide Eval, Max;
    if args != [] {
      EvalArgsMono(bud, fuel, fuel', args[1..], loc, w);
      EvalMono(bud, fuel, fuel', args[0], loc, EvalArgs(bud, fuel, args[1..], loc, w).world);
    }
  }

  lemma {:induction false} EvalSeqMono(bud: Budget, fuel: nat, fuel': nat, es: seq<SExpr>, loc: Locals, w: World)
    requires es != [] && fuel <= fuel' && EvalSeq(bud, fuel, es, loc, w).Done?
    ensures EvalSeq(bud, fuel', es, loc, w) == EvalSeq(bud, fuel, es, loc, w)
    decreases fuel, Sizes(es), 1
  {
    hide Eval, Max;
    EvalMono(bud, fuel, fuel', es[0], loc, w);
    if |es| > 1 {
      EvalSeqMono(bud, fuel, fuel', es[1..], loc, Eval(bud, fuel, es[0], loc, w).world);
    }
  }
}
