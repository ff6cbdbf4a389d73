/** Programs on the collected heap as it runs: each action of Mutator is carried out by the
    allocator and the collector of Collector, so that what Mutator proves of runs holds of
    them. */
module HeapRuns {
  import opened Tml
  import opened Reachability
  import opened Collector
  import opened Mutator
  import opened Wrappers

  /** The program's words and the evaluator's own roots name cells in use. */
  ghost predicate Holds(h: Heap, regs: seq<int>)
    reads h, h.heapCar, h.heapCdr, h.gcRoots
  {
    h.Valid() && AllOk(h.Live(), h.NamedRoots()) && AllOk(h.Live(), regs)
  }

  /** Scanned words that name cells in use. */
  lemma {:induction false} ScannedOk(g: Cells, regs: seq<int>, heapNext: int)
    requires AllOk(g, regs)
    ensures AllOk(g, StackRoots(regs, heapNext))
  {
    if regs != [] {
      ScannedOk(g, regs[..|regs| - 1], heapNext);
    }
  }

  /** What keeps the scanned words keeps all words that were scanned. */
  lemma ScannedKept(g: Cells, kept: Cells, named: seq<int>, regs: seq<int>, heapNext: int)
    requires Keeps(g, named + StackRoots(regs, heapNext), kept) && AllOk(g, regs)
    requires forall i :: i in g ==> 0 <= i < heapNext
    ensures Keeps(g, regs, kept) && AllOk(kept, named)
  {
    RootsSplit(g, kept, named, regs, heapNext);
    forall k | 0 <= k < |regs| ensures WordOk(kept, regs[k]) {
      assert regs[k] in regs && WordOk(g, regs[k]);
    }
  }

  lemma PartKeeps(g: Cells, named: seq<int>, kept: Cells, live: set<int>)
    requires kept == g || kept == Restrict(g, live)
    requires Closed(kept) && AllOk(kept, named)
    ensures Keeps(g, named, kept)
  {
  }

  /** Taking a cell that is not kept is a step of Mutator. */
  lemma TakenIsStep(g: Cells, kept: Cells, named: seq<int>, op: Op, regs: seq<int>, others: seq<int>, i: int)
    requires Closed(g) && AllOk(g, regs) && op.New? && WellFormed(op, |regs|)
    requires Keeps(g, named, kept) && i !in kept
    requires forall x :: x in regs + others && WordOk(g, x) ==> WordOk(kept, x)
    ensures var cells, regs' := kept[i := (regs[op.a], regs[op.d])], regs[op.dst := 4 * i + op.tag];
      && RealStep(op, State(regs, g), State(regs', cells))
      && AllOk(cells, named) && AllOk(cells, regs')
  {
    forall k | 0 <= k < |regs| ensures WordOk(kept, regs[k]) {
      assert regs[k] in regs + others && WordOk(g, regs[k]);
    }
    assert Keeps(g, regs, kept);
  }

  /** A new pair or extended object of two registers, which lie on the stack among other
      words; None only if there is no cell to be had. */
  method Allocate(h: Heap, op: Op, regs: seq<int>, others: seq<int>) returns (r: Option<seq<int>>)
    requires Holds(h, regs) && op.New? && WellFormed(op, |regs|)
    modifies h`freeList, h`free, h`heapNext, h`gcCollections, h.heapCar, h.heapCdr, h.heapMark
    ensures h.Valid() && old(h.heapNext) <= h.heapNext && (r.None? <==> old(h.Full(regs + others)))
    ensures r.Some? ==> Holds(h, r.value) && RealStep(op, State(regs, old(h.Live())), State(r.value, h.Live()))
    ensures r.Some? ==> |r.value| == |regs|
  {
    hide Keeps, Closed, ReachSet, RealStep, Chain, CatchRoots, StackRoots;
    ghost var g, named, reachable := h.Live(), h.NamedRoots(), h.Reachable(regs + others);
    var a, d := regs[op.a], regs[op.d];
    assert a in regs + others && d in regs + others && WordOk(g, a) && WordOk(g, d);
    ghost var kept;
    var i;
    if op.tag == 1 {
      var w;
      w, kept := h.Cons(a, d, regs + others);
      if w.None? {
        return None;
      }
      i := PtrIdx(w.value);
    } else {
      var idx;
      idx, kept := h.AllocCell(regs + others);
      if idx.None? {
        return None;
      }
      i := idx.value;
      PartKeeps(g, named, kept, reachable);
      h.WriteCell(i, a, d);
      assert kept[i := (NIL_VAL, NIL_VAL)][i := (a, d)] == kept[i := (a, d)];
    }
    assert h.Live() == kept[i := (a, d)];
    TakenIsStep(g, kept, named, op, regs, others, i);
    r := Some(regs[op.dst := 4 * i + op.tag]);
  }

  /** Reading and updating leave no dangling word. */
  lemma PlainOk(op: Op, s: State, named: seq<int>)
    requires InOrder(s) && AllOk(s.cells, named) && WellFormed(op, |s.regs|) && !op.New? && !op.Collect?
    ensures var s' := Plain(op, s); InOrder(s') && AllOk(s'.cells, named)
  {
    if op.Const? || op.Move? {
    } else {
      var w := s.regs[op.src];
      assert WordOk(s.cells, w);
      if op.SetCdr? && IsPointer(w) {
        var v := s.regs[op.d];
        assert WordOk(s.cells, v);
        WriteClosed(s.cells, PtrIdx(w), s.cells[PtrIdx(w)].0, v);
      }
    }
  }

  /** The actions other than allocating and collecting. */
  method Touch(h: Heap, op: Op, regs: seq<int>) returns (r: seq<int>)
    requires Holds(h, regs) && WellFormed(op, |regs|) && !op.New? && !op.Collect?
    modifies h.heapCdr
    ensures Holds(h, r) && State(r, h.Live()) == Plain(op, State(regs, old(h.Live())))
    ensures |r| == |regs|
  {
    hide Chain, CatchRoots;
    ghost var g := h.Live();
    PlainOk(op, State(regs, g), h.NamedRoots());
    r := regs;
    match op
    case Const(dst, w) => r := regs[dst := w];
    case Move(dst, src) => r := regs[dst := regs[src]];
    case Car(dst, src) =>
      if IsPointer(regs[src]) {
        assert WordOk(g, regs[src]);
        r := regs[dst := h.heapCar[PtrIdx(regs[src])]];
      }
    case Cdr(dst, src) =>
      if IsPointer(regs[src]) {
        assert WordOk(g, regs[src]);
        r := regs[dst := h.heapCdr[PtrIdx(regs[src])]];
      }
    case SetCdr(src, d) =>
      if IsPointer(regs[src]) {
        assert WordOk(g, regs[src]) && WordOk(g, regs[d]);
        h.SetCdr(regs[src], regs[d]);
      }
  }

  /** A collection while the registers are on the stack. */
  method CollectNow(h: Heap, regs: seq<int>)
    requires Holds(h, regs)
    modifies h`freeList, h`free, h`gcCollections, h.heapCar, h.heapCdr, h.heapMark
    ensures Holds(h, regs) && RealStep(Collect, State(regs, old(h.Live())), State(regs, h.Live()))
  {
    hide Chain, CatchRoots, StackRoots, ReachSet, Restrict;
    ghost var g, named := h.Live(), h.NamedRoots();
    ScannedOk(g, regs, h.heapNext);
    h.GcCollect(regs, g);
    ScannedKept(g, h.Live(), named, regs, h.heapNext);
  }

  /** One action of a program, with other words on the stack beside its registers. */
  method Step(h: Heap, op: Op, regs: seq<int>, others: seq<int>) returns (r: Option<seq<int>>)
    requires Holds(h, regs) && WellFormed(op, |regs|)
    modifies h`freeList, h`free, h`heapNext, h`gcCollections, h.heapCar, h.heapCdr, h.heapMark
    ensures h.Valid() && old(h.heapNext) <= h.heapNext && (r.None? <==> op.New? && old(h.Full(regs + others)))
    ensures r.Some? ==> Holds(h, r.value) && RealStep(op, State(regs, old(h.Live())), State(r.value, h.Live()))
    ensures r.Some? ==> |r.value| == |regs|
  {
    hide Keeps, Plain;
    if op.New? {
      r := Allocate(h, op, regs, others);
    } else if op.Collect? {
      CollectNow(h, regs);
      r := Some(regs);
    } else {
      var touched := Touch(h, op, regs);
      r := Some(touched);
    }
  }

  lemma RunLonger(n: nat, ops: seq<Op>, trace: seq<State>, k: nat, s: State)
    requires k < |ops| && RealRun(n, ops[..k], trace) && RealStep(ops[k], trace[k], s)
    ensures RealRun(n, ops[..k + 1], trace + [s])
  {
    hide RealStep;
    var longer := trace + [s];
    forall j | 0 <= j < k + 1 ensures RealStep(ops[..k + 1][j], longer[j], longer[j + 1]) {
      if j < k {
        assert ops[..k][j] == ops[..k + 1][j];
      }
    }
  }

  /** No cell is left for a program with these registers and `others` on its stack. */
  ghost predicate Exhausted(h: Heap, s: State, others: seq<int>)
    requires h.Shape()
    reads h, h.gcRoots
  {
    && h.heapNext == HEAP_SIZE
    && (h.gcEnabled ==> forall i :: 0 <= i < HEAP_SIZE ==>
          i in ReachSet(s.cells, h.NamedRoots() + StackRoots(s.regs + others, HEAP_SIZE)))
  }

  lemma FullMeans(h: Heap, regs: seq<int>, others: seq<int>)
    requires Holds(h, regs) && h.Full(regs + others)
    ensures Exhausted(h, State(regs, h.Live()), others)
  {
    hide ReachSet, StackRoots, Chain;
    if h.gcEnabled {
      ReachedAllocated(h.Live(), h.Roots(regs + others));
      assert HEAP_SIZE - 1 in h.Reachable(regs + others);
      assert HEAP_SIZE - 1 in h.Live();
    }
  }

  /** A program run on a fresh heap, whatever else the stack holds at each action. It goes on
      until memory is exhausted, and shows what it would show on a heap without reuse. */
  method Run(h: Heap, n: nat, ops: seq<Op>, others: seq<seq<int>>)
      returns (regs: seq<int>, done: nat, ghost trace: seq<State>)
    requires Holds(h, []) && h.Live() == map[] && |others| == |ops|
    requires forall k :: 0 <= k < |ops| ==> WellFormed(ops[k], n)
    modifies h`freeList, h`free, h`heapNext, h`gcCollections, h.heapCar, h.heapCdr, h.heapMark
    ensures done <= |ops| && RealRun(n, ops[..done], trace) && trace[done].regs == regs
    ensures done == |ops| ==> Holds(h, regs) && trace[done].cells == h.Live()
    ensures done < |ops| ==> ops[done].New? && h.Shape() && Exhausted(h, trace[done], others[done])
    ensures exists ideal :: IdealRuns(n, ops[..done], ideal) && Indistinguishable(regs, ideal.regs)
  {
    hide RealStep, IdealRuns, Indistinguishable;
    regs, done := seq(n, _ => NIL_VAL), 0;
    trace := [State(regs, h.Live())];
    while done < |ops|
      invariant 0 <= done <= |ops| && |regs| == n && Holds(h, regs)
      invariant RealRun(n, ops[..done], trace) && trace[done] == State(regs, h.Live())
    {
      if ops[done].New? && h.Full(regs + others[done]) {
        FullMeans(h, regs, others[done]);
      }
      var next := Step(h, ops[done], regs, others[done]);
      if next.None? {
        break;
      }
      regs := next.value;
      RunLonger(n, ops, trace, done, State(regs, h.Live()));
      trace := trace + [State(regs, h.Live())];
      done := done + 1;
    }
    CollectionInvisible(n, ops[..done], trace);
  }
}
