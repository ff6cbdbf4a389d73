/** The collector is invisible: a program on the collected, bounded heap computes
    what it would compute on a heap that never reuses a cell. */
module Mutator {
  import opened Tml
  import opened Reachability

  /** One action of a program that keeps its values in registers.  `tag` is the tag of
      the new pointer (1 for a pair, 3 for an extended object). */
  datatype Op =
    | Const(dst: nat, w: int)
    | Move(dst: nat, src: nat)
    | New(dst: nat, tag: int, a: nat, d: nat)
    | Car(dst: nat, src: nat)
    | Cdr(dst: nat, src: nat)
    | SetCdr(src: nat, d: nat)
    | Collect

  /** Registers and cells; on the ideal heap, the cells are never reused. */
  datatype State = State(regs: seq<int>, cells: Cells)

  predicate WellFormed(op: Op, n: nat) {
    match op
    case Const(dst, w) => dst < n && !IsPointer(w)
    case Move(dst, src) => dst < n && src < n
    case New(dst, tag, a, d) => dst < n && (tag == 1 || tag == 3) && a < n && d < n
    case Car(dst, src) => dst < n && src < n
    case Cdr(dst, src) => dst < n && src < n
    case SetCdr(src, d) => src < n && d < n
    case Collect => true
  }

  /** The actions that neither allocate nor collect, the same on both heaps; a car,
      cdr or update of a register without a pointer has no effect. */
  function Plain(op: Op, s: State): (s': State)
    requires WellFormed(op, |s.regs|) && Closed(s.cells) && AllOk(s.cells, s.regs)
    requires !op.New? && !op.Collect?
    ensures |s'.regs| == |s.regs|
  {
    match op
    case Const(dst, w) => s.(regs := s.regs[dst := w])
    case Move(dst, src) => s.(regs := s.regs[dst := s.regs[src]])
    case Car(dst, src) =>
      if IsPointer(s.regs[src]) then s.(regs := s.regs[dst := s.cells[PtrIdx(s.regs[src])].0]) else s
    case Cdr(dst, src) =>
      if IsPointer(s.regs[src]) then s.(regs := s.regs[dst := s.cells[PtrIdx(s.regs[src])].1]) else s
    case SetCdr(src, d) =>
      if IsPointer(s.regs[src]) then
        var i := PtrIdx(s.regs[src]);
        s.(cells := s.cells[i := (s.cells[i].0, s.regs[d])])
      else s
  }

  /** A heap in order: no dangling word in a cell or a register. */
  ghost predicate InOrder(s: State) { Closed(s.cells) && AllOk(s.cells, s.regs) }

  /** A step on the collected heap.  An allocation or a collection may keep any closed
      part of the heap that has all the registers need, and an allocation may reuse
      any cell that is not kept.  HeapRuns shows that Collector.Heap takes steps of this
      kind when the registers are on its stack. */
  ghost predicate RealStep(op: Op, s: State, s': State) {
    && InOrder(s) && WellFormed(op, |s.regs|)
    && match op
       case New(dst, tag, a, d) =>
         exists kept, i :: Keeps(s.cells, s.regs, kept) && i !in kept
           && s' == State(s.regs[dst := 4 * i + tag], kept[i := (s.regs[a], s.regs[d])])
       case Collect => exists kept :: Keeps(s.cells, s.regs, kept) && s' == s.(cells := kept)
       case _ => s' == Plain(op, s)
  }

  /** A fresh pair holds the words it was made of, and after an update of its cdr that one. */
  lemma FreshReads(dst: nat, tag: int, a: nat, d: nat, v: nat, r: nat, s: State, s1: State, s2: State, s3: State,
                   s4: State, s5: State)
    requires RealStep(New(dst, tag, a, d), s, s1) && RealStep(Car(r, dst), s1, s2) && RealStep(Cdr(r, dst), s1, s3)
    requires RealStep(SetCdr(dst, v), s1, s4) && RealStep(Cdr(r, dst), s4, s5)
    ensures s2.regs == s1.regs[r := s.regs[a]] && s3.regs == s1.regs[r := s.regs[d]]
    ensures s4.regs == s1.regs && s5.regs == s1.regs[r := s1.regs[v]]
    ensures RealStep(Car(r, dst), s4, s5.(regs := s1.regs[r := s.regs[a]]))
  {
    FreshIs(dst, tag, a, d, s, s1);
    hide Keeps, InOrder;
  }

  lemma FreshIs(dst: nat, tag: int, a: nat, d: nat, s: State, s1: State)
    requires RealStep(New(dst, tag, a, d), s, s1)
    ensures dst < |s1.regs| && PtrIdx(s1.regs[dst]) in s1.cells
    ensures s1.cells[PtrIdx(s1.regs[dst])] == (s.regs[a], s.regs[d]) && IsPointer(s1.regs[dst])
  {
    hide Keeps, InOrder;
    var kept, i :| Keeps(s.cells, s.regs, kept) && i !in kept
                   && s1 == State(s.regs[dst := 4 * i + tag], kept[i := (s.regs[a], s.regs[d])]);
    assert PtrIdx(s1.regs[dst]) == i;
  }

  /** The same step on the ideal heap, whose next cell is `|cells|`. */
  function IdealStep(op: Op, s: State): (s': State)
    requires WellFormed(op, |s.regs|) && InOrder(s)
    ensures |s'.regs| == |s.regs|
  {
    match op
    case New(dst, tag, a, d) =>
      State(s.regs[dst := 4 * |s.cells| + tag], s.cells[|s.cells| := (s.regs[a], s.regs[d])])
    case Collect => s
    case _ => Plain(op, s)
  }

  /** Word `w` of the collected heap stands for word `v` of the ideal one. */
  predicate Rel(f: map<int, int>, w: int, v: int) {
    if IsPointer(w) then v % 4 == w % 4 && PtrIdx(w) in f && f[PtrIdx(w)] == PtrIdx(v)
    else v == w
  }

  ghost predicate Injective(f: map<int, int>) {
    forall i, j :: i in f && j in f && f[i] == f[j] ==> i == j
  }

  /** The cells of the collected heap correspond, word by word, to their images. */
  ghost predicate SameCells(f: map<int, int>, cells: Cells, ideal: Cells) {
    forall i :: i in cells ==>
      i in f && f[i] in ideal && Rel(f, cells[i].0, ideal[f[i]].0) && Rel(f, cells[i].1, ideal[f[i]].1)
  }

  ghost predicate SameWords(f: map<int, int>, ws: seq<int>, vs: seq<int>) {
    |ws| == |vs| && forall r :: 0 <= r < |ws| ==> Rel(f, ws[r], vs[r])
  }

  /** The ideal heap hands out its cells in order. */
  ghost predicate Packed(ideal: Cells) { forall i :: i in ideal <==> 0 <= i < |ideal| }

  /** `f` sends every cell in use to the ideal cell it stands for. */
  ghost predicate Sim(f: map<int, int>, act: State, ideal: State) {
    && f.Keys == act.cells.Keys && Injective(f)
    && Packed(ideal.cells)
    && SameCells(f, act.cells, ideal.cells)
    && SameWords(f, act.regs, ideal.regs)
    && InOrder(act) && InOrder(ideal)
  }

  /** What a program can tell: tags, immediate words, and which words are eq. */
  ghost predicate Indistinguishable(a: seq<int>, b: seq<int>) {
    && |a| == |b|
    && (forall r :: 0 <= r < |a| ==> a[r] % 4 == b[r] % 4)
    && (forall r :: 0 <= r < |a| && !IsPointer(a[r]) ==> a[r] == b[r])
    && (forall r, q :: 0 <= r < |a| && 0 <= q < |a| ==> (a[r] == a[q] <==> b[r] == b[q]))
  }

  lemma SimShows(f: map<int, int>, act: State, ideal: State)
    requires Sim(f, act, ideal)
    ensures Indistinguishable(act.regs, ideal.regs)
  {
    forall r, q | 0 <= r < |act.regs| && 0 <= q < |act.regs|
      ensures act.regs[r] == act.regs[q] <==> ideal.regs[r] == ideal.regs[q]
    {
      assert Rel(f, act.regs[r], ideal.regs[r]) && Rel(f, act.regs[q], ideal.regs[q]);
    }
  }

  /** Dropping cells that are not kept keeps the correspondence. */
  lemma SimKeep(f: map<int, int>, act: State, ideal: State, kept: Cells) returns (f': map<int, int>)
    requires Sim(f, act, ideal) && Keeps(act.cells, act.regs, kept)
    ensures Sim(f', act.(cells := kept), ideal)
  {
    f' := map i | i in f && i in kept :: f[i];
    forall i ensures i in f' <==> i in kept { assert i in kept ==> i in act.cells.Keys; }
    assert f'.Keys == kept.Keys;
    forall w, v | Rel(f, w, v) && WordOk(kept, w) ensures Rel(f', w, v) {}
    forall i | i in kept
      ensures f'[i] in ideal.cells && Rel(f', kept[i].0, ideal.cells[f'[i]].0) && Rel(f', kept[i].1,
            ideal.cells[f'[i]].1)
    {
      assert i in act.cells && WordOk(kept, kept[i].0) && WordOk(kept, kept[i].1);
    }
    assert SameWords(f', act.regs, ideal.regs);
  }

  /** A new cell, standing for the ideal heap's next one, disturbs no correspondence. */
  lemma NewCells(f: map<int, int>, cells: Cells, ideal: Cells, i: int, ws: (int, int), vs: (int, int))
    requires f.Keys == cells.Keys && Injective(f) && Packed(ideal) && Closed(cells)
    requires SameCells(f, cells, ideal) && Rel(f, ws.0, vs.0) && Rel(f, ws.1, vs.1)
    requires i !in cells
    ensures Injective(f[i := |ideal|]) && Packed(ideal[|ideal| := vs])
    ensures SameCells(f[i := |ideal|], cells[i := ws], ideal[|ideal| := vs])
  {
    var f' := f[i := |ideal|];
    assert |ideal[|ideal| := vs]| == |ideal| + 1;
    forall j | j in cells
      ensures j != i && f'[j] in ideal && Rel(f', cells[j].0, ideal[f'[j]].0) && Rel(f', cells[j].1, ideal[f'[j]].1)
    {
      assert WordOk(cells, cells[j].0) && WordOk(cells, cells[j].1);
    }
  }

  lemma SimNew(f: map<int, int>, act: State, ideal: State, op: Op, i: int) returns (f': map<int, int>)
    requires Sim(f, act, ideal) && op.New? && WellFormed(op, |act.regs|) && i !in act.cells
    ensures Sim(f', State(act.regs[op.dst := 4 * i + op.tag], act.cells[i := (act.regs[op.a], act.regs[op.d])]),
                IdealStep(op, ideal))
  {
    hide SameCells, Injective, Packed, Closed;
    var n := |ideal.cells|;
    var a, d, a', d' := act.regs[op.a], act.regs[op.d], ideal.regs[op.a], ideal.regs[op.d];
    assert Rel(f, a, a') && Rel(f, d, d');
    NewCells(f, act.cells, ideal.cells, i, (a, d), (a', d'));
    WriteClosed(act.cells, i, a, d);
    WriteClosed(ideal.cells, n, a', d');
    f' := f[i := n];
    var s := act.regs[op.dst := 4 * i + op.tag];
    forall r | 0 <= r < |s| ensures Rel(f', s[r], ideal.regs[op.dst := 4 * n + op.tag][r]) {
      if r != op.dst {
        assert Rel(f, act.regs[r], ideal.regs[r]);
      }
    }
  }

  lemma SimPlain(f: map<int, int>, act: State, ideal: State, op: Op)
    requires Sim(f, act, ideal) && WellFormed(op, |act.regs|) && !op.New? && !op.Collect?
    ensures Sim(f, Plain(op, act), Plain(op, ideal))
  {
    if op.Car? || op.Cdr? || op.SetCdr? {
      assert Rel(f, act.regs[op.src], ideal.regs[op.src]);
    }
    if op.SetCdr? && IsPointer(act.regs[op.src]) {
      var i, v, v' := PtrIdx(act.regs[op.src]), act.regs[op.d], ideal.regs[op.d];
      assert Rel(f, v, v');
      WriteClosed(act.cells, i, act.cells[i].0, v);
      WriteClosed(ideal.cells, f[i], ideal.cells[f[i]].0, v');
      assert ideal.cells.Keys == ideal.cells[f[i] := (ideal.cells[f[i]].0, v')].Keys;
    }
  }

  lemma SimAllocation(f: map<int, int>, op: Op, act: State, act': State, ideal: State) returns (f': map<int, int>)
    requires Sim(f, act, ideal) && op.New? && RealStep(op, act, act')
    ensures Sim(f', act', IdealStep(op, ideal))
  {
    hide Sim, Keeps, InOrder;
    var kept, i :| Keeps(act.cells, act.regs, kept) && i !in kept
      && act' == State(act.regs[op.dst := 4 * i + op.tag], kept[i := (act.regs[op.a], act.regs[op.d])]);
    var f1 := SimKeep(f, act, ideal, kept);
    f' := SimNew(f1, act.(cells := kept), ideal, op, i);
  }

  lemma SimCollection(f: map<int, int>, act: State, act': State, ideal: State) returns (f': map<int, int>)
    requires Sim(f, act, ideal) && RealStep(Collect, act, act')
    ensures Sim(f', act', ideal)
  {
    hide Sim, Keeps, InOrder;
    var kept :| Keeps(act.cells, act.regs, kept) && act' == act.(cells := kept);
    f' := SimKeep(f, act, ideal, kept);
  }

  /** One action, on the collected heap and on the ideal one. */
  lemma SimStep(f: map<int, int>, op: Op, act: State, act': State, ideal: State) returns (f': map<int, int>)
    requires Sim(f, act, ideal) && RealStep(op, act, act')
    ensures Sim(f', act', IdealStep(op, ideal))
  {
    hide Sim, Keeps, InOrder, Plain;
    if op.New? {
      f' := SimAllocation(f, op, act, act', ideal);
    } else if op.Collect? {
      f' := SimCollection(f, act, act', ideal);
    } else {
      SimPlain(f, act, ideal, op);
      f' := f;
    }
  }

  /** `trace` is a run of `ops` on the collected heap, starting with `n` registers
      that hold nil and no cell in use. */
  ghost predicate RealRun(n: nat, ops: seq<Op>, trace: seq<State>) {
    && |trace| == |ops| + 1
    && trace[0] == Start(n)
    && forall k :: 0 <= k < |ops| ==> RealStep(ops[k], trace[k], trace[k + 1])
  }

  function Start(n: nat): State { State(seq(n, _ => NIL_VAL), map[]) }

  lemma {:induction false} RunSim(n: nat, ops: seq<Op>, trace: seq<State>)
      returns (f: map<int, int>, ideal: State)
    requires RealRun(n, ops, trace)
    ensures Sim(f, trace[|ops|], ideal)
    ensures IdealRuns(n, ops, ideal)
  {
    if ops == [] {
      f, ideal := map[], Start(n);
    } else {
      var m := |ops| - 1;
      var f0, i0 := RunSim(n, ops[..m], trace[..m + 1]);
      assert RealStep(ops[m], trace[m], trace[m + 1]);
      f := SimStep(f0, ops[m], trace[m], trace[m + 1], i0);
      ideal := IdealStep(ops[m], i0);
    }
  }

  /** Running `ops` on the ideal heap ends in `s`. */
  ghost predicate IdealRuns(n: nat, ops: seq<Op>, s: State)
    decreases |ops|
  {
    if ops == [] then s == Start(n)
    else
      var m := |ops| - 1;
      exists t :: IdealRuns(n, ops[..m], t) && WellFormed(ops[m], |t.regs|) && InOrder(t)
        && s == IdealStep(ops[m], t)
  }

  /** Whatever the collector keeps, whenever it runs and whichever cells it hands out
      again, every run can be matched by a run that never reuses a cell, and the
      program cannot tell the two apart. */
  lemma CollectionInvisible(n: nat, ops: seq<Op>, trace: seq<State>)
    requires RealRun(n, ops, trace)
    ensures exists ideal :: IdealRuns(n, ops, ideal) && Indistinguishable(trace[|ops|].regs, ideal.regs)
  {
    var f, ideal := RunSim(n, ops, trace);
    SimShows(f, trace[|ops|], ideal);
  }

  /** The ideal run is unique, so the match above is not a choice. */
  lemma {:induction false} IdealDetermined(n: nat, ops: seq<Op>, s: State, t: State)
    requires IdealRuns(n, ops, s) && IdealRuns(n, ops, t)
    ensures s == t
    decreases |ops|
  {
    if ops != [] {
      var m := |ops| - 1;
      var s0 :| IdealRuns(n, ops[..m], s0) && WellFormed(ops[m], |s0.regs|) && InOrder(s0) && s == IdealStep(ops[m],
            s0);
      var t0 :| IdealRuns(n, ops[..m], t0) && WellFormed(ops[m], |t0.regs|) && InOrder(t0) && t == IdealStep(ops[m],
            t0);
      IdealDetermined(n, ops[..m], s0, t0);
    }
  }
}
