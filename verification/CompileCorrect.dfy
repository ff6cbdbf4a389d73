/** Compiled code computes what the source means. */
module CompileCorrect {
  import opened Words24
  import opened LispSource
  import opened Cor24
  import opened Codegen
  import opened Wrappers

  /** Word `x` stands for value `v`; a function stands at the address of its label. */
  ghost predicate Stands(img: Image, fin: CState, v: Value, x: int) {
    match v
    case VFix(n) => x == FixWord(n)
    case VSym(i) => x == 4 * i + 2
    case VPair(id) => id < img.capacity && x == img.pairWord(id)
    case VFun(ps, body) => exists k :: 0 <= k < |fin.fns| && IsFn(img, fin.fns[k], ps, body, x)
  }

  ghost predicate IsFn(img: Image, f: Fn, ps: seq<symbol>, body: SExpr, x: int) {
    f.body == body && f.env == EnvParams(ps, 9, []) && x == img.adr(FindLabel(img.code, f.lbl))
  }

  /** The machine holds the world: globals, pairs and printed words. */
  ghost predicate Agree(img: Image, fin: CState, w: World, m: Machine) {
    && (forall g :: g in fin.globs ==> Stands(img, fin, Global(w, g), Read(m.mem, img.globalAdr(g))))
    && |w.heap| == |m.hist| <= img.capacity
    && (forall i :: 0 <= i < |w.heap| ==> PairStands(img, fin, w.heap[i], m.hist[i]))
    && |w.out| == |m.out|
    && (forall i :: 0 <= i < |w.out| ==> Stands(img, fin, w.out[i], m.out[i]))
  }

  ghost predicate PairStands(img: Image, fin: CState, p: (Value, Value), x: (int, int)) {
    Stands(img, fin, p.0, x.0) && Stands(img, fin, p.1, x.1)
  }

  /** The parameters are in the frame, at or above the stack pointer. */
  ghost predicate Frame(img: Image, fin: CState, env: Env, loc: Locals, m: Machine) {
    && |env| == |loc|
    && forall i :: 0 <= i < |env| ==>
         && env[i].0 == loc[i].0
         && 0 <= env[i].1 && m.sp <= m.fp + env[i].1 < MODULUS
         && Stands(img, fin, loc[i].1, Read(m.mem, m.fp + env[i].1))
  }

  /** There are `deep` bytes of stack left. */
  ghost predicate Room(img: Image, m: Machine, deep: int) { img.floor + deep <= m.sp < MODULUS }

  ghost predicate FnPlaced(img: Image, fin: CState, f: Fn) {
    exists st :: At(img.code, FindLabel(img.code, f.lbl), GenFn(f, st).0) && Later(GenFn(f, st).1, fin)
  }

  /** A linked program that contains every function the compiler met. */
  ghost predicate Whole(img: Image, fin: CState) {
    && Linked(img)
    && forall k :: 0 <= k < |fin.fns| ==> FnPlaced(img, fin, fin.fns[k])
  }

  /** Memory from `a0` up is the same. */
  ghost predicate SameFrom(a0: int, mem: map<int, int>, mem': map<int, int>) {
    forall a :: a0 <= a ==> Read(mem', a) == Read(mem, a)
  }

  /** Nothing that represents the world has changed. */
  ghost predicate Quiet(img: Image, m: Machine, m': Machine) {
    && m'.hist == m.hist && m'.out == m.out
    && forall a :: a < img.floor ==> Read(m'.mem, a) == Read(m.mem, a)
  }

  /** Running `n` items from `m` arrives at `m'` with `up` bytes off the stack, the rest
      of the stack as it was, the value in r0 and the world as it should be. */
  ghost predicate Arrives(img: Image, fin: CState, m: Machine, m': Machine, n: nat, up: int, v: Value, w: World) {
    && Runs(img, m, m')
    && m'.pc == m.pc + n
    && m'.sp == m.sp + up && m'.fp == m.fp
    && SameFrom(m.sp, m.mem, m'.mem)
    && Stands(img, fin, v, m'.r0)
    && Agree(img, fin, w, m')
  }

  lemma QuietAgree(img: Image, fin: CState, w: World, m: Machine, m': Machine)
    requires Linked(img) && Agree(img, fin, w, m) && Quiet(img, m, m')
    ensures Agree(img, fin, w, m')
  {
    forall g | g in fin.globs ensures Stands(img, fin, Global(w, g), Read(m'.mem, img.globalAdr(g))) {
      assert img.globalAdr(g) < img.floor;
    }
  }

  lemma StandsWord(img: Image, fin: CState, v: Value, x: int)
    requires Linked(img) && Stands(img, fin, v, x)
    ensures 0 <= x < MODULUS
  {
    if v.VFun? {
      var k :| 0 <= k < |fin.fns| && IsFn(img, fin.fns[k], v.params, v.body, x);
    }
  }

  /** Words tell values apart; a function is at least not nil. */
  lemma StandsApart(img: Image, fin: CState, v: Value, x: int, u: Value, y: int)
    requires Linked(img) && Stands(img, fin, v, x) && Stands(img, fin, u, y)
    requires !v.VFun? && !u.VFun?
    ensures x == y <==> v == u
    ensures v.VPair? <==> x % 4 == 1
  {
    if v.VFix? && u.VFix? {
      FixEqual(v.n, u.n);
    }
    if v.VFix? { FixTag(v.n); }
    if u.VFix? { FixTag(u.n); }
    if v.VPair? && u.VPair? {
      assert img.pairId(img.pairWord(v.id)) == v.id && img.pairId(img.pairWord(u.id)) == u.id;
    }
  }

  lemma FixTag(n: fixnum)
    ensures FixWord(n) % 4 == 0
  {
    FixSigned(n);
  }

  lemma StandsNil(img: Image, fin: CState, v: Value, x: int)
    requires Whole(img, fin) && Stands(img, fin, v, x)
    ensures x == NIL_WORD <==> v == VNil
  {
    if v.VFun? {
      var k :| 0 <= k < |fin.fns| && IsFn(img, fin.fns[k], v.params, v.body, x);
      var p := FindLabel(img.code, fin.fns[k].lbl);
      assert FnPlaced(img, fin, fin.fns[k]);
      var st :| At(img.code, p, GenFn(fin.fns[k], st).0) && Later(GenFn(fin.fns[k], st).1, fin);
      AtItem(img.code, p, GenFn(fin.fns[k], st).0, 0);
    } else {
      assert Stands(img, fin, VNil, NIL_WORD);
      StandsApart(img, fin, v, x, VNil, NIL_WORD);
    }
  }

  // Single steps and short blocks

  lemma Runs2(img: Image, m: Machine, m1: Machine, m2: Machine)
    requires m1 == Step(img, m) && m2 == Step(img, m1)
    ensures Runs(img, m, m2)
  {
    RunsStep(img, m);
    RunsStep(img, m1);
    RunsTrans(img, m, m1, m2);
  }

  lemma Runs3(img: Image, m: Machine, m1: Machine, m2: Machine, m3: Machine)
    requires m1 == Step(img, m) && m2 == Step(img, m1) && m3 == Step(img, m2)
    ensures Runs(img, m, m3)
  {
    Runs2(img, m, m1, m2);
    RunsStep(img, m2);
    RunsTrans(img, m, m2, m3);
  }

  lemma Runs4(img: Image, m: Machine, m1: Machine, m2: Machine, m3: Machine, m4: Machine)
    requires m1 == Step(img, m) && m2 == Step(img, m1) && m3 == Step(img, m2) && m4 == Step(img, m3)
    ensures Runs(img, m, m4)
  {
    Runs3(img, m, m1, m2, m3);
    RunsStep(img, m3);
    RunsTrans(img, m, m3, m4);
  }

  lemma TruthItems(code: seq<Item>, p: int, yes: nat, end: nat)
    requires At(code, p, GenTruth(yes, end))
    ensures 0 <= p && p + 7 <= |code|
    ensures code[p] == BranchTrue(yes) && code[p + 1] == LoadImm(R0, NIL_WORD)
    ensures code[p + 2] == LoadLabel(R2, end) && code[p + 3] == Jump(R2) && code[p + 4] == Label(yes)
    ensures code[p + 5] == LoadImm(R0, T_WORD) && code[p + 6] == Label(end)
  {
    var part := GenTruth(yes, end);
    assert part == [BranchTrue(yes), LoadImm(R0, NIL_WORD), LoadLabel(R2, end), Jump(R2), Label(yes),
                    LoadImm(R0, T_WORD), Label(end)];
    forall k | 0 <= k < 7 ensures code[p + k] == part[k] { AtItem(code, p, part, k); }
    assert code[p + 0] == part[0];
  }

  /** The yes/no tail of a predicate. */
  lemma TruthRuns(img: Image, m: Machine, yes: nat, end: nat) returns (m': Machine)
    requires Linked(img) && At(img.code, m.pc, GenTruth(yes, end))
    ensures Runs(img, m, m')
    ensures m' == m.(r0 := if m.c then T_WORD else NIL_WORD, r2 := m'.r2, pc := m.pc + 7)
  {
    var p := m.pc;
    TruthItems(img.code, p, yes, end);
    LabelAt(img.code, yes, p + 4);
    LabelAt(img.code, end, p + 6);
    hide Step, FindLabel, At, GenTruth, UniqueLabels, Linked;
    StepIs(img, m, BranchTrue(yes));
    var m1 := Step(img, m);
    if m.c {
      StepIs(img, m1, Label(yes));
      var m2 := Step(img, m1);
      StepIs(img, m2, LoadImm(R0, T_WORD));
      var m3 := Step(img, m2);
      StepIs(img, m3, Label(end));
      m' := Step(img, m3);
      Runs4(img, m, m1, m2, m3, m');
    } else {
      RunsStep(img, m);
      var m2 := JumpOver(img, m1, end, p + 6);
      RunsTrans(img, m, m1, m2);
      StepIs(img, m2, Label(end));
      m' := Step(img, m2);
      RunsStep(img, m2);
      RunsTrans(img, m, m2, m');
    }
  }

  /** nil into r0 and over the other case. */
  lemma JumpOver(img: Image, m: Machine, end: nat, q: int) returns (m': Machine)
    requires Linked(img) && 0 <= m.pc && m.pc + 2 < |img.code| && 0 <= q < |img.code|
    requires img.code[m.pc] == LoadImm(R0, NIL_WORD) && img.code[m.pc + 1] == LoadLabel(R2, end)
    requires img.code[m.pc + 2] == Jump(R2) && FindLabel(img.code, end) == q
    ensures Runs(img, m, m') && m' == m.(r0 := NIL_WORD, r2 := m'.r2, pc := q)
  {
    hide Step, FindLabel, Linked, Runs;
    StepIs(img, m, LoadImm(R0, NIL_WORD));
    var m1 := Step(img, m);
    StepIs(img, m1, LoadLabel(R2, end));
    var m2 := Step(img, m1);
    StepIs(img, m2, Jump(R2));
    var m3 := Step(img, m2);
    Runs3(img, m, m1, m2, m3);
    JumpArrives(img, m3, q);
    m' := m3.(pc := q);
    RunsTrans(img, m, m3, m');
  }

  /** The state after pushing word `x`. */
  function Pushed(m: Machine, x: int): Machine {
    m.(sp := m.sp - 3, mem := m.mem[m.sp - 3 := x], pc := m.pc + 1)
  }

  lemma PushRuns(img: Image, m: Machine, r: Reg)
    requires 0 <= m.pc < |img.code| && img.code[m.pc] == Push(r) && Room(img, m, 3)
    ensures Step(img, m) == Pushed(m, Get(m, r)) && Runs(img, m, Pushed(m, Get(m, r)))
    ensures Quiet(img, m, Pushed(m, Get(m, r)))
    ensures SameFrom(m.sp, m.mem, Pushed(m, Get(m, r)).mem)
  {
    RunsStep(img, m);
  }

  /** What a runtime routine guarantees. */
  ghost predicate Served(img: Image, rt: Routine, m: Machine, m': Machine) {
    && m'.fp == m.fp
    && SameFrom(m.sp, m.mem, m'.mem)
    && (forall a :: a < img.floor ==> Read(m'.mem, a) == Read(m.mem, a))
    && var arg := Read(m.mem, m.sp);
       match rt
       case RtCons =>
         m'.hist == m.hist + [(arg, Read(m.mem, m.sp + 3))] && m'.r0 == img.pairWord(|m.hist|) && m'.out == m.out
       case RtPrint => m'.hist == m.hist && m'.out == m.out + [arg]
       case _ =>
         m'.hist == m.hist && m'.out == m.out
         && forall k :: 0 <= k < |m.hist| && k < img.capacity && img.pairWord(k) == arg ==>
              m'.r0 == if rt.RtCar? then m.hist[k].0 else m.hist[k].1
  }

  lemma RoutineServes(img: Image, rt: Routine, m: Machine)
    requires Linked(img) && img.floor + img.need <= m.sp
    ensures Served(img, rt, m, CallRoutine(img, rt, m))
    ensures CallRoutine(img, rt, m).pc == m.pc + 1 && CallRoutine(img, rt, m).sp == m.sp
  {
    assert forall i :: 0 <= i < img.capacity ==> img.pairId(img.pairWord(i)) == i;
    hide Linked;
    var s := Scratch(img, m);
    forall a | m.sp <= a || a < img.floor ensures Read(s, a) == Read(m.mem, a) {}
  }

  /** The registers around a service do not matter to it. */
  lemma ServedPops(img: Image, rt: Routine, m1: Machine, m2: Machine, m: Machine, m': Machine)
    requires Served(img, rt, m1, m2)
    requires m1 == m.(r0 := m1.r0, pc := m1.pc) && m' == m2.(sp := m'.sp, pc := m'.pc)
    ensures Served(img, rt, m, m')
  {
  }

  lemma JumpToRoutine(img: Image, rt: Routine, m: Machine)
    requires Linked(img) && m.r0 == img.routineAdr(rt)
    ensures Effect(img, JumpLink, m) == CallRoutine(img, rt, m)
  {
    assert forall a, b :: img.routineAdr(a) == img.routineAdr(b) ==> a == b;
    hide CallRoutine, Linked;
  }

  /** A runtime call, its arguments pushed before and taken off after it. */
  lemma RoutineRuns(img: Image, m: Machine, rt: Routine, n: nat) returns (m': Machine)
    requires Linked(img) && At(img.code, m.pc, [LoadRoutine(rt), JumpLink, AddSp(n)])
    requires img.floor + img.need <= m.sp && m.sp + n < MODULUS
    ensures Runs(img, m, m') && Served(img, rt, m, m')
    ensures m'.pc == m.pc + 3 && m'.sp == m.sp + n
  {
    var part := [LoadRoutine(rt), JumpLink, AddSp(n)];
    AtItem(img.code, m.pc, part, 0);
    AtItem(img.code, m.pc, part, 1);
    AtItem(img.code, m.pc, part, 2);
    hide Step, At, Linked, Runs, CallRoutine, Served;
    StepIs(img, m, LoadRoutine(rt));
    var m1 := Step(img, m);
    StepIs(img, m1, JumpLink);
    JumpToRoutine(img, rt, m1);
    RoutineServes(img, rt, m1);
    var m2 := Step(img, m1);
    StepIs(img, m2, AddSp(n));
    m' := Step(img, m2);
    Runs3(img, m, m1, m2, m');
    ServedPops(img, rt, m1, m2, m, m');
  }

  lemma Op1Runs(img: Image, fin: CState, op: Op1, l: nat, m: Machine, v: Value, w: World, r: Value, w': World)
      returns (m': Machine)
    requires Whole(img, fin) && At(img.code, m.pc, GenOp1(op, l))
    requires Agree(img, fin, w, m) && Stands(img, fin, v, m.r0) && Room(img, m, Need1(op, img.need))
    requires Apply1(op, v, w) == Some((r, w'))
    ensures Arrives(img, fin, m, m', |GenOp1(op, l)|, 0, r, w')
  {
    match op {
      case CarOp => m' := PartRuns(img, fin, RtCar, m, v, w);
      case CdrOp => m' := PartRuns(img, fin, RtCdr, m, v, w);
      case PrintOp => m' := PrintRuns(img, fin, m, v, w);
      case _ => m' := TestOp1Runs(img, fin, op, l, m, v, w);
    }
  }

  lemma PartRuns(img: Image, fin: CState, rt: Routine, m: Machine, v: Value, w: World) returns (m': Machine)
    requires Linked(img) && (rt.RtCar? || rt.RtCdr?)
    requires At(img.code, m.pc, [Push(R0), LoadRoutine(rt), JumpLink, AddSp(3)])
    requires Agree(img, fin, w, m) && Stands(img, fin, v, m.r0) && Room(img, m, 3 + img.need)
    requires v.VPair? && v.id < |w.heap|
    ensures Arrives(img, fin, m, m', 4, 0, if rt.RtCar? then w.heap[v.id].0 else w.heap[v.id].1, w)
  {
    var tail := [LoadRoutine(rt), JumpLink, AddSp(3)];
    assert [Push(R0), LoadRoutine(rt), JumpLink, AddSp(3)] == [Push(R0)] + tail;
    AtSplit(img.code, m.pc, [Push(R0)], tail);
    AtItem(img.code, m.pc, [Push(R0)], 0);
    PushRuns(img, m, R0);
    var m1 := Pushed(m, m.r0);
    m' := RoutineRuns(img, m1, rt, 3);
    RunsTrans(img, m, m1, m');
    assert Read(m1.mem, m1.sp) == m.r0 == img.pairWord(v.id);
    assert PairStands(img, fin, w.heap[v.id], m.hist[v.id]) && m1.hist[v.id] == m.hist[v.id];
    QuietAgree(img, fin, w, m, m');
  }

  lemma PrintItems(code: seq<Item>, p: int)
    requires At(code, p, [Push(R0), Push(R0), LoadRoutine(RtPrint), JumpLink, AddSp(3), Pop(R0)])
    ensures 0 <= p && p + 6 <= |code| && code[p] == code[p + 1] == Push(R0) && code[p + 5] == Pop(R0)
    ensures At(code, p + 2, [LoadRoutine(RtPrint), JumpLink, AddSp(3)])
  {
    var mid := [LoadRoutine(RtPrint), JumpLink, AddSp(3)];
    assert [Push(R0), Push(R0), LoadRoutine(RtPrint), JumpLink, AddSp(3), Pop(R0)] == [Push(R0),
          Push(R0)] + (mid + [Pop(R0)]);
    AtSplit(code, p, [Push(R0), Push(R0)], mid + [Pop(R0)]);
    AtSplit(code, p + 2, mid, [Pop(R0)]);
    AtItem(code, p, [Push(R0), Push(R0)], 0);
    AtItem(code, p, [Push(R0), Push(R0)], 1);
    AtItem(code, p + 5, [Pop(R0)], 0);
  }

  lemma PrintRuns(img: Image, fin: CState, m: Machine, v: Value, w: World) returns (m': Machine)
    requires Linked(img)
    requires At(img.code, m.pc, [Push(R0), Push(R0), LoadRoutine(RtPrint), JumpLink, AddSp(3), Pop(R0)])
    requires Agree(img, fin, w, m) && Stands(img, fin, v, m.r0) && Room(img, m, 6 + img.need)
    ensures Arrives(img, fin, m, m', 6, 0, v, w.(out := w.out + [v]))
  {
    hide At, Step, Effect, Linked, Stands, Runs, Agree;
    PrintItems(img.code, m.pc);
    PushRuns(img, m, R0);
    var m1 := Pushed(m, m.r0);
    PushRuns(img, m1, R0);
    var m2 := Pushed(m1, m.r0);
    var m3 := RoutineRuns(img, m2, RtPrint, 3);
    m' := PopRuns(img, m3, R0);
    RunsTrans(img, m, m1, m2);
    RunsTrans(img, m, m2, m3);
    RunsStep(img, m3);
    RunsTrans(img, m, m3, m');
    PrintEnds(img, fin, v, w, m, m');
  }

  lemma PrintEnds(img: Image, fin: CState, v: Value, w: World, m: Machine, m': Machine)
    requires Linked(img) && Agree(img, fin, w, m) && Stands(img, fin, v, m.r0)
    requires m'.hist == m.hist && m'.out == m.out + [m.r0]
    requires forall a :: a < img.floor ==> Read(m'.mem, a) == Read(m.mem, a)
    ensures Agree(img, fin, w.(out := w.out + [v]), m')
  {
    QuietAgree(img, fin, w, m, m'.(out := m.out));
  }

  lemma TestOp1Runs(img: Image, fin: CState, op: Op1, l: nat, m: Machine, v: Value, w: World) returns (m': Machine)
    requires Whole(img, fin) && (op.NullOp? || op.PairOp? || op.NotOp?)
    requires At(img.code, m.pc, Test1(op) + GenTruth(l, l + 1))
    requires Agree(img, fin, w, m) && Stands(img, fin, v, m.r0) && 0 <= m.sp < MODULUS
    requires op.PairOp? ==> !v.VFun?
    ensures Arrives(img, fin, m, m', |Test1(op)| + 7, 0, if op.PairOp? then Truth(v.VPair?) else Truth(v == VNil), w)
  {
    AtSplit(img.code, m.pc, Test1(op), GenTruth(l, l + 1));
    var mt := TestedRuns(img, fin, op, m, v);
    hide At, Linked, Runs, Agree, Stands, FnPlaced;
    m' := TruthRuns(img, mt, l, l + 1);
    RunsTrans(img, m, mt, m');
    QuietAgree(img, fin, w, m, m');
    TruthStands(img, fin, mt.c);
  }

  lemma TruthStands(img: Image, fin: CState, b: bool)
    ensures Stands(img, fin, Truth(b), if b then T_WORD else NIL_WORD)
  {
  }

  /** The test itself: the condition bit says what the predicate asks. */
  lemma TestedRuns(img: Image, fin: CState, op: Op1, m: Machine, v: Value) returns (mt: Machine)
    requires Whole(img, fin) && (op.NullOp? || op.PairOp? || op.NotOp?)
    requires At(img.code, m.pc, Test1(op)) && Stands(img, fin, v, m.r0) && (op.PairOp? ==> !v.VFun?)
    ensures Runs(img, m, mt)
    ensures mt == m.(r0 := mt.r0, r1 := mt.r1, c := mt.c, pc := m.pc + |Test1(op)|)
    ensures mt.c == if op.PairOp? then v.VPair? else v == VNil
  {
    StandsWord(img, fin, v, m.r0);
    AtItem(img.code, m.pc, Test1(op), 0);
    AtItem(img.code, m.pc, Test1(op), 1);
    if op.PairOp? {
      AtItem(img.code, m.pc, Test1(op), 2);
      AtItem(img.code, m.pc, Test1(op), 3);
      mt := PairTest(img, m);
      StandsApart(img, fin, v, m.r0, v, m.r0);
    } else {
      StandsNil(img, fin, v, m.r0);
      mt := NilTest(img, m);
    }
  }

  lemma PairTest(img: Image, m: Machine) returns (m': Machine)
    requires 0 <= m.pc && m.pc + 4 <= |img.code| && 0 <= m.r0
    requires img.code[m.pc] == LoadImm(R1, 3) && img.code[m.pc + 1] == And
    requires img.code[m.pc + 2] == LoadImm(R1, 1) && img.code[m.pc + 3] == TestEq
    ensures Runs(img, m, m') && m' == m.(r0 := m'.r0, r1 := m'.r1, c := m.r0 % 4 == 1, pc := m.pc + 4)
  {
    hide Step;
    StepIs(img, m, LoadImm(R1, 3));
    var m1 := Step(img, m);
    StepIs(img, m1, And);
    AndTag(m.r0);
    var m2 := Step(img, m1);
    StepIs(img, m2, LoadImm(R1, 1));
    var m3 := Step(img, m2);
    StepIs(img, m3, TestEq);
    m' := Step(img, m3);
    Runs4(img, m, m1, m2, m3, m');
  }

  lemma NilTest(img: Image, m: Machine) returns (m': Machine)
    requires 0 <= m.pc && m.pc + 2 <= |img.code|
    requires img.code[m.pc] == LoadImm(R1, NIL_WORD) && img.code[m.pc + 1] == TestEq
    ensures Runs(img, m, m') && m' == m.(r1 := NIL_WORD, c := m.r0 == NIL_WORD, pc := m.pc + 2)
  {
    hide Step;
    StepIs(img, m, LoadImm(R1, NIL_WORD));
    var m1 := Step(img, m);
    StepIs(img, m1, TestEq);
    m' := Step(img, m1);
    Runs2(img, m, m1, m');
  }

  /** A binary operator: left operand in r0, right operand on top of the stack. */
  lemma Op2Runs(img: Image, fin: CState, op: Op2, l: nat, m: Machine, a: Value, b: Value, w: World, r: Value, w': World)
      returns (m': Machine)
    requires Whole(img, fin) && At(img.code, m.pc, GenOp2(op, l))
    requires Agree(img, fin, w, m) && Stands(img, fin, a, m.r0) && Stands(img, fin, b, Read(m.mem, m.sp))
    requires Room(img, m, Need2(op, img.need) - 3) && 0 <= m.sp && m.sp + 3 < MODULUS
    requires Apply2(op, a, b, w, img.capacity) == Some((r, w'))
    ensures Arrives(img, fin, m, m', |GenOp2(op, l)|, 3, r, w')
  {
    match op {
      case AddOp => m' := ArithRuns(img, fin, Add, m, a, b, w, r);
      case SubOp => m' := ArithRuns(img, fin, Sub, m, a, b, w, r);
      case MulOp => m' := MulRuns(img, fin, m, a, b, w, r);
      case ConsOp => m' := ConsRuns(img, fin, m, a, b, w);
      case _ => m' := TestOp2Runs(img, fin, op, l, m, a, b, w, r);
    }
  }

  lemma PopRuns(img: Image, m: Machine, r: Reg) returns (m': Machine)
    requires 0 <= m.pc < |img.code| && img.code[m.pc] == Pop(r) && 0 <= m.sp && m.sp + 3 < MODULUS
    ensures m' == Step(img, m) && m' == Set(m.(sp := m.sp + 3, pc := m.pc + 1), r, Read(m.mem, m.sp))
  {
    m' := Step(img, m);
  }

  lemma ArithRuns(img: Image, fin: CState, x: Item, m: Machine, a: Value, b: Value, w: World, r: Value)
        returns (m': Machine)
    requires Linked(img) && (x.Add? || x.Sub?) && At(img.code, m.pc, [Pop(R1), x])
    requires Agree(img, fin, w, m) && Stands(img, fin, a, m.r0) && Stands(img, fin, b, Read(m.mem, m.sp))
    requires 0 <= m.sp && m.sp + 3 < MODULUS
    requires a.VFix? && b.VFix? && r == VFix(Fold(if x.Add? then a.n + b.n else a.n - b.n))
    ensures Arrives(img, fin, m, m', 2, 3, r, w)
  {
    hide Step, Effect, Linked, Runs, Agree, Read, Fold, FixWord;
    AtItem(img.code, m.pc, [Pop(R1), x], 0);
    AtItem(img.code, m.pc, [Pop(R1), x], 1);
    var m1 := PopRuns(img, m, R1);
    ArithStep(img, x, m1);
    m' := Step(img, m1);
    Runs2(img, m, m1, m');
    FixAdd(a.n, b.n);
    FixSub(a.n, b.n);
    QuietAgree(img, fin, w, m, m');
  }

  lemma ArithStep(img: Image, x: Item, m: Machine)
    requires (x.Add? || x.Sub?) && 0 <= m.pc < |img.code| && img.code[m.pc] == x
    ensures Step(img, m) == m.(r0 := Wrap(if x.Add? then m.r0 + m.r1 else m.r0 - m.r1), pc := m.pc + 1)
  {
  }

  lemma MulRuns(img: Image, fin: CState, m: Machine, a: Value, b: Value, w: World, r: Value) returns (m': Machine)
    requires Linked(img) && At(img.code, m.pc, [Pop(R1), LoadImm(R2, 2), ShiftRight, Mul])
    requires Agree(img, fin, w, m) && Stands(img, fin, a, m.r0) && Stands(img, fin, b, Read(m.mem, m.sp))
    requires 0 <= m.sp && m.sp + 3 < MODULUS
    requires a.VFix? && b.VFix? && r == VFix(Fold(a.n * b.n))
    ensures Arrives(img, fin, m, m', 4, 3, r, w)
  {
    var part := [Pop(R1), LoadImm(R2, 2), ShiftRight, Mul];
    AtItem(img.code, m.pc, part, 0);
    AtItem(img.code, m.pc, part, 1);
    AtItem(img.code, m.pc, part, 2);
    AtItem(img.code, m.pc, part, 3);
    var m1 := PopRuns(img, m, R1);
    StepIs(img, m1, LoadImm(R2, 2));
    var m2 := Step(img, m1);
    StepIs(img, m2, ShiftRight);
    Untag(b.n);
    var m3 := Step(img, m2);
    StepIs(img, m3, Mul);
    FixMul(a.n, b.n);
    m' := Step(img, m3);
    Runs4(img, m, m1, m2, m3, m');
    QuietAgree(img, fin, w, m, m');
  }

  lemma TestOp2Runs(img: Image, fin: CState, op: Op2, l: nat, m: Machine, a: Value, b: Value, w: World, r: Value)
      returns (m': Machine)
    requires Linked(img) && (op.LessOp? || op.EqualOp?) && At(img.code, m.pc, Test2(op) + GenTruth(l, l + 1))
    requires Agree(img, fin, w, m) && Stands(img, fin, a, m.r0) && Stands(img, fin, b, Read(m.mem, m.sp))
    requires 0 <= m.sp && m.sp + 3 < MODULUS
    requires Apply2(op, a, b, w, img.capacity) == Some((r, w))
    ensures Arrives(img, fin, m, m', 9, 3, r, w)
  {
    AtSplit(img.code, m.pc, Test2(op), GenTruth(l, l + 1));
    var mt := CompareRuns(img, fin, op, m, a, b);
    hide At, Linked, Runs, Agree;
    m' := TruthRuns(img, mt, l, l + 1);
    RunsTrans(img, m, mt, m');
    QuietAgree(img, fin, w, m, m');
  }

  /** The comparison itself: the condition bit says what the operator asks. */
  lemma CompareRuns(img: Image, fin: CState, op: Op2, m: Machine, a: Value, b: Value) returns (mt: Machine)
    requires Linked(img) && (op.LessOp? || op.EqualOp?) && At(img.code, m.pc, Test2(op))
    requires Stands(img, fin, a, m.r0) && Stands(img, fin, b, Read(m.mem, m.sp))
    requires 0 <= m.sp && m.sp + 3 < MODULUS
    requires if op.LessOp? then a.VFix? && b.VFix? else !a.VFun? && !b.VFun?
    ensures Runs(img, m, mt)
    ensures mt == m.(r1 := mt.r1, sp := m.sp + 3, c := mt.c, pc := m.pc + 2)
    ensures mt.c == if op.LessOp? then a.n < b.n else a == b
  {
    AtItem(img.code, m.pc, Test2(op), 0);
    AtItem(img.code, m.pc, Test2(op), 1);
    hide At, Runs;
    var m1 := PopRuns(img, m, R1);
    StepIs(img, m1, Test2(op)[1]);
    mt := Step(img, m1);
    Runs2(img, m, m1, mt);
    if op.LessOp? { FixLess(a.n, b.n); } else { StandsApart(img, fin, a, m.r0, b, m1.r1); }
  }

  lemma ConsRuns(img: Image, fin: CState, m: Machine, a: Value, b: Value, w: World) returns (m': Machine)
    requires Linked(img) && At(img.code, m.pc, [Push(R0), LoadRoutine(RtCons), JumpLink, AddSp(6)])
    requires Agree(img, fin, w, m) && Stands(img, fin, a, m.r0) && Stands(img, fin, b, Read(m.mem, m.sp))
    requires Room(img, m, 3 + img.need) && m.sp + 3 < MODULUS && |w.heap| < img.capacity
    ensures Arrives(img, fin, m, m', 4, 3, VPair(|w.heap|), w.(heap := w.heap + [(a, b)]))
  {
    hide At, Step, Effect, Linked, Stands, Runs, Agree;
    ConsItems(img.code, m.pc);
    PushRuns(img, m, R0);
    var m1 := Pushed(m, m.r0);
    m' := RoutineRuns(img, m1, RtCons, 6);
    RunsTrans(img, m, m1, m');
    AgreeSizes(img, fin, w, m);
    assert Read(m1.mem, m1.sp) == m.r0 && Read(m1.mem, m1.sp + 3) == Read(m.mem, m.sp);
    ConsEnds(img, fin, a, b, w, m, m', Read(m.mem, m.sp));
    assert Stands(img, fin, VPair(|w.heap|), m'.r0) by { PairIsWord(img, fin, |w.heap|); }
  }

  lemma AgreeSizes(img: Image, fin: CState, w: World, m: Machine)
    requires Agree(img, fin, w, m)
    ensures |m.hist| == |w.heap|
  {
  }

  lemma PairIsWord(img: Image, fin: CState, id: nat)
    requires id < img.capacity
    ensures Stands(img, fin, VPair(id), img.pairWord(id))
  {
  }

  lemma ConsEnds(img: Image, fin: CState, a: Value, b: Value, w: World, m: Machine, m': Machine, y: int)
    requires Linked(img) && Agree(img, fin, w, m) && Stands(img, fin, a, m.r0) && Stands(img, fin, b, y)
    requires m'.hist == m.hist + [(m.r0, y)] && m'.out == m.out && |w.heap| < img.capacity
    requires forall a :: a < img.floor ==> Read(m'.mem, a) == Read(m.mem, a)
    ensures Agree(img, fin, w.(heap := w.heap + [(a, b)]), m')
  {
    QuietAgree(img, fin, w, m, m'.(hist := m.hist));
    assert PairStands(img, fin, (a, b), (m.r0, y));
  }

  lemma ConsItems(code: seq<Item>, p: int)
    requires At(code, p, [Push(R0), LoadRoutine(RtCons), JumpLink, AddSp(6)])
    ensures At(code, p, [Push(R0)]) && At(code, p + 1, [LoadRoutine(RtCons), JumpLink, AddSp(6)])
    ensures 0 <= p < |code| && code[p] == Push(R0)
  {
    var tail := [LoadRoutine(RtCons), JumpLink, AddSp(6)];
    assert [Push(R0), LoadRoutine(RtCons), JumpLink, AddSp(6)] == [Push(R0)] + tail;
    AtSplit(code, p, [Push(R0)], tail);
    AtItem(code, p, [Push(R0)], 0);
  }

  lemma TestItems(code: seq<Item>, p: int, yes: nat, no: nat)
    requires At(code, p, GenTest(yes, no))
    ensures 0 <= p && p + 6 <= |code|
    ensures code[p] == LoadImm(R1, NIL_WORD) && code[p + 1] == TestEq && code[p + 2] == BranchFalse(yes)
    ensures code[p + 3] == LoadLabel(R2, no) && code[p + 4] == Jump(R2) && code[p + 5] == Label(yes)
  {
    var part := GenTest(yes, no);
    assert part == [LoadImm(R1, NIL_WORD), TestEq, BranchFalse(yes), LoadLabel(R2, no), Jump(R2), Label(yes)];
    forall k | 0 <= k < 6 ensures code[p + k] == part[k] { AtItem(code, p, part, k); }
    assert code[p + 0] == part[0];
  }

  /** The test of an if goes on to the then part, or to the else part at `q`. */
  lemma TestRuns(img: Image, m: Machine, yes: nat, no: nat, q: int) returns (m': Machine)
    requires Linked(img) && At(img.code, m.pc, GenTest(yes, no))
    requires 0 <= q < |img.code| && img.code[q] == Label(no)
    ensures Runs(img, m, m')
    ensures m' == m.(r1 := m'.r1, r2 := m'.r2, c := m'.c, pc := if m.r0 != NIL_WORD then m.pc + 6 else q + 1)
  {
    hide Step, Effect, Runs, FindLabel, At, GenTest, UniqueLabels;
    var p := m.pc;
    TestItems(img.code, p, yes, no);
    LabelAt(img.code, yes, p + 5);
    LabelAt(img.code, no, q);
    var m2 := NilTest(img, m);
    BranchStep(img, m2, yes);
    var m3 := Step(img, m2);
    RunsStep(img, m2);
    RunsTrans(img, m, m2, m3);
    if m.r0 != NIL_WORD {
      LabelStep(img, m3, yes);
      m' := Step(img, m3);
      RunsStep(img, m3);
      RunsTrans(img, m, m3, m');
    } else {
      m' := LongJump(img, m3, no, q);
      RunsTrans(img, m, m3, m');
    }
  }

  lemma BranchStep(img: Image, m: Machine, l: nat)
    requires 0 <= m.pc < |img.code| && img.code[m.pc] == BranchFalse(l)
    ensures Step(img, m) == m.(pc := if m.c then m.pc + 1 else FindLabel(img.code, l))
  {
    hide FindLabel;
  }

  lemma LabelStep(img: Image, m: Machine, l: nat)
    requires 0 <= m.pc < |img.code| && img.code[m.pc] == Label(l)
    ensures Step(img, m) == m.(pc := m.pc + 1)
  {
  }

  /** la r2,label; jmp (r2) goes past the label at `q`. */
  lemma LongJump(img: Image, m: Machine, l: nat, q: int) returns (m': Machine)
    requires Linked(img) && 0 <= q < |img.code| && img.code[q] == Label(l)
    requires 0 <= m.pc && m.pc + 2 <= |img.code|
    requires img.code[m.pc] == LoadLabel(R2, l) && img.code[m.pc + 1] == Jump(R2)
    ensures Runs(img, m, m') && m' == m.(r2 := m'.r2, pc := q + 1)
  {
    LabelAt(img.code, l, q);
    hide Step, FindLabel, UniqueLabels, Linked;
    StepIs(img, m, LoadLabel(R2, l));
    var m1 := Step(img, m);
    StepIs(img, m1, Jump(R2));
    var m2 := Step(img, m1);
    Runs2(img, m, m1, m2);
    JumpArrives(img, m2, q);
    var m3 := m2.(pc := q);
    RunsTrans(img, m, m2, m3);
    StepIs(img, m3, Label(l));
    m' := Step(img, m3);
    RunsStep(img, m3);
    RunsTrans(img, m, m3, m');
  }

  lemma TestLength(yes: nat, no: nat)
    ensures |GenTest(yes, no)| == 6
  {
  }

  /** The positions of the parts of a compiled if. */
  lemma IfItems(code: seq<Item>, p: int, ct: seq<Item>, ca: seq<Item>, cb: seq<Item>, l: nat)
    requires At(code, p, ct + (GenTest(l, l + 1) + (ca + (GenElse(l + 1, l + 2) + (cb + [Label(l + 2)])))))
    ensures At(code, p, ct) && At(code, p + |ct|, GenTest(l, l + 1))
    ensures At(code, p + |ct| + 6, ca)
    ensures var q := p + |ct| + 6 + |ca|;
            && 0 <= q && q + 4 + |cb| <= |code|
            && code[q] == LoadLabel(R2, l + 2) && code[q + 1] == Jump(R2) && code[q + 2] == Label(l + 1)
            && At(code, q + 3, cb) && code[q + 3 + |cb|] == Label(l + 2)
  {
    hide At, GenTest;
    assert |GenTest(l, l + 1)| == 6 by { TestLength(l, l + 1); }
    var test, tail := GenTest(l, l + 1), ca + (GenElse(l + 1, l + 2) + (cb + [Label(l + 2)]));
    AtSplit(code, p, ct, test + tail);
    AtSplit(code, p + |ct|, test, tail);
    BranchItems(code, p + |ct| + 6, ca, cb, l);
  }

  /** The two branches and the jump between them. */
  lemma BranchItems(code: seq<Item>, p: int, ca: seq<Item>, cb: seq<Item>, l: nat)
    requires At(code, p, ca + (GenElse(l + 1, l + 2) + (cb + [Label(l + 2)])))
    ensures At(code, p, ca)
    ensures var q := p + |ca|;
            && 0 <= q && q + 4 + |cb| <= |code|
            && code[q] == LoadLabel(R2, l + 2) && code[q + 1] == Jump(R2) && code[q + 2] == Label(l + 1)
            && At(code, q + 3, cb) && code[q + 3 + |cb|] == Label(l + 2)
  {
    var els, end := GenElse(l + 1, l + 2), [Label(l + 2)];
    var q := p + |ca|;
    AtSplit(code, p, ca, els + (cb + end));
    AtSplit(code, q, els, cb + end);
    AtSplit(code, q + 3, cb, end);
    AtItem(code, q, els, 0);
    AtItem(code, q, els, 1);
    AtItem(code, q, els, 2);
    AtItem(code, q + 3 + |cb|, end, 0);
  }

  lemma Then(img: Image, fin: CState, m: Machine, m1: Machine, n1: nat, v1: Value, w1: World,
             m2: Machine, m3: Machine, n2: nat, n: nat, v: Value, w: World)
    requires Arrives(img, fin, m, m1, n1, 0, v1, w1)
    requires Runs(img, m1, m2) && m2.sp == m1.sp && m2.fp == m1.fp && m2.mem == m1.mem
    requires Arrives(img, fin, m2, m3, n2, 0, v, w)
    requires m2.pc + n2 == m.pc + n
    ensures Arrives(img, fin, m, m3, n, 0, v, w)
  {
    RunsTrans(img, m, m1, m2);
    RunsTrans(img, m, m2, m3);
  }

  /** The frame stays readable while the stack above is kept. */
  lemma FrameKept(img: Image, fin: CState, env: Env, loc: Locals, m: Machine, m': Machine)
    requires Frame(img, fin, env, loc, m)
    requires m'.fp == m.fp && m'.sp <= m.sp && SameFrom(m.sp, m.mem, m'.mem)
    ensures Frame(img, fin, env, loc, m')
  {
    forall i | 0 <= i < |env| ensures Stands(img, fin, loc[i].1, Read(m'.mem, m'.fp + env[i].1)) {
      assert Read(m'.mem, m.fp + env[i].1) == Read(m.mem, m.fp + env[i].1);
    }
  }

  // Variables

  lemma {:induction false} FrameFinds(img: Image, fin: CState, env: Env, loc: Locals, m: Machine, sym: symbol)
    requires Frame(img, fin, env, loc, m)
    ensures Local(sym, loc).Some? ==>
              EnvGet(sym, env) >= 0 && m.sp <= m.fp + EnvGet(sym, env) < MODULUS
              && Stands(img, fin, Local(sym, loc).value, Read(m.mem, m.fp + EnvGet(sym, env)))
    ensures Local(sym, loc).None? ==> EnvGet(sym, env) == -9999
  {
    if env != [] {
      assert env[0].0 == loc[0].0;
      if env[0].0 != sym {
        FrameFinds(img, fin, env[1..], loc[1..], m, sym);
      }
    }
  }

  lemma VarRuns(img: Image, fin: CState, env: Env, loc: Locals, m: Machine, w: World, sym: symbol, st: CState)
      returns (m': Machine)
    requires Linked(img) && At(img.code, m.pc, GenVar(sym, env, st).0) && Later(GenVar(sym, env, st).1, fin)
    requires Frame(img, fin, env, loc, m) && Agree(img, fin, w, m) && 0 <= m.sp < MODULUS
    ensures Arrives(img, fin, m, m', |GenVar(sym, env, st).0|, 0, Lookup(sym, loc, w), w)
  {
    hide Stands, Agree, Linked, Frame, Step, At, Runs, Later;
    FrameFinds(img, fin, env, loc, m, sym);
    var code := GenVar(sym, env, st).0;
    if Local(sym, loc).Some? {
      var off := EnvGet(sym, env);
      assert code == [LoadFrame(off)];
      m' := LocalRuns(img, m, off);
    } else {
      assert code == [LoadGlobal(R1, sym), Fetch];
      m' := GlobalRuns(img, m, sym);
      InTable(st, sym, fin);
      GlobalStands(img, fin, w, m, sym);
    }
    QuietAgree(img, fin, w, m, m');
  }

  lemma LocalRuns(img: Image, m: Machine, off: int) returns (m': Machine)
    requires At(img.code, m.pc, [LoadFrame(off)]) && 0 <= m.fp + off < MODULUS
    ensures Runs(img, m, m') && m' == m.(r0 := Read(m.mem, m.fp + off), pc := m.pc + 1)
  {
    AtItem(img.code, m.pc, [LoadFrame(off)], 0);
    hide At, Runs;
    StepIs(img, m, LoadFrame(off));
    m' := Step(img, m);
    RunsStep(img, m);
  }

  lemma GlobalRuns(img: Image, m: Machine, sym: symbol) returns (m': Machine)
    requires At(img.code, m.pc, [LoadGlobal(R1, sym), Fetch])
    ensures Runs(img, m, m') && m' == m.(r0 := Read(m.mem, img.globalAdr(sym)), r1 := m'.r1, pc := m.pc + 2)
  {
    var code := [LoadGlobal(R1, sym), Fetch];
    AtItem(img.code, m.pc, code, 0);
    AtItem(img.code, m.pc, code, 1);
    hide At, Runs;
    StepIs(img, m, LoadGlobal(R1, sym));
    var m1 := Step(img, m);
    StepIs(img, m1, Fetch);
    m' := Step(img, m1);
    Runs2(img, m, m1, m');
  }

  lemma GlobalStands(img: Image, fin: CState, w: World, m: Machine, g: symbol)
    requires Agree(img, fin, w, m) && g in fin.globs
    ensures Stands(img, fin, Global(w, g), Read(m.mem, img.globalAdr(g)))
  {
  }

  lemma InTable(st: CState, sym: symbol, fin: CState)
    requires Later(AddGlobal(st, sym), fin)
    ensures sym in fin.globs
  {
    AddGlobalLater(st, sym);
    var gs := AddGlobal(st, sym).globs;
    var i :| 0 <= i < |gs| && gs[i] == sym;
    assert fin.globs[i] == sym;
  }

  lemma StoreRuns(img: Image, fin: CState, m: Machine, w: World, sym: symbol, v: Value) returns (m': Machine)
    requires Linked(img) && At(img.code, m.pc, [LoadGlobal(R1, sym), Store]) && sym in fin.globs
    requires Agree(img, fin, w, m) && Stands(img, fin, v, m.r0) && img.floor <= m.sp
    ensures Arrives(img, fin, m, m', 2, 0, v, w.(globals := w.globals[sym := v]))
  {
    AtItem(img.code, m.pc, [LoadGlobal(R1, sym), Store], 0);
    AtItem(img.code, m.pc, [LoadGlobal(R1, sym), Store], 1);
    hide Step, Effect, Runs, At, Stands;
    StoreSteps(img, m, sym);
    var m1 := Step(img, m);
    m' := Step(img, m1);
    Runs2(img, m, m1, m');
    StoreAgrees(img, fin, m, m', w, sym, v);
  }

  lemma StoreSteps(img: Image, m: Machine, sym: symbol)
    requires 0 <= m.pc && m.pc + 2 <= |img.code|
    requires img.code[m.pc] == LoadGlobal(R1, sym) && img.code[m.pc + 1] == Store
    ensures Step(img, Step(img, m))
         == m.(r1 := img.globalAdr(sym), mem := m.mem[img.globalAdr(sym) := m.r0], pc := m.pc + 2)
  {
    StepIs(img, m, LoadGlobal(R1, sym));
    StepIs(img, Step(img, m), Store);
  }

  lemma StoreAgrees(img: Image, fin: CState, m: Machine, m': Machine, w: World, sym: symbol, v: Value)
    requires Linked(img) && sym in fin.globs && Agree(img, fin, w, m) && Stands(img, fin, v, m.r0)
    requires m' == m.(r1 := img.globalAdr(sym), mem := m.mem[img.globalAdr(sym) := m.r0], pc := m.pc + 2)
    ensures Agree(img, fin, w.(globals := w.globals[sym := v]), m')
  {
    hide Stands;
    var w' := w.(globals := w.globals[sym := v]);
    forall g | g in fin.globs ensures Stands(img, fin, Global(w', g), Read(m'.mem, img.globalAdr(g))) {
      assert img.globalAdr(g) < img.floor && (img.globalAdr(g) == img.globalAdr(sym) ==> g == sym);
    }
  }

  /** A constant, or the address of a function just noted. */
  lemma ConstRuns(img: Image, fin: CState, m: Machine, w: World, c: SExpr) returns (m': Machine)
    requires Linked(img) && At(img.code, m.pc, [LoadImm(R0, ConstWord(c))]) && Agree(img, fin, w, m)
    ensures Arrives(img, fin, m, m', 1, 0, ConstValue(c), w)
  {
    AtItem(img.code, m.pc, [LoadImm(R0, ConstWord(c))], 0);
    StepIs(img, m, LoadImm(R0, ConstWord(c)));
    m' := Step(img, m);
    RunsStep(img, m);
    QuietAgree(img, fin, w, m, m');
  }

  lemma LambdaRuns(img: Image, fin: CState, m: Machine, w: World, st: CState, ps: seq<symbol>, body: SExpr)
      returns (m': Machine)
    requires Linked(img) && At(img.code, m.pc, [LoadLabel(R0, st.lbl)]) && Agree(img, fin, w, m)
    requires Later(AddFn(st, ps, body), fin)
    ensures Arrives(img, fin, m, m', 1, 0, VFun(ps, body), w)
  {
    AtItem(img.code, m.pc, [LoadLabel(R0, st.lbl)], 0);
    StepIs(img, m, LoadLabel(R0, st.lbl));
    m' := Step(img, m);
    RunsStep(img, m);
    var f := Fn(st.lbl, body, EnvParams(ps, 9, []));
    assert AddFn(st, ps, body).fns[|st.fns|] == f && fin.fns[|st.fns|] == f;
    assert IsFn(img, fin.fns[|st.fns|], ps, body, m'.r0);
    QuietAgree(img, fin, w, m, m');
  }

  // Quoted data

  lemma QuoteItems(code: seq<Item>, p: int, cd: seq<Item>, ca: seq<Item>)
    requires At(code, p, cd + ([Push(R0)] + (ca + [Push(R0), LoadRoutine(RtCons), JumpLink, AddSp(6)])))
    ensures At(code, p, cd) && 0 <= p + |cd| < |code| && code[p + |cd|] == Push(R0)
    ensures At(code, p + |cd| + 1, ca)
    ensures At(code, p + |cd| + 1 + |ca|, [Push(R0), LoadRoutine(RtCons), JumpLink, AddSp(6)])
  {
    var tail := [Push(R0), LoadRoutine(RtCons), JumpLink, AddSp(6)];
    AtSplit(code, p, cd, [Push(R0)] + (ca + tail));
    AtSplit(code, p + |cd|, [Push(R0)], ca + tail);
    AtItem(code, p + |cd|, [Push(R0)], 0);
    AtSplit(code, p + |cd| + 1, ca, tail);
  }

  /** Right operand, push, left operand, operator: how the pieces fit. */
  lemma BinaryFits(img: Image, fin: CState, m: Machine, m1: Machine, n1: nat, b: Value, w1: World,
                   m3: Machine, n2: nat, a: Value, w2: World, m4: Machine, n3: nat, v: Value, w: World)
    requires Linked(img) && Arrives(img, fin, m, m1, n1, 0, b, w1) && Room(img, m, 3)
    requires 0 <= m1.pc < |img.code| && img.code[m1.pc] == Push(R0)
    requires Arrives(img, fin, Pushed(m1, m1.r0), m3, n2, 0, a, w2)
    requires Arrives(img, fin, m3, m4, n3, 3, v, w)
    ensures Arrives(img, fin, m, m4, n1 + 1 + n2 + n3, 0, v, w)
  {
    PushRuns(img, m1, R0);
    var m2 := Pushed(m1, m1.r0);
    RunsTrans(img, m, m1, m2);
    RunsTrans(img, m, m2, m3);
    RunsTrans(img, m, m3, m4);
  }

  /** What pushing the right operand leaves: the world, the frame and the operand. */
  lemma PushFits(img: Image, fin: CState, m: Machine, m1: Machine, n1: nat, b: Value, w1: World, env: Env, loc: Locals)
    requires Linked(img) && Arrives(img, fin, m, m1, n1, 0, b, w1) && Room(img, m, 3)
    requires 0 <= m1.pc < |img.code| && img.code[m1.pc] == Push(R0)
    requires Frame(img, fin, env, loc, m)
    ensures var m2 := Pushed(m1, m1.r0);
            && Agree(img, fin, w1, m2) && Frame(img, fin, env, loc, m2)
            && Stands(img, fin, b, Read(m2.mem, m2.sp)) && m2.sp == m.sp - 3 && m2.fp == m.fp
            && m2.pc == m.pc + n1 + 1
  {
    PushRuns(img, m1, R0);
    QuietAgree(img, fin, w1, m1, Pushed(m1, m1.r0));
    FrameKept(img, fin, env, loc, m, Pushed(m1, m1.r0));
  }

  lemma {:induction false} QuoteRuns(img: Image, fin: CState, m: Machine, w: World, bud: Budget, e: SExpr, v: Value,
        w': World, deep: nat)
      returns (m': Machine)
    requires Linked(img) && At(img.code, m.pc, GenQuote(e)) && Agree(img, fin, w, m)
    requires bud == Budget(img.need, img.capacity) && EvalQuote(bud, e, w) == Done(v, w', deep) && Room(img, m, deep)
    ensures Arrives(img, fin, m, m', |GenQuote(e)|, 0, v, w')
    decreases e
  {
    hide At, Stands, Agree, Linked, Runs;
    if e.Pair? {
      var cd, ca := GenQuote(e.cdr), GenQuote(e.car);
      assert Frame(img, fin, [], [], m);
      QuoteItems(img.code, m.pc, cd, ca);
      var rd := EvalQuote(bud, e.cdr, w);
      var m1 := QuoteRuns(img, fin, m, w, bud, e.cdr, rd.value, rd.world, rd.deep);
      PushFits(img, fin, m, m1, |cd|, rd.value, rd.world, [], []);
      var m2 := Pushed(m1, m1.r0);
      var ra := EvalQuote(bud, e.car, rd.world);
      var m3 := QuoteRuns(img, fin, m2, rd.world, bud, e.car, ra.value, ra.world, ra.deep);
      assert Read(m3.mem, m3.sp) == Read(m2.mem, m2.sp);
      m' := ConsRuns(img, fin, m3, ra.value, rd.value, ra.world);
      BinaryFits(img, fin, m, m1, |cd|, rd.value, rd.world, m3, |ca|, ra.value, ra.world, m', 4, v, w');
    } else {
      m' := ConstRuns(img, fin, m, w, e);
    }
  }
}
