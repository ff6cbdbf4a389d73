/** The part of the COR24 processor that compiled Lisp uses, on code with symbolic
    labels, with the Lisp runtime known only by its calling convention. */
module Cor24 {
  import opened Words24

  datatype Reg = R0 | R1 | R2 | FP

  datatype Routine = RtCons | RtCar | RtCdr | RtPrint

  datatype Item =
    | Label(l: nat)
    | LoadImm(r: Reg, v: int)       // lc or la with a number
    | LoadLabel(r: Reg, l: nat)     // la r,_CLn
    | LoadGlobal(r: Reg, g: nat)    // la r,_Gn
    | LoadRoutine(rt: Routine)      // la r0,_cons ...
    | LoadFrame(off: int)           // lw r0,off(fp)
    | Fetch                         // lw r0,0(r1)
    | Store                         // sw r0,0(r1)
    | Push(r: Reg)
    | Pop(r: Reg)
    | Add | Sub | Mul | And         // r0 := r0 op r1
    | ShiftRight                    // sra r1,r2
    | TestEq | TestLess             // ceq r0,r1 and cls r0,r1
    | BranchTrue(l: nat)
    | BranchFalse(l: nat)
    | Jump(r: Reg)                  // jmp (r)
    | JumpLink                      // jal r1,(r0)
    | AddSp(n: int)
    | FpFromSp
    | SpFromFp
    | GlobalWord(g: nat)            // _Gn: .word 0

  datatype Machine = Machine(r0: int, r1: int, r2: int, fp: int, sp: int, c: bool,
                             mem: map<int, int>, pc: int, hist: seq<(int, int)>, out: seq<int>)

  /** A linked program.  `adr` gives the address of each position, `target` the
      position a jump to an address goes to.  The runtime's pairs are the words
      `pairWord(0)`, `pairWord(1)`, ... up to `capacity`; all else that a runtime routine leaves behind
      (r1, r2, the condition bit, memory below sp) is arbitrary: `junk` and `junkMem`. */
  datatype Image = Image(code: seq<Item>,
                         adr: int -> int, target: int -> int, globalAdr: int -> int,
                         routineAdr: Routine -> int,
                         pairWord: int -> int, pairId: int -> int,
                         junk: Machine -> (int, int, int, bool), junkMem: (Machine, int) -> int,
                         need: nat, floor: nat, capacity: nat)

  function Read(mem: map<int, int>, a: int): int { if a in mem then mem[a] else 0 }

  function FindLabel(code: seq<Item>, l: nat): (p: nat)
    ensures p <= |code|
  {
    if code == [] then 0
    else if code[0] == Label(l) then 0
    else 1 + FindLabel(code[1..], l)
  }

  function Get(m: Machine, r: Reg): int {
    match r case R0 => m.r0 case R1 => m.r1 case R2 => m.r2 case FP => m.fp
  }

  function Set(m: Machine, r: Reg, v: int): Machine {
    match r case R0 => m.(r0 := v) case R1 => m.(r1 := v) case R2 => m.(r2 := v) case FP => m.(fp := v)
  }

  /** car or cdr as the runtime finds it, an arbitrary word for anything but a pair. */
  function PairPart(img: Image, m: Machine, w: int, first: bool): int {
    var k := img.pairId(w);
    if 0 <= k < |m.hist| && img.pairWord(k) == w then (if first then m.hist[k].0 else m.hist[k].1)
    else img.junk(m).0
  }

  /** Memory after a runtime routine: the scratch area below sp is arbitrary. */
  function Scratch(img: Image, m: Machine): map<int, int> {
    m.mem + map a | m.sp - img.need <= a < m.sp :: img.junkMem(m, a)
  }

  /** A call of a runtime routine, arguments from sp upward, result in r0. */
  function CallRoutine(img: Image, rt: Routine, m: Machine): Machine {
    var arg := Read(m.mem, m.sp);
    var j := img.junk(m);
    var after := m.(r0 := j.0, r1 := j.1, r2 := j.2, c := j.3, mem := Scratch(img, m), pc := m.pc + 1);
    match rt
    case RtCons => after.(r0 := img.pairWord(|m.hist|), hist := m.hist + [(arg, Read(m.mem, m.sp + 3))])
    case RtCar => after.(r0 := PairPart(img, m, arg, true))
    case RtCdr => after.(r0 := PairPart(img, m, arg, false))
    case RtPrint => after.(out := m.out + [arg])
  }

  /** What executing item `x` does. */
  function Effect(img: Image, x: Item, m: Machine): Machine {
    var next := m.(pc := m.pc + 1);
    match x
    case Label(_) => next
    case LoadImm(r, v) => Set(next, r, Wrap(v))
    case LoadLabel(r, l) => Set(next, r, img.adr(FindLabel(img.code, l)))
    case LoadGlobal(r, g) => Set(next, r, img.globalAdr(g))
    case LoadRoutine(rt) => next.(r0 := img.routineAdr(rt))
    case LoadFrame(off) => next.(r0 := Read(m.mem, Wrap(m.fp + off)))
    case Fetch => next.(r0 := Read(m.mem, m.r1))
    case Store => next.(mem := m.mem[m.r1 := m.r0])
    case Push(r) => next.(sp := Wrap(m.sp - 3), mem := m.mem[Wrap(m.sp - 3) := Get(m, r)])
    case Pop(r) => Set(next.(sp := Wrap(m.sp + 3)), r, Read(m.mem, m.sp))
    case Add => next.(r0 := Wrap(m.r0 + m.r1))
    case Sub => next.(r0 := Wrap(m.r0 - m.r1))
    case Mul => next.(r0 := Wrap(m.r0 * m.r1))
    case And => next.(r0 := if m.r0 >= 0 && m.r1 >= 0 then BitAnd(m.r0, m.r1) else 0)
    case ShiftRight =>
      next.(r1 := if 0 <= m.r1 < MODULUS && m.r2 >= 0 then Sra(m.r1, m.r2) else 0)
    case TestEq => next.(c := m.r0 == m.r1)
    case TestLess => next.(c := Signed(m.r0) < Signed(m.r1))
    case BranchTrue(l) => if m.c then m.(pc := FindLabel(img.code, l)) else next
    case BranchFalse(l) => if m.c then next else m.(pc := FindLabel(img.code, l))
    case Jump(r) => m.(pc := img.target(Get(m, r)))
    case JumpLink =>
      if m.r0 == img.routineAdr(RtCons) then CallRoutine(img, RtCons, m)
      else if m.r0 == img.routineAdr(RtCar) then CallRoutine(img, RtCar, m)
      else if m.r0 == img.routineAdr(RtCdr) then CallRoutine(img, RtCdr, m)
      else if m.r0 == img.routineAdr(RtPrint) then CallRoutine(img, RtPrint, m)
      else m.(r1 := img.adr(m.pc + 1), pc := img.target(m.r0))
    case AddSp(n) => next.(sp := Wrap(m.sp + n))
    case FpFromSp => next.(fp := m.sp)
    case SpFromFp => next.(sp := m.fp)
    case GlobalWord(_) => m
  }

  function Step(img: Image, m: Machine): Machine {
    if 0 <= m.pc < |img.code| then Effect(img, img.code[m.pc], m) else m
  }

  function Steps(img: Image, m: Machine, n: nat): Machine
    decreases n
  {
    if n == 0 then m else Steps(img, Step(img, m), n - 1)
  }

  lemma StepIs(img: Image, m: Machine, x: Item)
    requires 0 <= m.pc < |img.code| && img.code[m.pc] == x
    ensures Step(img, m) == Effect(img, x, m)
  {
  }

  /** `m'` is reached from `m` in finitely many steps. */
  ghost predicate Runs(img: Image, m: Machine, m': Machine) {
    exists n: nat :: Steps(img, m, n) == m'
  }

  lemma {:induction false} StepsAdd(img: Image, m: Machine, a: nat, b: nat)
    ensures Steps(img, m, a + b) == Steps(img, Steps(img, m, a), b)
    decreases a
  {
    if a > 0 {
      StepsAdd(img, Step(img, m), a - 1, b);
    }
  }

  lemma RunsTrans(img: Image, m: Machine, m': Machine, m'': Machine)
    requires Runs(img, m, m') && Runs(img, m', m'')
    ensures Runs(img, m, m'')
  {
    var a: nat :| Steps(img, m, a) == m';
    var b: nat :| Steps(img, m', b) == m'';
    StepsAdd(img, m, a, b);
  }

  lemma RunsZero(img: Image, m: Machine)
    ensures Runs(img, m, m)
  {
    assert Steps(img, m, 0) == m;
  }

  lemma RunsStep(img: Image, m: Machine)
    ensures Runs(img, m, Step(img, m))
  {
    assert Steps(img, m, 1) == Step(img, m);
  }

  /** The items `part` stand at position `p` of `code`. */
  ghost predicate At(code: seq<Item>, p: int, part: seq<Item>) {
    0 <= p && p + |part| <= |code| && code[p..p + |part|] == part
  }

  lemma AtSplit(code: seq<Item>, p: int, a: seq<Item>, b: seq<Item>)
    requires At(code, p, a + b)
    ensures At(code, p, a) && At(code, p + |a|, b)
  {
    assert a == (a + b)[..|a|] && b == (a + b)[|a|..];
  }

  lemma AtItem(code: seq<Item>, p: int, part: seq<Item>, k: int)
    requires At(code, p, part) && 0 <= k < |part|
    ensures code[p + k] == part[k]
  {
    assert code[p..p + |part|][k] == code[p + k];
  }

  /** No label is defined twice. */
  ghost predicate UniqueLabels(code: seq<Item>) {
    forall i, j :: 0 <= i < |code| && 0 <= j < |code| && code[i].Label? && code[i] == code[j] ==> i == j
  }

  lemma {:induction false} FindLabelFinds(code: seq<Item>, l: nat, k: int)
    requires 0 <= k < |code| && code[k] == Label(l)
    ensures FindLabel(code, l) <= k && code[FindLabel(code, l)] == Label(l)
  {
    if code[0] != Label(l) {
      FindLabelFinds(code[1..], l, k - 1);
    }
  }

  lemma LabelAt(code: seq<Item>, l: nat, k: int)
    requires UniqueLabels(code) && 0 <= k < |code| && code[k] == Label(l)
    ensures FindLabel(code, l) == k
  {
    FindLabelFinds(code, l, k);
  }

  /** What linking guarantees: jumping to the address of a position reaches it, at most
      passing labels (which take no space); code, runtime and pair words are told
      apart; nil is no code address; globals lie below the stack. */
  ghost predicate Wired(img: Image) {
    && (forall p :: 0 <= p <= |img.code| ==>
         && 0 <= img.adr(p) < MODULUS
         && 0 <= img.target(img.adr(p)) <= p
         && (forall k :: img.target(img.adr(p)) <= k < p ==> img.code[k].Label?)
         && (forall rt :: img.adr(p) != img.routineAdr(rt)))
    && (forall p :: 0 <= p < |img.code| && img.code[p].Label? ==> img.adr(p) != 2)
    && (forall a, b :: img.routineAdr(a) == img.routineAdr(b) ==> a == b)
    && (forall i :: 0 <= i < img.capacity ==>
         0 <= img.pairWord(i) < MODULUS && img.pairWord(i) % 4 == 1 && img.pairId(img.pairWord(i)) == i)
    && (forall g :: 0 <= g < 512 ==> 0 <= img.globalAdr(g) < img.floor)
    && (forall g, h :: 0 <= g < 512 && 0 <= h < 512 && img.globalAdr(g) == img.globalAdr(h) ==> g == h)
  }

  ghost predicate Linked(img: Image) { UniqueLabels(img.code) && Wired(img) }

  /** Passing labels changes nothing but the position. */
  lemma {:induction false} SkipLabels(img: Image, m: Machine, p: int)
    requires 0 <= m.pc <= p <= |img.code|
    requires forall k :: m.pc <= k < p ==> img.code[k].Label?
    ensures Runs(img, m, m.(pc := p))
    decreases p - m.pc
  {
    if m.pc == p {
      RunsZero(img, m);
    } else {
      RunsStep(img, m);
      SkipLabels(img, m.(pc := m.pc + 1), p);
      RunsTrans(img, m, m.(pc := m.pc + 1), m.(pc := p));
    }
  }

  /** A jump to the address of `p` arrives there. */
  lemma JumpArrives(img: Image, m: Machine, p: int)
    requires Linked(img) && 0 <= p <= |img.code| && m.pc == img.target(img.adr(p))
    ensures Runs(img, m, m.(pc := p))
  {
    SkipLabels(img, m, p);
  }
}
