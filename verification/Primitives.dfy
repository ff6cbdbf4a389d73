/** The primitives on numbers and lists: as the interpreter runs them on words and cells, and what
    they compute on values. */
module Primitives {
  import opened Tml
  import opened Exceptions
  import opened EvalFrame
  import opened HeapMeaning
  import opened EvalMeans
  import opened Wrappers
  import M = Meaning
  import Words24

  const ADD: int := 0
  const SUB: int := 1
  const MUL: int := 2
  const DIV: int := 3
  const MOD: int := 4
  const LT: int := 5
  const EQ_NUM: int := 6
  const CONS: int := 7
  const CAR: int := 8
  const CDR: int := 9
  const LIST: int := 10
  const NULLP: int := 11
  const PAIRP: int := 12
  const ATOMP: int := 13
  const EQP: int := 14
  const NOT: int := 15
  const NUMP: int := 17
  const FNQP: int := 35
  const SYMBOLP: int := 43

  // Messages
  const NOT_NUMBER: int := 6
  const DIV_BY_ZERO: int := 7
  const CAR_OF_NON_PAIR: int := 8
  const CDR_OF_NON_PAIR: int := 9

  predicate IsFixnum(w: int) { w % 4 == 0 }

  /** An int of the C program. */
  function Int24(x: int): int { Words24.Signed(Words24.Wrap(x)) }

  /** MAKE_FIXNUM, which drops what does not fit. */
  function NumberWord(n: int): int { MakeFixnum(Words24.Fold(n)) }

  /** Division as in C, towards zero. */
  function Quotient(a: int, b: int): int
    requires b != 0
  {
    if a >= 0 then a / b else -(-a / b)
  }

  function Remainder(a: int, b: int): int
    requires b != 0
  {
    a - b * Quotient(a, b)
  }

  /** The quotient is the exact one, cut off towards zero. */
  lemma QuotientExact(a: int, b: int)
    requires b != 0
    ensures var m := if b < 0 then -b else b; -m < Remainder(a, b) < m
    ensures a >= 0 ==> Remainder(a, b) >= 0
    ensures a <= 0 ==> Remainder(a, b) <= 0
  {
    if a < 0 {
      assert -a == b * (-a / b) + -a % b;
    }
  }

  // On words and cells

  /** One turn of the loop over the operands. */
  function Step(id: int, count: nat, result: int, n: int): int {
    if count == 0 && id == SUB then n
    else if id == ADD then Int24(result + n)
    else if id == SUB then Int24(result - n)
    else Int24(result * n)
  }

  datatype Total = Endless | Wrong | Total(n: int)

  /** The loop over the operands from `rest` on. */
  function Operate(w: World, id: int, rest: int, result: int, count: nat, fuel: nat): Total
    decreases fuel
  {
    if fuel == 0 then Endless
    else if rest == NIL_VAL then Total(if id == SUB && count == 1 then Int24(-result) else result)
    else if !IsFixnum(w.Car(rest)) then Wrong
    else Operate(w, id, w.Cdr(rest), Step(id, count, result, w.Car(rest) / 4), count + 1, fuel - 1)
  }

  /** +, - and *. A list longer than there are cells is circular; of that loop nothing is said. */
  function Arithmetic(id: int, args: int, w: World): Made {
    match Operate(w, id, args, if id == MUL then 1 else 0, 0, |w.cells| + 1)
    case Endless => Made(NIL_VAL, w)
    case Wrong => Made(NIL_VAL, w.Print([NOT_NUMBER]))
    case Total(n) => Made(NumberWord(n), w)
  }

  method RunArithmetic(id: int, args: int, w: World) returns (made: Made)
    requires !Operate(w, id, args, if id == MUL then 1 else 0, 0, |w.cells| + 1).Endless?
    ensures made == Arithmetic(id, args, w)
  {
    var result := if id == MUL then 1 else 0;
    var rest, count := args, 0;
    ghost var fuel: nat := |w.cells| + 1;
    while rest != NIL_VAL
      invariant count >= 0
      invariant Operate(w, id, rest, result, count, fuel)
             == Operate(w, id, args, if id == MUL then 1 else 0, 0, |w.cells| + 1)
      decreases fuel
    {
      var v := w.Car(rest);
      if !IsFixnum(v) {
        return Made(NIL_VAL, w.Print([NOT_NUMBER]));
      }
      result := Step(id, count, result, v / 4);
      count := count + 1;
      rest := w.Cdr(rest);
      fuel := fuel - 1;
    }
    if id == SUB && count == 1 {
      result := Int24(-result);
    }
    made := Made(NumberWord(result), w);
  }

  function TruthWord(b: bool): int { if b then T_VAL else NIL_VAL }

  /** / % < and = */
  function OfTwo(id: int, a: int, b: int, w: World): Made {
    if !IsFixnum(a) || !IsFixnum(b) then Made(NIL_VAL, w.Print([NOT_NUMBER]))
    else if id == DIV || id == MOD then
      if b / 4 == 0 then Made(NIL_VAL, w.Print([DIV_BY_ZERO]))
      else Made(NumberWord(if id == DIV then Quotient(a / 4, b / 4) else Remainder(a / 4, b / 4)), w)
    else Made(TruthWord(if id == LT then a / 4 < b / 4 else a / 4 == b / 4), w)
  }

  predicate Tests(id: int) { id in {NULLP, PAIRP, ATOMP, EQP, NOT, NUMP, SYMBOLP, FNQP} }

  predicate TestWord(id: int, a: int, b: int, w: World) {
    if id == NULLP || id == NOT then a == NIL_VAL
    else if id == PAIRP then IsCons(a)
    else if id == ATOMP then !IsCons(a)
    else if id == EQP then a == b
    else if id == NUMP then IsFixnum(a)
    else if id == SYMBOLP then IsSymbol(a) && a != NIL_VAL && a != T_VAL
    else IsCode(w, a, ETYPE_CLOSURE) || IsCode(w, a, ETYPE_PRIMITIVE)
  }

  /** apply_primitive as far as numbers and lists; `other` does the rest. */
  function Run(other: Prims, id: int, args: int, w: World): Made {
    var a, b := FirstArg(w, args), SecondArg(w, args);
    if id == ADD || id == SUB || id == MUL then Arithmetic(id, args, w)
    else if DIV <= id <= EQ_NUM then OfTwo(id, a, b, w)
    else if id == CONS then Cons(w, a, b)
    else if id == CAR then if IsCons(a) then Made(w.Car(a), w) else Made(NIL_VAL, w.Print([CAR_OF_NON_PAIR]))
    else if id == CDR then if IsCons(a) then Made(w.Cdr(a), w) else Made(NIL_VAL, w.Print([CDR_OF_NON_PAIR]))
    else if id == LIST then Made(args, w)
    else if Tests(id) then Made(TruthWord(TestWord(id, a, b, w)), w)
    else other(id, args, w)
  }

  function Standard(other: Prims): Prims { (id, args, w) => Run(other, id, args, w) }

  // On values

  predicate IsNumber(x: M.Val) { x.Atom? && IsFixnum(x.w) }

  function Number(n: int): M.Val { M.Atom(NumberWord(n)) }

  function Truth(b: bool): M.Val { if b then M.Atom(T_VAL) else M.NIL }

  /** The numbers of a list, up to the first that is none. */
  datatype Operands = NoList | NoNumber | Numbers(ns: seq<int>)

  function OperandsOf(x: M.Val): Operands {
    if x == M.NIL then Numbers([])
    else if !x.Pair? then NoList
    else if !IsNumber(x.car) then NoNumber
    else
      match OperandsOf(x.cdr)
      case Numbers(ns) => Numbers([x.car.w / 4] + ns)
      case other => other
  }

  function Sum(ns: seq<int>): int { if ns == [] then 0 else ns[0] + Sum(ns[1..]) }

  function Product(ns: seq<int>): int { if ns == [] then 1 else ns[0] * Product(ns[1..]) }

  /** All the operands together; one operand is subtracted from 0. */
  function Result(id: int, ns: seq<int>): int {
    if id == ADD then Sum(ns)
    else if id == MUL then Product(ns)
    else if ns == [] then 0
    else if |ns| == 1 then -ns[0]
    else ns[0] - Sum(ns[1..])
  }

  function OfTwoValues(id: int, a: M.Val, b: M.Val): (M.Val, seq<int>) {
    if !IsNumber(a) || !IsNumber(b) then (M.NIL, [NOT_NUMBER])
    else
      var m, n := a.w / 4, b.w / 4;
      if id == LT then (Truth(m < n), [])
      else if id == EQ_NUM then (Truth(m == n), [])
      else if n == 0 then (M.NIL, [DIV_BY_ZERO])
      else (Number(if id == DIV then Quotient(m, n) else Remainder(m, n)), [])
  }

  predicate TestValue(id: int, a: M.Val, b: M.Val) {
    if id == NULLP || id == NOT then a == M.NIL
    else if id == PAIRP then a.Pair?
    else if id == ATOMP then !a.Pair?
    else if id == EQP then a == b
    else if id == NUMP then IsNumber(a)
    else if id == SYMBOLP then M.IsName(a) && a.w != T_VAL
    else a.Closure? || a.Primitive?
  }

  /** Values and messages. That two pairs or functions are the same one, which eq? asks, is not
      known from their values. */
  function Pure(id: int, x: M.Val): Option<(M.Val, seq<int>)> {
    var a, b := M.First(x), M.Second(x);
    if id == ADD || id == SUB || id == MUL then
      match OperandsOf(x)
      case NoList => None
      case NoNumber => Some((M.NIL, [NOT_NUMBER]))
      case Numbers(ns) => Some((Number(Result(id, ns)), []))
    else if !M.TwoOf(x) then None
    else if DIV <= id <= EQ_NUM then Some(OfTwoValues(id, a, b))
    else if id == CONS then Some((M.Pair(a, b), []))
    else if id == CAR then Some(if a.Pair? then (a.car, []) else (M.NIL, [CAR_OF_NON_PAIR]))
    else if id == CDR then Some(if a.Pair? then (a.cdr, []) else (M.NIL, [CDR_OF_NON_PAIR]))
    else if id == LIST then Some((x, []))
    else if id == EQP && !a.Atom? && !b.Atom? then None
    else if Tests(id) then Some((Truth(TestValue(id, a, b)), []))
    else None
  }

  // The loop computes the exact result, whatever wraps on the way

  predicate Same(a: int, b: int) { Words24.Fold(a) == Words24.Fold(b) }

  lemma SameBy(a: int, b: int, k: int)
    requires a == b + k * Words24.FIX_MODULUS
    ensures Same(a, b)
  {
  }

  lemma SameIs(a: int, b: int) returns (k: int)
    requires Same(a, b)
    ensures a == b + k * Words24.FIX_MODULUS
  {
    var m, h := Words24.FIX_MODULUS, Words24.FIX_HALF;
    k := (a + h) / m - (b + h) / m;
  }

  lemma WrapsSame(x: int)
    ensures Same(Int24(x), x)
  {
    var k := x / Words24.MODULUS;
    var y := Words24.Wrap(x);
    assert y == x - k * Words24.MODULUS;
    SameBy(y, x, -4 * k);
    SameBy(y - Words24.MODULUS, x, -4 * k - 4);
  }

  /** The exact step. */
  function Exactly(id: int, count: nat, x: int, n: int): int {
    if count == 0 && id == SUB then n else if id == ADD then x + n else if id == SUB then x - n else x * n
  }

  lemma StepSame(id: int, count: nat, result: int, x: int, n: int)
    requires Same(result, x)
    ensures Same(Step(id, count, result, n), Exactly(id, count, x, n))
  {
    hide Int24;
    var k := SameIs(result, x);
    WrapsSame(result + n);
    WrapsSame(result - n);
    WrapsSame(result * n);
    SameBy(result + n, x + n, k);
    SameBy(result - n, x - n, k);
    assert result * n == x * n + k * n * Words24.FIX_MODULUS;
    SameBy(result * n, x * n, k * n);
  }

  /** What the rest of the operands makes of the result so far. */
  function Behind(id: int, count: nat, x: int, ns: seq<int>): int
    decreases |ns|
  {
    if ns == [] then if id == SUB && count == 1 then -x else x
    else Behind(id, count + 1, Exactly(id, count, x, ns[0]), ns[1..])
  }

  lemma {:induction false} BehindIs(id: int, count: nat, x: int, ns: seq<int>)
    requires id == ADD || id == MUL || (id == SUB && count > 0)
    ensures Behind(id, count, x, ns)
         == if id == ADD then x + Sum(ns)
            else if id == MUL then x * Product(ns)
            else if count == 1 && ns == [] then -x
            else x - Sum(ns)
    decreases |ns|
  {
    if ns != [] {
      BehindIs(id, count + 1, Exactly(id, count, x, ns[0]), ns[1..]);
      if id == MUL {
        assert x * ns[0] * Product(ns[1..]) == x * (ns[0] * Product(ns[1..]));
      }
    }
  }

  lemma AllOperands(id: int, ns: seq<int>)
    requires id == ADD || id == SUB || id == MUL
    ensures Behind(id, 0, if id == MUL then 1 else 0, ns) == Result(id, ns)
  {
    if id == SUB {
      if ns != [] {
        BehindIs(id, 1, ns[0], ns[1..]);
      }
    } else {
      BehindIs(id, 0, if id == MUL then 1 else 0, ns);
    }
  }

  function Length(x: M.Val): nat { if x.Pair? then 1 + Length(x.cdr) else 0 }

  lemma {:induction false} Operates(h: Heap, busy: set<int>, id: int, v: int, x: M.Val, result: int, exact: int,
                                    count: nat, f: nat)
    requires Stands(h, busy, v, x) && Same(result, exact) && f > Length(x)
    ensures match OperandsOf(x)
            case NoList => true
            case NoNumber => Operate(h.w, id, v, result, count, f) == Wrong
            case Numbers(ns) =>
              && Operate(h.w, id, v, result, count, f).Total?
              && Same(Operate(h.w, id, v, result, count, f).n, Behind(id, count, exact, ns))
    decreases x
  {
    hide Stands, Step, Exactly, Same, Int24;
    Word(h, busy, v, x);
    if x == M.NIL {
      Negates(result, exact);
    } else if x.Pair? {
      PairReads(h, busy, v, x);
      Word(h, busy, h.w.Car(v), x.car);
      if IsNumber(x.car) {
        var n := x.car.w / 4;
        StepSame(id, count, result, exact, n);
        Operates(h, busy, id, h.w.Cdr(v), x.cdr, Step(id, count, result, n), Exactly(id, count, exact, n), count + 1,
                 f - 1);
      }
    }
  }

  lemma Negates(result: int, exact: int)
    requires Same(result, exact)
    ensures Same(Int24(-result), -exact)
  {
    var k := SameIs(result, exact);
    WrapsSame(-result);
    SameBy(-result, -exact, -k);
  }

  // A list that stands for a value is no longer than there are cells

  /** The cells of a list. */
  function CellsOf(w: World, v: int, n: nat): set<int>
    decreases n
  {
    if n == 0 then {} else {PtrIdx(v)} + CellsOf(w, w.Cdr(v), n - 1)
  }

  /** It has exactly `n` pairs. */
  predicate Long(w: World, v: int, n: nat)
    decreases n
  {
    if n == 0 then !IsCons(v) else IsCons(v) && 0 <= PtrIdx(v) < |w.cells| && Long(w, w.Cdr(v), n - 1)
  }

  lemma {:induction false} StandsLong(h: Heap, busy: set<int>, v: int, x: M.Val)
    requires Stands(h, busy, v, x)
    ensures Long(h.w, v, Length(x))
    decreases x
  {
    if x.Pair? {
      StandsLong(h, busy, h.w.Cdr(v), x.cdr);
    } else {
      Word(h, busy, v, x);
    }
  }

  lemma {:induction false} OneLength(w: World, v: int, m: nat, n: nat)
    requires Long(w, v, m) && Long(w, v, n)
    ensures m == n
    decreases m
  {
    if m > 0 && n > 0 {
      OneLength(w, w.Cdr(v), m - 1, n - 1);
    }
  }

  lemma {:induction false} CellLong(w: World, v: int, n: nat, c: int) returns (m: nat)
    requires Long(w, v, n) && c in CellsOf(w, v, n)
    ensures 0 < m <= n && Long(w, MakeCons(c), m) && 0 <= c < |w.cells|
    decreases n
  {
    if c == PtrIdx(v) {
      m := n;
    } else {
      m := CellLong(w, w.Cdr(v), n - 1, c);
    }
  }

  lemma {:induction false} CellsCount(w: World, v: int, n: nat)
    requires Long(w, v, n)
    ensures |CellsOf(w, v, n)| == n
    decreases n
  {
    if n > 0 {
      CellsCount(w, w.Cdr(v), n - 1);
      if PtrIdx(v) in CellsOf(w, w.Cdr(v), n - 1) {
        var m := CellLong(w, w.Cdr(v), n - 1, PtrIdx(v));
        OneLength(w, v, m, n);
      }
    }
  }

  lemma {:induction false} Below(s: set<int>, n: nat)
    requires forall c :: c in s ==> 0 <= c < n
    ensures |s| <= n
    decreases n
  {
    if n > 0 {
      Below(s - {n - 1}, n - 1);
    } else {
      assert forall c :: c !in s;
      assert s == {};
    }
  }

  lemma LengthBelow(h: Heap, busy: set<int>, v: int, x: M.Val)
    requires Stands(h, busy, v, x)
    ensures Length(x) <= |h.w.cells|
  {
    var n := Length(x);
    StandsLong(h, busy, v, x);
    CellsCount(h.w, v, n);
    forall c | c in CellsOf(h.w, v, n) ensures 0 <= c < |h.w.cells| {
      var _ := CellLong(h.w, v, n, c);
    }
    Below(CellsOf(h.w, v, n), |h.w.cells|);
  }

  // The primitives compute their values

  lemma ArithmeticMeans(h: Heap, busy: set<int>, id: int, v: int, x: M.Val)
    requires Stands(h, busy, v, x) && (id == ADD || id == SUB || id == MUL) && Pure(id, x).Some?
    ensures var r := Pure(id, x).value; r.0.Atom? && !IsPointer(r.0.w)
    ensures var r := Pure(id, x).value; Arithmetic(id, v, h.w) == Made(r.0.w, h.w.Print(r.1))
  {
    hide Stands, Operate;
    LengthBelow(h, busy, v, x);
    var start := if id == MUL then 1 else 0;
    Operates(h, busy, id, v, x, start, start, 0, |h.w.cells| + 1);
    if OperandsOf(x).Numbers? {
      AllOperands(id, OperandsOf(x).ns);
    }
    assert h.w.Print([]) == h.w;
  }

  lemma OfTwoMeans(id: int, a: int, x: M.Val, b: int, y: M.Val, w: World)
    requires DIV <= id <= EQ_NUM && (x.Atom? ==> x.w == a) && (y.Atom? ==> y.w == b)
    requires (IsPointer(a) <==> !x.Atom?) && (IsPointer(b) <==> !y.Atom?)
    ensures var r := OfTwoValues(id, x, y);
      r.0.Atom? && !IsPointer(r.0.w) && OfTwo(id, a, b, w) == Made(r.0.w, w.Print(r.1))
  {
    hide Quotient, Remainder, NumberWord;
    assert w.Print([]) == w;
    if IsNumber(x) && IsNumber(y) && (id == DIV || id == MOD) && y.w / 4 != 0 {
      NumberAtom(if id == DIV then Quotient(a / 4, b / 4) else Remainder(a / 4, b / 4));
    }
  }

  lemma NumberAtom(n: int)
    ensures !IsPointer(NumberWord(n))
  {
  }

  lemma TestMeans(h: Heap, busy: set<int>, id: int, a: int, x: M.Val, b: int, y: M.Val)
    requires Stands(h, busy, a, x) && Stands(h, busy, b, y) && Typed(h.k, h.w) && Tests(id)
    requires id == EQP ==> x.Atom? || y.Atom?
    ensures TestWord(id, a, b, h.w) == TestValue(id, x, y)
  {
    hide Stands, Typed;
    Word(h, busy, a, x);
    Word(h, busy, b, y);
    CodeWord(h, busy, a, x);
  }

  /** The same heap, and perhaps a message. */
  lemma YieldsHere(h: Heap, busy: set<int>, v: int, y: M.Val, ws: seq<int>)
    requires Typed(h.k, h.w) && Stands(h, busy, v, y)
    ensures Yields(h, busy, Made(v, h.w.Print(ws)), h.k, y, ws)
  {
    hide CellOk, EnvStands;
    var h1 := Heap(h.k, h.w.Print(ws), h.locs);
    assert Typed(h1.k, h1.w);
    hide Typed, Stands;
    assert |h.k| == |h.w.cells| by { SameLength(h.k, h.w); }
    Kept(h, h1, busy, v, y);
  }

  lemma OneMeans(other: Prims, id: int, list: int, x: M.Val, h: Heap, busy: set<int>, s: M.State)
      returns (k1: seq<Kind>)
    requires Carries(h, busy, s) && Stands(h, busy, list, x) && Pure(id, x).Some?
    ensures Yields(h, busy, Run(other, id, list, h.w), k1, Pure(id, x).value.0, Pure(id, x).value.1)
  {
    hide Carries, Stands, Typed, EnvStands, Yields, Arithmetic, OperandsOf, Result, OfTwo, OfTwoValues, TestWord,
         TestValue, NumberWord;
    CarriesTyped(h, busy, s);
    assert h.w.Print([]) == h.w;
    k1 := h.k;
    if id == ADD || id == SUB || id == MUL {
      ArithmeticMeans(h, busy, id, list, x);
      AtomYields(h, busy, Pure(id, x).value.0, Pure(id, x).value.1);
      return;
    }
    FirstsStand(h, busy, list, x);
    var a, b, av, bv := M.First(x), M.Second(x), FirstArg(h.w, list), SecondArg(h.w, list);
    Word(h, busy, av, a);
    Word(h, busy, bv, b);
    if DIV <= id <= EQ_NUM {
      OfTwoMeans(id, av, a, bv, b, h.w);
      AtomYields(h, busy, OfTwoValues(id, a, b).0, OfTwoValues(id, a, b).1);
    } else if id == CONS {
      k1 := ConsYields(h, busy, s, av, a, bv, b);
    } else if id == CAR || id == CDR {
      if a.Pair? {
        PairReads(h, busy, av, a);
        YieldsHere(h, busy, if id == CAR then h.w.Car(av) else h.w.Cdr(av), if id == CAR then a.car else a.cdr, []);
      } else {
        AtomYields(h, busy, M.NIL, [if id == CAR then CAR_OF_NON_PAIR else CDR_OF_NON_PAIR]);
      }
    } else if id == LIST {
      YieldsHere(h, busy, list, x, []);
    } else {
      TestMeans(h, busy, id, av, a, bv, b);
      AtomYields(h, busy, Truth(TestValue(id, a, b)), []);
    }
  }

  lemma AtomYields(h: Heap, busy: set<int>, y: M.Val, ws: seq<int>)
    requires Typed(h.k, h.w) && y.Atom? && !IsPointer(y.w)
    ensures Yields(h, busy, Made(y.w, h.w.Print(ws)), h.k, y, ws)
  {
    hide Typed, Yields;
    AtomStands(h, busy, y.w);
    YieldsHere(h, busy, y.w, y, ws);
  }

  lemma ConsYields(h: Heap, busy: set<int>, s: M.State, a: int, x: M.Val, b: int, y: M.Val) returns (k1: seq<Kind>)
    requires Carries(h, busy, s) && Stands(h, busy, a, x) && Stands(h, busy, b, y)
    ensures Yields(h, busy, Cons(h.w, a, b), k1, M.Pair(x, y), [])
  {
    hide Carries, Stands, EnvStands;
    var h1 := NewPair(h, busy, s, a, x, b, y);
    CarriesTyped(h1, busy, s);
    k1 := h1.k;
  }

  /** Each of them is what evaluation expects of a primitive. */
  lemma StandardMeans(other: Prims)
    ensures PrimsMean(Standard(other), Pure)
  {
    hide Run, Pure, Carries, Stands, Yields;
    forall id, list, x, h, busy, s ensures PrimMeans(Standard(other), Pure, id, list, x, h, busy, s) {
      if Carries(h, busy, s) && Stands(h, busy, list, x) && Pure(id, x).Some? {
        var k1 := OneMeans(other, id, list, x, h, busy, s);
        assert Yields(h, busy, Standard(other)(id, list, h.w), k1, Pure(id, x).value.0, Pure(id, x).value.1);
      }
    }
  }

  /** They write no cell that is there and make no functions. */
  lemma StandardOk(other: Prims)
    requires PrimsOk(other)
    ensures PrimsOk(Standard(other))
  {
    hide Run, Typed, WordOk;
    forall id, list, w, k ensures PrimOk(Standard(other), id, list, w, k) {
      if Typed(k, w) && WordOk(k, list) {
        var k1 := OneOk(other, id, list, w, k);
      }
    }
  }

  lemma OneOk(other: Prims, id: int, list: int, w: World, k: seq<Kind>) returns (k1: seq<Kind>)
    requires PrimsOk(other) && Typed(k, w) && WordOk(k, list)
    ensures var made := Run(other, id, list, w);
      && w.cells <= made.w.cells && made.w.globalEnv == w.globalEnv
      && k <= k1 && Typed(k1, made.w) && WordOk(k1, made.v)
  {
    hide Typed, Operate, NumberWord, Quotient, Remainder, TestWord;
    var a, b, made := FirstArg(w, list), SecondArg(w, list), Run(other, id, list, w);
    Reads(k, w, list);
    Reads(k, w, w.Cdr(list));
    Reads(k, w, a);
    SameLength(k, w);
    k1 := k;
    if id == CONS {
      PairCell(k, w, a, b);
      k1 := k + [Pair];
    } else if ADD <= id <= LIST || Tests(id) {
      StillTyped(k, w, made.w);
      forall n ensures !IsPointer(NumberWord(n)) {
        NumberAtom(n);
      }
    } else {
      assert PrimOk(other, id, list, w, k);
      k1 :| k <= k1 && Typed(k1, made.w) && WordOk(k1, made.v);
    }
  }

  lemma StillTyped(k: seq<Kind>, w: World, w1: World)
    requires Typed(k, w) && w1.cells == w.cells && w1.globalEnv == w.globalEnv
    ensures Typed(k, w1)
  {
  }
}
