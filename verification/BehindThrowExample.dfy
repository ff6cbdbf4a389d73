/** A definition and a message behind a throw, at the input
    ``(catch 'a `(,(throw 'a 1) ,(define (f) 2) ,x))``, with x unbound. */
module BehindThrowExample {
  import opened Tml
  import opened Exceptions
  import opened FormText
  import BehindThrow
  import EvalFrame
  import LispStore
  import QuasiThrow
  import ReadForms

  const PLUS: int := MakeSymbol(14)
  const THROW: int := MakeSymbol(15)
  const A: int := MakeSymbol(16)
  const F: int := MakeSymbol(17)
  const X: int := MakeSymbol(18)

  /** Two primitives are registered and the form has been read; it is cell 6. */
  const EXAMPLE: World := World(seq(31, ExampleCell), MakeCons(5), [])

  const ENV: int := MakeCons(5)

  function ExampleCell(i: int): (int, int) {
    match i
    case 0 => (ETYPE_PRIMITIVE, MakeFixnum(0))
    case 1 => (PLUS, MakeExtended(0))
    case 2 => (MakeCons(1), NIL_VAL)
    case 3 => (ETYPE_PRIMITIVE, MakeFixnum(PRIM_THROW))
    case 4 => (THROW, MakeExtended(3))
    case 5 => (MakeCons(4), MakeCons(2))
    // (catch 'a ..)
    case 6 => (CATCH, MakeCons(9))
    case 7 => (A, NIL_VAL)
    case 8 => (QUOTE, MakeCons(7))
    case 9 => (MakeCons(8), MakeCons(30))
    // (unquote (throw 'a 1)), in the template
    case 10 => (THROW, MakeCons(13))
    case 11 => (A, NIL_VAL)
    case 12 => (QUOTE, MakeCons(11))
    case 13 => (MakeCons(12), MakeCons(14))
    case 14 => (MakeFixnum(1), NIL_VAL)
    case 15 => (MakeCons(10), NIL_VAL)
    case 16 => (UNQUOTE, MakeCons(15))
    case 17 => (MakeCons(16), MakeCons(24))
    // (unquote (define (f) 2))
    case 18 => (DEFINE, MakeCons(20))
    case 19 => (F, NIL_VAL)
    case 20 => (MakeCons(19), MakeCons(21))
    case 21 => (MakeFixnum(2), NIL_VAL)
    case 22 => (MakeCons(18), NIL_VAL)
    case 23 => (UNQUOTE, MakeCons(22))
    case 24 => (MakeCons(23), MakeCons(27))
    // (unquote x)
    case 25 => (X, NIL_VAL)
    case 26 => (UNQUOTE, MakeCons(25))
    case 27 => (MakeCons(26), NIL_VAL)
    // (quasiquote ..)
    case 28 => (MakeCons(17), NIL_VAL)
    case 29 => (QUASIQUOTE, MakeCons(28))
    case _ => (MakeCons(29), NIL_VAL)
  }

  // Evaluating it

  /** The cells of the environment. */
  predicate HasEnv(w: World) {
    && w.Car(ENV) == MakeCons(4) && w.Cdr(ENV) == MakeCons(2)
    && w.Car(MakeCons(2)) == MakeCons(1) && w.Cdr(MakeCons(2)) == NIL_VAL
    && w.Car(MakeCons(4)) == THROW && w.Cdr(MakeCons(4)) == MakeExtended(3) && w.Car(MakeCons(1)) == PLUS
  }

  /** The cells of the throw form and of what it is bound to. */
  predicate HasThrow(w: World) {
    && w.Car(MakeExtended(3)) == ETYPE_PRIMITIVE && w.Cdr(MakeExtended(3)) == MakeFixnum(PRIM_THROW)
    && w.Car(MakeCons(10)) == THROW && w.Cdr(MakeCons(10)) == MakeCons(13)
    && w.Car(MakeCons(13)) == MakeCons(12) && w.Cdr(MakeCons(13)) == MakeCons(14)
    && w.Car(MakeCons(14)) == MakeFixnum(1) && w.Cdr(MakeCons(14)) == NIL_VAL
    && w.Car(MakeCons(12)) == QUOTE && w.Cdr(MakeCons(12)) == MakeCons(11) && w.Car(MakeCons(11)) == A
    && |w.cells| == 31
  }

  lemma ThrowArgs(p: Prims, w: World, live: seq<int>)
    requires HasThrow(w)
    ensures var o := EvalArgs(p, 9, MakeCons(13), ENV, w, live);
      o == Ok(MakeCons(31), w.Fresh(A, MakeCons(32)).Fresh(MakeFixnum(1), NIL_VAL))
  {
    assert Eval(p, 8, MakeCons(12), ENV, w, live, Free) == Ok(A, w);
    var w1 := w.Fresh(A, NIL_VAL);
    assert Eval(p, 7, MakeFixnum(1), ENV, w1, live, Free) == Ok(MakeFixnum(1), w1);
    var w2 := w1.Fresh(MakeFixnum(1), NIL_VAL).SetCdr(MakeCons(31), MakeCons(32));
    assert w1.Car(MakeCons(14)) == MakeFixnum(1);
    assert w2.cells == w.Fresh(A, MakeCons(32)).Fresh(MakeFixnum(1), NIL_VAL).cells;
    assert w2.Cdr(MakeCons(14)) == NIL_VAL;
    assert EvalRest(p, 7, NIL_VAL, ENV, w2, live, MakeCons(31), MakeCons(32)) == Ok(MakeCons(31), w2);
  }

  lemma ThrowForm(p: Prims, w: World, live: seq<int>)
    requires HasEnv(w) && HasThrow(w) && A in live
    ensures Eval(p, 11, MakeCons(10), ENV, w, live, Free)
         == Raise(A, MakeFixnum(1), w.Fresh(A, MakeCons(32)).Fresh(MakeFixnum(1), NIL_VAL), NIL_VAL)
  {
    hide EvalArgs;
    assert Find(w, ENV, THROW, 10) == Found(MakeCons(4));
    assert Eval(p, 10, THROW, ENV, w, live, Free) == Ok(MakeExtended(3), w);
    ThrowArgs(p, w, live);
    var w1 := w.Fresh(A, MakeCons(32)).Fresh(MakeFixnum(1), NIL_VAL);
    assert w1.Car(MakeExtended(3)) == ETYPE_PRIMITIVE && w1.Cdr(MakeExtended(3)) == MakeFixnum(PRIM_THROW);
    assert ApplyPrim(p, 8, PRIM_THROW, MakeCons(31), w1, live) == Raise(A, MakeFixnum(1), w1, NIL_VAL);
    assert Apply(p, 9, MakeExtended(3), MakeCons(31), w1, live) == Raise(A, MakeFixnum(1), w1, NIL_VAL);
  }

  /** The cells of the rest of the template. */
  predicate HasRest(w: World) {
    && w.Car(MakeCons(24)) == MakeCons(23) && w.Cdr(MakeCons(24)) == MakeCons(27)
    && w.Car(MakeCons(23)) == UNQUOTE && w.Cdr(MakeCons(23)) == MakeCons(22) && w.Car(MakeCons(22)) == MakeCons(18)
    && w.Car(MakeCons(18)) == DEFINE && w.Cdr(MakeCons(18)) == MakeCons(20)
    && w.Car(MakeCons(20)) == MakeCons(19) && w.Cdr(MakeCons(20)) == MakeCons(21)
    && w.Car(MakeCons(19)) == F
    && w.Car(MakeCons(27)) == MakeCons(26) && w.Cdr(MakeCons(27)) == NIL_VAL
    && w.Car(MakeCons(26)) == UNQUOTE && w.Cdr(MakeCons(26)) == MakeCons(25) && w.Car(MakeCons(25)) == X
    && |w.cells| >= 31
  }

  /** One name has been added in front of the global environment, in cells from `lo` on. */
  predicate Binds(w: World, sym: int, lo: nat) {
    && IsCons(w.globalEnv) && w.Car(w.Car(w.globalEnv)) == sym && w.Cdr(w.globalEnv) == ENV
    && lo <= PtrIdx(w.globalEnv) < |w.cells| && lo <= PtrIdx(w.Car(w.globalEnv)) < |w.cells|
  }

  /** The part behind the throw binds f. */
  lemma DefineForm(p: Prims, w: World, live: seq<int>, pend: Pend)
    requires HasRest(w) && pend.Thrown? && Aimed(pend, live) && w.globalEnv == ENV && w.output == []
    ensures var o := EvalPart(p, 12, MakeCons(23), ENV, w, live, pend);
      o.Raise? && Carry(o) == pend && w.cells <= o.w.cells && Binds(o.w, F, |w.cells|)
      && o.w.output == []
  {
    hide MakeCode, BodyOf, EnvExtend, Binds, EvalPart;
    var body := BodyOf(w, MakeCons(21));
    var made := MakeCode(body.w, ETYPE_CLOSURE, w.Cdr(MakeCons(19)), body.v, ENV);
    CodeKeeps(w, made, MakeCons(21), w.Cdr(MakeCons(19)));
    Defines(p, w, live, pend, made);
    NewBinding(w, made);
  }

  lemma Defines(p: Prims, w: World, live: seq<int>, pend: Pend, made: Made)
    requires HasRest(w) && pend.Thrown? && Aimed(pend, live)
    requires var body := BodyOf(w, MakeCons(21));
      made == MakeCode(body.w, ETYPE_CLOSURE, w.Cdr(MakeCons(19)), body.v, ENV)
    ensures var x := EnvExtend(made.w, F, made.v, made.w.globalEnv);
      EvalPart(p, 12, MakeCons(23), ENV, w, live, pend) == Give(pend, made.v, x.w.SetGlobal(x.v))
  {
    hide MakeCode, BodyOf, EnvExtend;
    var x := EnvExtend(made.w, F, made.v, made.w.globalEnv);
    assert EvalDefine(p, 9, MakeCons(20), ENV, w, live, pend) == Give(pend, made.v, x.w.SetGlobal(x.v));
    assert Eval(p, 10, MakeCons(18), ENV, w, live, pend) == Give(pend, made.v, x.w.SetGlobal(x.v));
    assert EvalQuasi(p, 11, MakeCons(23), ENV, w, live, pend) == Give(pend, made.v, x.w.SetGlobal(x.v));
  }

  lemma NewBinding(w: World, made: Made)
    requires w.cells <= made.w.cells && made.w.globalEnv == ENV
    ensures var x := EnvExtend(made.w, F, made.v, made.w.globalEnv); var w1 := x.w.SetGlobal(x.v);
      Binds(w1, F, |w.cells|) && w.cells <= w1.cells && w1.output == made.w.output
  {
  }

  lemma CodeKeeps(w: World, made: Made, forms: int, params: int)
    requires var body := BodyOf(w, forms); made == MakeCode(body.w, ETYPE_CLOSURE, params, body.v, ENV)
    ensures w.cells <= made.w.cells && made.w.globalEnv == w.globalEnv && made.w.output == w.output
  {
  }

  /** The last part reports x. */
  lemma ReportForm(p: Prims, w: World, live: seq<int>, pend: Pend)
    requires HasEnv(w) && HasRest(w) && pend.Thrown? && Aimed(pend, live) && Binds(w, F, 31)
    ensures EvalPart(p, 11, MakeCons(26), ENV, w, live, pend) == Give(pend, NIL_VAL, w.Print([UNBOUND, X]))
  {
    assert Find(w, MakeCons(2), X, 8) == Missing;
    assert Find(w, ENV, X, 9) == Missing;
    assert Find(w, MakeCons(2), X, 7) == Missing;
    assert Find(w, ENV, X, 8) == Missing;
    assert Find(w, w.globalEnv, X, 9) == Missing;
    assert Eval(p, 9, X, ENV, w, live, pend) == Give(pend, NIL_VAL, w.Print([UNBOUND, X]));
    assert EvalQuasi(p, 10, MakeCons(26), ENV, w, live, pend) == Give(pend, NIL_VAL, w.Print([UNBOUND, X]));
  }

  /** The cells of the whole form. */
  predicate HasForm(w: World) {
    && HasEnv(w) && HasThrow(w) && HasRest(w)
    && w.Car(MakeCons(16)) == UNQUOTE && w.Cdr(MakeCons(16)) == MakeCons(15) && w.Car(MakeCons(15)) == MakeCons(10)
    && w.Car(MakeCons(17)) == MakeCons(16) && w.Cdr(MakeCons(17)) == MakeCons(24)
    && w.Car(MakeCons(29)) == QUASIQUOTE && w.Cdr(MakeCons(29)) == MakeCons(28)
    && w.Car(MakeCons(28)) == MakeCons(17)
    && w.Car(MakeCons(6)) == CATCH && w.Cdr(MakeCons(6)) == MakeCons(9) && w.Car(MakeCons(9)) == MakeCons(8)
    && w.Car(MakeCons(8)) == QUOTE && w.Cdr(MakeCons(8)) == MakeCons(7) && w.Car(MakeCons(7)) == A
    && w.Cdr(MakeCons(9)) == MakeCons(30) && w.Car(MakeCons(30)) == MakeCons(29)
    && w.globalEnv == ENV && w.output == []
  }

  lemma ThrowPart(p: Prims, w: World, live: seq<int>)
    requires HasForm(w) && A in live
    ensures EvalPart(p, 13, MakeCons(16), ENV, w, live, Free)
         == Raise(A, MakeFixnum(1), w.Fresh(A, MakeCons(32)).Fresh(MakeFixnum(1), NIL_VAL), NIL_VAL)
  {
    hide Eval;
    ThrowForm(p, w, live);
    assert EvalQuasi(p, 12, MakeCons(16), ENV, w, live, Free)
        == Eval(p, 11, MakeCons(10), ENV, w, live, Free);
  }

  /** The first 31 cells are as they were. */
  predicate Keeps(w: World, w1: World) {
    |w.cells| >= 31 && |w1.cells| >= 31 && w1.cells[..31] == w.cells[..31]
  }

  lemma AppendKeeps(w: World, v: int, result: int, tail: int)
    requires |w.cells| >= 31 && (result == NIL_VAL || PtrIdx(tail) >= 31)
    ensures var a := Append(w, v, result, tail);
      && a.Building? && Keeps(w, a.w) && a.result != NIL_VAL && PtrIdx(a.tail) == |w.cells|
      && |a.w.cells| == |w.cells| + 1 && a.w.globalEnv == w.globalEnv && a.w.output == w.output
  {
  }

  lemma KeptForm(w: World, w1: World)
    requires Keeps(w, w1)
    ensures HasEnv(w) ==> HasEnv(w1)
    ensures HasRest(w) ==> HasRest(w1)
  {
    forall x | 0 <= PtrIdx(x) < 31 ensures w1.Car(x) == w.Car(x) && w1.Cdr(x) == w.Cdr(x) {
      assert w1.cells[PtrIdx(x)] == w1.cells[..31][PtrIdx(x)];
      assert w.cells[PtrIdx(x)] == w.cells[..31][PtrIdx(x)];
    }
  }

  /** A cell behind the last of the list, which is no cell of the new binding. */
  lemma AppendBinds(w: World, v: int, result: int, tail: int, sym: int, lo: nat)
    requires Binds(w, sym, lo) && result != NIL_VAL && (PtrIdx(tail) < lo || PtrIdx(tail) >= |w.cells|)
    ensures var a := Append(w, v, result, tail);
      && Binds(a.w, sym, lo) && a.w.globalEnv == w.globalEnv && a.w.Car(w.globalEnv) == w.Car(w.globalEnv)
      && PtrIdx(w.globalEnv) < PtrIdx(a.tail) && PtrIdx(w.Car(w.globalEnv)) < PtrIdx(a.tail)
  {
  }

  lemma BindsStill(w: World, w1: World, sym: int, lo: nat)
    requires Binds(w, sym, lo) && lo >= 31 && w1.cells == w.cells && w1.globalEnv == w.globalEnv
    ensures Binds(w1, sym, 31)
  {
  }

  /** A part that is not spliced in. */
  lemma OnePart(p: Prims, f: nat, rest: int, w: World, live: seq<int>, pend: Pend, result: int, tail: int)
    requires f > 0 && Aimed(pend, live) && IsCons(rest) && !IsSplicing(w, w.Car(rest))
    requires !EvalPart(p, f - 1, w.Car(rest), ENV, w, live, pend).Out?
    ensures var part := EvalPart(p, f - 1, w.Car(rest), ENV, w, live, pend);
      var b := Append(part.w, Back(part), result, tail);
      EvalParts(p, f, rest, ENV, w, live, pend, result, tail)
      == EvalParts(p, f - 1, b.w.Cdr(rest), ENV, b.w, live, Carry(part), b.result, b.tail)
  {
    hide Eval, EvalPart;
  }

  /** The parts of the example behind the one that throws. */
  lemma LastParts(p: Prims, w: World, live: seq<int>, pend: Pend, result: int, tail: int)
    requires HasEnv(w) && HasRest(w) && pend.Thrown? && Aimed(pend, live) && w.globalEnv == ENV && w.output == []
    requires result != NIL_VAL && 31 <= PtrIdx(tail) < |w.cells|
    ensures var o := EvalParts(p, 13, MakeCons(24), ENV, w, live, pend, result, tail);
      o.Raise? && Carry(o) == pend && Binds(o.w, F, 31) && o.w.output == [UNBOUND, X]
  {
    hide Eval, EvalPart, EvalParts, Append, HasEnv, Keeps, Binds;
    DefineForm(p, w, live, pend);
    var next := EvalPart(p, 12, MakeCons(23), ENV, w, live, pend);
    PrefixKeeps(w, next.w);
    var b := Append(next.w, Back(next), result, tail);
    AppendKeeps(next.w, Back(next), result, tail);
    AppendBinds(next.w, Back(next), result, tail, F, |w.cells|);
    KeptForm(w, next.w);
    KeptForm(next.w, b.w);
    BindsStill(b.w, b.w, F, |w.cells|);
    OnePart(p, 13, MakeCons(24), w, live, pend, result, tail);
    LastPart(p, b.w, live, pend, b.result, b.tail);
  }

  lemma PrefixKeeps(w: World, w1: World)
    requires |w.cells| >= 31 && w.cells <= w1.cells
    ensures Keeps(w, w1)
  {
  }

  lemma LastPart(p: Prims, w: World, live: seq<int>, pend: Pend, result: int, tail: int)
    requires HasEnv(w) && HasRest(w) && pend.Thrown? && Aimed(pend, live) && Binds(w, F, 31) && w.output == []
    requires result != NIL_VAL && 31 <= PtrIdx(tail)
    requires PtrIdx(tail) != PtrIdx(w.globalEnv) && PtrIdx(tail) != PtrIdx(w.Car(w.globalEnv))
    ensures var o := EvalParts(p, 12, MakeCons(27), ENV, w, live, pend, result, tail);
      o.Raise? && Carry(o) == pend && Binds(o.w, F, 31) && o.w.output == [UNBOUND, X]
  {
    hide Eval, EvalPart, EvalParts, Append, HasEnv, Keeps, Binds;
    ReportForm(p, w, live, pend);
    var last := EvalPart(p, 11, MakeCons(26), ENV, w, live, pend);
    var c := Append(last.w, Back(last), result, tail);
    PrefixKeeps(w, last.w);
    AppendKeeps(last.w, Back(last), result, tail);
    BindsStill(w, last.w, F, 31);
    AppendElsewhere(last.w, Back(last), result, tail);
    KeptForm(w, last.w);
    KeptForm(last.w, c.w);
    OnePart(p, 12, MakeCons(27), w, live, pend, result, tail);
    PartsEnd(p, c.w, live, pend, c.result, c.tail);
  }

  lemma AppendElsewhere(w: World, v: int, result: int, tail: int)
    requires Binds(w, F, 31) && result != NIL_VAL
    requires PtrIdx(tail) != PtrIdx(w.globalEnv) && PtrIdx(tail) != PtrIdx(w.Car(w.globalEnv))
    ensures Binds(Append(w, v, result, tail).w, F, 31)
  {
  }

  lemma PartsEnd(p: Prims, w: World, live: seq<int>, pend: Pend, result: int, tail: int)
    requires pend.Thrown? && Aimed(pend, live)
    ensures EvalParts(p, 11, NIL_VAL, ENV, w, live, pend, result, tail) == Give(pend, result, w)
  {
    hide EvalPart;
  }

  lemma ExampleParts(p: Prims, w: World, live: seq<int>)
    requires HasForm(w) && A in live
    ensures var o := EvalParts(p, 14, MakeCons(17), ENV, w, live, Free, NIL_VAL, NIL_VAL);
      o.Raise? && o.tag == A && o.v == MakeFixnum(1) && Binds(o.w, F, 31) && o.w.output == [UNBOUND, X]
  {
    hide Eval, EvalPart, EvalParts, Append, Binds, HasEnv, HasThrow, HasRest, Keeps;
    var part := EvalPart(p, 13, MakeCons(16), ENV, w, live, Free);
    ThrowPart(p, w, live);
    ThrowSize(w);
    PrefixKeeps(w, part.w);
    var b := Append(part.w, NIL_VAL, NIL_VAL, NIL_VAL);
    AppendKeeps(part.w, NIL_VAL, NIL_VAL, NIL_VAL);
    KeptForm(w, part.w);
    KeptForm(part.w, b.w);
    TemplateGoesOn(w, b.w);
    OnePart(p, 14, MakeCons(17), w, live, Free, NIL_VAL, NIL_VAL);
    LastParts(p, b.w, live, Carry(part), b.result, b.tail);
  }

  lemma ThrowSize(w: World)
    requires HasThrow(w)
    ensures |w.cells| == 31
  {
  }

  lemma TemplateGoesOn(w: World, w1: World)
    requires HasForm(w)
    ensures !IsSplicing(w, w.Car(MakeCons(17)))
    ensures Keeps(w, w1) ==> w1.Cdr(MakeCons(17)) == MakeCons(24)
  {
    if Keeps(w, w1) {
      assert w1.cells[17] == w1.cells[..31][17] && w.cells[17] == w.cells[..31][17];
    }
  }

  lemma ExampleForm(p: Prims, w: World)
    requires HasForm(w)
    ensures var o := Eval(p, 18, MakeCons(6), ENV, w, [], Free);
      o.Ok? && o.v == MakeFixnum(1) && Binds(o.w, F, 31) && o.w.output == [UNBOUND, X]
  {
    hide EvalParts, HasThrow, HasEnv, HasRest, Binds;
    ExampleParts(p, w, [A]);
    assert Eval(p, 16, MakeCons(8), ENV, w, [], Free) == Ok(A, w);
    var o := EvalParts(p, 14, MakeCons(17), ENV, w, [A], Free, NIL_VAL, NIL_VAL);
    assert EvalQuasi(p, 15, MakeCons(17), ENV, w, [A], Free) == o;
    assert Eval(p, 16, MakeCons(29), ENV, w, [A], Free) == o;
    assert [] + [A] == [A];
    assert EvalCatch(p, 17, MakeCons(9), ENV, w, [], Free) == Ok(MakeFixnum(1), o.w);
  }

  lemma CellOf(w: World, i: int)
    requires w.cells == seq(31, ExampleCell) && 0 <= i < 31
    ensures w.Car(MakeCons(i)) == ExampleCell(i).0 && w.Cdr(MakeCons(i)) == ExampleCell(i).1
    ensures w.Car(MakeExtended(i)) == ExampleCell(i).0 && w.Cdr(MakeExtended(i)) == ExampleCell(i).1
  {
    hide ExampleCell;
  }

  lemma ThrowCells(w: World)
    requires w.cells == seq(31, ExampleCell)
    ensures HasEnv(w) && HasThrow(w)
  {
    hide World.Car, World.Cdr;
    CellOf(w, 1);
    CellOf(w, 2);
    CellOf(w, 3);
    CellOf(w, 4);
    CellOf(w, 5);
    CellOf(w, 10);
    CellOf(w, 11);
    CellOf(w, 12);
    CellOf(w, 13);
    CellOf(w, 14);
  }

  lemma RestCells(w: World)
    requires w.cells == seq(31, ExampleCell)
    ensures HasRest(w)
  {
    hide World.Car, World.Cdr;
    CellOf(w, 18);
    CellOf(w, 19);
    CellOf(w, 20);
    CellOf(w, 22);
    CellOf(w, 23);
    CellOf(w, 24);
    CellOf(w, 25);
    CellOf(w, 26);
    CellOf(w, 27);
  }

  lemma FormCells(w: World)
    requires w == EXAMPLE
    ensures HasForm(w)
  {
    hide World.Car, World.Cdr, HasEnv, HasThrow, HasRest;
    ThrowCells(w);
    RestCells(w);
    CellOf(w, 6);
    CellOf(w, 7);
    CellOf(w, 8);
    CellOf(w, 9);
    CellOf(w, 15);
    CellOf(w, 16);
    CellOf(w, 17);
    CellOf(w, 28);
    CellOf(w, 29);
    CellOf(w, 30);
  }

  /** The throw reaches its catch form with its value, and yet f, unbound before, is bound and x
      has been reported: the parts behind the throw were evaluated. */
  lemma DefinedBehindThrow(p: Prims)
    ensures Find(EXAMPLE, EXAMPLE.globalEnv, F, 3).Missing?
    ensures var o := Eval(p, 18, MakeCons(6), EXAMPLE.globalEnv, EXAMPLE, [], Free);
      o.Ok? && o.v == MakeFixnum(1) && Find(o.w, o.w.globalEnv, F, 4).Found? && o.w.output == [UNBOUND, X]
  {
    hide Eval;
    FormCells(EXAMPLE);
    ExampleForm(p, EXAMPLE);
    assert Find(EXAMPLE, MakeCons(2), F, 2).Missing?;
  }

  // The general statement at this input

  const WORDS: seq<EvalFrame.Kind> := [EvalFrame.Other, EvalFrame.Binding, EvalFrame.Scope, EvalFrame.Other,
                                       EvalFrame.Binding, EvalFrame.Scope]

  const START: World := ReadForms.Register(ReadForms.Register(ReadForms.EMPTY, PLUS, 0), THROW, PRIM_THROW)

  const TEXT: Text := ReadForms.TextOf(EXAMPLE.cells, 6)

  const KINDS: seq<EvalFrame.Kind> := WORDS + ReadForms.ReadKinds(EXAMPLE.cells[6..])

  /** `(unquote e)`. */
  function Unquoted(e: Tree): Tree { Node(Leaf(UNQUOTE), One(e)) }

  function One(e: Tree): Tree { Node(e, Leaf(NIL_VAL)) }

  const THROWING: Tree :=
    Node(Leaf(THROW), Node(Node(Leaf(QUOTE), One(Leaf(A))), One(Leaf(MakeFixnum(1)))))

  const DEFINING: Tree := Node(Leaf(DEFINE), Node(One(Leaf(F)), One(Leaf(MakeFixnum(2)))))

  const TEMPLATE: Tree := Node(Unquoted(THROWING), Node(Unquoted(DEFINING), One(Unquoted(Leaf(X)))))

  const FORM: Tree := Node(Leaf(QUASIQUOTE), One(TEMPLATE))

  lemma ExampleTyped()
    ensures EvalFrame.Typed(KINDS, EXAMPLE) && EvalFrame.EnvOk(KINDS, ENV)
  {
    hide EvalFrame.CellOk;
    ReadForms.EmptyTyped();
    var first := ReadForms.Register(ReadForms.EMPTY, PLUS, 0);
    ReadForms.RegisterTyped([], ReadForms.EMPTY, PLUS, 0);
    assert [] + [EvalFrame.Other, EvalFrame.Binding, EvalFrame.Scope]
        == [EvalFrame.Other, EvalFrame.Binding, EvalFrame.Scope];
    ReadForms.RegisterTyped([EvalFrame.Other, EvalFrame.Binding, EvalFrame.Scope], first, THROW, PRIM_THROW);
    assert WORDS == [EvalFrame.Other, EvalFrame.Binding, EvalFrame.Scope]
                 + [EvalFrame.Other, EvalFrame.Binding, EvalFrame.Scope];
    StartCells();
    FormPlain();
    ReadForms.ReadTyped(WORDS, START, EXAMPLE.cells);
  }

  lemma StartCells()
    ensures START.cells == EXAMPLE.cells[..6] && START.globalEnv == ENV && START.output == []
  {
  }

  lemma NoneExtended(i: int)
    ensures 6 <= i < 31 ==> !IsExtended(ExampleCell(i).0) && !IsExtended(ExampleCell(i).1)
  {
  }

  lemma FormPlain()
    ensures LispStore.Plain(EXAMPLE.cells, 6)
  {
    hide ExampleCell, IsExtended;
    forall i {:trigger EXAMPLE.cells[i]} | 6 <= i < |EXAMPLE.cells|
      ensures LispStore.PlainWord(EXAMPLE.cells, 6, EXAMPLE.cells[i].0)
      ensures LispStore.PlainWord(EXAMPLE.cells, 6, EXAMPLE.cells[i].1)
    {
      NoneExtended(i);
    }
  }

  /** A pair of the text. */
  lemma PairIs(i: int, a: Tree, d: Tree)
    requires 6 <= i < 31 && Is(TEXT, ExampleCell(i).0, a) && Is(TEXT, ExampleCell(i).1, d)
    ensures Is(TEXT, MakeCons(i), Node(a, d))
  {
    hide ExampleCell;
  }

  lemma ThrowingIs()
    ensures Is(TEXT, MakeCons(16), Unquoted(THROWING))
  {
    hide ReadForms.TextOf;
    PairIs(11, Leaf(A), Leaf(NIL_VAL));
    PairIs(12, Leaf(QUOTE), One(Leaf(A)));
    PairIs(14, Leaf(MakeFixnum(1)), Leaf(NIL_VAL));
    PairIs(13, Node(Leaf(QUOTE), One(Leaf(A))), One(Leaf(MakeFixnum(1))));
    PairIs(10, Leaf(THROW), THROWING.cdr);
    PairIs(15, THROWING, Leaf(NIL_VAL));
    PairIs(16, Leaf(UNQUOTE), One(THROWING));
  }

  lemma DefiningIs()
    ensures Is(TEXT, MakeCons(23), Unquoted(DEFINING))
  {
    hide ReadForms.TextOf;
    PairIs(19, Leaf(F), Leaf(NIL_VAL));
    PairIs(21, Leaf(MakeFixnum(2)), Leaf(NIL_VAL));
    PairIs(20, One(Leaf(F)), One(Leaf(MakeFixnum(2))));
    PairIs(18, Leaf(DEFINE), DEFINING.cdr);
    PairIs(22, DEFINING, Leaf(NIL_VAL));
    PairIs(23, Leaf(UNQUOTE), One(DEFINING));
  }

  lemma LastIs()
    ensures Is(TEXT, MakeCons(26), Unquoted(Leaf(X)))
  {
    hide ReadForms.TextOf;
    PairIs(25, Leaf(X), Leaf(NIL_VAL));
    PairIs(26, Leaf(UNQUOTE), One(Leaf(X)));
  }

  lemma ExampleIs()
    ensures Is(TEXT, MakeCons(29), FORM)
  {
    hide ReadForms.TextOf, Unquoted;
    ThrowingIs();
    DefiningIs();
    LastIs();
    PairIs(27, Unquoted(Leaf(X)), Leaf(NIL_VAL));
    PairIs(24, Unquoted(DEFINING), One(Unquoted(Leaf(X))));
    PairIs(17, Unquoted(THROWING), TEMPLATE.cdr);
    PairIs(28, TEMPLATE, Leaf(NIL_VAL));
    PairIs(29, Leaf(QUASIQUOTE), One(TEMPLATE));
  }

  lemma FormLegal()
    ensures Legal(FORM)
  {
    assert Proper(THROWING) && Proper(DEFINING);
    hide THROWING, DEFINING;
    assert Proper(FORM);
    hide Proper, Legal;
    ProperLegal(FORM);
  }

  /** The two expressions behind the first one. */
  lemma ExampleEffects()
    ensures Unquotes(TEMPLATE) == [One(THROWING), One(DEFINING), One(Leaf(X))]
    ensures AllEffects(Unquotes(TEMPLATE)[1..]) == [Define(F), Look(X)]
  {
    assert Effects(DEFINING) == [Define(F)];
    assert Effects(Leaf(X)) == [Look(X)];
    var args := [One(DEFINING), One(Leaf(X))];
    assert args[1..] == [One(Leaf(X))];
    assert AllEffects([One(Leaf(X))]) == FirstEffects(One(Leaf(X))) + AllEffects([]);
    assert AllEffects([]) == [];
    assert AllEffects(args) == FirstEffects(One(DEFINING)) + AllEffects(args[1..]);
  }

  lemma FirstCell()
    ensures ExampleCell(0) == (ETYPE_PRIMITIVE, MakeFixnum(0))
  {
  }

  lemma KindsKnown()
    ensures |KINDS| == 31 && forall i :: i == 0 || 6 <= i < 31 ==> KINDS[i] != EvalFrame.Binding
  {
    hide ExampleCell;
  }

  /** What QuasiThrow.DefinedBehind asks for. */
  lemma ExampleFits()
    ensures EvalFrame.Typed(KINDS, EXAMPLE) && EvalFrame.EnvOk(KINDS, ENV)
    ensures Holds(TEXT, EXAMPLE) && NilReads(TEXT)
    ensures forall i :: i in TEXT ==> 0 <= i < |KINDS| && KINDS[i] != EvalFrame.Binding
    ensures Is(TEXT, MakeCons(29), FORM) && Legal(FORM)
  {
    hide EvalFrame.Typed, EvalFrame.EnvOk, Is, Legal, ExampleCell;
    ExampleTyped();
    ExampleIs();
    FormLegal();
    assert ExampleCell(0) == (ETYPE_PRIMITIVE, MakeFixnum(0)) by { FirstCell(); }
    KindsKnown();
  }

  /** There are such primitives. */
  lemma QuietPrims()
    ensures EvalFrame.PrimsOk((id, list, w) => Made(NIL_VAL, w))
  {
    hide EvalFrame.Typed;
    var p: Prims := (id, list, w) => Made(NIL_VAL, w);
    forall id, list, w, k ensures EvalFrame.PrimOk(p, id, list, w, k) {
      assert p(id, list, w) == Made(NIL_VAL, w) && k <= k && EvalFrame.WordOk(k, NIL_VAL);
    }
  }

  lemma QuasiRaises(p: Prims)
    ensures Eval(p, 16, MakeCons(29), ENV, EXAMPLE, [A], Free).Raise?
    ensures EXAMPLE.Car(MakeCons(29)) == QUASIQUOTE
  {
    hide EvalParts, HasThrow, HasEnv, HasRest, Binds, ExampleCell;
    FormCells(EXAMPLE);
    ExampleParts(p, EXAMPLE, [A]);
    var o := EvalParts(p, 14, MakeCons(17), ENV, EXAMPLE, [A], Free, NIL_VAL, NIL_VAL);
    assert EvalQuasi(p, 15, MakeCons(17), ENV, EXAMPLE, [A], Free) == o;
  }

  /** The last two expressions throw nothing. */
  lemma OthersReturn(p: Prims, g: nat, arg: int, env: int, w: World, live: seq<int>, e: Tree)
    requires Holds(TEXT, w) && Is(TEXT, arg, One(e)) && (e == DEFINING || e == Leaf(X))
    ensures !Eval(p, g, w.Car(arg), env, w, live, Free).Raise?
  {
    hide Holds, FindBoth, MakeCode, BodyOf, EnvExtend, ExampleCell, ReadForms.TextOf;
    BehindThrow.NodeReads(TEXT, w, arg, One(e));
    if e == DEFINING {
      var form := w.Car(arg);
      BehindThrow.NodeReads(TEXT, w, form, e);
      BehindThrow.NodeReads(TEXT, w, w.Cdr(form), e.cdr);
      BehindThrow.PairWord(TEXT, w.Car(w.Cdr(form)), e.cdr.car);
    }
  }

  /** So it is the first one that throws; behind it f is defined, and something is printed if and
      only if x is unbound there. */
  lemma BehindHere(p: Prims) returns (m: QuasiThrow.Moment)
    requires EvalFrame.PrimsOk(p)
    ensures var o := Eval(p, 16, MakeCons(29), ENV, EXAMPLE, [A], Free);
      && o.Raise? && m.j == 0 && QuasiThrow.Throws(p, m, ENV, [A], o)
      && o.w.globalEnv != m.at.globalEnv && BehindThrow.Sees(o.w, ENV, F)
      && (o.w.output != m.at.output <==> !BehindThrow.Sees(m.at, ENV, X))
  {
    hide Eval, EvalFrame.Typed, EvalFrame.PrimsOk, EvalFrame.EnvOk, Is, Legal, Holds, NilReads, ExampleCell,
         BehindThrow.Sees, AllEffects, Unquotes, ReadForms.TextOf, BehindThrow.Messages;
    QuasiRaises(p);
    ExampleFits();
    m := QuasiThrow.DefinedBehind(p, 16, MakeCons(29), ENV, EXAMPLE, [A], KINDS, TEXT, FORM);
    ExampleEffects();
    if m.j > 0 {
      forall g: nat ensures !Eval(p, g, m.before.Car(m.arg), ENV, m.before, [A], Free).Raise? {
        OthersReturn(p, g, m.arg, ENV, m.before, [A], if m.j == 1 then DEFINING else Leaf(X));
      }
      assert false;
    }
    TwoEffects();
  }

  lemma TwoEffects()
    ensures var es := [Define(F), Look(X)];
      && BehindThrow.Defines(es) && BehindThrow.Defined(es) == {F} && BehindThrow.Defined(es[..1]) == {F}
      && IsSymbol(F) && X !in {F}
  {
    var es := [Define(F), Look(X)];
    assert es[0].Define?;
    assert es[..1] == [Define(F)] && es[1..] == [Look(X)];
    assert [Define(F)][1..] == [] && [Look(X)][1..] == [];
    assert BehindThrow.Defined([]) == {};
    assert BehindThrow.Defined([Look(X)]) == {};
  }
}
