/** What the interpreter makes of a form that has been read: the meaning of its tree. */
module ReadMeans {
  import opened Tml
  import opened Exceptions
  import opened ReadForms
  import opened HeapMeaning
  import opened EvalMeans
  import opened Evaluator
  import opened Wrappers
  import EvalFrame
  import LispStore
  import LispText
  import M = Meaning

  // Names

  /** nil and t, and the names of the special forms as eval_init interns them. */
  const FORMS: seq<string> :=
    ["nil", "t", "quote", "if", "define", "lambda", "defmacro", "begin", "quasiquote", "unquote", "unquote-splicing",
     "set!", "catch", "asm"]

  /** The primitives as eval_init registers them, which is the order of their numbers. */
  const PRIMITIVES: seq<string> :=
    ["+", "-", "*", "/", "%", "<", "=", "cons", "car", "cdr", "list", "null?", "pair?", "atom?", "eq?", "not",
     "print", "number?", "exit", "peek", "poke", "delay", "println", "newline", "apply", "string-length",
     "string-ref", "string-append", "string=?", "string?", "display", "gc", "heap-used", "heap-size",
     "number->string", "fn?", "eval", "macroexpand-1", "gensym", "symbol->string", "string->symbol", "throw",
     "dynamic-wind", "symbol?", "substring", "format", "char->integer", "integer->char", "string-index",
     "string-contains?"]

  /** The names interned before any other. */
  const NAMES: seq<string> := FORMS + PRIMITIVES

  lemma NameIs(st: LispStore.Store, v: int, name: string, lo: nat, hi: nat, i: nat)
    requires st.Valid() && NAMES <= st.symbols && i < |NAMES|
    requires LispStore.Denotes(st, v, LispText.Name(name), lo, hi)
    ensures v == MakeSymbol(i) <==> name == NAMES[i]
  {
    NameAt(st, NAMES, v, name, lo, hi, i);
  }

  lemma NameAt(st: LispStore.Store, names: seq<string>, v: int, name: string, lo: nat, hi: nat, i: nat)
    requires st.Valid() && names <= st.symbols && i < |names|
    requires LispStore.Denotes(st, v, LispText.Name(name), lo, hi)
    ensures v == MakeSymbol(i) <==> name == names[i]
  {
    var j :| 0 <= j < |st.symbols| && st.symbols[j] == name && v == MakeSymbol(j);
    assert st.symbols[i] == names[i];
  }

  /** The word of a name is that of a special form exactly when the name is. */
  lemma FormNames(st: LispStore.Store, v: int, name: string, lo: nat, hi: nat)
    requires st.Valid() && NAMES <= st.symbols && LispStore.Denotes(st, v, LispText.Name(name), lo, hi)
    ensures (v == NIL_VAL <==> name == "nil") && (v == T_VAL <==> name == "t")
    ensures (v == QUOTE <==> name == "quote") && (v == IF <==> name == "if") && (v == DEFINE <==> name == "define")
    ensures (v == LAMBDA <==> name == "lambda") && (v == DEFMACRO <==> name == "defmacro")
    ensures (v == BEGIN <==> name == "begin") && (v == QUASIQUOTE <==> name == "quasiquote")
    ensures (v == UNQUOTE <==> name == "unquote") && (v == UNQUOTE_SPLICING <==> name == "unquote-splicing")
    ensures (v == SET <==> name == "set!") && (v == CATCH <==> name == "catch")
  {
    forall i | 0 <= i < |FORMS| ensures v == MakeSymbol(i) <==> name == FORMS[i] {
      NameIs(st, v, name, lo, hi, i);
    }
  }

  lemma PrimitiveNames(st: LispStore.Store, v: int, name: string, lo: nat, hi: nat, i: nat)
    requires st.Valid() && NAMES <= st.symbols && LispStore.Denotes(st, v, LispText.Name(name), lo, hi)
    requires i < |PRIMITIVES|
    ensures v == MakeSymbol(14 + i) <==> name == PRIMITIVES[i]
  {
    NameIs(st, v, name, lo, hi, 14 + i);
  }

  /** The tree of a datum; symbols are known by their words. */
  function ValueOf(st: LispStore.Store, v: int, d: LispText.Datum): M.Val
    decreases d
  {
    match d
    case Pair(a, b) =>
      if 0 <= PtrIdx(v) < |st.cells| then
        M.Pair(ValueOf(st, st.cells[PtrIdx(v)].0, a), ValueOf(st, st.cells[PtrIdx(v)].1, b))
      else M.NIL
    case Str(_) => M.Object(v)
    case _ => M.Atom(v)
  }

  // The heap

  /** The kinds of the cells the reader has made since there were `lo`. */
  predicate ReadCells(h: Heap, lo: nat) {
    && |h.k| == |h.w.cells|
    && forall i {:trigger h.k[i]} :: lo <= i < |h.k| ==>
         h.k[i] == if h.w.cells[i].0 == LispStore.ETYPE_STRING then EvalFrame.Other else EvalFrame.Pair
  }

  lemma {:induction false} ValueStands(h: Heap, st: LispStore.Store, v: int, d: LispText.Datum, lo: nat)
    requires ReadCells(h, lo) && h.w.cells == st.cells && LispStore.Denotes(st, v, d, lo, |st.cells|)
    ensures Stands(h, {}, v, ValueOf(st, v, d))
    decreases d
  {
    if d.Pair? {
      ValueStands(h, st, st.cells[PtrIdx(v)].0, d.car, lo);
      ValueStands(h, st, st.cells[PtrIdx(v)].1, d.cdr, lo);
    }
  }

  /** The heap behind the reading of a form. */
  function AfterRead(h: Heap, st: LispStore.Store): Heap
    requires |h.k| <= |st.cells|
  {
    Heap(h.k + ReadKinds(st.cells[|h.k|..]), World(st.cells, h.w.globalEnv, h.w.output), h.locs)
  }

  /** The reader makes its cells behind those there are. */
  ghost predicate HasRead(h: Heap, st: LispStore.Store, v: int, d: LispText.Datum) {
    && st.Valid() && NAMES <= st.symbols && h.w.cells <= st.cells && |h.k| == |h.w.cells|
    && LispStore.Plain(st.cells, |h.w.cells|) && LispStore.Denotes(st, v, d, |h.w.cells|, |st.cells|)
  }

  lemma ReadStands(h: Heap, s: M.State, st: LispStore.Store, v: int, d: LispText.Datum)
    requires Carries(h, {}, s) && HasRead(h, st, v, d)
    ensures Carries(AfterRead(h, st), {}, s) && Stands(AfterRead(h, st), {}, v, ValueOf(st, v, d))
  {
    hide EnvStands, EvalFrame.CellOk;
    var h1 := AfterRead(h, st);
    ReadTyped(h.k, h.w, st.cells);
    ValueStands(h1, st, v, d, |h.k|);
    hide Stands;
    NewQuiet(h, h1.k, h1.w, {});
    StillCarries(h, h1, {}, s);
  }

  // The primitives

  lemma NothingCarries()
    ensures Carries(Heap([], EMPTY, []), {}, M.State([], [], []))
  {
  }

  /** Registering a primitive defines it. */
  lemma RegisterCarries(h: Heap, s: M.State, sym: int, id: int) returns (h1: Heap)
    requires Carries(h, {}, s) && IsSymbol(sym) && sym != NIL_VAL
    ensures h1.w == Register(h.w, sym, id) && Carries(h1, {}, M.Define(sym, M.Primitive(id), s))
  {
    var n := |h.w.cells|;
    var mid := Heap(h.k + [EvalFrame.Other], h.w.Fresh(ETYPE_PRIMITIVE, MakeFixnum(id)), h.locs);
    EvalFrame.SameLength(h.k, h.w);
    EvalFrame.FreshCell(h.k, h.w, EvalFrame.Other, ETYPE_PRIMITIVE, MakeFixnum(id));
    NewQuiet(h, mid.k, mid.w, {});
    StillCarries(h, mid, {}, s);
    assert Stands(mid, {}, MakeExtended(n), M.Primitive(id));
    hide Carries, Stands, EnvStands;
    h1 := Defines(mid, {}, s, sym, MakeExtended(n), M.Primitive(id));
  }

  /** The first `n` primitives registered. */
  function RegisterAll(n: nat): World
    requires n <= |PRIMITIVES|
  {
    if n == 0 then EMPTY else Register(RegisterAll(n - 1), MakeSymbol(13 + n), n - 1)
  }

  function DefineAll(n: nat): M.State
    requires n <= |PRIMITIVES|
  {
    if n == 0 then M.State([], [], [])
    else M.Define(MakeSymbol(13 + n), M.Primitive(n - 1), DefineAll(n - 1))
  }

  /** What the interpreter starts with. */
  const START: M.State := DefineAll(|PRIMITIVES|)

  /** The heap eval_init leaves. */
  lemma {:induction false} AllCarries(n: nat) returns (h: Heap)
    requires n <= |PRIMITIVES|
    ensures h.w == RegisterAll(n) && Carries(h, {}, DefineAll(n))
    decreases n
  {
    hide Carries, Register;
    if n == 0 {
      NothingCarries();
      h := Heap([], EMPTY, []);
    } else {
      var rest := AllCarries(n - 1);
      h := RegisterCarries(rest, DefineAll(n - 1), MakeSymbol(13 + n), n - 1);
    }
  }

  /** Each name finds its primitive. */
  lemma {:induction false} StartFinds(n: nat, i: nat)
    requires i < n <= |PRIMITIVES|
    ensures var s := DefineAll(n);
      |s.store| == n && M.Find(s.global, MakeSymbol(14 + i)) == Some(i) && s.store[i] == M.Primitive(i)
    decreases n
  {
    var s := DefineAll(n - 1);
    if i < n - 1 {
      StartFinds(n - 1, i);
      assert ([(MakeSymbol(13 + n), |s.store|)] + s.global)[1..] == s.global;
    } else if n > 1 {
      StartFinds(n - 1, 0);
    }
  }

  // Evaluation

  /** A form read at the prompt and evaluated in the global environment: the value handed back
      stands for the meaning of the form, and the heap carries the state behind it, ready for
      the next form. */
  method EvalTop(i: Interp, v: int, ghost q: M.Prims, ghost g: nat, ghost h: Heap, ghost s: M.State,
                 ghost st: LispStore.Store, ghost d: LispText.Datum) returns (r: int, ghost h1: Heap)
    requires i.Ready([], Free) && PrimsMean(i.prims, q) && Carries(h, {}, s) && HasRead(h, st, v, d)
    requires i.ToWorld() == AfterRead(h, st).w && !M.Eval(q, g, ValueOf(st, v, d), s.global, s, []).Stuck?
    modifies i, i.catchTags, i.catchVals
    ensures i.Ready([], Free) && h1.w == i.ToWorld()
    ensures var m := M.Eval(q, g, ValueOf(st, v, d), s.global, s, []);
      m.Done? && Stands(h1, {}, r, m.v) && Carries(h1, {}, m.s)
  {
    hide PrimsMean, Stands, EnvStands, Eval, M.Eval, Goes;
    ghost var h0 := AfterRead(h, st);
    ReadStands(h, s, st, v, d);
    ghost var f;
    f, h1 := Means(i.prims, q, g, ValueOf(st, v, d), v, s.global, i.globalEnv, s, [], h0, {});
    r := i.EvalExpr(v, i.globalEnv, [], Free, f);
  }
}
