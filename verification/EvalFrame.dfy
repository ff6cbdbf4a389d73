/** What an evaluation may change in the heap: of the cells there are it writes only the cdr of
    bindings, and of the list it was given to continue the last cdr. Forms, closures and
    strings stay as they are. */
module EvalFrame {
  import opened Tml
  import opened Exceptions

  // Typed heaps

  /** What a cell is: a pair of the program, a binding, a cell of an environment list, the three
      cells of a closure or macro, or another extended object. */
  datatype Kind = Pair | Binding | Scope | Code | Data | Inner | Other

  predicate Is(k: seq<Kind>, v: int, kind: Kind) { 0 <= PtrIdx(v) < |k| && k[PtrIdx(v)] == kind }

  /** An extended word names an extended object. */
  predicate WordOk(k: seq<Kind>, v: int) { IsExtended(v) ==> Is(k, v, Code) || Is(k, v, Other) }

  predicate EnvOk(k: seq<Kind>, e: int) { e == NIL_VAL || (IsCons(e) && Is(k, e, Scope)) }

  predicate CellOk(k: seq<Kind>, i: nat, c: (int, int))
    requires i < |k|
  {
    && WordOk(k, c.0) && WordOk(k, c.1)
    && match k[i]
       case Scope => Is(k, c.0, Binding) && EnvOk(k, c.1) && (IsCons(c.1) ==> PtrIdx(c.1) < i)
       case Code => Is(k, c.1, Data)
       case Data => Is(k, c.1, Inner)
       case Inner => EnvOk(k, c.1)
       case Other => c.0 != ETYPE_CLOSURE && c.0 != ETYPE_MACRO
       case _ => true
  }

  ghost predicate Typed(k: seq<Kind>, w: World) {
    && |k| == |w.cells| && EnvOk(k, w.globalEnv)
    && forall i {:trigger k[i]} {:trigger w.cells[i]} :: 0 <= i < |k| ==> CellOk(k, i, w.cells[i])
  }

  /** New cells apart, only the cdr of bindings and of the cell `hole` may have changed. */
  ghost predicate Framed(k: seq<Kind>, w: World, w1: World, hole: int) {
    && |k| == |w.cells| <= |w1.cells|
    && forall i {:trigger w1.cells[i]} :: 0 <= i < |k| ==>
         w1.cells[i].0 == w.cells[i].0 && (k[i] != Binding && i != hole ==> w1.cells[i] == w.cells[i])
  }

  ghost predicate Grown(k: seq<Kind>, w: World, k1: seq<Kind>, w1: World, hole: int) {
    k <= k1 && Typed(k1, w1) && Framed(k, w, w1, hole)
  }

  /** A primitive that neither throws nor evaluates writes no cell that is there, leaves the
      global environment alone and makes no closures. */
  ghost predicate PrimOk(p: Prims, id: int, list: int, w: World, k: seq<Kind>) {
    Typed(k, w) && WordOk(k, list) ==>
      var made := p(id, list, w);
      && w.cells <= made.w.cells && made.w.globalEnv == w.globalEnv
      && exists k1 :: k <= k1 && Typed(k1, made.w) && WordOk(k1, made.v)
  }

  ghost predicate PrimsOk(p: Prims) { forall id, list, w, k :: PrimOk(p, id, list, w, k) }

  predicate PendOk(k: seq<Kind>, pend: Pend) { pend.Thrown? ==> WordOk(k, pend.v) }

  /** What is known behind an evaluation. */
  ghost predicate Good(k: seq<Kind>, w: World, k1: seq<Kind>, o: Outcome, hole: int) {
    !o.Out? && Grown(k, w, k1, o.w, hole) && WordOk(k1, Back(o)) && PendOk(k1, Carry(o))
  }

  // Steps

  lemma Same(k: seq<Kind>, w: World)
    requires Typed(k, w)
    ensures Grown(k, w, k, w, -1)
  {
  }

  lemma Then(k: seq<Kind>, w: World, k1: seq<Kind>, w1: World, k2: seq<Kind>, w2: World, hole: int, hole1: int)
    requires Grown(k, w, k1, w1, hole) && Grown(k1, w1, k2, w2, hole1)
    requires hole1 == hole || hole1 < 0 || hole1 >= |k|
    ensures Grown(k, w, k2, w2, hole)
  {
    hide Typed;
    forall i {:trigger w2.cells[i]} | 0 <= i < |k|
      ensures w2.cells[i].0 == w.cells[i].0 && (k[i] != Binding && i != hole ==> w2.cells[i] == w.cells[i])
    {
      assert k1[i] == k[i] && w1.cells[i].0 == w.cells[i].0;
    }
  }

  lemma ThenGood(k: seq<Kind>, w: World, k1: seq<Kind>, w1: World, k2: seq<Kind>, o: Outcome, hole: int, hole1: int)
    requires Grown(k, w, k1, w1, hole) && Good(k1, w1, k2, o, hole1)
    requires hole1 == hole || hole1 < 0 || hole1 >= |k|
    ensures Good(k, w, k2, o, hole)
  {
    hide Grown;
    Then(k, w, k1, w1, k2, o.w, hole, hole1);
  }

  /** What was so stays so. */
  lemma StillOk(k: seq<Kind>, k1: seq<Kind>, v: int)
    requires k <= k1
    ensures WordOk(k, v) ==> WordOk(k1, v)
    ensures EnvOk(k, v) ==> EnvOk(k1, v)
    ensures forall kind :: Is(k, v, kind) ==> Is(k1, v, kind)
  {
  }

  lemma Reads(k: seq<Kind>, w: World, v: int)
    requires Typed(k, w)
    ensures WordOk(k, w.Car(v)) && WordOk(k, w.Cdr(v))
  {
  }

  /** A new cell. */
  lemma FreshCell(k: seq<Kind>, w: World, kind: Kind, a: int, d: int)
    requires Typed(k, w) && CellOk(k + [kind], |k|, (a, d))
    ensures Grown(k, w, k + [kind], w.Fresh(a, d), -1)
  {
    var k1 := k + [kind];
    forall i | 0 <= i < |k1| ensures CellOk(k1, i, w.Fresh(a, d).cells[i]) {
      if i < |k| {
        CellStays(k, k1, i, w.cells[i]);
      }
    }
  }

  lemma CellStays(k: seq<Kind>, k1: seq<Kind>, i: nat, c: (int, int))
    requires k <= k1 && i < |k| && CellOk(k, i, c)
    ensures CellOk(k1, i, c)
  {
  }

  /** The cdr of a binding or of a pair. */
  lemma NewCdr(k: seq<Kind>, w: World, v: int, d: int)
    requires Typed(k, w) && WordOk(k, d) && (Is(k, v, Binding) || Is(k, v, Pair))
    ensures Grown(k, w, k, w.SetCdr(v, d), if Is(k, v, Pair) then PtrIdx(v) else -1)
  {
  }

  lemma PairCell(k: seq<Kind>, w: World, a: int, d: int)
    requires Typed(k, w) && WordOk(k, a) && WordOk(k, d)
    ensures Grown(k, w, k + [Pair], w.Fresh(a, d), -1)
  {
    FreshCell(k, w, Pair, a, d);
  }

  lemma Extended(k: seq<Kind>, w: World, sym: int, val: int, env: int)
    requires Typed(k, w) && WordOk(k, sym) && WordOk(k, val) && EnvOk(k, env)
    ensures var x := EnvExtend(w, sym, val, env); var k1 := k + [Binding, Scope];
      Grown(k, w, k1, x.w, -1) && EnvOk(k1, x.v)
  {
    hide Typed;
    var w1 := w.Fresh(sym, val);
    FreshCell(k, w, Binding, sym, val);
    SameLength(k + [Binding], w1);
    SameLength(k, w);
    FreshCell(k + [Binding], w1, Scope, MakeCons(|w.cells|), env);
    assert k + [Binding] + [Scope] == k + [Binding, Scope];
    Then(k, w, k + [Binding], w1, k + [Binding, Scope], w1.Fresh(MakeCons(|w.cells|), env), -1, -1);
  }

  lemma SameLength(k: seq<Kind>, w: World)
    requires Typed(k, w)
    ensures |k| == |w.cells|
  {
  }

  lemma Defined(k: seq<Kind>, w: World, sym: int, val: int)
    requires Typed(k, w) && WordOk(k, sym) && WordOk(k, val)
    ensures var x := EnvExtend(w, sym, val, w.globalEnv);
      Grown(k, w, k + [Binding, Scope], x.w.SetGlobal(x.v), -1)
  {
    Extended(k, w, sym, val, w.globalEnv);
  }

  /** make_closure and make_macro. */
  lemma CodeMade(k: seq<Kind>, w: World, etype: int, params: int, body: int, env: int)
    requires Typed(k, w) && WordOk(k, params) && WordOk(k, body) && EnvOk(k, env) && !IsExtended(etype)
    ensures var made := MakeCode(w, etype, params, body, env); var k1 := k + [Inner, Data, Code];
      Grown(k, w, k1, made.w, -1) && WordOk(k1, made.v)
  {
    hide Typed;
    var n := |w.cells|;
    SameLength(k, w);
    var k1, w1 := k + [Inner], w.Fresh(body, env);
    FreshCell(k, w, Inner, body, env);
    SameLength(k1, w1);
    var k2, w2 := k1 + [Data], w1.Fresh(params, MakeCons(n));
    FreshCell(k1, w1, Data, params, MakeCons(n));
    SameLength(k2, w2);
    var k3, w3 := k2 + [Code], w2.Fresh(etype, MakeCons(n + 1));
    FreshCell(k2, w2, Code, etype, MakeCons(n + 1));
    Then(k1, w1, k2, w2, k3, w3, -1, -1);
    Then(k, w, k1, w1, k3, w3, -1, -1);
    assert k3 == k + [Inner, Data, Code];
  }

  lemma BodyMade(k: seq<Kind>, w: World, forms: int) returns (k1: seq<Kind>)
    requires Typed(k, w) && WordOk(k, forms)
    ensures var body := BodyOf(w, forms); Grown(k, w, k1, body.w, -1) && WordOk(k1, body.v)
  {
    if w.Cdr(forms) == NIL_VAL {
      Same(k, w);
      Reads(k, w, forms);
      k1 := k;
    } else {
      PairCell(k, w, BEGIN, forms);
      k1 := k + [Pair];
    }
  }

  /** A body and its closure or macro. */
  lemma Lambda(k: seq<Kind>, w: World, etype: int, params: int, forms: int, env: int) returns (k1: seq<Kind>)
    requires Typed(k, w) && WordOk(k, params) && WordOk(k, forms) && EnvOk(k, env) && !IsExtended(etype)
    ensures var body := BodyOf(w, forms); var made := MakeCode(body.w, etype, params, body.v, env);
      Grown(k, w, k1, made.w, -1) && WordOk(k1, made.v)
  {
    hide Typed, BodyOf, MakeCode, WordOk, EnvOk;
    var body := BodyOf(w, forms);
    var mid := BodyMade(k, w, forms);
    StillOk(k, mid, params);
    StillOk(k, mid, env);
    CodeMade(mid, body.w, etype, params, body.v, env);
    k1 := mid + [Inner, Data, Code];
    Then(k, w, mid, body.w, k1, MakeCode(body.w, etype, params, body.v, env).w, -1, -1);
  }

  /** The environment of a closure or macro. */
  lemma CodeReads(k: seq<Kind>, w: World, fn: int)
    requires Typed(k, w) && WordOk(k, fn) && (IsCode(w, fn, ETYPE_CLOSURE) || IsCode(w, fn, ETYPE_MACRO))
    ensures EnvOk(k, CodeEnv(w, fn)) && WordOk(k, CodeParams(w, fn)) && WordOk(k, CodeBody(w, fn))
  {
    var i := PtrIdx(fn);
    assert CellOk(k, i, w.cells[i]) && k[i] == Code;
    var j := PtrIdx(w.cells[i].1);
    assert CellOk(k, j, w.cells[j]) && k[j] == Data;
    var l := PtrIdx(w.cells[j].1);
    assert CellOk(k, l, w.cells[l]) && k[l] == Inner;
  }

  /** What an environment list leads to is a binding. */
  lemma {:induction false} FoundBinding(k: seq<Kind>, w: World, e: int, sym: int, f: nat)
    requires Typed(k, w) && EnvOk(k, e) && Find(w, e, sym, f).Found?
    ensures Is(k, Find(w, e, sym, f).binding, Binding)
    decreases f
  {
    var i := PtrIdx(e);
    assert CellOk(k, i, w.cells[i]);
    if w.Car(w.Car(e)) != sym {
      FoundBinding(k, w, w.Cdr(e), sym, f - 1);
    }
  }

  lemma {:induction false} BoundOk(k: seq<Kind>, w: World, params: int, args: int, env: int, f: nat)
      returns (k1: seq<Kind>)
    requires Typed(k, w) && WordOk(k, args) && EnvOk(k, env) && WordOk(k, params)
    requires EnvBind(w, params, args, env, f).Bound?
    ensures var b := EnvBind(w, params, args, env, f); Grown(k, w, k1, b.w, -1) && EnvOk(k1, b.env)
    decreases f
  {
    hide Typed, EnvExtend, WordOk, EnvOk, Framed;
    if IsCons(params) {
      Reads(k, w, params);
      Reads(k, w, args);
      var x := EnvExtend(w, w.Car(params), w.Car(args), env);
      var mid := k + [Binding, Scope];
      Extended(k, w, w.Car(params), w.Car(args), env);
      Reads(mid, x.w, params);
      Reads(mid, x.w, args);
      k1 := BoundOk(mid, x.w, x.w.Cdr(params), x.w.Cdr(args), x.v, f - 1);
      Then(k, w, mid, x.w, k1, EnvBind(w, params, args, env, f).w, -1, -1);
    } else if IsSymbol(params) {
      Extended(k, w, params, args, env);
      k1 := k + [Binding, Scope];
    } else {
      Same(k, w);
      k1 := k;
    }
  }

  // Lists under construction

  predicate ListOk(k: seq<Kind>, result: int, tail: int) {
    if result == NIL_VAL then tail == NIL_VAL else WordOk(k, result) && Is(k, tail, Pair)
  }

  ghost predicate ListGrown(k: seq<Kind>, w: World, k1: seq<Kind>, b: Building, result: int, tail: int) {
    && b.Building? && Grown(k, w, k1, b.w, Hole(result, tail)) && ListOk(k1, b.result, b.tail)
    && (Hole(b.result, b.tail) == Hole(result, tail) || Hole(b.result, b.tail) >= |k|)
  }

  lemma Appended(k: seq<Kind>, w: World, v: int, result: int, tail: int)
    requires Typed(k, w) && WordOk(k, v) && ListOk(k, result, tail)
    ensures ListGrown(k, w, k + [Pair], Append(w, v, result, tail), result, tail)
  {
    hide Typed, Framed;
    var k1, cell := k + [Pair], Cons(w, v, NIL_VAL);
    SameLength(k, w);
    PairCell(k, w, v, NIL_VAL);
    if result == NIL_VAL {
    } else {
      NewCdr(k1, cell.w, tail, cell.v);
      AnyHole(k, w, k1, cell.w, PtrIdx(tail));
      Then(k, w, k1, cell.w, k1, cell.w.SetCdr(tail, cell.v), PtrIdx(tail), PtrIdx(tail));
    }
  }

  lemma AnyHole(k: seq<Kind>, w: World, k1: seq<Kind>, w1: World, hole: int)
    requires Grown(k, w, k1, w1, -1)
    ensures Grown(k, w, k1, w1, hole)
  {
    hide Typed;
  }

  lemma {:induction false} Spliced(k: seq<Kind>, w: World, list: int, result: int, tail: int, f: nat)
      returns (k1: seq<Kind>)
    requires Typed(k, w) && ListOk(k, result, tail) && Splice(w, list, result, tail, f).Building?
    ensures ListGrown(k, w, k1, Splice(w, list, result, tail, f), result, tail)
    decreases f
  {
    hide Typed, Append, Framed, ListOk;
    if IsCons(list) {
      Reads(k, w, list);
      var b := Append(w, w.Car(list), result, tail);
      Appended(k, w, w.Car(list), result, tail);
      k1 := Spliced(k + [Pair], b.w, b.w.Cdr(list), b.result, b.tail, f - 1);
      Then(k, w, k + [Pair], b.w, k1, Splice(w, list, result, tail, f).w, Hole(result, tail), Hole(b.result, b.tail));
    } else {
      Same(k, w);
      AnyHole(k, w, k, w, Hole(result, tail));
      k1 := k;
    }
  }

  lemma Added(k: seq<Kind>, w: World, splicing: bool, v: int, result: int, tail: int, f: nat) returns (k1: seq<Kind>)
    requires Typed(k, w) && WordOk(k, v) && ListOk(k, result, tail)
    requires AddPart(w, splicing, v, result, tail, f).Building?
    ensures ListGrown(k, w, k1, AddPart(w, splicing, v, result, tail, f), result, tail)
  {
    hide ListGrown;
    if splicing {
      k1 := Spliced(k, w, v, result, tail, f);
    } else {
      Appended(k, w, v, result, tail);
      k1 := k + [Pair];
    }
  }

  // Evaluation

  lemma Gives(k: seq<Kind>, w: World, k1: seq<Kind>, w1: World, pend: Pend, v: int)
    requires Grown(k, w, k1, w1, -1) && PendOk(k, pend) && WordOk(k1, v)
    ensures Good(k, w, k1, Give(pend, v, w1), -1)
  {
    hide Typed, Framed;
    if pend.Thrown? {
      StillOk(k, k1, pend.v);
    }
  }

  lemma Stopped(k: seq<Kind>, w: World, k1: seq<Kind>, o: Outcome)
    requires Good(k, w, k1, o, -1) && o.Raise?
    ensures Good(k, w, k1, Stop(o), -1)
  {
    hide Grown;
  }

  lemma Printed(k: seq<Kind>, w: World, ws: seq<int>)
    requires Typed(k, w)
    ensures Grown(k, w, k, w.Print(ws), -1)
  {
  }

  /** Behind a subform: the heap is typed, and words known before are still known. */
  lemma Behind(k: seq<Kind>, w: World, k1: seq<Kind>, o: Outcome, a: int, b: int)
    requires Good(k, w, k1, o, -1)
    ensures Typed(k1, o.w) && WordOk(k1, Back(o)) && PendOk(k1, Carry(o))
    ensures (WordOk(k, a) ==> WordOk(k1, a)) && (EnvOk(k, b) ==> EnvOk(k1, b))
  {
    hide Typed, Framed;
    StillOk(k, k1, a);
    StillOk(k, k1, b);
  }

  /** A definition of a closure or macro. */
  lemma CodeDefined(k: seq<Kind>, w: World, etype: int, params: int, forms: int, env: int, word: int)
      returns (k1: seq<Kind>)
    requires Typed(k, w) && WordOk(k, params) && WordOk(k, forms) && EnvOk(k, env) && !IsExtended(etype)
    requires WordOk(k, word)
    ensures var body := BodyOf(w, forms);
      var made := MakeCode(body.w, etype, params, body.v, env);
      var x := EnvExtend(made.w, word, made.v, made.w.globalEnv);
      Grown(k, w, k1, x.w.SetGlobal(x.v), -1) && WordOk(k1, made.v)
  {
    hide Typed, Framed, BodyOf, MakeCode, EnvExtend, WordOk, EnvOk;
    var body := BodyOf(w, forms);
    var made := MakeCode(body.w, etype, params, body.v, env);
    var x := EnvExtend(made.w, word, made.v, made.w.globalEnv);
    var mid := Lambda(k, w, etype, params, forms, env);
    StillOk(k, mid, word);
    Defined(mid, made.w, word, made.v);
    k1 := mid + [Binding, Scope];
    StillOk(mid, k1, made.v);
    Then(k, w, mid, made.w, k1, x.w.SetGlobal(x.v), -1, -1);
  }

  /** From a typed heap on, an evaluation writes no cell but new ones and the cdr of bindings. */
  lemma {:induction false} EvalFrames(p: Prims, f: nat, expr: int, env: int, w: World, live: seq<int>, pend: Pend,
                                      k: seq<Kind>) returns (k1: seq<Kind>)
    requires PrimsOk(p) && Aimed(pend, live) && !Eval(p, f, expr, env, w, live, pend).Out?
    requires Typed(k, w) && WordOk(k, expr) && EnvOk(k, env) && PendOk(k, pend)
    ensures Good(k, w, k1, Eval(p, f, expr, env, w, live, pend), -1)
    decreases f
  {
    hide PrimsOk, Typed, Good, Grown, WordOk, EnvOk, PendOk, EvalQuasi, EvalIf, EvalDefine, EvalSet, EvalCatch,
         EvalBegin, EvalCall, MakeCode, EnvExtend, BodyOf, FindBoth;
    if !IsCons(expr) {
      AtomFrames(p, f, expr, env, w, live, pend, k);
      return k;
    }
    var head, args := w.Car(expr), w.Cdr(expr);
    Reads(k, w, expr);
    Reads(k, w, args);
    if head == QUOTE {
      Same(k, w);
      Gives(k, w, k, w, pend, w.Car(args));
      k1 := k;
    } else if head == QUASIQUOTE {
      k1 := QuasiFrames(p, f - 1, w.Car(args), env, w, live, pend, k);
    } else if head == IF {
      k1 := IfFrames(p, f - 1, args, env, w, live, pend, k);
    } else if head == DEFINE {
      k1 := DefineFrames(p, f - 1, args, env, w, live, pend, k);
    } else if head == SET {
      k1 := SetFrames(p, f - 1, args, env, w, live, pend, k);
    } else if head == LAMBDA || head == DEFMACRO {
      k1 := CodeFrames(p, f, expr, env, w, live, pend, k);
    } else if head == CATCH {
      k1 := CatchFrames(p, f - 1, args, env, w, live, pend, k);
    } else if head == BEGIN {
      if args == NIL_VAL {
        Same(k, w);
        NilOk(k);
        Gives(k, w, k, w, pend, NIL_VAL);
        k1 := k;
      } else {
        k1 := BeginFrames(p, f - 1, args, env, w, live, pend, k);
      }
    } else {
      var o := Eval(p, f - 1, head, env, w, live, pend);
      var mid := EvalFrames(p, f - 1, head, env, w, live, pend, k);
      Behind(k, w, mid, o, args, env);
      if o.Ok? {
        k1 := CallFrames(p, f - 1, o.v, args, env, o.w, live, mid);
        ThenAll(k, w, mid, o, k1, EvalCall(p, f - 1, o.v, args, env, o.w, live));
      } else {
        Stopped(k, w, mid, o);
        k1 := mid;
      }
    }
  }

  lemma NilOk(k: seq<Kind>)
    ensures WordOk(k, NIL_VAL) && PendOk(k, Free)
  {
  }

  lemma ThenAll(k: seq<Kind>, w: World, k1: seq<Kind>, o1: Outcome, k2: seq<Kind>, o: Outcome)
    requires Good(k, w, k1, o1, -1) && Good(k1, o1.w, k2, o, -1)
    ensures Good(k, w, k2, o, -1)
  {
    ThenGood(k, w, k1, o1.w, k2, o, -1, -1);
  }

  lemma AtomFrames(p: Prims, f: nat, expr: int, env: int, w: World, live: seq<int>, pend: Pend, k: seq<Kind>)
    requires Aimed(pend, live) && !Eval(p, f, expr, env, w, live, pend).Out? && !IsCons(expr)
    requires Typed(k, w) && WordOk(k, expr) && EnvOk(k, env) && PendOk(k, pend)
    ensures Good(k, w, k, Eval(p, f, expr, env, w, live, pend), -1)
  {
    hide Typed, Good, Grown, PendOk, Find;
    if IsSymbol(expr) && expr != NIL_VAL && expr != T_VAL {
      match FindBoth(w, env, expr, f)
      case Missing =>
        Printed(k, w, [UNBOUND, expr]);
        Gives(k, w, k, w.Print([UNBOUND, expr]), pend, NIL_VAL);
      case Found(b) =>
        Same(k, w);
        Reads(k, w, b);
        Gives(k, w, k, w, pend, w.Cdr(b));
    } else {
      Same(k, w);
      Gives(k, w, k, w, pend, expr);
    }
  }

  /** lambda and defmacro. */
  lemma CodeFrames(p: Prims, f: nat, expr: int, env: int, w: World, live: seq<int>, pend: Pend, k: seq<Kind>)
      returns (k1: seq<Kind>)
    requires Aimed(pend, live) && !Eval(p, f, expr, env, w, live, pend).Out?
    requires IsCons(expr) && (w.Car(expr) == LAMBDA || w.Car(expr) == DEFMACRO)
    requires Typed(k, w) && WordOk(k, expr) && EnvOk(k, env) && PendOk(k, pend)
    ensures Good(k, w, k1, Eval(p, f, expr, env, w, live, pend), -1)
  {
    hide Typed, Good, Grown, WordOk, EnvOk, PendOk, MakeCode, EnvExtend, BodyOf;
    var args := w.Cdr(expr);
    Reads(k, w, expr);
    Reads(k, w, args);
    Reads(k, w, w.Cdr(args));
    if w.Car(expr) == LAMBDA {
      var body := BodyOf(w, w.Cdr(args));
      var made := MakeCode(body.w, ETYPE_CLOSURE, w.Car(args), body.v, env);
      k1 := Lambda(k, w, ETYPE_CLOSURE, w.Car(args), w.Cdr(args), env);
      Gives(k, w, k1, made.w, pend, made.v);
    } else {
      var body := BodyOf(w, w.Cdr(w.Cdr(args)));
      var made := MakeCode(body.w, ETYPE_MACRO, w.Car(w.Cdr(args)), body.v, env);
      var x := EnvExtend(made.w, w.Car(args), made.v, made.w.globalEnv);
      k1 := CodeDefined(k, w, ETYPE_MACRO, w.Car(w.Cdr(args)), w.Cdr(w.Cdr(args)), env, w.Car(args));
      Gives(k, w, k1, x.w.SetGlobal(x.v), pend, made.v);
    }
  }

  lemma {:induction false} IfFrames(p: Prims, f: nat, args: int, env: int, w: World, live: seq<int>, pend: Pend,
                                    k: seq<Kind>) returns (k1: seq<Kind>)
    requires PrimsOk(p) && Aimed(pend, live) && !EvalIf(p, f, args, env, w, live, pend).Out?
    requires Typed(k, w) && WordOk(k, args) && EnvOk(k, env) && PendOk(k, pend)
    ensures Good(k, w, k1, EvalIf(p, f, args, env, w, live, pend), -1)
    decreases f
  {
    hide PrimsOk, Typed, Good, Grown, WordOk, EnvOk, PendOk, Eval;
    Reads(k, w, args);
    var o := Eval(p, f - 1, w.Car(args), env, w, live, pend);
    var mid := EvalFrames(p, f - 1, w.Car(args), env, w, live, pend, k);
    Behind(k, w, mid, o, args, env);
    NilOk(mid);
    if o.Ok? {
      Reads(mid, o.w, o.w.Cdr(args));
      Reads(mid, o.w, o.w.Cdr(o.w.Cdr(args)));
      if o.v == NIL_VAL && o.w.Cdr(o.w.Cdr(args)) == NIL_VAL {
        Gives(mid, o.w, mid, o.w, Free, NIL_VAL) by { Same(mid, o.w); }
        k1 := mid;
      } else {
        var branch := o.w.Car(if o.v != NIL_VAL then o.w.Cdr(args) else o.w.Cdr(o.w.Cdr(args)));
        k1 := EvalFrames(p, f - 1, branch, env, o.w, live, Free, mid);
      }
      ThenAll(k, w, mid, o, k1, EvalIf(p, f, args, env, w, live, pend));
    } else {
      Stopped(k, w, mid, o);
      k1 := mid;
    }
  }

  lemma {:induction false} DefineFrames(p: Prims, f: nat, args: int, env: int, w: World, live: seq<int>, pend: Pend,
                                        k: seq<Kind>) returns (k1: seq<Kind>)
    requires PrimsOk(p) && Aimed(pend, live) && !EvalDefine(p, f, args, env, w, live, pend).Out?
    requires Typed(k, w) && WordOk(k, args) && EnvOk(k, env) && PendOk(k, pend)
    ensures Good(k, w, k1, EvalDefine(p, f, args, env, w, live, pend), -1)
    decreases f
  {
    hide PrimsOk, Typed, Good, Grown, WordOk, EnvOk, PendOk, Eval, MakeCode, EnvExtend, BodyOf;
    var first := w.Car(args);
    Reads(k, w, args);
    if IsCons(first) {
      Reads(k, w, first);
      var body := BodyOf(w, w.Cdr(args));
      var made := MakeCode(body.w, ETYPE_CLOSURE, w.Cdr(first), body.v, env);
      var x := EnvExtend(made.w, w.Car(first), made.v, made.w.globalEnv);
      k1 := CodeDefined(k, w, ETYPE_CLOSURE, w.Cdr(first), w.Cdr(args), env, w.Car(first));
      Gives(k, w, k1, x.w.SetGlobal(x.v), pend, made.v);
    } else {
      Reads(k, w, w.Cdr(args));
      var o := Eval(p, f - 1, w.Car(w.Cdr(args)), env, w, live, pend);
      var mid := EvalFrames(p, f - 1, w.Car(w.Cdr(args)), env, w, live, pend, k);
      Behind(k, w, mid, o, first, env);
      if o.Ok? {
        Defined(mid, o.w, first, o.v);
        var x := EnvExtend(o.w, first, o.v, o.w.globalEnv);
        k1 := mid + [Binding, Scope];
        NilOk(mid);
        StillOk(mid, k1, o.v);
        Gives(mid, o.w, k1, x.w.SetGlobal(x.v), Free, o.v);
        ThenAll(k, w, mid, o, k1, Ok(o.v, x.w.SetGlobal(x.v)));
      } else {
        Stopped(k, w, mid, o);
        k1 := mid;
      }
    }
  }

  lemma {:induction false} SetFrames(p: Prims, f: nat, args: int, env: int, w: World, live: seq<int>, pend: Pend,
                                     k: seq<Kind>) returns (k1: seq<Kind>)
    requires PrimsOk(p) && Aimed(pend, live) && !EvalSet(p, f, args, env, w, live, pend).Out?
    requires Typed(k, w) && WordOk(k, args) && EnvOk(k, env) && PendOk(k, pend)
    ensures Good(k, w, k1, EvalSet(p, f, args, env, w, live, pend), -1)
    decreases f
  {
    hide PrimsOk, Typed, Good, Grown, WordOk, EnvOk, PendOk, Eval, FindBoth;
    Reads(k, w, args);
    Reads(k, w, w.Cdr(args));
    var o := Eval(p, f - 1, w.Car(w.Cdr(args)), env, w, live, pend);
    k1 := EvalFrames(p, f - 1, w.Car(w.Cdr(args)), env, w, live, pend, k);
    Behind(k, w, k1, o, args, env);
    if o.Ok? {
      Assigned(k1, o.w, env, w.Car(args), o.v, f);
      ThenAll(k, w, k1, o, k1, EvalSet(p, f, args, env, w, live, pend));
    } else {
      Stopped(k, w, k1, o);
    }
  }

  lemma Assigned(k: seq<Kind>, w: World, env: int, sym: int, v: int, f: nat)
    requires Typed(k, w) && WordOk(k, v) && EnvOk(k, env) && !FindBoth(w, env, sym, f).Lost?
    ensures Good(k, w, k, match FindBoth(w, env, sym, f)
                          case Found(binding) => Ok(v, w.SetCdr(binding, v))
                          case _ => Ok(NIL_VAL, w.Print([SET_UNBOUND, sym])), -1)
  {
    hide Typed, Find, Framed;
    match FindBoth(w, env, sym, f)
    case Found(binding) =>
      if Find(w, env, sym, f).Found? {
        FoundBinding(k, w, env, sym, f);
      } else {
        GlobalOk(k, w);
        FoundBinding(k, w, w.globalEnv, sym, f);
      }
      NewCdr(k, w, binding, v);
    case _ => Printed(k, w, [SET_UNBOUND, sym]);
  }

  lemma GlobalOk(k: seq<Kind>, w: World)
    requires Typed(k, w)
    ensures EnvOk(k, w.globalEnv)
  {
  }

  lemma {:induction false} CatchFrames(p: Prims, f: nat, args: int, env: int, w: World, live: seq<int>, pend: Pend,
                                       k: seq<Kind>) returns (k1: seq<Kind>)
    requires PrimsOk(p) && Aimed(pend, live) && !EvalCatch(p, f, args, env, w, live, pend).Out?
    requires Typed(k, w) && WordOk(k, args) && EnvOk(k, env) && PendOk(k, pend)
    ensures Good(k, w, k1, EvalCatch(p, f, args, env, w, live, pend), -1)
    decreases f
  {
    hide PrimsOk, Typed, Good, Grown, WordOk, EnvOk, PendOk, Eval;
    Reads(k, w, args);
    var o := Eval(p, f - 1, w.Car(args), env, w, live, pend);
    var mid := EvalFrames(p, f - 1, w.Car(args), env, w, live, pend, k);
    Behind(k, w, mid, o, args, env);
    NilOk(mid);
    if !o.Ok? {
      Stopped(k, w, mid, o);
      k1 := mid;
    } else if |live| >= MAX_CATCH_DEPTH {
      Printed(mid, o.w, [CATCH_OVERFLOW]);
      Gives(mid, o.w, mid, o.w.Print([CATCH_OVERFLOW]), Free, NIL_VAL);
      k1 := mid;
      ThenAll(k, w, mid, o, k1, EvalCatch(p, f, args, env, w, live, pend));
    } else {
      Reads(mid, o.w, args);
      Reads(mid, o.w, o.w.Cdr(args));
      var body := Eval(p, f - 1, o.w.Car(o.w.Cdr(args)), env, o.w, live + [o.v], Free);
      k1 := EvalFrames(p, f - 1, o.w.Car(o.w.Cdr(args)), env, o.w, live + [o.v], Free, mid);
      Caught(mid, o.w, k1, body, o.v);
      ThenAll(k, w, mid, o, k1, EvalCatch(p, f, args, env, w, live, pend));
    }
  }

  lemma Caught(k: seq<Kind>, w: World, k1: seq<Kind>, body: Outcome, tag: int)
    requires Good(k, w, k1, body, -1)
    ensures Good(k, w, k1, match body
                           case Raise(t, v, w2, _) => if t == tag then Ok(v, w2) else Raise(t, v, w2, NIL_VAL)
                           case other => other, -1)
  {
    hide Grown;
  }

  lemma {:induction false} BeginFrames(p: Prims, f: nat, args: int, env: int, w: World, live: seq<int>, pend: Pend,
                                       k: seq<Kind>) returns (k1: seq<Kind>)
    requires PrimsOk(p) && Aimed(pend, live) && !EvalBegin(p, f, args, env, w, live, pend).Out?
    requires Typed(k, w) && WordOk(k, args) && EnvOk(k, env) && PendOk(k, pend)
    ensures Good(k, w, k1, EvalBegin(p, f, args, env, w, live, pend), -1)
    decreases f
  {
    hide PrimsOk, Typed, Good, Grown, WordOk, EnvOk, PendOk, Eval;
    Reads(k, w, args);
    var o := Eval(p, f - 1, w.Car(args), env, w, live, pend);
    k1 := EvalFrames(p, f - 1, w.Car(args), env, w, live, pend, k);
    if w.Cdr(args) != NIL_VAL {
      var mid := k1;
      Behind(k, w, mid, o, args, env);
      NilOk(mid);
      if o.Ok? {
        Reads(mid, o.w, args);
        k1 := BeginFrames(p, f - 1, o.w.Cdr(args), env, o.w, live, Free, mid);
        ThenAll(k, w, mid, o, k1, EvalBegin(p, f, args, env, w, live, pend));
      } else {
        Stopped(k, w, mid, o);
      }
    }
  }

  lemma {:induction false} QuasiFrames(p: Prims, f: nat, tmpl: int, env: int, w: World, live: seq<int>, pend: Pend,
                                       k: seq<Kind>) returns (k1: seq<Kind>)
    requires PrimsOk(p) && Aimed(pend, live) && !EvalQuasi(p, f, tmpl, env, w, live, pend).Out?
    requires Typed(k, w) && WordOk(k, tmpl) && EnvOk(k, env) && PendOk(k, pend)
    ensures Good(k, w, k1, EvalQuasi(p, f, tmpl, env, w, live, pend), -1)
    decreases f, 1
  {
    hide PrimsOk, Typed, Good, Grown, WordOk, EnvOk, PendOk, Eval, EvalParts;
    if !IsCons(tmpl) {
      Same(k, w);
      Gives(k, w, k, w, pend, tmpl);
      k1 := k;
    } else if w.Car(tmpl) == UNQUOTE {
      Reads(k, w, tmpl);
      Reads(k, w, w.Cdr(tmpl));
      k1 := EvalFrames(p, f - 1, w.Car(w.Cdr(tmpl)), env, w, live, pend, k);
    } else {
      NoList(k);
      k1 := PartsFrames(p, f - 1, tmpl, env, w, live, pend, NIL_VAL, NIL_VAL, k);
    }
  }

  lemma NoList(k: seq<Kind>)
    ensures ListOk(k, NIL_VAL, NIL_VAL)
  {
  }

  lemma {:induction false} PartFrames(p: Prims, f: nat, elem: int, env: int, w: World, live: seq<int>, pend: Pend,
                                      k: seq<Kind>) returns (k1: seq<Kind>)
    requires PrimsOk(p) && Aimed(pend, live) && !EvalPart(p, f, elem, env, w, live, pend).Out?
    requires Typed(k, w) && WordOk(k, elem) && EnvOk(k, env) && PendOk(k, pend)
    ensures Good(k, w, k1, EvalPart(p, f, elem, env, w, live, pend), -1)
    decreases f
  {
    hide PrimsOk, Typed, Good, Grown, WordOk, EnvOk, PendOk, Eval, EvalQuasi;
    if IsSplicing(w, elem) {
      Reads(k, w, elem);
      Reads(k, w, w.Cdr(elem));
      k1 := EvalFrames(p, f - 1, w.Car(w.Cdr(elem)), env, w, live, pend, k);
    } else {
      k1 := QuasiFrames(p, f - 1, elem, env, w, live, pend, k);
    }
  }

  lemma {:induction false} PartsFrames(p: Prims, f: nat, rest: int, env: int, w: World, live: seq<int>, pend: Pend,
                                       result: int, tail: int, k: seq<Kind>) returns (k1: seq<Kind>)
    requires PrimsOk(p) && Aimed(pend, live) && !EvalParts(p, f, rest, env, w, live, pend, result, tail).Out?
    requires Typed(k, w) && WordOk(k, rest) && EnvOk(k, env) && PendOk(k, pend) && ListOk(k, result, tail)
    ensures Good(k, w, k1, EvalParts(p, f, rest, env, w, live, pend, result, tail), Hole(result, tail))
    decreases f
  {
    hide PrimsOk, Typed, Good, Grown, WordOk, EnvOk, PendOk, EvalPart, AddPart, ListOk;
    if !IsCons(rest) {
      Ended(k, w, rest, result, tail, pend);
      k1 := k;
    } else {
      Reads(k, w, rest);
      var part := EvalPart(p, f - 1, w.Car(rest), env, w, live, pend);
      var splicing := IsSplicing(w, w.Car(rest));
      var mid := PartFrames(p, f - 1, w.Car(rest), env, w, live, pend, k);
      var b := AddPart(part.w, splicing, Back(part), result, tail, f);
      Behind(k, w, mid, part, rest, env);
      ListStays(k, w, mid, part, result, tail);
      var next := Added(mid, part.w, splicing, Back(part), result, tail, f);
      BehindList(mid, part.w, next, b, result, tail, env, Carry(part));
      Reads(next, b.w, rest);
      k1 := PartsFrames(p, f - 1, b.w.Cdr(rest), env, b.w, live, Carry(part), b.result, b.tail, next);
      var o := EvalParts(p, f, rest, env, w, live, pend, result, tail);
      ThenList(k, w, mid, part, next, b, k1, o, result, tail);
    }
  }

  lemma Ended(k: seq<Kind>, w: World, rest: int, result: int, tail: int, pend: Pend)
    requires Typed(k, w) && WordOk(k, rest) && ListOk(k, result, tail) && PendOk(k, pend)
    ensures Good(k, w, k, Give(pend, result, if rest != NIL_VAL && tail != NIL_VAL then w.SetCdr(tail, rest) else w),
                 Hole(result, tail))
  {
    hide Typed, Framed;
    if rest != NIL_VAL && tail != NIL_VAL {
      NewCdr(k, w, tail, rest);
    } else {
      Same(k, w);
      AnyHole(k, w, k, w, Hole(result, tail));
    }
  }

  lemma ListStays(k: seq<Kind>, w: World, k1: seq<Kind>, o: Outcome, result: int, tail: int)
    requires Good(k, w, k1, o, -1) && ListOk(k, result, tail)
    ensures ListOk(k1, result, tail)
  {
    hide Typed, Framed;
    StillOk(k, k1, result);
    StillOk(k, k1, tail);
  }

  lemma BehindList(k: seq<Kind>, w: World, k1: seq<Kind>, b: Building, result: int, tail: int, env: int, pend: Pend)
    requires ListGrown(k, w, k1, b, result, tail) && EnvOk(k, env) && PendOk(k, pend)
    ensures Typed(k1, b.w) && ListOk(k1, b.result, b.tail) && EnvOk(k1, env) && PendOk(k1, pend)
  {
    hide Typed, Framed;
    StillOk(k, k1, env);
    if pend.Thrown? {
      StillOk(k, k1, pend.v);
    }
  }

  lemma ThenList(k: seq<Kind>, w: World, k1: seq<Kind>, part: Outcome, k2: seq<Kind>, b: Building, k3: seq<Kind>,
                 o: Outcome, result: int, tail: int)
    requires Good(k, w, k1, part, -1) && ListGrown(k1, part.w, k2, b, result, tail)
    requires Good(k2, b.w, k3, o, Hole(b.result, b.tail))
    ensures Good(k, w, k3, o, Hole(result, tail))
  {
    hide Typed, Framed;
    AnyHole(k, w, k1, part.w, Hole(result, tail));
    assert |k| <= |k1|;
    Then(k1, part.w, k2, b.w, k3, o.w, Hole(result, tail), Hole(b.result, b.tail));
    Then(k, w, k1, part.w, k3, o.w, Hole(result, tail), Hole(result, tail));
  }

  lemma {:induction false} CallFrames(p: Prims, f: nat, fn: int, args: int, env: int, w: World, live: seq<int>,
                                      k: seq<Kind>) returns (k1: seq<Kind>)
    requires PrimsOk(p) && !EvalCall(p, f, fn, args, env, w, live).Out?
    requires Typed(k, w) && WordOk(k, fn) && WordOk(k, args) && EnvOk(k, env)
    ensures Good(k, w, k1, EvalCall(p, f, fn, args, env, w, live), -1)
    decreases f
  {
    hide PrimsOk, Typed, Good, Grown, WordOk, EnvOk, PendOk, Eval, EvalArgs, Apply, EnvBind, CodeParams, CodeBody,
         CodeEnv;
    var o := EvalCall(p, f, fn, args, env, w, live);
    if IsCode(w, fn, ETYPE_MACRO) {
      var bound := EnvBind(w, CodeParams(w, fn), args, CodeEnv(w, fn), f);
      var mid := BodyFrames(p, f, fn, args, w, CodeBody(bound.w, fn), live, k);
      var body := Eval(p, f - 1, CodeBody(bound.w, fn), bound.env, bound.w, live, Free);
      Behind(k, w, mid, body, args, env);
      NilOk(mid);
      if body.Ok? {
        k1 := EvalFrames(p, f - 1, body.v, env, body.w, live, Free, mid);
        ThenAll(k, w, mid, body, k1, o);
      } else {
        Stopped(k, w, mid, body);
        k1 := mid;
      }
    } else {
      var list := EvalArgs(p, f - 1, args, env, w, live);
      var mid := ArgsFrames(p, f - 1, args, env, w, live, k);
      Behind(k, w, mid, list, fn, env);
      if list.Ok? {
        if IsCode(list.w, fn, ETYPE_CLOSURE) {
          var bound := EnvBind(list.w, CodeParams(list.w, fn), list.v, CodeEnv(list.w, fn), f);
          k1 := BodyFrames(p, f, fn, list.v, list.w, CodeBody(list.w, fn), live, mid);
        } else {
          k1 := ApplyFrames(p, f - 1, fn, list.v, list.w, live, mid);
        }
        ThenAll(k, w, mid, list, k1, o);
      } else {
        Stopped(k, w, mid, list);
        k1 := mid;
      }
    }
  }

  /** The body of a closure or macro, with its parameters bound. */
  lemma {:induction false} BodyFrames(p: Prims, f: nat, fn: int, list: int, w: World, body: int, live: seq<int>,
                                      k: seq<Kind>) returns (k1: seq<Kind>)
    requires PrimsOk(p) && f > 0 && (IsCode(w, fn, ETYPE_CLOSURE) || IsCode(w, fn, ETYPE_MACRO))
    requires var b := EnvBind(w, CodeParams(w, fn), list, CodeEnv(w, fn), f);
      && b.Bound? && (body == CodeBody(w, fn) || body == CodeBody(b.w, fn))
      && !Eval(p, f - 1, body, b.env, b.w, live, Free).Out?
    requires Typed(k, w) && WordOk(k, fn) && WordOk(k, list)
    ensures var b := EnvBind(w, CodeParams(w, fn), list, CodeEnv(w, fn), f);
      Good(k, w, k1, Eval(p, f - 1, body, b.env, b.w, live, Free), -1)
    decreases f, 0
  {
    hide PrimsOk, Typed, Good, WordOk, EnvOk, PendOk, Eval, EnvBind, Framed;
    var b := EnvBind(w, CodeParams(w, fn), list, CodeEnv(w, fn), f);
    CodeReads(k, w, fn);
    var mid := BoundOk(k, w, CodeParams(w, fn), list, CodeEnv(w, fn), f);
    StillOk(k, mid, CodeBody(w, fn));
    Reads(mid, b.w, b.w.Cdr(CodeData(b.w, fn)));
    NilOk(mid);
    k1 := EvalFrames(p, f - 1, body, b.env, b.w, live, Free, mid);
    ThenGood(k, w, mid, b.w, k1, Eval(p, f - 1, body, b.env, b.w, live, Free), -1, -1);
  }

  lemma {:induction false} ArgsFrames(p: Prims, f: nat, list: int, env: int, w: World, live: seq<int>, k: seq<Kind>)
      returns (k1: seq<Kind>)
    requires PrimsOk(p) && !EvalArgs(p, f, list, env, w, live).Out?
    requires Typed(k, w) && WordOk(k, list) && EnvOk(k, env)
    ensures Good(k, w, k1, EvalArgs(p, f, list, env, w, live), -1)
    decreases f
  {
    hide PrimsOk, Typed, Good, WordOk, EnvOk, PendOk, Eval, EvalRest, Framed;
    NilOk(k);
    if list == NIL_VAL {
      Same(k, w);
      Gives(k, w, k, w, Free, NIL_VAL);
      k1 := k;
    } else {
      Reads(k, w, list);
      var o := Eval(p, f - 1, w.Car(list), env, w, live, Free);
      var mid := EvalFrames(p, f - 1, w.Car(list), env, w, live, Free, k);
      Behind(k, w, mid, o, list, env);
      if o.Ok? {
        var cell := Cons(o.w, o.v, NIL_VAL);
        NilOk(mid);
        NoList(mid);
        Appended(mid, o.w, o.v, NIL_VAL, NIL_VAL);
        var next := mid + [Pair];
        BehindList(mid, o.w, next, Building(cell.v, cell.v, cell.w), NIL_VAL, NIL_VAL, env, Free);
        Reads(next, cell.w, list);
        k1 := RestFrames(p, f - 1, cell.w.Cdr(list), env, cell.w, live, cell.v, cell.v, next);
        var all := EvalArgs(p, f, list, env, w, live);
        SameLength(mid, o.w);
        ThenGood(mid, o.w, next, cell.w, k1, all, -1, PtrIdx(cell.v));
        ThenAll(k, w, mid, o, k1, all);
      } else {
        Stopped(k, w, mid, o);
        k1 := mid;
      }
    }
  }

  lemma {:induction false} RestFrames(p: Prims, f: nat, list: int, env: int, w: World, live: seq<int>, result: int,
                                      tail: int, k: seq<Kind>) returns (k1: seq<Kind>)
    requires PrimsOk(p) && !EvalRest(p, f, list, env, w, live, result, tail).Out? && result != NIL_VAL
    requires Typed(k, w) && WordOk(k, list) && EnvOk(k, env) && ListOk(k, result, tail)
    ensures Good(k, w, k1, EvalRest(p, f, list, env, w, live, result, tail), PtrIdx(tail))
    decreases f
  {
    hide PrimsOk, Typed, Good, Grown, WordOk, EnvOk, PendOk, Eval, ListOk;
    var all := EvalRest(p, f, list, env, w, live, result, tail);
    NilOk(k);
    if !IsCons(list) {
      Ended(k, w, NIL_VAL, result, tail, Free);
      k1 := k;
    } else {
      Reads(k, w, list);
      var o := Eval(p, f - 1, w.Car(list), env, w, live, Free);
      var mid := EvalFrames(p, f - 1, w.Car(list), env, w, live, Free, k);
      Behind(k, w, mid, o, list, env);
      if o.Ok? {
        ListStays(k, w, mid, o, result, tail);
        Appended(mid, o.w, o.v, result, tail);
        var b := Append(o.w, o.v, result, tail);
        var next := mid + [Pair];
        NilOk(mid);
        BehindList(mid, o.w, next, b, result, tail, env, Free);
        Reads(next, b.w, list);
        k1 := RestFrames(p, f - 1, b.w.Cdr(list), env, b.w, live, result, b.tail, next);
        ThenList(k, w, mid, o, next, b, k1, all, result, tail);
      } else {
        Stopped(k, w, mid, o);
        GoodHole(k, w, mid, all, PtrIdx(tail));
        k1 := mid;
      }
    }
  }

  lemma GoodHole(k: seq<Kind>, w: World, k1: seq<Kind>, o: Outcome, hole: int)
    requires Good(k, w, k1, o, -1)
    ensures Good(k, w, k1, o, hole)
  {
    hide Grown;
    AnyHole(k, w, k1, o.w, hole);
  }

  lemma {:induction false} ApplyFrames(p: Prims, f: nat, fn: int, list: int, w: World, live: seq<int>, k: seq<Kind>)
      returns (k1: seq<Kind>)
    requires PrimsOk(p) && !Apply(p, f, fn, list, w, live).Out?
    requires Typed(k, w) && WordOk(k, fn) && WordOk(k, list)
    ensures Good(k, w, k1, Apply(p, f, fn, list, w, live), -1)
    decreases f
  {
    hide PrimsOk, Typed, Good, Grown, WordOk, EnvOk, PendOk, Eval, EnvBind, ApplyPrim, CodeParams, CodeEnv, CodeBody;
    NilOk(k);
    if IsCode(w, fn, ETYPE_CLOSURE) {
      var b := EnvBind(w, CodeParams(w, fn), list, CodeEnv(w, fn), f);
      k1 := BodyFrames(p, f, fn, list, w, CodeBody(b.w, fn), live, k);
    } else if IsCode(w, fn, ETYPE_PRIMITIVE) {
      k1 := PrimFrames(p, f - 1, w.Cdr(fn) / 4, list, w, live, k);
    } else {
      Printed(k, w, [NOT_FN]);
      Gives(k, w, k, w.Print([NOT_FN]), Free, NIL_VAL);
      k1 := k;
    }
  }

  lemma ArgsOk(k: seq<Kind>, w: World, list: int)
    requires Typed(k, w)
    ensures WordOk(k, FirstArg(w, list)) && WordOk(k, SecondArg(w, list))
  {
    hide Typed;
    Reads(k, w, list);
    Reads(k, w, w.Cdr(list));
  }

  lemma {:induction false} PrimFrames(p: Prims, f: nat, id: int, list: int, w: World, live: seq<int>, k: seq<Kind>)
      returns (k1: seq<Kind>)
    requires PrimsOk(p) && !ApplyPrim(p, f, id, list, w, live).Out?
    requires Typed(k, w) && WordOk(k, list)
    ensures Good(k, w, k1, ApplyPrim(p, f, id, list, w, live), -1)
    decreases f
  {
    hide PrimsOk, Typed, Grown, WordOk, EnvOk, Eval, Apply, MacExpand;
    ArgsOk(k, w, list);
    NilOk(k);
    k1 := k;
    if id == PRIM_THROW {
      var tag := FirstArg(w, list);
      if tag in live {
        Same(k, w);
      } else {
        Printed(k, w, [NO_CATCH, tag]);
      }
    } else if id == PRIM_APPLY {
      k1 := ApplyFrames(p, f - 1, FirstArg(w, list), SecondArg(w, list), w, live, k);
    } else if id == PRIM_EVAL {
      GlobalOk(k, w);
      k1 := EvalFrames(p, f - 1, FirstArg(w, list), w.globalEnv, w, live, Free, k);
    } else if id == PRIM_MACEXPAND {
      k1 := MacroFrames(p, f - 1, FirstArg(w, list), w, live, k);
    } else {
      k1 := OtherPrim(p, id, list, w, k);
    }
  }

  lemma OtherPrim(p: Prims, id: int, list: int, w: World, k: seq<Kind>) returns (k1: seq<Kind>)
    requires PrimsOk(p) && Typed(k, w) && WordOk(k, list)
    ensures Grown(k, w, k1, p(id, list, w).w, -1) && WordOk(k1, p(id, list, w).v)
  {
    assert PrimOk(p, id, list, w, k);
    var made := p(id, list, w);
    k1 :| k <= k1 && Typed(k1, made.w) && WordOk(k1, made.v);
  }

  lemma {:induction false} MacroFrames(p: Prims, f: nat, form: int, w: World, live: seq<int>, k: seq<Kind>)
      returns (k1: seq<Kind>)
    requires PrimsOk(p) && !MacExpand(p, f, form, w, live).Out?
    requires Typed(k, w) && WordOk(k, form)
    ensures Good(k, w, k1, MacExpand(p, f, form, w, live), -1)
    decreases f
  {
    hide PrimsOk, Typed, Good, Grown, WordOk, EnvOk, PendOk, Eval, EnvBind, Find, CodeParams, CodeEnv, CodeBody;
    NilOk(k);
    Same(k, w);
    Gives(k, w, k, w, Free, form);
    k1 := k;
    if IsCons(form) && IsSymbol(w.Car(form)) {
      var search := Find(w, w.globalEnv, w.Car(form), f);
      if search.Found? && IsCode(w, w.Cdr(search.binding), ETYPE_MACRO) {
        var fn := w.Cdr(search.binding);
        Reads(k, w, search.binding);
        Reads(k, w, form);
        var b := EnvBind(w, CodeParams(w, fn), w.Cdr(form), CodeEnv(w, fn), f);
        k1 := BodyFrames(p, f, fn, w.Cdr(form), w, CodeBody(b.w, fn), live, k);
      }
    }
  }
}
