/** The interpreter computes what forms mean: an evaluation on a heap that carries the state
    comes to the value, or the throw, of Meaning. */
module EvalMeans {
  import opened Tml
  import opened Exceptions
  import opened EvalFrame
  import opened EvalFuel
  import opened HeapMeaning
  import M = Meaning

  // Primitives

  /** The result of a primitive stands for the value, in cells that were there or are new. */
  ghost predicate Yields(h: Heap, busy: set<int>, made: Made, k1: seq<Kind>, y: M.Val, ws: seq<int>) {
    && h.k <= k1 && Typed(k1, made.w) && h.w.cells <= made.w.cells
    && made.w.globalEnv == h.w.globalEnv && made.w.output == h.w.output + ws
    && Stands(Heap(k1, made.w, h.locs), busy, made.v, y)
  }

  ghost predicate PrimMeans(p: Prims, q: M.Prims, id: int, list: int, x: M.Val, h: Heap, busy: set<int>, s: M.State) {
    Carries(h, busy, s) && Stands(h, busy, list, x) && q(id, x).Some? ==>
      exists k1 :: Yields(h, busy, p(id, list, h.w), k1, q(id, x).value.0, q(id, x).value.1)
  }

  /** The primitives compute the functions `q`, where these have a value. */
  ghost predicate PrimsMean(p: Prims, q: M.Prims) {
    forall id, list, x, h, busy, s :: PrimMeans(p, q, id, list, x, h, busy, s)
  }

  // Agreement

  /** The outcome and the heap it leaves are those of the meaning. */
  ghost predicate Agrees(h: Heap, busy: set<int>, r: M.Result, o: Outcome, h1: Heap) {
    match r
    case Stuck => false
    case Done(x, s) => o.Ok? && o.w == h1.w && Goes(h, h1, busy) && Carries(h1, busy, s) && Stands(h1, busy, o.v, x)
    case Thrown(tag, x, s) =>
      && o.Raise? && o.tag == tag && o.w == h1.w
      && Goes(h, h1, busy) && Carries(h1, busy, s) && Stands(h1, busy, o.v, x)
  }

  ghost predicate Ready(p: Prims, q: M.Prims, h: Heap, busy: set<int>, s: M.State, ew: int, env: M.Env) {
    PrimsMean(p, q) && Carries(h, busy, s) && EnvStands(h, ew, env)
  }

  lemma AgreesThen(h: Heap, h1: Heap, h2: Heap, busy: set<int>, r: M.Result, o: Outcome)
    requires Goes(h, h1, busy) && Agrees(h1, busy, r, o, h2)
    ensures Agrees(h, busy, r, o, h2)
  {
    hide Goes, Carries, Stands;
    GoesThen(h, h1, h2, busy);
  }

  /** Behind a subform with a value. */
  lemma Next(p: Prims, q: M.Prims, h: Heap, busy: set<int>, r: M.Result, o: Outcome, h1: Heap, s: M.State, ew: int,
             env: M.Env)
    requires Ready(p, q, h, busy, s, ew, env) && Agrees(h, busy, r, o, h1) && r.Done?
    ensures Ready(p, q, h1, busy, r.s, ew, env) && o.w == h1.w
  {
    hide PrimsMean, M.Onward, Carries, Stands, EnvStands, Grown;
    EnvKept(h, h1, busy, ew, env);
  }

  lemma GoesKeeps(h: Heap, h1: Heap, busy: set<int>, v: int, x: M.Val)
    requires Goes(h, h1, busy) && Stands(h, busy, v, x)
    ensures Stands(h1, busy, v, x)
  {
    hide Stands, Grown;
    Kept(h, h1, busy, v, x);
  }

  lemma AgreesGoes(h: Heap, busy: set<int>, r: M.Result, o: Outcome, h1: Heap)
    requires Agrees(h, busy, r, o, h1)
    ensures Goes(h, h1, busy) && !o.Out? && (r.Done? ==> o.Ok?) && (r.Thrown? ==> o.Raise?)
  {
  }

  /** A throw that passes through a form. */
  lemma Passes(h: Heap, busy: set<int>, r: M.Result, o: Outcome, h1: Heap)
    requires Agrees(h, busy, r, o, h1) && r.Thrown?
    ensures Agrees(h, busy, r, Stop(o), h1)
  {
    hide Goes, Carries, Stands;
  }

  /** A form that is done at once. */
  lemma Here(h: Heap, h1: Heap, busy: set<int>, s: M.State, v: int, x: M.Val)
    requires Goes(h, h1, busy) && Carries(h1, busy, s) && Stands(h1, busy, v, x)
    ensures Agrees(h, busy, M.Done(x, s), Ok(v, h1.w), h1)
  {
  }

  lemma Stay(h: Heap, busy: set<int>, s: M.State, v: int, x: M.Val)
    requires Carries(h, busy, s) && Stands(h, busy, v, x)
    ensures Agrees(h, busy, M.Done(x, s), Ok(v, h.w), h)
  {
    GoesNowhere(h, busy, s);
  }

  lemma Reported(h: Heap, busy: set<int>, s: M.State, ws: seq<int>) returns (h1: Heap)
    requires Carries(h, busy, s)
    ensures Agrees(h, busy, M.Done(M.NIL, s.Print(ws)), Ok(NIL_VAL, h.w.Print(ws)), h1)
  {
    hide Carries, Goes;
    h1 := Prints(h, busy, s, ws);
  }

  function Max(a: nat, b: nat): nat { if a < b then b else a }

  // Evaluation

  /** An evaluation comes to what the form means, given enough fuel. */
  lemma {:induction false} Means(p: Prims, q: M.Prims, g: nat, e: M.Val, v: int, env: M.Env, ew: int, s: M.State,
                                 live: seq<int>, h: Heap, busy: set<int>) returns (f: nat, h1: Heap)
    requires Ready(p, q, h, busy, s, ew, env) && Stands(h, busy, v, e) && !M.Eval(q, g, e, env, s, live).Stuck?
    ensures Agrees(h, busy, M.Eval(q, g, e, env, s, live), Eval(p, f, v, ew, h.w, live, Free), h1)
    decreases g, 1
  {
    hide PrimsMean, M.Onward, Carries, Stands, EnvStands, Agrees, M.If, M.DefineForm, M.Set, M.Catch, M.Begin, M.Call,
         M.Quasi, M.Lookup, EvalIf, EvalDefine, EvalSet, EvalCatch, EvalBegin, EvalCall, EvalQuasi, FindBoth, MakeCode,
         BodyOf, EnvExtend, M.BodyOf, M.Define;
    Word(h, busy, v, e);
    if !e.Pair? {
      f, h1 := AtomMeans(p, q, g, e, v, env, ew, s, live, h, busy);
      return;
    }
    var head, args, av := e.car, e.cdr, h.w.Cdr(v);
    PairReads(h, busy, v, e);
    Word(h, busy, h.w.Car(v), head);
    if head == M.Atom(QUOTE) {
      PairReads(h, busy, av, args);
      Stay(h, busy, s, h.w.Car(av), args.car);
      f, h1 := 1, h;
    } else if head == M.Atom(QUASIQUOTE) {
      PairReads(h, busy, av, args);
      f, h1 := QuasiMeans(p, q, g - 1, args.car, h.w.Car(av), env, ew, s, live, h, busy);
      f := f + 1;
    } else if head == M.Atom(IF) {
      f, h1 := IfMeans(p, q, g - 1, args, av, env, ew, s, live, h, busy);
      f := f + 1;
    } else if head == M.Atom(DEFINE) {
      f, h1 := DefineMeans(p, q, g - 1, args, av, env, ew, s, live, h, busy);
      f := f + 1;
    } else if head == M.Atom(SET) {
      f, h1 := SetMeans(p, q, g - 1, args, av, env, ew, s, live, h, busy);
      f := f + 1;
    } else if head == M.Atom(LAMBDA) || head == M.Atom(DEFMACRO) {
      f, h1 := CodeMeans(p, q, g, e, v, env, ew, s, live, h, busy);
    } else if head == M.Atom(CATCH) {
      f, h1 := CatchMeans(p, q, g - 1, args, av, env, ew, s, live, h, busy);
      f := f + 1;
    } else if head == M.Atom(BEGIN) {
      Word(h, busy, av, args);
      if args == M.NIL {
        AtomStands(h, busy, NIL_VAL);
        Stay(h, busy, s, NIL_VAL, M.NIL);
        f, h1 := 1, h;
      } else {
        f, h1 := BeginMeans(p, q, g - 1, args, av, env, ew, s, live, h, busy);
        f := f + 1;
      }
    } else {
      f, h1 := FormMeans(p, q, g, e, v, env, ew, s, live, h, busy);
    }
  }

  lemma AtomMeans(p: Prims, q: M.Prims, g: nat, e: M.Val, v: int, env: M.Env, ew: int, s: M.State, live: seq<int>,
                  h: Heap, busy: set<int>) returns (f: nat, h1: Heap)
    requires Ready(p, q, h, busy, s, ew, env) && Stands(h, busy, v, e) && !M.Eval(q, g, e, env, s, live).Stuck?
    requires !e.Pair?
    ensures Agrees(h, busy, M.Eval(q, g, e, env, s, live), Eval(p, f, v, ew, h.w, live, Free), h1)
  {
    hide PrimsMean, M.Onward, Carries, Stands, EnvStands, Agrees, M.Lookup, FindBoth;
    Word(h, busy, v, e);
    f := |h.w.cells| + 2;
    if e.Atom? && M.IsVariable(e.w) {
      LookupStands(h, busy, ew, env, s, v, f);
      match M.Lookup(env, s, v)
      case Some(place) =>
        var b := FindBoth(h.w, ew, v, f).binding;
        PlaceReads(h, busy, s, b, place);
        Stay(h, busy, s, h.w.Cdr(b), s.store[place]);
        h1 := h;
      case None =>
        h1 := Reported(h, busy, s, [UNBOUND, v]);
    } else {
      Stay(h, busy, s, v, e);
      h1 := h;
    }
  }

  /** lambda and defmacro. */
  lemma CodeMeans(p: Prims, q: M.Prims, g: nat, e: M.Val, v: int, env: M.Env, ew: int, s: M.State, live: seq<int>,
                  h: Heap, busy: set<int>) returns (f: nat, h1: Heap)
    requires Ready(p, q, h, busy, s, ew, env) && Stands(h, busy, v, e) && !M.Eval(q, g, e, env, s, live).Stuck?
    requires e.Pair? && (e.car == M.Atom(LAMBDA) || e.car == M.Atom(DEFMACRO))
    ensures Agrees(h, busy, M.Eval(q, g, e, env, s, live), Eval(p, f, v, ew, h.w, live, Free), h1)
  {
    hide PrimsMean, M.Onward, Carries, Stands, EnvStands, Agrees, MakeCode, BodyOf, EnvExtend, M.BodyOf, M.Define,
         Goes;
    Word(h, busy, v, e);
    PairReads(h, busy, v, e);
    Word(h, busy, h.w.Car(v), e.car);
    var args, av := e.cdr, h.w.Cdr(v);
    PairReads(h, busy, av, args);
    Word(h, busy, h.w.Car(av), args.car);
    f := 1;
    if e.car == M.Atom(LAMBDA) {
      h1 := Lambdas(h, busy, s, false, h.w.Car(av), args.car, h.w.Cdr(av), args.cdr, ew, env);
      var body := BodyOf(h.w, h.w.Cdr(av));
      Here(h, h1, busy, s, MakeCode(body.w, ETYPE_CLOSURE, h.w.Car(av), body.v, ew).v,
           M.Closure(args.car, M.BodyOf(args.cdr).value, env));
    } else {
      var rest := h.w.Cdr(av);
      PairReads(h, busy, rest, args.cdr);
      h1 := CodeDefines(h, busy, s, true, h.w.Car(rest), args.cdr.car, h.w.Cdr(rest), args.cdr.cdr, ew, env,
                        h.w.Car(av));
      var body := BodyOf(h.w, h.w.Cdr(rest));
      var macro := M.Macro(args.cdr.car, M.BodyOf(args.cdr.cdr).value, env);
      Here(h, h1, busy, M.Define(args.car.w, macro, s), MakeCode(body.w, ETYPE_MACRO, h.w.Car(rest), body.v, ew).v,
           macro);
    }
  }

  lemma {:induction false} IfMeans(p: Prims, q: M.Prims, g: nat, args: M.Val, av: int, env: M.Env, ew: int, s: M.State,
                                   live: seq<int>, h: Heap, busy: set<int>) returns (f: nat, h1: Heap)
    requires Ready(p, q, h, busy, s, ew, env) && Stands(h, busy, av, args) && !M.If(q, g, args, env, s, live).Stuck?
    ensures Agrees(h, busy, M.If(q, g, args, env, s, live), EvalIf(p, f, av, ew, h.w, live, Free), h1)
    decreases g
  {
    hide PrimsMean, M.Onward, Carries, Stands, EnvStands, Agrees, M.Eval, Eval, Ready, Goes;
    PairReads(h, busy, av, args);
    var r := M.Eval(q, g - 1, args.car, env, s, live);
    var f1, mid := Means(p, q, g - 1, args.car, h.w.Car(av), env, ew, s, live, h, busy);
    var o := Eval(p, f1, h.w.Car(av), ew, h.w, live, Free);
    AgreesGoes(h, busy, r, o, mid);
    if r.Thrown? {
      Passes(h, busy, r, o, mid);
      return f1 + 1, mid;
    }
    Next(p, q, h, busy, r, o, mid, s, ew, env);
    ResultStands(h, busy, r, o, mid);
    Word(mid, busy, o.v, r.v);
    GoesKeeps(h, mid, busy, av, args);
    PairReads(mid, busy, av, args);
    PairReads(mid, busy, mid.w.Cdr(av), args.cdr);
    var rest, rv := args.cdr.cdr, mid.w.Cdr(mid.w.Cdr(av));
    Word(mid, busy, rv, rest);
    if r.v == M.NIL && rest == M.NIL {
      AtomStands(mid, busy, NIL_VAL);
      StayReady(p, q, mid, busy, r.s, ew, env, NIL_VAL, M.NIL);
      f, h1 := f1 + 1, mid;
      AgreesThen(h, mid, h1, busy, M.Done(M.NIL, r.s), Ok(NIL_VAL, mid.w));
    } else {
      if r.v == M.NIL {
        PairReads(mid, busy, rv, rest);
      }
      var branch := if r.v != M.NIL then args.cdr.car else rest.car;
      var bv := mid.w.Car(if r.v != M.NIL then mid.w.Cdr(av) else rv);
      var f2;
      f2, h1 := Means(p, q, g - 1, branch, bv, env, ew, r.s, live, mid, busy);
      AgreesGoes(mid, busy, M.Eval(q, g - 1, branch, env, r.s, live), Eval(p, f2, bv, ew, mid.w, live, Free), h1);
      f := Max(f1, f2) + 1;
      EvalMore(p, f1, f - 1, h.w.Car(av), ew, h.w, live, Free);
      EvalMore(p, f2, f - 1, bv, ew, mid.w, live, Free);
      AgreesThen(h, mid, h1, busy, M.Eval(q, g - 1, branch, env, r.s, live), Eval(p, f - 1, bv, ew, mid.w, live, Free));
    }
  }

  lemma ResultStands(h: Heap, busy: set<int>, r: M.Result, o: Outcome, h1: Heap)
    requires Agrees(h, busy, r, o, h1) && r.Done?
    ensures Stands(h1, busy, o.v, r.v) && Carries(h1, busy, r.s)
  {
  }

  lemma StayReady(p: Prims, q: M.Prims, h: Heap, busy: set<int>, s: M.State, ew: int, env: M.Env, v: int, x: M.Val)
    requires Ready(p, q, h, busy, s, ew, env) && Stands(h, busy, v, x)
    ensures Agrees(h, busy, M.Done(x, s), Ok(v, h.w), h)
  {
    Stay(h, busy, s, v, x);
  }

  lemma {:induction false} BeginMeans(p: Prims, q: M.Prims, g: nat, forms: M.Val, fv: int, env: M.Env, ew: int,
                                      s: M.State, live: seq<int>, h: Heap, busy: set<int>) returns (f: nat, h1: Heap)
    requires Ready(p, q, h, busy, s, ew, env) && Stands(h, busy, fv, forms)
    requires !M.Begin(q, g, forms, env, s, live).Stuck?
    ensures Agrees(h, busy, M.Begin(q, g, forms, env, s, live), EvalBegin(p, f, fv, ew, h.w, live, Free), h1)
    decreases g
  {
    hide PrimsMean, M.Onward, Carries, Stands, EnvStands, Agrees, M.Eval, Eval, Ready, Goes;
    PairReads(h, busy, fv, forms);
    Word(h, busy, h.w.Cdr(fv), forms.cdr);
    var r := M.Eval(q, g - 1, forms.car, env, s, live);
    var f1, mid := Means(p, q, g - 1, forms.car, h.w.Car(fv), env, ew, s, live, h, busy);
    if forms.cdr == M.NIL {
      return f1 + 1, mid;
    }
    var o := Eval(p, f1, h.w.Car(fv), ew, h.w, live, Free);
    AgreesGoes(h, busy, r, o, mid);
    if r.Thrown? {
      Passes(h, busy, r, o, mid);
      return f1 + 1, mid;
    }
    Next(p, q, h, busy, r, o, mid, s, ew, env);
    GoesKeeps(h, mid, busy, fv, forms);
    PairReads(mid, busy, fv, forms);
    var f2;
    f2, h1 := BeginMeans(p, q, g - 1, forms.cdr, mid.w.Cdr(fv), env, ew, r.s, live, mid, busy);
    var r2 := M.Begin(q, g - 1, forms.cdr, env, r.s, live);
    AgreesGoes(mid, busy, r2, EvalBegin(p, f2, mid.w.Cdr(fv), ew, mid.w, live, Free), h1);
    f := Max(f1, f2) + 1;
    EvalMore(p, f1, f - 1, h.w.Car(fv), ew, h.w, live, Free);
    EvalBeginMore(p, f2, f - 1, mid.w.Cdr(fv), ew, mid.w, live, Free);
    AgreesThen(h, mid, h1, busy, r2, EvalBegin(p, f - 1, mid.w.Cdr(fv), ew, mid.w, live, Free));
  }

  lemma {:induction false} DefineMeans(p: Prims, q: M.Prims, g: nat, args: M.Val, av: int, env: M.Env, ew: int,
                                       s: M.State, live: seq<int>, h: Heap, busy: set<int>) returns (f: nat, h1: Heap)
    requires Ready(p, q, h, busy, s, ew, env) && Stands(h, busy, av, args)
    requires !M.DefineForm(q, g, args, env, s, live).Stuck?
    ensures Agrees(h, busy, M.DefineForm(q, g, args, env, s, live), EvalDefine(p, f, av, ew, h.w, live, Free), h1)
    decreases g
  {
    hide PrimsMean, M.Onward, Carries, Stands, EnvStands, Agrees, M.Eval, Eval, Goes, MakeCode, BodyOf, EnvExtend,
         M.BodyOf, M.Define;
    PairReads(h, busy, av, args);
    Word(h, busy, h.w.Car(av), args.car);
    if args.car.Pair? {
      var first := h.w.Car(av);
      PairReads(h, busy, first, args.car);
      Word(h, busy, h.w.Car(first), args.car.car);
      h1 := CodeDefines(h, busy, s, false, h.w.Cdr(first), args.car.cdr, h.w.Cdr(av), args.cdr, ew, env,
                        h.w.Car(first));
      var body := BodyOf(h.w, h.w.Cdr(av));
      var fn := M.Closure(args.car.cdr, M.BodyOf(args.cdr).value, env);
      Here(h, h1, busy, M.Define(args.car.car.w, fn, s),
           MakeCode(body.w, ETYPE_CLOSURE, h.w.Cdr(first), body.v, ew).v, fn);
      f := 1;
    } else {
      PairReads(h, busy, h.w.Cdr(av), args.cdr);
      var ev := h.w.Car(h.w.Cdr(av));
      var r := M.Eval(q, g - 1, args.cdr.car, env, s, live);
      var f1, mid := Means(p, q, g - 1, args.cdr.car, ev, env, ew, s, live, h, busy);
      var o := Eval(p, f1, ev, ew, h.w, live, Free);
      AgreesGoes(h, busy, r, o, mid);
      f := f1 + 1;
      if r.Thrown? {
        Passes(h, busy, r, o, mid);
        h1 := mid;
      } else {
        ResultStands(h, busy, r, o, mid);
        OutcomeWorld(h, busy, r, o, mid);
        h1 := DefinedResult(mid, busy, r.s, args.car.w, o.v, r.v);
        AgreesThen(h, mid, h1, busy, M.Done(r.v, M.Define(args.car.w, r.v, r.s)), Ok(o.v, h1.w));
      }
    }
  }

  lemma OutcomeWorld(h: Heap, busy: set<int>, r: M.Result, o: Outcome, h1: Heap)
    requires Agrees(h, busy, r, o, h1)
    ensures !o.Out? && o.w == h1.w
  {
  }

  lemma DefinedResult(h: Heap, busy: set<int>, s: M.State, sym: int, v: int, x: M.Val) returns (h1: Heap)
    requires Carries(h, busy, s) && Stands(h, busy, v, x) && IsSymbol(sym) && sym != NIL_VAL
    ensures var made := EnvExtend(h.w, sym, v, h.w.globalEnv);
      && h1.w == made.w.SetGlobal(made.v)
      && Agrees(h, busy, M.Done(x, M.Define(sym, x, s)), Ok(v, h1.w), h1)
  {
    hide Carries, Stands, EnvExtend, Goes;
    h1 := Defines(h, busy, s, sym, v, x);
    GoesKeeps(h, h1, busy, v, x);
  }

  lemma {:induction false} SetMeans(p: Prims, q: M.Prims, g: nat, args: M.Val, av: int, env: M.Env, ew: int,
                                    s: M.State, live: seq<int>, h: Heap, busy: set<int>) returns (f: nat, h1: Heap)
    requires Ready(p, q, h, busy, s, ew, env) && Stands(h, busy, av, args) && !M.Set(q, g, args, env, s, live).Stuck?
    ensures Agrees(h, busy, M.Set(q, g, args, env, s, live), EvalSet(p, f, av, ew, h.w, live, Free), h1)
    decreases g
  {
    hide PrimsMean, M.Onward, Carries, Stands, EnvStands, Agrees, M.Eval, Eval, Goes, FindBoth, M.Lookup, Ready;
    PairReads(h, busy, av, args);
    Word(h, busy, h.w.Car(av), args.car);
    PairReads(h, busy, h.w.Cdr(av), args.cdr);
    var ev := h.w.Car(h.w.Cdr(av));
    var r := M.Eval(q, g - 1, args.cdr.car, env, s, live);
    var f1, mid := Means(p, q, g - 1, args.cdr.car, ev, env, ew, s, live, h, busy);
    var o := Eval(p, f1, ev, ew, h.w, live, Free);
    AgreesGoes(h, busy, r, o, mid);
    if r.Thrown? {
      Passes(h, busy, r, o, mid);
      f, h1 := f1 + 1, mid;
    } else {
      Next(p, q, h, busy, r, o, mid, s, ew, env);
      ResultStands(h, busy, r, o, mid);
      f := Max(f1 + 1, |mid.w.cells| + 2);
      EvalMore(p, f1, f - 1, ev, ew, h.w, live, Free);
      h1 := SetResult(p, q, mid, busy, r.s, ew, env, args.car.w, o.v, r.v, f);
      AgreesThen(h, mid, h1, busy, Assigned(env, r.s, args.car.w, r.v),
                 AssignedOut(mid.w, ew, args.car.w, o.v, f));
    }
  }

  function AssignedOut(w: World, ew: int, sym: int, v: int, f: nat): Outcome {
    match FindBoth(w, ew, sym, f)
    case Found(b) => Ok(v, w.SetCdr(b, v))
    case _ => Ok(NIL_VAL, w.Print([SET_UNBOUND, sym]))
  }

  /** What an assignment comes to. */
  function Assigned(env: M.Env, s: M.State, sym: int, x: M.Val): M.Result {
    match M.Lookup(env, s, sym)
    case Some(place) => if place < |s.store| then M.Done(x, s.(store := s.store[place := x])) else M.Stuck
    case None => M.Done(M.NIL, s.Print([SET_UNBOUND, sym]))
  }

  lemma SetResult(p: Prims, q: M.Prims, h: Heap, busy: set<int>, s: M.State, ew: int, env: M.Env, sym: int, v: int,
                  x: M.Val, f: nat) returns (h1: Heap)
    requires Ready(p, q, h, busy, s, ew, env) && Stands(h, busy, v, x) && sym != NIL_VAL && f >= |h.w.cells| + 2
    ensures !FindBoth(h.w, ew, sym, f).Lost?
    ensures Agrees(h, busy, Assigned(env, s, sym, x), AssignedOut(h.w, ew, sym, v, f), h1)
  {
    hide PrimsMean, M.Onward, Carries, Stands, EnvStands, Goes, FindBoth, M.Lookup;
    LookupStands(h, busy, ew, env, s, sym, f);
    match M.Lookup(env, s, sym)
    case Some(place) => h1 := Assigns(h, busy, s, FindBoth(h.w, ew, sym, f).binding, place, v, x);
    case None => h1 := Reported(h, busy, s, [SET_UNBOUND, sym]);
  }

  lemma {:induction false} CatchMeans(p: Prims, q: M.Prims, g: nat, args: M.Val, av: int, env: M.Env, ew: int,
                                      s: M.State, live: seq<int>, h: Heap, busy: set<int>) returns (f: nat, h1: Heap)
    requires Ready(p, q, h, busy, s, ew, env) && Stands(h, busy, av, args) && !M.Catch(q, g, args, env, s, live).Stuck?
    ensures Agrees(h, busy, M.Catch(q, g, args, env, s, live), EvalCatch(p, f, av, ew, h.w, live, Free), h1)
    decreases g
  {
    hide PrimsMean, M.Onward, Carries, Stands, EnvStands, Agrees, M.Eval, Eval, Goes, Ready;
    PairReads(h, busy, av, args);
    var r := M.Eval(q, g - 1, args.car, env, s, live);
    var f1, mid := Means(p, q, g - 1, args.car, h.w.Car(av), env, ew, s, live, h, busy);
    var o := Eval(p, f1, h.w.Car(av), ew, h.w, live, Free);
    AgreesGoes(h, busy, r, o, mid);
    if r.Thrown? {
      Passes(h, busy, r, o, mid);
      return f1 + 1, mid;
    }
    Next(p, q, h, busy, r, o, mid, s, ew, env);
    ResultStands(h, busy, r, o, mid);
    Word(mid, busy, o.v, r.v);
    if |live| >= MAX_CATCH_DEPTH {
      h1 := Reported(mid, busy, r.s, [CATCH_OVERFLOW]);
      f := f1 + 1;
      AgreesThen(h, mid, h1, busy, M.Done(M.NIL, r.s.Print([CATCH_OVERFLOW])),
                 Ok(NIL_VAL, mid.w.Print([CATCH_OVERFLOW])));
    } else {
      GoesKeeps(h, mid, busy, av, args);
      PairReads(mid, busy, av, args);
      PairReads(mid, busy, mid.w.Cdr(av), args.cdr);
      var bv, inner := mid.w.Car(mid.w.Cdr(av)), live + [o.v];
      var r2 := M.Eval(q, g - 1, args.cdr.car, env, r.s, inner);
      var f2;
      f2, h1 := Means(p, q, g - 1, args.cdr.car, bv, env, ew, r.s, inner, mid, busy);
      var o2 := Eval(p, f2, bv, ew, mid.w, inner, Free);
      AgreesGoes(mid, busy, r2, o2, h1);
      f := Max(f1, f2) + 1;
      EvalMore(p, f1, f - 1, h.w.Car(av), ew, h.w, live, Free);
      EvalMore(p, f2, f - 1, bv, ew, mid.w, inner, Free);
      CaughtMeans(mid, busy, r2, o2, h1, o.v);
      AgreesThen(h, mid, h1, busy, Caught(r2, o.v), CaughtOut(o2, o.v));
    }
  }

  function Caught(r: M.Result, tag: int): M.Result {
    match r
    case Thrown(t, v, s) => if t == tag then M.Done(v, s) else M.Thrown(t, v, s)
    case other => other
  }

  function CaughtOut(o: Outcome, tag: int): Outcome {
    match o
    case Raise(t, v, w, _) => if t == tag then Ok(v, w) else Raise(t, v, w, NIL_VAL)
    case other => other
  }

  lemma CaughtMeans(h: Heap, busy: set<int>, r: M.Result, o: Outcome, h1: Heap, tag: int)
    requires Agrees(h, busy, r, o, h1)
    ensures Agrees(h, busy, Caught(r, tag), CaughtOut(o, tag), h1)
  {
    hide Goes, Carries, Stands;
  }

  // Calls

  /** A form that is a call. */
  lemma {:induction false} FormMeans(p: Prims, q: M.Prims, g: nat, e: M.Val, v: int, env: M.Env, ew: int, s: M.State,
                                     live: seq<int>, h: Heap, busy: set<int>) returns (f: nat, h1: Heap)
    requires Ready(p, q, h, busy, s, ew, env) && Stands(h, busy, v, e) && !M.Eval(q, g, e, env, s, live).Stuck?
    requires e.Pair? && forall w :: w in [QUOTE, QUASIQUOTE, IF, DEFINE, SET, LAMBDA, DEFMACRO, CATCH, BEGIN] ==>
               e.car != M.Atom(w)
    ensures Agrees(h, busy, M.Eval(q, g, e, env, s, live), Eval(p, f, v, ew, h.w, live, Free), h1)
    decreases g, 0
  {
    hide PrimsMean, M.Onward, Carries, Stands, EnvStands, Agrees, Goes, Ready, M.Call, EvalCall, M.Eval, Eval;
    PairReads(h, busy, v, e);
    Word(h, busy, v, e);
    var hv, av := h.w.Car(v), h.w.Cdr(v);
    Word(h, busy, hv, e.car);
    CallUnfolds(q, g, e, env, s, live);
    var r := M.Eval(q, g - 1, e.car, env, s, live);
    var f1, mid := Means(p, q, g - 1, e.car, hv, env, ew, s, live, h, busy);
    var o := Eval(p, f1, hv, ew, h.w, live, Free);
    AgreesGoes(h, busy, r, o, mid);
    if r.Thrown? {
      Passes(h, busy, r, o, mid);
      FormUnfolds(p, f1 + 1, v, ew, h.w, live);
      return f1 + 1, mid;
    }
    Next(p, q, h, busy, r, o, mid, s, ew, env);
    ResultStands(h, busy, r, o, mid);
    GoesKeeps(h, mid, busy, av, e.cdr);
    var f2;
    f2, h1 := CallMeans(p, q, g - 1, r.v, o.v, e.cdr, av, env, ew, r.s, live, mid, busy);
    var r2 := M.Call(q, g - 1, r.v, e.cdr, env, r.s, live);
    AgreesGoes(mid, busy, r2, EvalCall(p, f2, o.v, av, ew, mid.w, live), h1);
    f := Max(f1, f2) + 1;
    EvalMore(p, f1, f - 1, hv, ew, h.w, live, Free);
    EvalCallMore(p, f2, f - 1, o.v, av, ew, mid.w, live);
    FormUnfolds(p, f, v, ew, h.w, live);
    AgreesThen(h, mid, h1, busy, r2, EvalCall(p, f - 1, o.v, av, ew, mid.w, live));
  }

  lemma CallUnfolds(q: M.Prims, g: nat, e: M.Val, env: M.Env, s: M.State, live: seq<int>)
    requires e.Pair? && forall w :: w in [QUOTE, QUASIQUOTE, IF, DEFINE, SET, LAMBDA, DEFMACRO, CATCH, BEGIN] ==>
               e.car != M.Atom(w)
    ensures M.Eval(q, g, e, env, s, live)
         == if g == 0 then M.Stuck
            else match M.Eval(q, g - 1, e.car, env, s, live)
                 case Done(fn, s1) => M.Call(q, g - 1, fn, e.cdr, env, s1, live)
                 case other => other
  {
    hide M.Call, M.If, M.DefineForm, M.Set, M.Catch, M.Begin, M.Quasi;
  }

  lemma FormUnfolds(p: Prims, f: nat, v: int, ew: int, w: World, live: seq<int>)
    requires f > 0 && IsCons(v)
    requires w.Car(v) !in [QUOTE, QUASIQUOTE, IF, DEFINE, SET, LAMBDA, DEFMACRO, CATCH, BEGIN]
    ensures Eval(p, f, v, ew, w, live, Free)
         == match Eval(p, f - 1, w.Car(v), ew, w, live, Free)
            case Ok(fn, w1) => EvalCall(p, f - 1, fn, w.Cdr(v), ew, w1, live)
            case other => Stop(other)
  {
    hide EvalCall, EvalIf, EvalDefine, EvalSet, EvalCatch, EvalBegin, EvalQuasi, MakeCode, BodyOf, EnvExtend;
  }

  /** The body of a closure or macro, with its parameters bound. */
  lemma {:induction false} BodyMeans(p: Prims, q: M.Prims, g: nat, fn: M.Val, fv: int, list: M.Val, lv: int,
                                     s: M.State, live: seq<int>, h: Heap, busy: set<int>) returns (f: nat, h1: Heap)
    requires PrimsMean(p, q) && Carries(h, busy, s) && (fn.Closure? || fn.Macro?)
    requires Stands(h, busy, fv, fn) && Stands(h, busy, lv, list) && M.Bind(fn.params, list, fn.env, s).Scope?
    requires var scope := M.Bind(fn.params, list, fn.env, s);
      !M.Eval(q, g, fn.body, scope.env, scope.s, live).Stuck?
    ensures var b := EnvBind(h.w, CodeParams(h.w, fv), lv, CodeEnv(h.w, fv), f);
      var scope := M.Bind(fn.params, list, fn.env, s);
      && f > 0 && b.Bound? && CodeBody(b.w, fv) == CodeBody(h.w, fv)
      && Agrees(h, busy, M.Eval(q, g, fn.body, scope.env, scope.s, live),
                Eval(p, f - 1, CodeBody(h.w, fv), b.env, b.w, live, Free), h1)
    decreases g, 2
  {
    hide PrimsMean, M.Onward, Carries, Stands, EnvStands, Agrees, Goes, M.Eval, Eval, EnvBind, M.Bind, CodeParams,
         CodeBody, CodeEnv, CodeStands;
    CodeParts(h, busy, fv, fn);
    var scope := M.Bind(fn.params, list, fn.env, s);
    var fb, mid := Binds(h, busy, s, CodeParams(h.w, fv), fn.params, lv, list, CodeEnv(h.w, fv), fn.env);
    var b := EnvBind(h.w, CodeParams(h.w, fv), lv, CodeEnv(h.w, fv), fb);
    CodeStays(h, mid, busy, fv, fn);
    GoesKeeps(h, mid, busy, CodeBody(h.w, fv), fn.body);
    var fe;
    fe, h1 := Means(p, q, g, fn.body, CodeBody(h.w, fv), scope.env, b.env, scope.s, live, mid, busy);
    var r := M.Eval(q, g, fn.body, scope.env, scope.s, live);
    AgreesGoes(mid, busy, r, Eval(p, fe, CodeBody(h.w, fv), b.env, b.w, live, Free), h1);
    f := Max(fb, fe) + 1;
    EnvBindMore(h.w, CodeParams(h.w, fv), lv, CodeEnv(h.w, fv), fb, f);
    EvalMore(p, fe, f - 1, CodeBody(h.w, fv), b.env, b.w, live, Free);
    AgreesThen(h, mid, h1, busy, r, Eval(p, f - 1, CodeBody(h.w, fv), b.env, b.w, live, Free));
  }

  lemma CodeParts(h: Heap, busy: set<int>, v: int, fn: M.Val)
    requires Stands(h, busy, v, fn) && (fn.Closure? || fn.Macro?)
    ensures Stands(h, busy, CodeParams(h.w, v), fn.params) && Stands(h, busy, CodeBody(h.w, v), fn.body)
    ensures EnvStands(h, CodeEnv(h.w, v), fn.env) && CodeStands(h, v, fn.env)
  {
  }

  lemma CodeStays(h: Heap, h1: Heap, busy: set<int>, v: int, fn: M.Val)
    requires Stands(h, busy, v, fn) && (fn.Closure? || fn.Macro?) && Goes(h, h1, busy)
    ensures CodeBody(h1.w, v) == CodeBody(h.w, v)
  {
    hide EnvStands, Grown;
    CodeParts(h, busy, v, fn);
    CodeKept(h, h1, busy, v, fn.env);
  }

  lemma {:induction false} CallMeans(p: Prims, q: M.Prims, g: nat, fn: M.Val, fv: int, args: M.Val, av: int, env: M.Env,
                                     ew: int, s: M.State, live: seq<int>, h: Heap, busy: set<int>)
      returns (f: nat, h1: Heap)
    requires Ready(p, q, h, busy, s, ew, env) && Stands(h, busy, fv, fn) && Stands(h, busy, av, args)
    requires !M.Call(q, g, fn, args, env, s, live).Stuck?
    ensures Agrees(h, busy, M.Call(q, g, fn, args, env, s, live), EvalCall(p, f, fv, av, ew, h.w, live), h1)
    decreases g
  {
    hide PrimsMean, M.Onward, Carries, Stands, EnvStands, Agrees, Goes, M.Eval, Eval, M.Apply, Apply, M.Args, EvalArgs,
         EnvBind, M.Bind, CodeParams, CodeBody, CodeEnv;
    CodeWord(h, busy, fv, fn) by { CarriesTyped(h, busy, s); }
    if fn.Macro? {
      f, h1 := MacroMeans(p, q, g, fn, fv, args, av, env, ew, s, live, h, busy);
      return;
    }
    var r := M.Args(q, g - 1, args, env, s, live);
    var f1, mid := ArgsMeans(p, q, g - 1, args, av, env, ew, s, live, h, busy);
    var o := EvalArgs(p, f1, av, ew, h.w, live);
    AgreesGoes(h, busy, r, o, mid);
    if r.Thrown? {
      Passes(h, busy, r, o, mid);
      return f1 + 1, mid;
    }
    Next(p, q, h, busy, r, o, mid, s, ew, env);
    ResultStands(h, busy, r, o, mid);
    GoesKeeps(h, mid, busy, fv, fn);
    CodeWord(mid, busy, fv, fn) by { CarriesTyped(mid, busy, r.s); }
    if fn.Closure? {
      f, h1 := ClosureMeans(p, q, g - 1, fn, fv, r.v, o.v, r.s, live, mid, busy);
      var f2 := f;
      f := Max(f1 + 1, f2);
      EvalArgsMore(p, f1, f - 1, av, ew, h.w, live);
      var b := EnvBind(mid.w, CodeParams(mid.w, fv), o.v, CodeEnv(mid.w, fv), f2);
      EnvBindMore(mid.w, CodeParams(mid.w, fv), o.v, CodeEnv(mid.w, fv), f2, f);
      AgreesGoes(mid, busy, M.Apply(q, g - 1, fn, r.v, r.s, live),
                 Eval(p, f2 - 1, CodeBody(mid.w, fv), b.env, b.w, live, Free), h1);
      EvalMore(p, f2 - 1, f - 1, CodeBody(mid.w, fv), b.env, b.w, live, Free);
      AgreesThen(h, mid, h1, busy, M.Apply(q, g - 1, fn, r.v, r.s, live),
                 Eval(p, f - 1, CodeBody(mid.w, fv), b.env, b.w, live, Free));
    } else {
      var f2;
      f2, h1 := ApplyMeans(p, q, g - 1, fn, fv, r.v, o.v, r.s, live, mid, busy);
      AgreesGoes(mid, busy, M.Apply(q, g - 1, fn, r.v, r.s, live), Apply(p, f2, fv, o.v, mid.w, live), h1);
      f := Max(f1, f2) + 1;
      EvalArgsMore(p, f1, f - 1, av, ew, h.w, live);
      ApplyMore(p, f2, f - 1, fv, o.v, mid.w, live);
      AgreesThen(h, mid, h1, busy, M.Apply(q, g - 1, fn, r.v, r.s, live), Apply(p, f - 1, fv, o.v, mid.w, live));
    }
  }

  lemma CarriesTyped(h: Heap, busy: set<int>, s: M.State)
    requires Carries(h, busy, s)
    ensures Typed(h.k, h.w)
  {
  }

  /** A closure applied, as the code of calls and of apply does it. */
  lemma {:induction false} ClosureMeans(p: Prims, q: M.Prims, g: nat, fn: M.Val, fv: int, list: M.Val, lv: int,
                                        s: M.State, live: seq<int>, h: Heap, busy: set<int>)
      returns (f: nat, h1: Heap)
    requires PrimsMean(p, q) && Carries(h, busy, s) && fn.Closure?
    requires Stands(h, busy, fv, fn) && Stands(h, busy, lv, list) && !M.Apply(q, g, fn, list, s, live).Stuck?
    ensures var b := EnvBind(h.w, CodeParams(h.w, fv), lv, CodeEnv(h.w, fv), f);
      && f > 0 && b.Bound? && CodeBody(b.w, fv) == CodeBody(h.w, fv)
      && Agrees(h, busy, M.Apply(q, g, fn, list, s, live),
                Eval(p, f - 1, CodeBody(h.w, fv), b.env, b.w, live, Free), h1)
    decreases g, 0
  {
    hide PrimsMean, M.Onward, Carries, Stands, Agrees, M.Eval, Eval, EnvBind, M.Bind, CodeParams, CodeBody, CodeEnv;
    f, h1 := BodyMeans(p, q, g - 1, fn, fv, list, lv, s, live, h, busy);
  }

  lemma {:induction false} MacroMeans(p: Prims, q: M.Prims, g: nat, fn: M.Val, fv: int, args: M.Val, av: int,
                                      env: M.Env, ew: int, s: M.State, live: seq<int>, h: Heap, busy: set<int>)
      returns (f: nat, h1: Heap)
    requires Ready(p, q, h, busy, s, ew, env) && Stands(h, busy, fv, fn) && Stands(h, busy, av, args) && fn.Macro?
    requires !M.Call(q, g, fn, args, env, s, live).Stuck? && IsCode(h.w, fv, ETYPE_MACRO)
    ensures Agrees(h, busy, M.Call(q, g, fn, args, env, s, live), EvalCall(p, f, fv, av, ew, h.w, live), h1)
    decreases g, 0
  {
    hide PrimsMean, M.Onward, Carries, Stands, EnvStands, Agrees, Goes, M.Eval, Eval, EnvBind, M.Bind, CodeParams,
         CodeBody, CodeEnv;
    var scope := M.Bind(fn.params, args, fn.env, s);
    var r := M.Eval(q, g - 1, fn.body, scope.env, scope.s, live);
    var f1, mid := BodyMeans(p, q, g - 1, fn, fv, args, av, s, live, h, busy);
    var b := EnvBind(h.w, CodeParams(h.w, fv), av, CodeEnv(h.w, fv), f1);
    var o := Eval(p, f1 - 1, CodeBody(h.w, fv), b.env, b.w, live, Free);
    AgreesGoes(h, busy, r, o, mid);
    if r.Thrown? {
      Passes(h, busy, r, o, mid);
      return f1, mid;
    }
    Next(p, q, h, busy, r, o, mid, s, ew, env);
    ResultStands(h, busy, r, o, mid);
    var r2 := M.Eval(q, g - 1, r.v, env, r.s, live);
    var f2;
    f2, h1 := Means(p, q, g - 1, r.v, o.v, env, ew, r.s, live, mid, busy);
    AgreesGoes(mid, busy, r2, Eval(p, f2, o.v, ew, mid.w, live, Free), h1);
    f := Max(f1, f2 + 1);
    EnvBindMore(h.w, CodeParams(h.w, fv), av, CodeEnv(h.w, fv), f1, f);
    EvalMore(p, f1 - 1, f - 1, CodeBody(h.w, fv), b.env, b.w, live, Free);
    EvalMore(p, f2, f - 1, o.v, ew, mid.w, live, Free);
    AgreesThen(h, mid, h1, busy, r2, Eval(p, f - 1, o.v, ew, mid.w, live, Free));
  }

  lemma {:induction false} ApplyMeans(p: Prims, q: M.Prims, g: nat, fn: M.Val, fv: int, list: M.Val, lv: int,
                                      s: M.State, live: seq<int>, h: Heap, busy: set<int>) returns (f: nat, h1: Heap)
    requires PrimsMean(p, q) && Carries(h, busy, s)
    requires Stands(h, busy, fv, fn) && Stands(h, busy, lv, list) && !M.Apply(q, g, fn, list, s, live).Stuck?
    ensures Agrees(h, busy, M.Apply(q, g, fn, list, s, live), Apply(p, f, fv, lv, h.w, live), h1)
    decreases g, 1
  {
    hide PrimsMean, M.Onward, Carries, Stands, Agrees, M.Eval, Eval, EnvBind, M.Bind, CodeParams, CodeBody, CodeEnv,
         M.ApplyPrim, ApplyPrim;
    CodeWord(h, busy, fv, fn) by { CarriesTyped(h, busy, s); }
    if fn.Closure? {
      f, h1 := ClosureMeans(p, q, g, fn, fv, list, lv, s, live, h, busy);
    } else if fn.Primitive? {
      PrimIs(h, busy, fv, fn);
      f, h1 := ApplyPrimMeans(p, q, g - 1, fn.id, list, lv, s, live, h, busy);
      f := f + 1;
    } else {
      h1 := Reported(h, busy, s, [NOT_FN]);
      f := 1;
    }
  }

  lemma PrimIs(h: Heap, busy: set<int>, v: int, fn: M.Val)
    requires Stands(h, busy, v, fn) && fn.Primitive?
    ensures h.w.Cdr(v) / 4 == fn.id
  {
  }

  lemma FirstsStand(h: Heap, busy: set<int>, lv: int, list: M.Val)
    requires Stands(h, busy, lv, list) && M.TwoOf(list)
    ensures Stands(h, busy, FirstArg(h.w, lv), M.First(list)) && Stands(h, busy, SecondArg(h.w, lv), M.Second(list))
  {
    hide Stands;
    Word(h, busy, lv, list);
    AtomStands(h, busy, NIL_VAL);
    if list.Pair? {
      PairReads(h, busy, lv, list);
      Word(h, busy, h.w.Cdr(lv), list.cdr);
      if list.cdr.Pair? {
        PairReads(h, busy, h.w.Cdr(lv), list.cdr);
      }
    }
  }

  lemma {:induction false} ApplyPrimMeans(p: Prims, q: M.Prims, g: nat, id: int, list: M.Val, lv: int, s: M.State,
                                          live: seq<int>, h: Heap, busy: set<int>) returns (f: nat, h1: Heap)
    requires PrimsMean(p, q) && Carries(h, busy, s) && Stands(h, busy, lv, list)
    requires !M.ApplyPrim(q, g, id, list, s, live).Stuck?
    ensures Agrees(h, busy, M.ApplyPrim(q, g, id, list, s, live), ApplyPrim(p, f, id, lv, h.w, live), h1)
    decreases g
  {
    hide PrimsMean, M.Onward, Carries, Stands, EnvStands, M.Eval, Eval, M.Apply, Apply, M.Expand, MacExpand, Goes;
    FirstsStand(h, busy, lv, list);
    var a, b := M.First(list), M.Second(list);
    var av, bv := FirstArg(h.w, lv), SecondArg(h.w, lv);
    Word(h, busy, av, a);
    f, h1 := 1, h;
    if id == PRIM_THROW {
      if a.w in live {
        GoesNowhere(h, busy, s);
      } else {
        h1 := Reported(h, busy, s, [NO_CATCH, a.w]);
      }
    } else if id == PRIM_APPLY {
      f, h1 := ApplyMeans(p, q, g - 1, a, av, b, bv, s, live, h, busy);
      f := f + 1;
    } else if id == PRIM_EVAL {
      CarriesGlobal(h, busy, s);
      f, h1 := Means(p, q, g - 1, a, av, s.global, h.w.globalEnv, s, live, h, busy);
      f := f + 1;
    } else if id == PRIM_MACEXPAND {
      f, h1 := ExpandMeans(p, q, g - 1, a, av, s, live, h, busy);
      f := f + 1;
    } else {
      h1 := OtherPrimMeans(p, q, id, list, lv, s, h, busy);
    }
  }

  lemma CarriesGlobal(h: Heap, busy: set<int>, s: M.State)
    requires Carries(h, busy, s)
    ensures EnvStands(h, h.w.globalEnv, s.global)
  {
  }

  lemma OtherPrimMeans(p: Prims, q: M.Prims, id: int, list: M.Val, lv: int, s: M.State, h: Heap, busy: set<int>)
      returns (h1: Heap)
    requires PrimsMean(p, q) && Carries(h, busy, s) && Stands(h, busy, lv, list) && q(id, list).Some?
    ensures var made := p(id, lv, h.w); var r := q(id, list).value;
      Agrees(h, busy, M.Done(r.0, s.Print(r.1)), Ok(made.v, made.w), h1)
  {
    hide Stands, EnvStands, CellOk;
    assert PrimMeans(p, q, id, lv, list, h, busy, s);
    var made, r := p(id, lv, h.w), q(id, list).value;
    var k1 :| Yields(h, busy, made, k1, r.0, r.1);
    var mid := Heap(k1, World(made.w.cells, h.w.globalEnv, h.w.output), h.locs);
    NewQuiet(h, k1, mid.w, busy);
    StillCarries(h, mid, busy, s);
    h1 := Prints(mid, busy, s, r.1);
    QuietGoes(h, mid, busy);
    GoesThen(h, mid, h1, busy);
    assert h1.w == made.w;
  }

  lemma {:induction false} ExpandMeans(p: Prims, q: M.Prims, g: nat, form: M.Val, v: int, s: M.State, live: seq<int>,
                                       h: Heap, busy: set<int>) returns (f: nat, h1: Heap)
    requires PrimsMean(p, q) && Carries(h, busy, s) && Stands(h, busy, v, form)
    requires !M.Expand(q, g, form, s, live).Stuck?
    ensures Agrees(h, busy, M.Expand(q, g, form, s, live), MacExpand(p, f, v, h.w, live), h1)
    decreases g
  {
    hide PrimsMean, M.Onward, Carries, Stands, EnvStands, M.Eval, Eval, Agrees, EnvBind, M.Bind, CodeParams, CodeBody,
         CodeEnv, Find, M.Find;
    Word(h, busy, v, form);
    Stay(h, busy, s, v, form);
    f, h1 := |h.w.cells| + 2, h;
    if form.Pair? {
      PairReads(h, busy, v, form);
      Word(h, busy, h.w.Car(v), form.car);
      var sym := h.w.Car(v);
      if form.car.Atom? && IsSymbol(sym) {
        CarriesGlobal(h, busy, s);
        EnvBound(h, h.w.globalEnv, s.global);
        FindStands(h, h.w.globalEnv, s.global, sym, f);
        if M.Find(s.global, sym).Some? {
          var place := M.Find(s.global, sym).value;
          var b := Find(h.w, h.w.globalEnv, sym, f).binding;
          PlaceReads(h, busy, s, b, place);
          CodeWord(h, busy, h.w.Cdr(b), s.store[place]) by { CarriesTyped(h, busy, s); }
          if s.store[place].Macro? {
            var fn, fv := s.store[place], h.w.Cdr(b);
            var f1;
            f1, h1 := BodyMeans(p, q, g - 1, fn, fv, form.cdr, h.w.Cdr(v), s, live, h, busy);
            var x := EnvBind(h.w, CodeParams(h.w, fv), h.w.Cdr(v), CodeEnv(h.w, fv), f1);
            var scope := M.Bind(fn.params, form.cdr, fn.env, s);
            AgreesGoes(h, busy, M.Eval(q, g - 1, fn.body, scope.env, scope.s, live),
                       Eval(p, f1 - 1, CodeBody(h.w, fv), x.env, x.w, live, Free), h1);
            var f2 := Max(f, f1);
            FindMore(h.w, h.w.globalEnv, sym, f, f2);
            EnvBindMore(h.w, CodeParams(h.w, fv), h.w.Cdr(v), CodeEnv(h.w, fv), f1, f2);
            EvalMore(p, f1 - 1, f2 - 1, CodeBody(h.w, fv), x.env, x.w, live, Free);
            f := f2;
          }
        }
      }
    }
  }

  // Lists of values

  lemma {:induction false} ListOfLast(xs: seq<M.Val>, x: M.Val, end: M.Val)
    ensures M.ListOf(xs + [x], end) == M.ListOf(xs, M.Pair(x, end))
    decreases |xs|
  {
    if xs == [] {
      assert (xs + [x])[1..] == [];
    } else {
      assert (xs + [x])[1..] == xs[1..] + [x];
      ListOfLast(xs[1..], x, end);
    }
  }

  lemma {:induction false} ArgsMeans(p: Prims, q: M.Prims, g: nat, args: M.Val, av: int, env: M.Env, ew: int,
                                     s: M.State, live: seq<int>, h: Heap, busy: set<int>) returns (f: nat, h1: Heap)
    requires Ready(p, q, h, busy, s, ew, env) && Stands(h, busy, av, args) && !M.Args(q, g, args, env, s, live).Stuck?
    ensures Agrees(h, busy, M.Args(q, g, args, env, s, live), EvalArgs(p, f, av, ew, h.w, live), h1)
    decreases g
  {
    hide PrimsMean, M.Onward, Carries, Stands, EnvStands, Agrees, M.Eval, Eval, Goes, Ready, EvalRest;
    Word(h, busy, av, args);
    if args == M.NIL {
      AtomStands(h, busy, NIL_VAL);
      StayReady(p, q, h, busy, s, ew, env, NIL_VAL, M.NIL);
      return 1, h;
    }
    PairReads(h, busy, av, args);
    var r := M.Eval(q, g - 1, args.car, env, s, live);
    var f1, mid := Means(p, q, g - 1, args.car, h.w.Car(av), env, ew, s, live, h, busy);
    var o := Eval(p, f1, h.w.Car(av), ew, h.w, live, Free);
    AgreesGoes(h, busy, r, o, mid);
    if r.Thrown? {
      Passes(h, busy, r, o, mid);
      return f1 + 1, mid;
    }
    Next(p, q, h, busy, r, o, mid, s, ew, env);
    ResultStands(h, busy, r, o, mid);
    GoesKeeps(h, mid, busy, av, args);
    var next := FirstCell(p, q, mid, busy, r.s, ew, env, o.v, r.v, av, args);
    var cell := Cons(mid.w, o.v, NIL_VAL);
    var r2 := M.Args(q, g - 1, args.cdr, env, r.s, live);
    var f2;
    f2, h1 := RestMeans(p, q, g - 1, args.cdr, next.w.Cdr(av), env, ew, r.s, live, next, busy, cell.v, cell.v, [r.v]);
    var o2 := EvalRest(p, f2, next.w.Cdr(av), ew, next.w, live, cell.v, cell.v);
    RestDone(next, busy, cell.v, [r.v], r2, o2, h1);
    f := Max(f1, f2) + 1;
    EvalMore(p, f1, f - 1, h.w.Car(av), ew, h.w, live, Free);
    EvalRestMore(p, f2, f - 1, next.w.Cdr(av), ew, next.w, live, cell.v, cell.v);
    AllArgs(h, mid, next, h1, busy, cell.v, r.v, r2, o2);
  }

  /** The first cell of the list of values. */
  lemma FirstCell(p: Prims, q: M.Prims, h: Heap, busy: set<int>, s: M.State, ew: int, env: M.Env, v: int, x: M.Val,
                  av: int, args: M.Val) returns (h1: Heap)
    requires Ready(p, q, h, busy, s, ew, env) && Stands(h, busy, v, x) && Stands(h, busy, av, args) && args.Pair?
    ensures var cell := Cons(h.w, v, NIL_VAL); var busy1 := busy + {PtrIdx(cell.v)};
      && h1.w == cell.w && PtrIdx(cell.v) == |h.w.cells| && Steady(h, h1, busy) && Grown(h.k, h.w, h1.k, h1.w, -1)
      && Ready(p, q, h1, busy1, s, ew, env) && ListSoFar(h1, busy, cell.v, cell.v, [x])
      && Stands(h1, busy1, h1.w.Cdr(av), args.cdr) && (forall c :: c in busy ==> c < |h1.w.cells|)
  {
    hide PrimsMean, Stands, EnvStands, Typed, Grown, Spine;
    BusyPairs(h, busy, s);
    SameLength(h.k, h.w);
    var none: seq<M.Val> := [];
    assert none + [x] == [x];
    h1 := Appends(h, busy, s, v, x, NIL_VAL, NIL_VAL, none);
    var n := |h.w.cells|;
    Across(h, h1, busy, busy + {n}, av, args);
    PairReads(h1, busy + {n}, av, args);
    EnvKept(h, h1, busy, ew, env);
  }

  /** What the rest of the list comes to behind the values so far. */
  ghost predicate RestAgrees(h: Heap, busy: set<int>, tail: int, xs: seq<M.Val>, r: M.Result, o: Outcome, h1: Heap) {
    && !o.Out? && o.w == h1.w && Steady(h, h1, busy + {PtrIdx(tail)}) && Grown(h.k, h.w, h1.k, h1.w, PtrIdx(tail))
    && match r
       case Stuck => false
       case Done(x, s) => o.Ok? && Carries(h1, busy, s) && Stands(h1, busy, o.v, M.ListOf(xs, x))
       case Thrown(tag, x, s) => o.Raise? && o.tag == tag && Carries(h1, busy, s) && Stands(h1, busy, o.v, x)
  }

  lemma RestDone(h: Heap, busy: set<int>, tail: int, xs: seq<M.Val>, r: M.Result, o: Outcome, h1: Heap)
    requires RestAgrees(h, busy, tail, xs, r, o, h1)
    ensures !o.Out? && (r.Done? ==> o.Ok?) && (r.Thrown? ==> o.Raise?) && !r.Stuck?
  {
  }

  lemma AllArgs(h: Heap, mid: Heap, next: Heap, h1: Heap, busy: set<int>, tail: int, x: M.Val, r: M.Result, o: Outcome)
    requires Goes(h, mid, busy) && Steady(mid, next, busy) && Grown(mid.k, mid.w, next.k, next.w, -1)
    requires RestAgrees(next, busy, tail, [x], r, o, h1) && PtrIdx(tail) == |mid.w.cells|
    ensures Agrees(h, busy, match r case Done(rest, s) => M.Done(M.Pair(x, rest), s) case other => other, o, h1)
  {
    hide Typed, Framed, Carries, Stands;
    SteadyOn(mid, next, h1, busy, busy + {PtrIdx(tail)});
    Then(mid.k, mid.w, next.k, next.w, h1.k, h1.w, -1, PtrIdx(tail));
    GoesThen(h, mid, h1, busy);
    if r.Done? {
      assert [x][1..] == [];
      assert M.ListOf([], r.v) == r.v;
      assert M.ListOf([x], r.v) == M.Pair(x, r.v);
    }
  }

  lemma {:induction false} RestMeans(p: Prims, q: M.Prims, g: nat, rest: M.Val, rv: int, env: M.Env, ew: int,
                                     s: M.State, live: seq<int>, h: Heap, busy: set<int>, result: int, tail: int,
                                     xs: seq<M.Val>) returns (f: nat, h1: Heap)
    requires Ready(p, q, h, busy + {PtrIdx(tail)}, s, ew, env) && Stands(h, busy + {PtrIdx(tail)}, rv, rest)
    requires ListSoFar(h, busy, result, tail, xs) && xs != [] && forall c :: c in busy ==> c < |h.w.cells|
    requires !M.Args(q, g, rest, env, s, live).Stuck?
    ensures RestAgrees(h, busy, tail, xs, M.Args(q, g, rest, env, s, live),
                       EvalRest(p, f, rv, ew, h.w, live, result, tail), h1)
    decreases g
  {
    hide PrimsMean, M.Onward, Carries, Stands, EnvStands, Agrees, M.Eval, Eval, Goes, Ready, RestAgrees, ListSoFar;
    var open := busy + {PtrIdx(tail)};
    Word(h, open, rv, rest);
    if rest == M.NIL {
      RestEnds(p, q, h, busy, s, ew, env, result, tail, xs);
      return 1, h;
    }
    PairReads(h, open, rv, rest);
    var r := M.Eval(q, g - 1, rest.car, env, s, live);
    var f1, mid := Means(p, q, g - 1, rest.car, h.w.Car(rv), env, ew, s, live, h, open);
    var o := Eval(p, f1, h.w.Car(rv), ew, h.w, live, Free);
    AgreesGoes(h, open, r, o, mid);
    if r.Thrown? {
      RestThrown(h, busy, tail, xs, r, o, mid);
      return f1 + 1, mid;
    }
    Next(p, q, h, open, r, o, mid, s, ew, env);
    ResultStands(h, open, r, o, mid);
    GoesKeeps(h, mid, open, rv, rest);
    ListGoes(h, mid, busy, result, tail, xs);
    var next := NextCell(p, q, mid, busy, r.s, ew, env, o.v, r.v, rv, rest, result, tail, xs);
    var cell := Cons(mid.w, o.v, NIL_VAL);
    var r2 := M.Args(q, g - 1, rest.cdr, env, r.s, live);
    var f2;
    f2, h1 := RestMeans(p, q, g - 1, rest.cdr, next.w.Cdr(rv), env, ew, r.s, live, next, busy, result, cell.v,
                        xs + [r.v]);
    var o2 := EvalRest(p, f2, next.w.Cdr(rv), ew, next.w, live, result, cell.v);
    RestDone(next, busy, cell.v, xs + [r.v], r2, o2, h1);
    f := Max(f1, f2) + 1;
    EvalMore(p, f1, f - 1, h.w.Car(rv), ew, h.w, live, Free);
    EvalRestMore(p, f2, f - 1, next.w.Cdr(rv), ew, next.w, live, result, cell.v);
    MoreRest(h, mid, next, h1, busy, tail, cell.v, xs, r.v, r2, o2);
  }

  lemma RestEnds(p: Prims, q: M.Prims, h: Heap, busy: set<int>, s: M.State, ew: int, env: M.Env, result: int, tail: int,
                 xs: seq<M.Val>)
    requires Ready(p, q, h, busy + {PtrIdx(tail)}, s, ew, env) && ListSoFar(h, busy, result, tail, xs) && xs != []
    ensures RestAgrees(h, busy, tail, xs, M.Done(M.NIL, s), Ok(result, h.w), h)
  {
    hide PrimsMean, Stands, EnvStands, Spine, Typed;
    ListOkay(h, busy, result, tail, xs);
    AtomStands(h, busy, NIL_VAL);
    SpineEnds(h, busy, tail, result, xs, M.NIL);
    BusyCarries(h, busy + {PtrIdx(tail)}, busy, s);
    SameLength(h.k, h.w);
    Same(h.k, h.w);
    AnyHole(h.k, h.w, h.k, h.w, PtrIdx(tail));
  }

  lemma RestThrown(h: Heap, busy: set<int>, tail: int, xs: seq<M.Val>, r: M.Result, o: Outcome, h1: Heap)
    requires Agrees(h, busy + {PtrIdx(tail)}, r, o, h1) && r.Thrown?
    ensures RestAgrees(h, busy, tail, xs, r, Stop(o), h1)
  {
    hide Stands, EnvStands, Typed, Carries, Framed;
    BusyCarries(h1, busy + {PtrIdx(tail)}, busy, r.s);
    BusyStands(h1, busy + {PtrIdx(tail)}, busy, o.v, r.v);
    AnyHole(h.k, h.w, h1.k, h1.w, PtrIdx(tail));
  }

  lemma ListGoes(h: Heap, h1: Heap, busy: set<int>, result: int, tail: int, xs: seq<M.Val>)
    requires ListSoFar(h, busy, result, tail, xs) && xs != [] && Goes(h, h1, busy + {PtrIdx(tail)})
    ensures ListSoFar(h1, busy, result, tail, xs) && |h.w.cells| <= |h1.w.cells|
  {
    hide Stands, Typed, Spine;
    ListOkay(h, busy, result, tail, xs);
    SpineKept(h, h1, busy, tail, result, xs);
    assert h1.w.cells[PtrIdx(tail)] == h.w.cells[PtrIdx(tail)];
  }

  lemma NextCell(p: Prims, q: M.Prims, h: Heap, busy: set<int>, s: M.State, ew: int, env: M.Env, v: int, x: M.Val,
                 rv: int, rest: M.Val, result: int, tail: int, xs: seq<M.Val>) returns (h1: Heap)
    requires Ready(p, q, h, busy + {PtrIdx(tail)}, s, ew, env) && Stands(h, busy + {PtrIdx(tail)}, v, x)
    requires Stands(h, busy + {PtrIdx(tail)}, rv, rest) && rest.Pair?
    requires ListSoFar(h, busy, result, tail, xs) && xs != [] && forall c :: c in busy ==> c < |h.w.cells|
    ensures var cell := Cons(h.w, v, NIL_VAL); var busy1 := busy + {PtrIdx(cell.v)};
      && h1.w == cell.w.SetCdr(tail, cell.v) && PtrIdx(cell.v) == |h.w.cells|
      && Steady(h, h1, busy + {PtrIdx(tail)}) && Grown(h.k, h.w, h1.k, h1.w, PtrIdx(tail))
      && Ready(p, q, h1, busy1, s, ew, env) && ListSoFar(h1, busy, result, cell.v, xs + [x])
      && Stands(h1, busy1, h1.w.Cdr(rv), rest.cdr) && (forall c :: c in busy ==> c < |h1.w.cells|)
  {
    hide PrimsMean, Stands, EnvStands, Typed, Grown, Spine, Carries;
    ListOkay(h, busy, result, tail, xs);
    h1 := Appends(h, busy, s, v, x, result, tail, xs);
    var n, open := |h.w.cells|, busy + {PtrIdx(tail)};
    Across(h, h1, open, busy + {n}, rv, rest);
    PairReads(h1, busy + {n}, rv, rest);
    EnvKept(h, h1, open, ew, env);
  }

  lemma MoreRest(h: Heap, mid: Heap, next: Heap, h1: Heap, busy: set<int>, tail: int, cell: int, xs: seq<M.Val>,
                 x: M.Val, r: M.Result, o: Outcome)
    requires var open := busy + {PtrIdx(tail)};
      Goes(h, mid, open) && Steady(mid, next, open) && Grown(mid.k, mid.w, next.k, next.w, PtrIdx(tail))
    requires RestAgrees(next, busy, cell, xs + [x], r, o, h1) && PtrIdx(cell) == |mid.w.cells|
    ensures RestAgrees(h, busy, tail, xs, match r case Done(rest, s) => M.Done(M.Pair(x, rest), s) case other => other,
                       if r.Thrown? then Stop(o) else o, h1)
    ensures r.Thrown? ==> RestAgrees(h, busy, tail, xs, r, o, h1)
  {
    hide Typed, Framed, Carries, Stands;
    var open := busy + {PtrIdx(tail)};
    SteadyOn(mid, next, h1, open, busy + {PtrIdx(cell)});
    SteadyThen(h, mid, h1, open);
    assert |mid.k| == |mid.w.cells|;
    Then(mid.k, mid.w, next.k, next.w, h1.k, h1.w, PtrIdx(tail), PtrIdx(cell));
    AnyHole(h.k, h.w, mid.k, mid.w, PtrIdx(tail));
    Then(h.k, h.w, mid.k, mid.w, h1.k, h1.w, PtrIdx(tail), PtrIdx(tail));
    if r.Done? {
      ListOfLast(xs, x, r.v);
    }
  }

  // Templates

  lemma {:induction false} QuasiMeans(p: Prims, q: M.Prims, g: nat, t: M.Val, tv: int, env: M.Env, ew: int, s: M.State,
                                      live: seq<int>, h: Heap, busy: set<int>) returns (f: nat, h1: Heap)
    requires Ready(p, q, h, busy, s, ew, env) && Stands(h, busy, tv, t) && !M.Quasi(q, g, t, env, s, live).Stuck?
    ensures Agrees(h, busy, M.Quasi(q, g, t, env, s, live), EvalQuasi(p, f, tv, ew, h.w, live, Free), h1)
    decreases g, 1
  {
    hide PrimsMean, M.Onward, Carries, Stands, EnvStands, Agrees, M.Eval, Eval, Goes, Ready, M.Parts, EvalParts;
    Word(h, busy, tv, t);
    if !t.Pair? {
      StayReady(p, q, h, busy, s, ew, env, tv, t);
      return 1, h;
    }
    PairReads(h, busy, tv, t);
    Word(h, busy, h.w.Car(tv), t.car);
    if t.car == M.Atom(UNQUOTE) {
      PairReads(h, busy, h.w.Cdr(tv), t.cdr);
      f, h1 := Means(p, q, g - 1, t.cdr.car, h.w.Car(h.w.Cdr(tv)), env, ew, s, live, h, busy);
    } else {
      NoneSoFar(p, q, h, busy, s, ew, env);
      f, h1 := PartsMeans(p, q, g - 1, t, tv, [], env, ew, s, live, h, busy, NIL_VAL, NIL_VAL);
      PartsAgree(h, busy, M.Parts(q, g - 1, t, [], env, s, live),
                 EvalParts(p, f, tv, ew, h.w, live, Free, NIL_VAL, NIL_VAL), h1);
    }
    f := f + 1;
  }

  lemma NoneSoFar(p: Prims, q: M.Prims, h: Heap, busy: set<int>, s: M.State, ew: int, env: M.Env)
    requires Ready(p, q, h, busy, s, ew, env)
    ensures ListSoFar(h, busy, NIL_VAL, NIL_VAL, []) && Open(busy, NIL_VAL, []) == busy
    ensures forall c :: c in busy ==> c < |h.w.cells|
  {
    hide Stands, EnvStands, PrimsMean;
    SameLength(h.k, h.w);
  }

  /** What the parts of a template come to: a value. */
  ghost predicate PartsDone(h: Heap, busy: set<int>, tail: int, xs: seq<M.Val>, r: M.Result, o: Outcome, h1: Heap) {
    && r.Done? && o.Ok? && o.w == h1.w
    && Steady(h, h1, Open(busy, tail, xs)) && Grown(h.k, h.w, h1.k, h1.w, End(tail, xs))
    && Carries(h1, busy, r.s) && Stands(h1, busy, o.v, r.v)
  }

  lemma PartsAgree(h: Heap, busy: set<int>, r: M.Result, o: Outcome, h1: Heap)
    requires PartsDone(h, busy, NIL_VAL, [], r, o, h1)
    ensures Agrees(h, busy, r, o, h1)
  {
    hide Stands, Carries, Typed;
  }

  /** The cell the end of the list is written to, if there is a list. */
  function End(tail: int, xs: seq<M.Val>): int { if xs == [] then -1 else PtrIdx(tail) }

  /** The values one part of a template adds. */
  function Added(splicing: bool, x: M.Val): seq<M.Val> { if splicing then M.Elements(x) else [x] }

  /** What one part of a template comes to. */
  function PartOf(q: M.Prims, g: nat, elem: M.Val, env: M.Env, s: M.State, live: seq<int>): M.Result {
    if !IsSplice(elem) then M.Quasi(q, g, elem, env, s, live)
    else if elem.cdr.Pair? then M.Eval(q, g, elem.cdr.car, env, s, live)
    else M.Stuck
  }

  predicate IsSplice(elem: M.Val) { elem.Pair? && elem.car == M.Atom(UNQUOTE_SPLICING) }

  lemma PartsUnfold(q: M.Prims, g: nat, rest: M.Val, xs: seq<M.Val>, env: M.Env, s: M.State, live: seq<int>)
    requires rest.Pair?
    ensures M.Parts(q, g, rest, xs, env, s, live)
         == if g == 0 then M.Stuck
            else match PartOf(q, g - 1, rest.car, env, s, live)
                 case Done(x, s1) =>
                   M.Parts(q, g - 1, rest.cdr, xs + Added(IsSplice(rest.car), x), env, s1, live)
                 case _ => M.Stuck
  {
    hide M.Eval, M.Quasi;
  }

  /** The end of a template. */
  lemma PartsEnd(p: Prims, q: M.Prims, h: Heap, busy: set<int>, s: M.State, ew: int, env: M.Env, rv: int, rest: M.Val,
                 result: int, tail: int, xs: seq<M.Val>) returns (h1: Heap)
    requires Ready(p, q, h, Open(busy, tail, xs), s, ew, env) && Stands(h, Open(busy, tail, xs), rv, rest)
    requires ListSoFar(h, busy, result, tail, xs) && !rest.Pair?
    ensures PartsDone(h, busy, tail, xs, M.Done(if xs == [] then M.NIL else M.ListOf(xs, rest), s),
                      Ok(result, if rv != NIL_VAL && tail != NIL_VAL then h.w.SetCdr(tail, rv) else h.w), h1)
  {
    hide PrimsMean, Stands, EnvStands, Spine, Typed, Carries;
    var open := Open(busy, tail, xs);
    CarriesTyped(h, open, s);
    Word(h, open, rv, rest);
    SameLength(h.k, h.w);
    Same(h.k, h.w);
    h1 := h;
    AtomStands(h, busy, NIL_VAL);
    if xs != [] {
      ListOkay(h, busy, result, tail, xs);
      if rv != NIL_VAL {
        h1 := Ending(h, busy, s, rv, rest, result, tail, xs);
      } else {
        SpineEnds(h, busy, tail, result, xs, rest);
        BusyCarries(h, open, busy, s);
        AnyHole(h.k, h.w, h.k, h.w, PtrIdx(tail));
      }
    }
  }

  /** The last cdr is written. */
  lemma Ending(h: Heap, busy: set<int>, s: M.State, rv: int, rest: M.Val, result: int, tail: int, xs: seq<M.Val>)
      returns (h1: Heap)
    requires Carries(h, busy + {PtrIdx(tail)}, s) && Stands(h, busy + {PtrIdx(tail)}, rv, rest)
    requires Spine(h, busy, tail, result, xs)
    ensures h1.w == h.w.SetCdr(tail, rv) && Carries(h1, busy, s) && Stands(h1, busy, result, M.ListOf(xs, rest))
    ensures Steady(h, h1, busy + {PtrIdx(tail)}) && Grown(h.k, h.w, h1.k, h1.w, PtrIdx(tail))
  {
    var open := busy + {PtrIdx(tail)};
    h1 := h.(w := h.w.SetCdr(tail, rv));
    SpineTail(h, busy, tail, result, xs);
    Word(h, open, rv, rest);
    CarriesTyped(h, open, s);
    NewCdr(h.k, h.w, tail, rv);
    SameLength(h.k, h.w);
    hide Stands, EnvStands, Spine, Typed, Carries;
    StillCarries(h, h1, open, s);
    BusyCarries(h1, open, busy, s);
    SpineKept(h, h1, busy, tail, result, xs);
    Kept(h, h1, open, rv, rest);
    BusyStands(h1, open, busy, rv, rest);
    SpineEnds(h1, busy, tail, result, xs, rest);
  }

  lemma Splicing(h: Heap, busy: set<int>, ev: int, elem: M.Val)
    requires Stands(h, busy, ev, elem)
    ensures IsSplicing(h.w, ev) <==> IsSplice(elem)
  {
    hide Stands;
    Word(h, busy, ev, elem);
    if elem.Pair? {
      PairReads(h, busy, ev, elem);
      Word(h, busy, h.w.Car(ev), elem.car);
    }
  }

  lemma {:induction false} PartMeans(p: Prims, q: M.Prims, g: nat, elem: M.Val, ev: int, env: M.Env, ew: int,
                                     s: M.State, live: seq<int>, h: Heap, busy: set<int>) returns (f: nat, h1: Heap)
    requires Ready(p, q, h, busy, s, ew, env) && Stands(h, busy, ev, elem)
    requires !PartOf(q, g, elem, env, s, live).Stuck?
    ensures Agrees(h, busy, PartOf(q, g, elem, env, s, live), EvalPart(p, f, ev, ew, h.w, live, Free), h1)
    decreases g, 2
  {
    hide PrimsMean, M.Onward, Carries, Stands, EnvStands, Agrees, M.Eval, Eval, Goes, Ready, M.Quasi, EvalQuasi;
    Splicing(h, busy, ev, elem);
    if IsSplice(elem) {
      PairReads(h, busy, ev, elem);
      PairReads(h, busy, h.w.Cdr(ev), elem.cdr);
      f, h1 := Means(p, q, g, elem.cdr.car, h.w.Car(h.w.Cdr(ev)), env, ew, s, live, h, busy);
    } else {
      f, h1 := QuasiMeans(p, q, g, elem, ev, env, ew, s, live, h, busy);
    }
    f := f + 1;
    assert EvalPart(p, f, ev, ew, h.w, live, Free)
        == if IsSplice(elem) then Eval(p, f - 1, h.w.Car(h.w.Cdr(ev)), ew, h.w, live, Free)
           else EvalQuasi(p, f - 1, ev, ew, h.w, live, Free);
  }

  lemma ListOpen(h: Heap, h1: Heap, busy: set<int>, result: int, tail: int, xs: seq<M.Val>)
    requires ListSoFar(h, busy, result, tail, xs) && Goes(h, h1, Open(busy, tail, xs))
    ensures ListSoFar(h1, busy, result, tail, xs) && |h.w.cells| <= |h1.w.cells|
  {
    hide Stands, Typed, Spine, Steady;
    if xs != [] {
      ListGoes(h, h1, busy, result, tail, xs);
    }
  }

  /** The values of a part join the list. */
  ghost predicate Joined(p: Prims, q: M.Prims, h: Heap, busy: set<int>, s: M.State, ew: int, env: M.Env, tail: int,
                         xs: seq<M.Val>, b: Building, ys: seq<M.Val>, h1: Heap) {
    && b.Building? && h1.w == b.w && Steady(h, h1, Open(busy, tail, xs))
    && Grown(h.k, h.w, h1.k, h1.w, End(tail, xs))
    && (End(b.tail, ys) == End(tail, xs) || End(b.tail, ys) >= |h.k|)
    && ListSoFar(h1, busy, b.result, b.tail, ys) && Ready(p, q, h1, Open(busy, b.tail, ys), s, ew, env)
    && (forall c :: c in Open(busy, b.tail, ys) ==> c in Open(busy, tail, xs) || c >= |h.w.cells|)
  }

  lemma PartAdds(p: Prims, q: M.Prims, h: Heap, busy: set<int>, s: M.State, ew: int, env: M.Env, splicing: bool, v: int,
                 x: M.Val, result: int, tail: int, xs: seq<M.Val>) returns (f: nat, h1: Heap)
    requires Ready(p, q, h, Open(busy, tail, xs), s, ew, env) && Stands(h, Open(busy, tail, xs), v, x)
    requires ListSoFar(h, busy, result, tail, xs) && forall c :: c in busy ==> c < |h.w.cells|
    ensures Joined(p, q, h, busy, s, ew, env, tail, xs, AddPart(h.w, splicing, v, result, tail, f),
                   xs + Added(splicing, x), h1)
  {
    hide PrimsMean, Stands, EnvStands, Typed, Append, Spine, Framed, Carries;
    ListOkay(h, busy, result, tail, xs);
    f := 1;
    if splicing {
      f, h1 := Splices(h, busy, s, v, x, result, tail, xs);
    } else {
      h1 := Appends(h, busy, s, v, x, result, tail, xs);
    }
    var b, ys := AddPart(h.w, splicing, v, result, tail, f), xs + Added(splicing, x);
    ListOkay(h1, busy, b.result, b.tail, ys);
    EnvKept(h, h1, Open(busy, tail, xs), ew, env);
    CarriesTyped(h, Open(busy, tail, xs), s);
    SameLength(h.k, h.w);
  }

  /** The parts still to come stay what they are. */
  lemma RestStands(p: Prims, q: M.Prims, h: Heap, busy: set<int>, s: M.State, ew: int, env: M.Env, rv: int, rest: M.Val,
                   tail: int, xs: seq<M.Val>, b: Building, ys: seq<M.Val>, h1: Heap)
    requires Joined(p, q, h, busy, s, ew, env, tail, xs, b, ys, h1) && Stands(h, Open(busy, tail, xs), rv, rest)
    requires rest.Pair?
    ensures Stands(h1, Open(busy, b.tail, ys), h1.w.Cdr(rv), rest.cdr) && |h.w.cells| <= |h1.w.cells|
  {
    hide Stands, Typed, Ready, Open, ListSoFar;
    Across(h, h1, Open(busy, tail, xs), Open(busy, b.tail, ys), rv, rest);
    PairReads(h1, Open(busy, b.tail, ys), rv, rest);
  }

  lemma PartsOut(h: Heap, busy: set<int>, tail: int, xs: seq<M.Val>, r: M.Result, o: Outcome, h1: Heap)
    requires PartsDone(h, busy, tail, xs, r, o, h1)
    ensures r.Done? && o.Ok?
  {
  }

  lemma AddMore(w: World, splicing: bool, v: int, result: int, tail: int, f: nat, g: nat)
    requires f <= g && AddPart(w, splicing, v, result, tail, f).Building?
    ensures AddPart(w, splicing, v, result, tail, g) == AddPart(w, splicing, v, result, tail, f)
  {
    hide Splice, Append;
    if splicing {
      SpliceMore(w, v, result, tail, f, g);
    }
  }

  lemma MoreParts(p: Prims, q: M.Prims, h: Heap, mid: Heap, busy: set<int>, s: M.State, ew: int, env: M.Env, tail: int,
                  xs: seq<M.Val>, b: Building, ys: seq<M.Val>, next: Heap, r: M.Result, o: Outcome, h1: Heap)
    requires Goes(h, mid, Open(busy, tail, xs))
    requires Joined(p, q, mid, busy, s, ew, env, tail, xs, b, ys, next) && PartsDone(next, busy, b.tail, ys, r, o, h1)
    ensures PartsDone(h, busy, tail, xs, r, o, h1)
  {
    hide Typed, Framed, Carries, Stands, Ready, ListSoFar, Open;
    var open := Open(busy, tail, xs);
    SteadyOn(mid, next, h1, open, Open(busy, b.tail, ys));
    SteadyThen(h, mid, h1, open);
    assert |mid.k| == |mid.w.cells|;
    Then(mid.k, mid.w, next.k, next.w, h1.k, h1.w, End(tail, xs), End(b.tail, ys));
    AnyHole(h.k, h.w, mid.k, mid.w, End(tail, xs));
    Then(h.k, h.w, mid.k, mid.w, h1.k, h1.w, End(tail, xs), End(tail, xs));
  }

  lemma JoinedIs(p: Prims, q: M.Prims, h: Heap, busy: set<int>, s: M.State, ew: int, env: M.Env, tail: int,
                 xs: seq<M.Val>, b: Building, ys: seq<M.Val>, h1: Heap)
    requires Joined(p, q, h, busy, s, ew, env, tail, xs, b, ys, h1)
    ensures b.Building? && h1.w == b.w && ListSoFar(h1, busy, b.result, b.tail, ys)
    ensures Ready(p, q, h1, Open(busy, b.tail, ys), s, ew, env)
  {
  }

  lemma {:induction false} PartsMeans(p: Prims, q: M.Prims, g: nat, rest: M.Val, rv: int, xs: seq<M.Val>, env: M.Env,
                                      ew: int, s: M.State, live: seq<int>, h: Heap, busy: set<int>, result: int,
                                      tail: int) returns (f: nat, h1: Heap)
    requires Ready(p, q, h, Open(busy, tail, xs), s, ew, env) && Stands(h, Open(busy, tail, xs), rv, rest)
    requires ListSoFar(h, busy, result, tail, xs) && forall c :: c in busy ==> c < |h.w.cells|
    requires !M.Parts(q, g, rest, xs, env, s, live).Stuck?
    ensures PartsDone(h, busy, tail, xs, M.Parts(q, g, rest, xs, env, s, live),
                      EvalParts(p, f, rv, ew, h.w, live, Free, result, tail), h1)
    decreases g, 0
  {
    hide PrimsMean, M.Onward, Carries, Stands, EnvStands, Agrees, Goes, Ready, ListSoFar, EvalPart, AddPart, Open,
         PartsDone, PartOf, Joined, Steady, Grown;
    var open := Open(busy, tail, xs);
    Word(h, open, rv, rest);
    if !rest.Pair? {
      h1 := PartsEnd(p, q, h, busy, s, ew, env, rv, rest, result, tail, xs);
      return 1, h1;
    }
    PartsUnfold(q, g, rest, xs, env, s, live);
    hide M.Parts;
    PairReads(h, open, rv, rest);
    var ev, elem := h.w.Car(rv), rest.car;
    Splicing(h, open, ev, elem);
    var splicing := IsSplicing(h.w, ev);
    var r := PartOf(q, g - 1, elem, env, s, live);
    var f1, mid := PartMeans(p, q, g - 1, elem, ev, env, ew, s, live, h, open);
    var o := EvalPart(p, f1, ev, ew, h.w, live, Free);
    AgreesGoes(h, open, r, o, mid);
    Next(p, q, h, open, r, o, mid, s, ew, env);
    ResultStands(h, open, r, o, mid);
    GoesKeeps(h, mid, open, rv, rest);
    ListOpen(h, mid, busy, result, tail, xs);
    var f2, next := PartAdds(p, q, mid, busy, r.s, ew, env, splicing, o.v, r.v, result, tail, xs);
    var b: Building := AddPart(mid.w, splicing, o.v, result, tail, f2);
    var ys := xs + Added(splicing, r.v);
    JoinedIs(p, q, mid, busy, r.s, ew, env, tail, xs, b, ys, next);
    RestStands(p, q, mid, busy, r.s, ew, env, rv, rest, tail, xs, b, ys, next);
    var f3;
    f3, h1 := PartsMeans(p, q, g - 1, rest.cdr, next.w.Cdr(rv), ys, env, ew, r.s, live, next, busy, b.result, b.tail);
    var r2 := M.Parts(q, g - 1, rest.cdr, ys, env, r.s, live);
    PartsOut(next, busy, b.tail, ys, r2, EvalParts(p, f3, b.w.Cdr(rv), ew, b.w, live, Free, b.result, b.tail), h1);
    f := Max(Max(f1 + 1, f2), f3 + 1);
    EvalPartMore(p, f1, f - 1, ev, ew, h.w, live, Free);
    AddMore(mid.w, splicing, o.v, result, tail, f2, f);
    EvalPartsMore(p, f3, f - 1, b.w.Cdr(rv), ew, b.w, live, Free, b.result, b.tail);
    MoreParts(p, q, h, mid, busy, r.s, ew, env, tail, xs, b, ys, next, r2,
              EvalParts(p, f - 1, b.w.Cdr(rv), ew, b.w, live, Free, b.result, b.tail), h1);
  }
}
