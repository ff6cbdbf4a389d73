/** Whole programs, compiled and at the prompt of the interpreter; and where the two differ. */
module ProgramAgreement {
  import opened Tml
  import opened FirstOrder
  import opened SameValues
  import opened Agreement
  import opened Wrappers
  import Codegen
  import CompileCorrect
  import CompileProgram
  import Cor24
  import L = LispSource
  import M = Meaning
  import P = Primitives
  import R = ReadMeans
  import Words24

  // Programs

  /** The name a form of a program defines. */
  function Defined(e: L.SExpr): Option<L.symbol> {
    match L.View(e)
    case DefineFn(sym, _, _) => Some(sym)
    case Define(sym, _) => Some(sym)
    case _ => None
  }

  /** A first-order expression, the definition of a variable by one, or of a function with a body
      of one. */
  predicate TopForm(e: L.SExpr) {
    match L.View(e)
    case DefineFn(sym, ps, body) =>
      User(sym) && Users(ps) && First(body) && e.cdr.cdr.car.cdr.cdr.cdr == L.NIL
    case Define(sym, e1) => User(sym) && First(e1)
    case _ => First(e)
  }

  lemma {:induction false} SameGrows(heap: seq<(L.Value, L.Value)>, v: L.Value, x: M.Val, all: M.Env, b: (int, nat))
    requires Same(heap, v, x, all)
    ensures Same(heap, v, x, [b] + all)
    decreases x
  {
    match x
    case Pair(a, d) =>
      SameGrows(heap, heap[v.id].0, a, all, b);
      SameGrows(heap, heap[v.id].1, d, all, b);
    case Closure(_, _, env) =>
      var all1 := [b] + all;
      assert all1[|all1| - |env|..] == all[|all| - |env|..];
    case _ =>
  }

  lemma {:induction false} FindNone(all: M.Env, sym: int)
    ensures M.Find(all, sym).None? <==> forall i :: 0 <= i < |all| ==> all[i].0 != sym
    decreases |all|
  {
    if all != [] {
      FindNone(all[1..], sym);
      if M.Find(all, sym).None? {
        forall i | 0 <= i < |all| ensures all[i].0 != sym {
          assert i > 0 ==> all[i] == all[1..][i - 1];
        }
      }
    }
  }

  /** A name defined for the first time. */
  lemma LinkedDefines(w: L.World, s: M.State, sym: L.symbol, v: L.Value, x: M.Val)
    requires Linked(w, s) && User(sym) && FirstValue(v) && Same(w.heap, v, x, s.global)
    requires M.Find(s.global, MakeSymbol(sym)).None?
    ensures var s1 := M.Define(MakeSymbol(sym), x, s);
      Linked(w.(globals := w.globals[sym := v]), s1) && Same(w.heap, v, x, s1.global)
  {
    hide First, Same;
    var s1, w1 := M.Define(MakeSymbol(sym), x, s), w.(globals := w.globals[sym := v]);
    var b := (MakeSymbol(sym), |s.store|);
    FindNone(s.global, MakeSymbol(sym));
    assert ([b] + s.global)[1..] == s.global;
    SameGrows(w.heap, v, x, s.global, b);
    hide FirstWorld, FirstValue;
    assert FirstWorld(w1) by { FirstDefines(w, sym, v); }
    forall i | 0 <= i < |R.PRIMITIVES| ensures HasPrimitive(s1, i) {
      assert HasPrimitive(s, i);
    }
    forall sym1: L.symbol | User(sym1) ensures SameGlobal(w1, s1, sym1) {
      assert SameGlobal(w, s, sym1);
      var place := M.Find(s.global, MakeSymbol(sym1));
      if sym1 != sym && place.Some? {
        SameGrows(w.heap, w.globals[sym1], s.store[place.value], s.global, b);
      }
    }
  }

  lemma FirstDefines(w: L.World, sym: L.symbol, v: L.Value)
    requires FirstWorld(w) && FirstValue(v)
    ensures FirstWorld(w.(globals := w.globals[sym := v]))
  {
    hide First;
  }

  /** Both are linked behind a form, and the values are the same. */
  ghost predicate Follows(l: L.Outcome, s: M.State, r: M.Result, sym: Option<L.symbol>) {
    && l.Done? && r.Done? && Linked(l.world, r.s) && Same(l.world.heap, l.value, r.v, r.s.global)
    && forall y ::
         M.Find(s.global, y).None? && (sym.Some? ==> y != MakeSymbol(sym.value)) ==> M.Find(r.s.global, y).None?
  }

  lemma TopAgrees(bud: L.Budget, fuel: nat, g: nat, e: L.SExpr, w: L.World, s: M.State)
    requires TopForm(e) && Linked(w, s) && L.Eval(bud, fuel, e, [], w).Done?
    requires Defined(e).Some? ==> M.Find(s.global, MakeSymbol(Defined(e).value)).None?
    requires Quietly(s, M.Eval(P.Pure, g, Tree(e), s.global, s, []))
    ensures Follows(L.Eval(bud, fuel, e, [], w), s, M.Eval(P.Pure, g, Tree(e), s.global, s, []), Defined(e))
  {
    hide Linked, First, Same, FirstWorld, M.Eval, L.Eval, M.Find;
    var l, r := L.Eval(bud, fuel, e, [], w), M.Eval(P.Pure, g, Tree(e), s.global, s, []);
    TopLocals(w.heap, s);
    match L.View(e)
    case DefineFn(sym, ps, body) =>
      FnForm(bud, fuel, g, e, sym, ps, body, w, s);
      FunctionSame(w.heap, ps, body, s.global);
      LinkedDefines(w, s, sym, l.value, r.v);
      DefinesOne(s, sym, r.v);
    case Define(sym, e1) =>
      VariableForm(bud, fuel, g, e, sym, e1, w, s);
      var l1, r1 := L.Eval(bud, fuel, e1, [], w), M.Eval(P.Pure, g - 2, Tree(e1), s.global, s, []);
      Agree(bud, fuel, g - 2, e1, [], w, s.global, s, []);
      Next(bud, fuel, e1, [], w, s.global, s, r1);
      EvalKeeps(bud, fuel, e1, [], w) by { LinkedFirst(w, [], s.global, s); }
      LinkedDefines(l1.world, r1.s, sym, l1.value, r1.v);
      DefinesOne(r1.s, sym, r1.v);
    case _ =>
      Agree(bud, fuel, g, e, [], w, s.global, s, []);
      Next(bud, fuel, e, [], w, s.global, s, r);
  }

  lemma TopLocals(heap: seq<(L.Value, L.Value)>, s: M.State)
    ensures SameLocals(heap, [], s.global, s)
  {
    assert s.global[0..] == s.global;
  }

  lemma DefinesOne(s: M.State, sym: L.symbol, x: M.Val)
    ensures forall y :: M.Find(s.global, y).None? && y != MakeSymbol(sym) ==>
              M.Find(M.Define(MakeSymbol(sym), x, s).global, y).None?
  {
    assert ([(MakeSymbol(sym), |s.store|)] + s.global)[1..] == s.global;
  }

  lemma FunctionSame(heap: seq<(L.Value, L.Value)>, ps: seq<L.symbol>, body: L.SExpr, all: M.Env)
    ensures Same(heap, L.VFun(ps, body), M.Closure(ParamTree(ps), Tree(body), all), all)
  {
    assert all[0..] == all;
  }

  lemma {:induction false} SymbolsTree(e: L.SExpr, ps: seq<L.symbol>)
    requires L.Symbols(e) == Some(ps)
    ensures Tree(e) == ParamTree(ps)
    decreases e
  {
    if e.Pair? {
      var rest := L.Symbols(e.cdr).value;
      SymbolsTree(e.cdr, rest);
      assert ps == [e.car.i] + rest && ps[1..] == rest;
    }
  }

  lemma DefineIs(g: nat, e: L.SExpr, s: M.State)
    requires e.Pair? && e.car == L.Sym(4)
    ensures M.Eval(P.Pure, g, Tree(e), s.global, s, [])
         == if g == 0 then M.Stuck else M.DefineForm(P.Pure, g - 1, Tree(e.cdr), s.global, s, [])
  {
    hide M.DefineForm;
  }

  /** `(define name (lambda (parameters) body))`. */
  lemma FnForm(bud: L.Budget, fuel: nat, g: nat, e: L.SExpr, sym: L.symbol, ps: seq<L.symbol>, body: L.SExpr,
               w: L.World, s: M.State)
    requires TopForm(e) && L.View(e) == L.DefineFn(sym, ps, body)
    requires M.Eval(P.Pure, g, Tree(e), s.global, s, []).Done?
    ensures L.Eval(bud, fuel, e, [], w)
         == L.Done(L.VFun(ps, body), w.(globals := w.globals[sym := L.VFun(ps, body)]), 0)
    ensures var fn := M.Closure(ParamTree(ps), Tree(body), s.global);
      M.Eval(P.Pure, g, Tree(e), s.global, s, []) == M.Done(fn, M.Define(MakeSymbol(sym), fn, s))
  {
    hide First, M.Eval, L.Symbols, M.BodyOf;
    FnShape(e, sym, ps, body);
    SymbolsTree(e.cdr.cdr.car.cdr.car, ps);
    hide L.View;
    var value := e.cdr.cdr.car;
    DefineIs(g, e, s);
    assert Tree(e.cdr) == M.Pair(M.Atom(MakeSymbol(sym)), M.Pair(Tree(value), Tree(e.cdr.cdr.cdr)));
    LambdaForm(g - 2, value, Tree(value.cdr.car), body, s);
  }

  lemma LambdaForm(g: nat, value: L.SExpr, ps: M.Val, body: L.SExpr, s: M.State)
    requires value.Pair? && value.car == L.Sym(5) && value.cdr.Pair? && ps == Tree(value.cdr.car)
    requires value.cdr.cdr == L.Pair(body, L.NIL)
    ensures M.Eval(P.Pure, g, Tree(value), s.global, s, [])
         == if g == 0 then M.Stuck else M.Done(M.Closure(ps, Tree(body), s.global), s)
  {
    assert Tree(value.cdr) == M.Pair(ps, M.Pair(Tree(body), M.NIL)) by {
      assert Tree(value.cdr.cdr) == M.Pair(Tree(body), M.NIL);
    }
    assert M.BodyOf(M.Pair(Tree(body), M.NIL)) == Some(Tree(body));
  }

  lemma FnShape(e: L.SExpr, sym: L.symbol, ps: seq<L.symbol>, body: L.SExpr)
    requires TopForm(e) && L.View(e) == L.DefineFn(sym, ps, body)
    ensures e.Pair? && e.car == L.Sym(4) && e.cdr.Pair? && e.cdr.car == L.Sym(sym) && e.cdr.cdr.Pair?
    ensures User(sym) && var value := e.cdr.cdr.car;
      && value.Pair? && value.car == L.Sym(5) && value.cdr.Pair? && L.Symbols(value.cdr.car) == Some(ps)
      && value.cdr.cdr == L.Pair(body, L.NIL)
  {
    hide First, L.Size, L.Elements, L.ViewPrim, L.ViewIf;
  }

  /** `(define name expression)`. */
  lemma VariableForm(bud: L.Budget, fuel: nat, g: nat, e: L.SExpr, sym: L.symbol, e1: L.SExpr, w: L.World, s: M.State)
    requires TopForm(e) && L.View(e) == L.Define(sym, e1) && L.Eval(bud, fuel, e, [], w).Done?
    requires Quietly(s, M.Eval(P.Pure, g, Tree(e), s.global, s, []))
    ensures g > 1 && First(e1) && User(sym)
    ensures var l, l1 := L.Eval(bud, fuel, e, [], w), L.Eval(bud, fuel, e1, [], w);
      && l1.Done? && l.value == l1.value && l.world == l1.world.(globals := l1.world.globals[sym := l1.value])
    ensures var r, r1 := M.Eval(P.Pure, g, Tree(e), s.global, s, []), M.Eval(P.Pure, g - 2, Tree(e1), s.global, s, []);
      && Quietly(s, r1) && r == M.Done(r1.v, M.Define(MakeSymbol(sym), r1.v, r1.s))
  {
    hide First, M.Onward, M.Eval;
    VariableShape(e, sym, e1);
    hide L.View;
    DefineIs(g, e, s);
    assert Tree(e.cdr) == M.Pair(M.Atom(MakeSymbol(sym)), M.Pair(Tree(e1), Tree(e.cdr.cdr.cdr)));
  }

  lemma VariableShape(e: L.SExpr, sym: L.symbol, e1: L.SExpr)
    requires TopForm(e) && L.View(e) == L.Define(sym, e1)
    ensures e.Pair? && e.car == L.Sym(4) && e.cdr.Pair? && e.cdr.car == L.Sym(sym) && e.cdr.cdr.Pair?
    ensures e.cdr.cdr.car == e1 && First(e1) && User(sym)
  {
    hide First, L.Size, L.Elements, L.ViewPrim, L.ViewIf;
  }

  /** The forms of a program at the prompt, one after the other. */
  function Session(g: nat, forms: seq<L.SExpr>, s: M.State): (r: M.Result)
    requires forms != []
    ensures M.Onward(s, r)
  {
    var r := M.Eval(P.Pure, g, Tree(forms[0]), s.global, s, []);
    if |forms| == 1 then r
    else
      match r
      case Done(_, s1) => Session(g, forms[1..], s1)
      case other => other
  }

  predicate Program(es: seq<L.SExpr>) {
    && (forall i :: 0 <= i < |es| ==> TopForm(es[i]))
    && forall i, j :: 0 <= i < j < |es| && Defined(es[i]).Some? ==> Defined(es[j]) != Defined(es[i])
  }

  predicate Undefined(es: seq<L.SExpr>, s: M.State) {
    forall i :: 0 <= i < |es| && Defined(es[i]).Some? ==> M.Find(s.global, MakeSymbol(Defined(es[i]).value)).None?
  }

  /** A program that defines no name twice. */
  lemma {:induction false} ProgramsAgree(bud: L.Budget, fuel: nat, g: nat, es: seq<L.SExpr>, w: L.World, s: M.State)
    requires es != [] && Program(es) && Undefined(es, s) && Linked(w, s)
    requires L.EvalSeq(bud, fuel, es, [], w).Done? && Quietly(s, Session(g, es, s))
    ensures var l, r := L.EvalSeq(bud, fuel, es, [], w), Session(g, es, s);
      Linked(l.world, r.s) && Same(l.world.heap, l.value, r.v, r.s.global)
    decreases |es|
  {
    hide Linked, Same, TopForm, Defined, L.Eval, M.Eval, M.Find;
    var l1, r1 := L.Eval(bud, fuel, es[0], [], w), M.Eval(P.Pure, g, Tree(es[0]), s.global, s, []);
    if |es| > 1 {
      PartQuiet(s, r1, Session(g, es[1..], r1.s));
    }
    TopAgrees(bud, fuel, g, es[0], w, s);
    if |es| > 1 {
      ProgramsAgree(bud, fuel, g, es[1..], l1.world, r1.s);
    }
  }

  lemma {:induction false} StartNames(n: nat)
    requires n <= |R.PRIMITIVES|
    ensures var all := R.DefineAll(n).global;
      |all| == n && forall i :: 0 <= i < n ==> all[i].0 == MakeSymbol(13 + n - i)
    decreases n
  {
    if n > 0 {
      StartNames(n - 1);
    }
  }

  lemma StartLinked()
    ensures Linked(CompileProgram.EMPTY, R.START)
  {
    hide First;
    var n := |R.PRIMITIVES|;
    StartNames(n);
    forall i | 0 <= i < n ensures HasPrimitive(R.START, i) {
      R.StartFinds(n, i);
    }
    forall sym: L.symbol | User(sym) ensures SameGlobal(CompileProgram.EMPTY, R.START, sym) {
      FindNone(R.START.global, MakeSymbol(sym));
    }
  }

  /** A whole program, from the start of either. */
  lemma ProgramAgrees(bud: L.Budget, fuel: nat, g: nat, es: seq<L.SExpr>)
    requires es != [] && Program(es)
    requires L.EvalSeq(bud, fuel, es, [], CompileProgram.EMPTY).Done? && Quietly(R.START, Session(g, es, R.START))
    ensures var l, r := L.EvalSeq(bud, fuel, es, [], CompileProgram.EMPTY), Session(g, es, R.START);
      Same(l.world.heap, l.value, r.v, r.s.global)
  {
    hide Linked, Same, Session, L.EvalSeq, First, M.Find;
    StartLinked();
    StartUndefined(es);
    ProgramsAgree(bud, fuel, g, es, CompileProgram.EMPTY, R.START);
  }

  lemma StartUndefined(es: seq<L.SExpr>)
    requires Program(es)
    ensures Undefined(es, R.START)
  {
    hide First, M.Find;
    StartNames(|R.PRIMITIVES|);
    forall i | 0 <= i < |es| && Defined(es[i]).Some?
      ensures M.Find(R.START.global, MakeSymbol(Defined(es[i]).value)).None?
    {
      assert TopForm(es[i]);
      FindNone(R.START.global, MakeSymbol(Defined(es[i]).value));
    }
  }

  /** A compiled program leaves in r0 the word of the number or symbol that the interpreter makes of
      the same program. */
  lemma CompiledAsInterpreted(img: Cor24.Image, exprs: seq<L.SExpr>, fuel: nat, m: Cor24.Machine, l: L.Outcome, g: nat)
      returns (m': Cor24.Machine)
    requires Cor24.Wired(img) && img.code == Codegen.GenProgram(exprs).0 && CompileProgram.Boot(img, m) && exprs != []
    requires l == L.EvalSeq(L.Budget(img.need, img.capacity), fuel, exprs, [], CompileProgram.EMPTY) && l.Done?
    requires CompileCorrect.Room(img, m, 9 + l.deep) && Program(exprs) && Quietly(R.START, Session(g, exprs, R.START))
    ensures Cor24.Runs(img, m, m') && m'.pc == img.target(m.r1) && m'.sp == m.sp && m'.fp == m.fp
    ensures var x := Session(g, exprs, R.START).v; x.Atom? ==> m'.r0 == Words24.Wrap(x.w)
  {
    hide Cor24.Wired, Codegen.GenProgram, CompileProgram.Boot, L.EvalSeq, CompileCorrect.Room, Program, Session,
         Cor24.Runs;
    m' := CompileProgram.ProgramCorrect(img, exprs, fuel, m, l);
    ProgramAgrees(L.Budget(img.need, img.capacity), fuel, g, exprs);
  }

  // Where they differ

  /** Numbers are their own values. */
  lemma {:induction false} NumbersThemselves(g: nat, ns: seq<Words24.fixnum>, es: seq<L.SExpr>, env: M.Env, s: M.State,
                                             live: seq<int>)
    requires g > |ns| + 1 && |es| == |ns| && forall i :: 0 <= i < |ns| ==> es[i] == L.Fix(ns[i])
    ensures M.Args(P.Pure, g, Trees(es), env, s, live) == M.Done(Trees(es), s)
    ensures P.OperandsOf(Trees(es)) == P.Numbers(ns)
    decreases |ns|
  {
    if ns != [] {
      assert M.Eval(P.Pure, g - 1, Tree(es[0]), env, s, live) == M.Done(Tree(es[0]), s);
      NumbersThemselves(g - 1, ns[1..], es[1..], env, s, live);
      assert [ns[0]] + ns[1..] == ns;
    }
  }

  /** The interpreter adds all the numbers. */
  lemma AddsAll(g: nat, ns: seq<Words24.fixnum>, es: seq<L.SExpr>, e: L.SExpr)
    requires g > |ns| + 5 && |es| == |ns| && forall i :: 0 <= i < |ns| ==> es[i] == L.Fix(ns[i])
    requires e.Pair? && e.car == L.Sym(14) && Tree(e.cdr) == Trees(es)
    ensures M.Eval(P.Pure, g, Tree(e), R.START.global, R.START, [])
         == M.Done(P.Number(P.Sum(ns)), R.START.Print([]))
  {
    hide Linked, SameLocals, M.Args, M.Lookup, M.Onward, Tree, Trees, P.OperandsOf, P.NumberWord, M.Eval;
    var s := R.START;
    StartLinked();
    TopLocals([], s);
    PlusIs(g - 1);
    NumbersThemselves(g - 2, ns, es, s.global, s, []);
    TreesTwo(es);
    PrimitiveForward(g, 0, e, Trees(es), s.global, s, []);
  }

  lemma TreesTwo(es: seq<L.SExpr>)
    ensures M.TwoOf(Trees(es))
  {
  }

  lemma PlusIs(g: nat)
    requires g > 0
    ensures M.Eval(P.Pure, g, M.Atom(MakeSymbol(14)), R.START.global, R.START, []) == M.Done(M.Primitive(0), R.START)
  {
    StartLinked();
    TopLocals([], R.START);
    hide Linked, SameLocals, M.Lookup;
    PrimitiveFound(CompileProgram.EMPTY, R.START, [], R.START.global, 0);
  }

  lemma PrimitiveForward(g: nat, i: nat, e: L.SExpr, x: M.Val, env: M.Env, s: M.State, live: seq<int>)
    requires g > 3 && i < 16 && e.Pair? && e.car == L.Sym(14 + i) && P.Pure(i, x).Some? && M.TwoOf(x)
    requires M.Eval(P.Pure, g - 1, M.Atom(MakeSymbol(14 + i)), env, s, live) == M.Done(M.Primitive(i), s)
    requires M.Args(P.Pure, g - 2, Tree(e.cdr), env, s, live) == M.Done(x, s)
    ensures M.Eval(P.Pure, g, Tree(e), env, s, live) == M.Done(P.Pure(i, x).value.0, s.Print(P.Pure(i, x).value.1))
  {
    hide M.Args, P.Pure, M.Onward, M.Bind;
    var r := M.Done(P.Pure(i, x).value.0, s.Print(P.Pure(i, x).value.1));
    assert M.ApplyPrim(P.Pure, g - 3, i, x, s, live) == r by {
      hide M.Eval, M.Apply, M.Expand;
    }
    hide M.ApplyPrim;
    assert M.Call(P.Pure, g - 1, M.Primitive(i), Tree(e.cdr), env, s, live) == r by {
      hide M.Eval;
    }
    hide M.Call, M.If, M.Begin, M.Quasi, M.DefineForm, M.Set, M.Catch;
  }

  lemma ThreeTrees(x: Words24.fixnum, y: Words24.fixnum, z: Words24.fixnum)
    ensures Tree(L.Pair(L.Fix(x), L.Pair(L.Fix(y), L.Pair(L.Fix(z), L.NIL)))) == Trees([L.Fix(x), L.Fix(y), L.Fix(z)])
  {
    TwoTrees(L.Fix(y), L.Fix(z));
    assert [L.Fix(x), L.Fix(y), L.Fix(z)][1..] == [L.Fix(y), L.Fix(z)];
  }

  lemma SumOfThree(x: int, y: int, z: int)
    ensures P.Sum([x, y, z]) == x + y + z
  {
    assert [x, y, z][1..] == [y, z] && [y, z][1..] == [z] && [z][1..] == [];
    assert P.Sum([z]) == z && P.Sum([y, z]) == y + z;
  }

  lemma AddsTwo(bud: L.Budget, fuel: nat, e: L.SExpr, x: Words24.fixnum, y: Words24.fixnum)
    requires e.Pair? && e.car == L.Sym(14) && e.cdr.Pair? && e.cdr.car == L.Fix(x)
    requires e.cdr.cdr.Pair? && e.cdr.cdr.car == L.Fix(y)
    ensures var l := L.Eval(bud, fuel, e, [], CompileProgram.EMPTY);
      l.Done? && l.value == L.VFix(Words24.Fold(x + y)) && l.world == CompileProgram.EMPTY
  {
    hide Words24.Fold, L.Size, L.Elements;
    assert L.View(e) == L.Binary(L.AddOp, L.Fix(x), L.Fix(y));
    var w := CompileProgram.EMPTY;
    assert L.Eval(bud, fuel, L.Fix(x), [], w) == L.Done(L.VFix(x), w, 0);
    assert L.Eval(bud, fuel, L.Fix(y), [], w) == L.Done(L.VFix(y), w, 0);
  }

  lemma SumsSame(n: int, z: Words24.fixnum, all: M.Env)
    ensures Same([], L.VFix(Words24.Fold(n)), P.Number(n + z), all) <==> z == 0
  {
  }

  /** The compiled code adds two numbers, the interpreter all: for three of them the values are the
      same if and only if the third is 0. */
  lemma ThreeOperandsDiffer(bud: L.Budget, fuel: nat, g: nat, x: Words24.fixnum, y: Words24.fixnum, z: Words24.fixnum)
    requires g > 8
    ensures var e := L.Pair(L.Sym(14), L.Pair(L.Fix(x), L.Pair(L.Fix(y), L.Pair(L.Fix(z), L.NIL))));
      var l := L.Eval(bud, fuel, e, [], CompileProgram.EMPTY);
      var r := M.Eval(P.Pure, g, Tree(e), R.START.global, R.START, []);
      && l.Done? && r.Done? && r.s.out == R.START.out
      && (Same(l.world.heap, l.value, r.v, r.s.global) <==> z == 0)
  {
    hide Tree, Trees, L.Eval, M.Eval, P.Sum, Same, Words24.Fold, P.NumberWord;
    var e := L.Pair(L.Sym(14), L.Pair(L.Fix(x), L.Pair(L.Fix(y), L.Pair(L.Fix(z), L.NIL))));
    ThreeTrees(x, y, z);
    AddsAll(g, [x, y, z], [L.Fix(x), L.Fix(y), L.Fix(z)], e);
    SumOfThree(x, y, z);
    AddsTwo(bud, fuel, e, x, y);
    SumsSame(x + y, z, R.START.global);
  }
}
