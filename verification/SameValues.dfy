/** What the compiler and the interpreter hold of a program: the forms they are given, the values
    they compute, their variables and operators. */
module SameValues {
  import opened Tml
  import opened FirstOrder
  import opened Wrappers
  import L = LispSource
  import M = Meaning
  import P = Primitives
  import R = ReadMeans

  // Expressions and values

  /** The form the compiler and the interpreter are given. */
  function Tree(e: L.SExpr): M.Val {
    match e
    case Fix(n) => M.Atom(MakeFixnum(n))
    case Sym(i) => M.Atom(MakeSymbol(i))
    case Pair(a, d) => M.Pair(Tree(a), Tree(d))
    case Obj => M.Object(MakeExtended(0))
  }

  function Trees(es: seq<L.SExpr>): M.Val { if es == [] then M.NIL else M.Pair(Tree(es[0]), Trees(es[1..])) }

  function ParamTree(ps: seq<L.symbol>): M.Val {
    if ps == [] then M.NIL else M.Pair(M.Atom(MakeSymbol(ps[0])), ParamTree(ps[1..]))
  }

  /** An environment some definitions ago. */
  predicate Base(env: M.Env, all: M.Env) { |env| <= |all| && env == all[|all| - |env|..] }

  /** The same value for both; a function has the same parameters and the same body, and knows the
      globals there were. */
  predicate Same(heap: seq<(L.Value, L.Value)>, v: L.Value, x: M.Val, all: M.Env)
    decreases x
  {
    match x
    case Atom(w) => (v.VFix? && w == MakeFixnum(v.n)) || (v.VSym? && w == MakeSymbol(v.i))
    case Pair(a, d) => v.VPair? && v.id < |heap| && Same(heap, heap[v.id].0, a, all) && Same(heap, heap[v.id].1, d, all)
    case Closure(ps, body, env) => v.VFun? && ps == ParamTree(v.params) && body == Tree(v.body) && Base(env, all)
    case _ => false
  }

  predicate SameList(heap: seq<(L.Value, L.Value)>, vs: seq<L.Value>, x: M.Val, all: M.Env)
    decreases |vs|
  {
    if vs == [] then x == M.NIL
    else x.Pair? && Same(heap, vs[0], x.car, all) && SameList(heap, vs[1..], x.cdr, all)
  }

  // Worlds and states

  /** No name is defined twice. */
  predicate Once(all: M.Env) { forall i, j :: 0 <= i < j < |all| ==> all[i].0 != all[j].0 }

  /** A global of this name is the same for both. */
  predicate SameGlobal(w: L.World, s: M.State, sym: L.symbol) {
    match M.Find(s.global, MakeSymbol(sym))
    case Some(place) =>
      sym in w.globals && place < |s.store| && Same(w.heap, w.globals[sym], s.store[place], s.global)
    case None => sym !in w.globals
  }

  predicate HasPrimitive(s: M.State, i: nat) {
    match M.Find(s.global, MakeSymbol(14 + i))
    case Some(place) => place < |s.store| && s.store[place] == M.Primitive(i)
    case None => false
  }

  predicate Linked(w: L.World, s: M.State) {
    && FirstWorld(w) && Once(s.global)
    && (forall i :: 0 <= i < |R.PRIMITIVES| ==> HasPrimitive(s, i))
    && forall sym: L.symbol :: User(sym) ==> SameGlobal(w, s, sym)
  }

  /** The parameters in front, and behind them the globals there were. */
  predicate SameLocals(heap: seq<(L.Value, L.Value)>, loc: L.Locals, env: M.Env, s: M.State) {
    && FirstLocals(loc) && |loc| <= |env| && Base(env[|loc|..], s.global)
    && forall i {:trigger loc[i]} :: 0 <= i < |loc| ==>
         && env[i].0 == MakeSymbol(loc[i].0) && env[i].1 < |s.store|
         && Same(heap, loc[i].1, s.store[env[i].1], s.global)
  }

  /** Variables of the interpreter that are added are not seen. */
  predicate Further(s: M.State, s1: M.State) { s.store <= s1.store && s1.global == s.global && s1.out == s.out }

  lemma {:induction false} SameKept(heap: seq<(L.Value, L.Value)>, heap1: seq<(L.Value, L.Value)>, v: L.Value,
                                    x: M.Val, all: M.Env)
    requires Same(heap, v, x, all) && heap <= heap1
    ensures Same(heap1, v, x, all)
    decreases x
  {
    if x.Pair? {
      SameKept(heap, heap1, heap[v.id].0, x.car, all);
      SameKept(heap, heap1, heap[v.id].1, x.cdr, all);
    }
  }

  lemma {:induction false} ListKept(heap: seq<(L.Value, L.Value)>, heap1: seq<(L.Value, L.Value)>, vs: seq<L.Value>,
                                    x: M.Val, all: M.Env)
    requires SameList(heap, vs, x, all) && heap <= heap1
    ensures SameList(heap1, vs, x, all)
    decreases |vs|
  {
    if vs != [] {
      SameKept(heap, heap1, vs[0], x.car, all);
      ListKept(heap, heap1, vs[1..], x.cdr, all);
    }
  }

  lemma LinkedKept(w: L.World, s: M.State, w1: L.World, s1: M.State)
    requires Linked(w, s) && Keeps(w, w1) && Further(s, s1)
    ensures Linked(w1, s1)
  {
    hide FirstWorld, Same;
    forall i | 0 <= i < |R.PRIMITIVES| ensures HasPrimitive(s1, i) {
      assert HasPrimitive(s, i);
    }
    forall sym: L.symbol | User(sym) ensures SameGlobal(w1, s1, sym) {
      assert SameGlobal(w, s, sym);
      var place := M.Find(s.global, MakeSymbol(sym));
      if place.Some? {
        SameKept(w.heap, w1.heap, w.globals[sym], s.store[place.value], s.global);
      }
    }
  }

  lemma LocalsKept(w: L.World, w1: L.World, loc: L.Locals, env: M.Env, s: M.State, s1: M.State)
    requires SameLocals(w.heap, loc, env, s) && Keeps(w, w1) && Further(s, s1)
    ensures SameLocals(w1.heap, loc, env, s1)
  {
    hide FirstWorld, Same, FirstLocals;
    forall i | 0 <= i < |loc| ensures Same(w1.heap, loc[i].1, s1.store[env[i].1], s1.global) {
      SameKept(w.heap, w1.heap, loc[i].1, s.store[env[i].1], s.global);
    }
  }

  // Variables

  /** What is found in an environment some definitions ago is what is found now. */
  lemma {:induction false} FindBase(env: M.Env, all: M.Env, sym: int)
    requires Base(env, all) && Once(all) && M.Find(env, sym).Some?
    ensures M.Find(all, sym) == M.Find(env, sym)
    decreases |all|
  {
    if |env| < |all| {
      FindIn(env, sym);
      assert env == all[1..][|all[1..]| - |env|..];
      FindBase(env, all[1..], sym);
    } else {
      assert env == all;
    }
  }

  lemma {:induction false} FindIn(env: M.Env, sym: int)
    requires M.Find(env, sym).Some?
    ensures exists i :: 0 <= i < |env| && env[i].0 == sym
  {
    if env[0].0 != sym {
      FindIn(env[1..], sym);
      var i :| 0 <= i < |env[1..]| && env[1..][i].0 == sym;
      assert env[i + 1].0 == sym;
    }
  }

  /** Behind parameters that do not have the name. */
  lemma {:induction false} FindBehind(loc: L.Locals, env: M.Env, sym: L.symbol)
    requires |loc| <= |env| && (forall i :: 0 <= i < |loc| ==> env[i].0 == MakeSymbol(loc[i].0))
    requires forall i :: 0 <= i < |loc| ==> loc[i].0 != sym
    ensures M.Find(env, MakeSymbol(sym)) == M.Find(env[|loc|..], MakeSymbol(sym))
    decreases |loc|
  {
    if loc != [] {
      FindBehind(loc[1..], env[1..], sym);
      assert env[1..][|loc[1..]|..] == env[|loc|..];
    } else {
      assert env[0..] == env;
    }
  }

  /** The first of the parameters that has the name. */
  lemma {:induction false} FindLocal(loc: L.Locals, env: M.Env, sym: L.symbol)
    requires |loc| <= |env| && (forall i :: 0 <= i < |loc| ==> env[i].0 == MakeSymbol(loc[i].0))
    ensures L.Local(sym, loc).None? ==> forall i :: 0 <= i < |loc| ==> loc[i].0 != sym
    ensures L.Local(sym, loc).Some? ==>
              exists i :: 0 <= i < |loc| && L.Local(sym, loc) == Some(loc[i].1)
                && M.Find(env, MakeSymbol(sym)) == Some(env[i].1)
    decreases |loc|
  {
    if loc != [] && loc[0].0 != sym {
      FindLocal(loc[1..], env[1..], sym);
      if L.Local(sym, loc).Some? {
        var i :| 0 <= i < |loc[1..]| && L.Local(sym, loc[1..]) == Some(loc[1..][i].1)
          && M.Find(env[1..], MakeSymbol(sym)) == Some(env[1..][i].1);
        assert loc[i + 1] == loc[1..][i] && env[i + 1] == env[1..][i];
      }
    } else if loc != [] {
      assert L.Local(sym, loc) == Some(loc[0].1);
    }
  }

  /** A variable has the same value, if it has one. */
  lemma LookupSame(w: L.World, s: M.State, loc: L.Locals, env: M.Env, sym: L.symbol)
    requires Linked(w, s) && SameLocals(w.heap, loc, env, s) && User(sym)
    requires M.Lookup(env, s, MakeSymbol(sym)).Some?
    ensures var place := M.Lookup(env, s, MakeSymbol(sym)).value;
      place < |s.store| && Same(w.heap, L.Lookup(sym, loc, w), s.store[place], s.global)
  {
    hide Same, FirstWorld, FirstLocals, HasPrimitive, M.Find, L.Local;
    FindLocal(loc, env, sym);
    if L.Local(sym, loc).None? {
      FindBehind(loc, env, sym);
      var base := env[|loc|..];
      if M.Find(base, MakeSymbol(sym)).Some? {
        FindBase(base, s.global, MakeSymbol(sym));
      }
      assert SameGlobal(w, s, sym);
    }
  }

  /** The name of a primitive finds the primitive. */
  lemma PrimitiveFound(w: L.World, s: M.State, loc: L.Locals, env: M.Env, i: nat)
    requires Linked(w, s) && SameLocals(w.heap, loc, env, s) && i < |R.PRIMITIVES|
    ensures var place := M.Lookup(env, s, MakeSymbol(14 + i));
      place.Some? && place.value < |s.store| && s.store[place.value] == M.Primitive(i)
  {
    hide Same, FirstWorld, SameGlobal, M.Find;
    FindBehind(loc, env, 14 + i);
    var base := env[|loc|..];
    if M.Find(base, MakeSymbol(14 + i)).Some? {
      FindBase(base, s.global, MakeSymbol(14 + i));
    }
    assert HasPrimitive(s, i);
  }

  // Operators

  function Id1(op: L.Op1): nat {
    match op
    case CarOp => 8
    case CdrOp => 9
    case NullOp => 11
    case PairOp => 12
    case NotOp => 15
    case PrintOp => 16
  }

  function Id2(op: L.Op2): nat {
    match op
    case AddOp => 0
    case SubOp => 1
    case MulOp => 2
    case LessOp => 5
    case EqualOp => 6
    case ConsOp => 7
  }

  lemma OperatorSame(op: L.Op1, v: L.Value, x: M.Val, w: L.World, all: M.Env)
    requires Same(w.heap, v, x, all) && !op.PrintOp? && L.Apply1(op, v, w).Some?
    requires P.Pure(Id1(op), M.Pair(x, M.NIL)).Some? && P.Pure(Id1(op), M.Pair(x, M.NIL)).value.1 == []
    ensures var (r, w1) := L.Apply1(op, v, w).value;
      Same(w1.heap, r, P.Pure(Id1(op), M.Pair(x, M.NIL)).value.0, all)
  {
  }

  lemma OperatorsSame(op: L.Op2, a: L.Value, x: M.Val, b: L.Value, y: M.Val, w: L.World, pairs: nat, all: M.Env)
    requires Same(w.heap, a, x, all) && Same(w.heap, b, y, all) && L.Apply2(op, a, b, w, pairs).Some?
    requires var r := P.Pure(Id2(op), M.Pair(x, M.Pair(y, M.NIL))); r.Some? && r.value.1 == []
    ensures var (r, w1) := L.Apply2(op, a, b, w, pairs).value;
      Same(w1.heap, r, P.Pure(Id2(op), M.Pair(x, M.Pair(y, M.NIL))).value.0, all)
  {
    if op.ConsOp? {
      var heap1 := w.heap + [(a, b)];
      SameKept(w.heap, heap1, a, x, all);
      SameKept(w.heap, heap1, b, y, all);
    } else if op.LessOp? || op.EqualOp? {
      ComparedSame(op, a, x, b, y, w, pairs, all);
    } else {
      hide P.Pure;
      ArithmeticSame(Id2(op), a.n, b.n);
    }
  }

  lemma ComparedSame(op: L.Op2, a: L.Value, x: M.Val, b: L.Value, y: M.Val, w: L.World, pairs: nat, all: M.Env)
    requires Same(w.heap, a, x, all) && Same(w.heap, b, y, all) && L.Apply2(op, a, b, w, pairs).Some?
    requires op.LessOp? || op.EqualOp?
    requires var r := P.Pure(Id2(op), M.Pair(x, M.Pair(y, M.NIL))); r.Some? && r.value.1 == []
    ensures var (r, w1) := L.Apply2(op, a, b, w, pairs).value;
      Same(w1.heap, r, P.Pure(Id2(op), M.Pair(x, M.Pair(y, M.NIL))).value.0, all)
  {
    hide P.OperandsOf;
    assert P.IsNumber(x) && P.IsNumber(y) && a.VFix? && b.VFix?;
  }

  lemma ArithmeticSame(id: nat, m: int, n: int)
    requires id < 3
    ensures P.Pure(id, M.Pair(M.Atom(MakeFixnum(m)), M.Pair(M.Atom(MakeFixnum(n)), M.NIL)))
         == Some((P.Number(if id == 0 then m + n else if id == 1 then m - n else m * n), []))
  {
    hide P.NumberWord;
    var x, y := M.Atom(MakeFixnum(m)), M.Atom(MakeFixnum(n));
    assert P.OperandsOf(M.Pair(y, M.NIL)) == P.Numbers([n]);
    assert P.OperandsOf(M.Pair(x, M.Pair(y, M.NIL))) == P.Numbers([m, n]);
    assert P.Sum([n]) == n && P.Product([n]) == n;
    assert [m, n][1..] == [n];
  }

  // Lists of forms

  lemma {:induction false} TreesOf(e: L.SExpr, es: seq<L.SExpr>)
    requires L.Elements(e) == Some(es)
    ensures Tree(e) == Trees(es)
    decreases e
  {
    if e.Pair? {
      var rest := L.Elements(e.cdr).value;
      TreesOf(e.cdr, rest);
      assert es == [e.car] + rest && es[1..] == rest;
    }
  }

  /** What is called. */
  lemma CallShape(e: L.SExpr, head: L.SExpr, es: seq<L.SExpr>)
    requires L.View(e) == L.Call(head, es) && First(e)
    ensures e.Pair? && e.car == head && Tree(e.cdr) == Trees(es) && (head.Sym? ==> User(head.i))
    ensures First(head) && Firsts(es)
  {
    hide L.Size, L.Symbols, L.LambdaParts, L.ViewIf, L.ViewDefine, L.ViewPrim, L.Smaller;
    TreesOf(e.cdr, es);
  }

  lemma UnaryShape(e: L.SExpr, op: L.Op1, a: L.SExpr)
    requires L.View(e) == L.Unary(op, a) && First(e)
    ensures e.Pair? && e.car == L.Sym(14 + Id1(op)) && Tree(e.cdr) == Trees([a]) && First(a) && !op.PrintOp?
  {
    hide L.Size, L.Symbols, L.LambdaParts, L.ViewIf, L.ViewDefine, L.Smaller, L.Elements;
    assert [a][1..] == [];
  }

  lemma BinaryShape(e: L.SExpr, op: L.Op2, a: L.SExpr, b: L.SExpr)
    requires L.View(e) == L.Binary(op, a, b) && First(e)
    ensures e.Pair? && e.car == L.Sym(14 + Id2(op)) && Tree(e.cdr) == Trees([a, b]) && First(a) && First(b)
  {
    hide L.View, Tree, Trees, First, L.Prim2, Pairs;
    FirstOperands(e, op, a, b);
    BinaryView(e, op, a, b);
    Named2(e.car.i, op);
    ThreeElements(e);
    TwoTrees(a, b);
  }

  lemma BinaryView(e: L.SExpr, op: L.Op2, a: L.SExpr, b: L.SExpr)
    requires L.View(e) == L.Binary(op, a, b)
    ensures e.Pair? && e.car.Sym? && L.Prim2(e.car.i) == Some(op) && a == L.Arg1(e.cdr) && b == L.Arg2(e.cdr)
  {
    hide L.Size, L.Symbols, L.LambdaParts, L.ViewIf, L.ViewDefine, L.Smaller, L.Elements, L.Prim1, L.Prim2;
  }

  lemma Named2(i: L.symbol, op: L.Op2)
    requires L.Prim2(i) == Some(op)
    ensures i == 14 + Id2(op)
  {
  }

  lemma ThreeElements(e: L.SExpr)
    requires Pairs(e, 3)
    ensures e.Pair? && e.cdr == L.Pair(L.Arg1(e.cdr), L.Pair(L.Arg2(e.cdr), L.NIL))
  {
    assert Pairs(e.cdr, 2) && Pairs(e.cdr.cdr, 1) && Pairs(e.cdr.cdr.cdr, 0);
  }

  lemma TwoTrees(a: L.SExpr, b: L.SExpr)
    ensures Tree(L.Pair(a, L.NIL)) == Trees([a]) && Tree(L.Pair(a, L.Pair(b, L.NIL))) == Trees([a, b])
  {
    assert [a, b][1..] == [b] && [b][1..] == [] && [a][1..] == [];
    assert Tree(L.Pair(b, L.NIL)) == Trees([b]);
  }

  lemma FirstOperands(e: L.SExpr, op: L.Op2, a: L.SExpr, b: L.SExpr)
    requires L.View(e) == L.Binary(op, a, b) && First(e)
    ensures Pairs(e, 3) && First(a) && First(b)
  {
    hide L.View, Pairs;
  }

  lemma IfShape(e: L.SExpr, t: L.SExpr, a: L.SExpr, b: L.SExpr)
    requires L.View(e) == L.If(t, a, b) && First(e)
    ensures e.Pair? && e.car == L.Sym(3) && e.cdr.Pair? && e.cdr.car == t && e.cdr.cdr.Pair? && e.cdr.cdr.car == a
    ensures var rest := e.cdr.cdr.cdr; (rest == L.NIL && b == L.NIL) || (rest.Pair? && rest.car == b)
    ensures First(t) && First(a) && First(b)
  {
    hide L.Size, L.Symbols, L.LambdaParts, L.ViewDefine, L.ViewPrim, L.Smaller, L.Elements;
  }

  lemma BeginShape(e: L.SExpr, es: seq<L.SExpr>)
    requires L.View(e) == L.Begin(es) && First(e)
    ensures e.Pair? && e.car == L.Sym(7) && Tree(e.cdr) == Trees(es) && es != [] && Firsts(es)
  {
    hide L.Size, L.Symbols, L.LambdaParts, L.ViewDefine, L.ViewPrim, L.Smaller, L.ViewIf;
    TreesOf(e.cdr, es);
  }

  lemma QuoteShape(e: L.SExpr, d: L.SExpr)
    requires L.View(e) == L.Quote(d) && First(e)
    ensures e.Pair? && e.car == L.Sym(2) && e.cdr.Pair? && e.cdr.car == d && PlainData(d)
  {
    hide L.Size, L.Symbols, L.LambdaParts, L.ViewDefine, L.ViewPrim, L.Smaller, L.ViewIf, L.Elements;
  }
}
