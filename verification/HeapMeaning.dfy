/** How the heap of the interpreter holds the values and variables of Meaning, and that the steps
    of an evaluation keep it so. */
module HeapMeaning {
  import opened Tml
  import opened Exceptions
  import opened EvalFrame
  import M = Meaning

  /** A world, the kinds of its cells, and the bindings that are the places of the store. */
  datatype Heap = Heap(k: seq<Kind>, w: World, locs: seq<int>)

  /** Environment list `e` is `env`. Binding nil, as the end of a parameter list does, counts for
      nothing. */
  ghost predicate EnvStands(h: Heap, e: int, env: M.Env)
    decreases if IsCons(e) && PtrIdx(e) >= 0 then PtrIdx(e) + 1 else 0
  {
    if e == NIL_VAL then env == []
    else
      && IsCons(e) && Is(h.k, e, Scope) && PtrIdx(e) < |h.w.cells|
      && var b, next := h.w.cells[PtrIdx(e)].0, h.w.cells[PtrIdx(e)].1;
         && (IsCons(next) ==> 0 <= PtrIdx(next) < PtrIdx(e)) && Is(h.k, b, Binding)
         && if h.w.Car(b) == NIL_VAL then EnvStands(h, next, env)
            else
              && env != [] && env[0].0 == h.w.Car(b) && env[0].1 < |h.locs| && h.locs[env[0].1] == PtrIdx(b)
              && EnvStands(h, next, env[1..])
  }

  /** A cell that holds no part of an environment or a function; `Other` for one whose car is the
      word that marks a string. */
  predicate IsPlain(k: seq<Kind>, v: int) { Is(k, v, Pair) || Is(k, v, Other) }

  /** Word `v` is value `x`, in cells outside `busy`, those that are still to be written. */
  ghost predicate Stands(h: Heap, busy: set<int>, v: int, x: M.Val)
    decreases x
  {
    match x
    case Atom(w) => v == w && !IsPointer(v)
    case Pair(a, d) =>
      && IsCons(v) && IsPlain(h.k, v) && PtrIdx(v) < |h.w.cells| && PtrIdx(v) !in busy
      && Stands(h, busy, h.w.cells[PtrIdx(v)].0, a) && Stands(h, busy, h.w.cells[PtrIdx(v)].1, d)
    case Closure(ps, body, env) =>
      && IsCode(h.w, v, ETYPE_CLOSURE) && CodeStands(h, v, env)
      && Stands(h, busy, CodeParams(h.w, v), ps) && Stands(h, busy, CodeBody(h.w, v), body)
    case Macro(ps, body, env) =>
      && IsCode(h.w, v, ETYPE_MACRO) && CodeStands(h, v, env)
      && Stands(h, busy, CodeParams(h.w, v), ps) && Stands(h, busy, CodeBody(h.w, v), body)
    case Primitive(id) => IsCode(h.w, v, ETYPE_PRIMITIVE) && Is(h.k, v, Other) && h.w.Cdr(v) / 4 == id
    case Object(w) => v == w && IsExtended(v) && Is(h.k, v, Other) && h.w.Car(v) != ETYPE_PRIMITIVE
  }

  /** The three cells of a closure or macro. */
  ghost predicate CodeStands(h: Heap, v: int, env: M.Env) {
    && Is(h.k, v, Code) && Is(h.k, CodeData(h.w, v), Data) && Is(h.k, h.w.Cdr(CodeData(h.w, v)), Inner)
    && EnvStands(h, CodeEnv(h.w, v), env)
  }

  /** The heap carries the state. */
  ghost predicate Carries(h: Heap, busy: set<int>, s: M.State) {
    && Typed(h.k, h.w) && |h.locs| == |s.store| && h.w.output == s.out
    && EnvStands(h, h.w.globalEnv, s.global)
    && (forall c :: c in busy ==> 0 <= c < |h.k| && h.k[c] == Pair)
    && (forall i {:trigger h.locs[i]} :: 0 <= i < |h.locs| ==>
          0 <= h.locs[i] < |h.k| && h.k[h.locs[i]] == Binding && Stands(h, busy, h.w.cells[h.locs[i]].1, s.store[i]))
    && (forall i, j :: 0 <= i < j < |h.locs| ==> h.locs[i] != h.locs[j])
  }

  // What stays

  /** Only bindings and busy pairs have been written, and of them only the cdr. */
  ghost predicate Steady(h: Heap, h1: Heap, busy: set<int>) {
    && h.k <= h1.k && |h.k| == |h.w.cells| && |h1.k| == |h1.w.cells| && h.locs <= h1.locs
    && forall i {:trigger h1.w.cells[i]} :: 0 <= i < |h.k| ==>
         && h1.w.cells[i].0 == h.w.cells[i].0
         && (h.k[i] != Binding && !(h.k[i] == Pair && i in busy) ==> h1.w.cells[i] == h.w.cells[i])
  }

  lemma {:induction false} EnvKept(h: Heap, h1: Heap, busy: set<int>, e: int, env: M.Env)
    requires EnvStands(h, e, env) && Steady(h, h1, busy)
    ensures EnvStands(h1, e, env)
    decreases if IsCons(e) && PtrIdx(e) >= 0 then PtrIdx(e) + 1 else 0
  {
    if e != NIL_VAL {
      var i := PtrIdx(e);
      var b, next := h.w.cells[i].0, h.w.cells[i].1;
      assert h1.w.cells[i] == h.w.cells[i];
      assert h1.w.cells[PtrIdx(b)].0 == h.w.cells[PtrIdx(b)].0;
      EnvKept(h, h1, busy, next, if h.w.Car(b) == NIL_VAL then env else env[1..]);
    }
  }

  lemma CodeKept(h: Heap, h1: Heap, busy: set<int>, v: int, env: M.Env)
    requires CodeStands(h, v, env) && Steady(h, h1, busy)
    ensures CodeStands(h1, v, env) && h1.w.Car(v) == h.w.Car(v)
    ensures CodeParams(h1.w, v) == CodeParams(h.w, v) && CodeBody(h1.w, v) == CodeBody(h.w, v)
    ensures CodeEnv(h1.w, v) == CodeEnv(h.w, v)
  {
    hide EnvStands;
    var i := PtrIdx(v);
    var j := PtrIdx(h.w.cells[i].1);
    var l := PtrIdx(h.w.cells[j].1);
    assert h1.w.cells[i] == h.w.cells[i] && h1.w.cells[j] == h.w.cells[j] && h1.w.cells[l] == h.w.cells[l];
    EnvKept(h, h1, busy, CodeEnv(h.w, v), env);
  }

  lemma {:induction false} Kept(h: Heap, h1: Heap, busy: set<int>, v: int, x: M.Val)
    requires Stands(h, busy, v, x) && Steady(h, h1, busy)
    ensures Stands(h1, busy, v, x)
    decreases x
  {
    hide CodeStands, EnvStands;
    match x
    case Atom(_) =>
    case Pair(a, d) =>
      var i := PtrIdx(v);
      assert h1.w.cells[i] == h.w.cells[i];
      Kept(h, h1, busy, h.w.cells[i].0, a);
      Kept(h, h1, busy, h.w.cells[i].1, d);
    case Closure(ps, body, env) =>
      CodeKept(h, h1, busy, v, env);
      Kept(h, h1, busy, CodeParams(h.w, v), ps);
      Kept(h, h1, busy, CodeBody(h.w, v), body);
    case Macro(ps, body, env) =>
      CodeKept(h, h1, busy, v, env);
      Kept(h, h1, busy, CodeParams(h.w, v), ps);
      Kept(h, h1, busy, CodeBody(h.w, v), body);
    case _ =>
      assert h1.w.cells[PtrIdx(v)] == h.w.cells[PtrIdx(v)];
  }

  /** Cells that are no longer busy, or not there yet, change nothing. */
  lemma {:induction false} BusyStands(h: Heap, busy: set<int>, busy1: set<int>, v: int, x: M.Val)
    requires Stands(h, busy, v, x) && forall c :: c in busy1 ==> c in busy || c >= |h.w.cells|
    ensures Stands(h, busy1, v, x)
    decreases x
  {
    hide CodeStands;
    match x
    case Pair(a, d) =>
      BusyStands(h, busy, busy1, h.w.cells[PtrIdx(v)].0, a);
      BusyStands(h, busy, busy1, h.w.cells[PtrIdx(v)].1, d);
    case Closure(ps, body, _) =>
      BusyStands(h, busy, busy1, CodeParams(h.w, v), ps);
      BusyStands(h, busy, busy1, CodeBody(h.w, v), body);
    case Macro(ps, body, _) =>
      BusyStands(h, busy, busy1, CodeParams(h.w, v), ps);
      BusyStands(h, busy, busy1, CodeBody(h.w, v), body);
    case _ =>
  }

  /** The word tells an atom from anything else. */
  lemma Word(h: Heap, busy: set<int>, v: int, x: M.Val)
    requires Stands(h, busy, v, x)
    ensures (IsCons(v) <==> x.Pair?) && (IsPointer(v) <==> !x.Atom?) && (x.Atom? ==> x.w == v)
    ensures forall a :: !IsPointer(a) ==> (v == a <==> x == M.Atom(a))
    ensures WordOk(h.k, v)
  {
    hide CodeStands, EnvStands;
    match x
    case Closure(_, _, env) => assert Is(h.k, v, Code) by { CodeIs(h, v, env); }
    case Macro(_, _, env) => assert Is(h.k, v, Code) by { CodeIs(h, v, env); }
    case _ =>
  }

  lemma CodeIs(h: Heap, v: int, env: M.Env)
    requires CodeStands(h, v, env)
    ensures Is(h.k, v, Code)
  {
  }

  /** The parts of a pair. */
  lemma PairReads(h: Heap, busy: set<int>, v: int, x: M.Val)
    requires Stands(h, busy, v, x) && x.Pair?
    ensures Stands(h, busy, h.w.Car(v), x.car) && Stands(h, busy, h.w.Cdr(v), x.cdr)
  {
  }

  /** What a word of a function is. */
  lemma CodeWord(h: Heap, busy: set<int>, v: int, x: M.Val)
    requires Stands(h, busy, v, x) && Typed(h.k, h.w)
    ensures IsCode(h.w, v, ETYPE_MACRO) <==> x.Macro?
    ensures IsCode(h.w, v, ETYPE_CLOSURE) <==> x.Closure?
    ensures IsCode(h.w, v, ETYPE_PRIMITIVE) <==> x.Primitive?
  {
    hide CodeStands, EnvStands;
    if x.Object? {
      assert CellOk(h.k, PtrIdx(v), h.w.cells[PtrIdx(v)]);
    }
  }

  // Environments

  /** Looking a name up in the list finds the binding of its place. */
  lemma {:induction false} FindStands(h: Heap, e: int, env: M.Env, sym: int, f: nat)
    requires EnvStands(h, e, env) && sym != NIL_VAL && f >= 1 && (IsCons(e) ==> f >= PtrIdx(e) + 2)
    ensures match M.Find(env, sym)
            case Some(place) =>
              && place < |h.locs| && Find(h.w, e, sym, f).Found?
              && PtrIdx(Find(h.w, e, sym, f).binding) == h.locs[place]
              && Is(h.k, Find(h.w, e, sym, f).binding, Binding)
            case None => Find(h.w, e, sym, f).Missing?
    decreases f
  {
    if e != NIL_VAL {
      var b, next := h.w.cells[PtrIdx(e)].0, h.w.cells[PtrIdx(e)].1;
      if h.w.Car(b) == NIL_VAL {
        FindStands(h, next, env, sym, f - 1);
      } else if h.w.Car(b) != sym {
        FindStands(h, next, env[1..], sym, f - 1);
      }
    }
  }

  lemma EnvBound(h: Heap, e: int, env: M.Env)
    requires EnvStands(h, e, env)
    ensures (IsCons(e) ==> 0 <= PtrIdx(e) < |h.w.cells|) && EnvOk(h.k, e)
  {
  }

  lemma LookupStands(h: Heap, busy: set<int>, e: int, env: M.Env, s: M.State, sym: int, f: nat)
    requires EnvStands(h, e, env) && Carries(h, busy, s) && sym != NIL_VAL && f >= |h.w.cells| + 2
    ensures match M.Lookup(env, s, sym)
            case Some(place) =>
              && place < |h.locs| && FindBoth(h.w, e, sym, f).Found?
              && PtrIdx(FindBoth(h.w, e, sym, f).binding) == h.locs[place]
              && Is(h.k, FindBoth(h.w, e, sym, f).binding, Binding)
            case None => FindBoth(h.w, e, sym, f).Missing?
  {
    hide EnvStands, Find, Stands, M.Find, Typed;
    EnvBound(h, e, env);
    EnvBound(h, h.w.globalEnv, s.global);
    FindStands(h, e, env, sym, f);
    FindStands(h, h.w.globalEnv, s.global, sym, f);
  }

  /** The value at a place. */
  lemma PlaceReads(h: Heap, busy: set<int>, s: M.State, b: int, place: nat)
    requires Carries(h, busy, s) && place < |h.locs| && PtrIdx(b) == h.locs[place]
    ensures place < |s.store| && Stands(h, busy, h.w.Cdr(b), s.store[place])
  {
  }

  // Steps between carrying heaps

  /** Bindings, the global environment and the output are the same too. */
  ghost predicate Quiet(h: Heap, h1: Heap, busy: set<int>) {
    && Steady(h, h1, busy) && Typed(h1.k, h1.w) && h1.locs == h.locs
    && h1.w.globalEnv == h.w.globalEnv && h1.w.output == h.w.output
    && forall i {:trigger h.k[i]} :: 0 <= i < |h.k| && h.k[i] == Binding ==> h1.w.cells[i] == h.w.cells[i]
  }

  lemma StillCarries(h: Heap, h1: Heap, busy: set<int>, s: M.State)
    requires Carries(h, busy, s) && Quiet(h, h1, busy)
    ensures Carries(h1, busy, s)
  {
    hide EnvStands, Stands, Typed;
    EnvKept(h, h1, busy, h.w.globalEnv, s.global);
    forall i | 0 <= i < |h1.locs| ensures Stands(h1, busy, h1.w.cells[h1.locs[i]].1, s.store[i]) {
      Kept(h, h1, busy, h.w.cells[h.locs[i]].1, s.store[i]);
      assert h.k[h.locs[i]] == Binding;
    }
  }

  lemma BusyCarries(h: Heap, busy: set<int>, busy1: set<int>, s: M.State)
    requires Carries(h, busy, s) && forall c :: c in busy1 ==> c in busy
    ensures Carries(h, busy1, s)
  {
    SameLength(h.k, h.w);
    hide EnvStands, Stands, Typed;
    forall i | 0 <= i < |h.locs| ensures Stands(h, busy1, h.w.cells[h.locs[i]].1, s.store[i]) {
      BusyStands(h, busy, busy1, h.w.cells[h.locs[i]].1, s.store[i]);
    }
  }

  /** New cells are quiet. */
  lemma NewQuiet(h: Heap, k1: seq<Kind>, w1: World, busy: set<int>)
    requires Typed(h.k, h.w) && h.k <= k1 && Typed(k1, w1) && h.w.cells <= w1.cells
    requires w1.globalEnv == h.w.globalEnv && w1.output == h.w.output
    ensures Quiet(h, Heap(k1, w1, h.locs), busy)
  {
    hide CellOk, EnvOk;
    forall i | 0 <= i < |h.k| ensures w1.cells[i] == h.w.cells[i] {
    }
  }

  /** A new pair. */
  lemma NewPair(h: Heap, busy: set<int>, s: M.State, a: int, x: M.Val, d: int, y: M.Val) returns (h1: Heap)
    requires Carries(h, busy, s) && Stands(h, busy, a, x) && Stands(h, busy, d, y)
    ensures h1 == Heap(h.k + [Pair], h.w.Fresh(a, d), h.locs) && Quiet(h, h1, busy)
    ensures Carries(h1, busy, s) && Stands(h1, busy, MakeCons(|h.w.cells|), M.Pair(x, y))
    ensures Grown(h.k, h.w, h1.k, h1.w, -1)
  {
    h1 := Heap(h.k + [Pair], h.w.Fresh(a, d), h.locs);
    Word(h, busy, a, x);
    Word(h, busy, d, y);
    PairCell(h.k, h.w, a, d);
    NewQuiet(h, h1.k, h1.w, busy);
    StillCarries(h, h1, busy, s);
    Kept(h, h1, busy, a, x);
    Kept(h, h1, busy, d, y);
    PairStands(h1, busy, |h.w.cells|, x, y) by {
      hide Stands, EnvStands, CellOk;
    }
  }

  lemma PairStands(h: Heap, busy: set<int>, i: nat, x: M.Val, y: M.Val)
    requires i < |h.k| && i < |h.w.cells| && h.k[i] == Pair && i !in busy
    requires Stands(h, busy, h.w.cells[i].0, x) && Stands(h, busy, h.w.cells[i].1, y)
    ensures Stands(h, busy, MakeCons(i), M.Pair(x, y))
  {
  }

  /** The steps of an evaluation, one after the other. */
  ghost predicate Goes(h: Heap, h1: Heap, busy: set<int>) {
    Steady(h, h1, busy) && Grown(h.k, h.w, h1.k, h1.w, -1)
  }

  lemma SteadyThen(h: Heap, h1: Heap, h2: Heap, busy: set<int>)
    requires Steady(h, h1, busy) && Steady(h1, h2, busy)
    ensures Steady(h, h2, busy)
  {
    forall i {:trigger h2.w.cells[i]} | 0 <= i < |h.k|
      ensures h2.w.cells[i].0 == h.w.cells[i].0
      ensures h.k[i] != Binding && !(h.k[i] == Pair && i in busy) ==> h2.w.cells[i] == h.w.cells[i]
    {
      assert h1.k[i] == h.k[i] && h1.w.cells[i].0 == h.w.cells[i].0;
    }
  }

  lemma GoesThen(h: Heap, h1: Heap, h2: Heap, busy: set<int>)
    requires Goes(h, h1, busy) && Goes(h1, h2, busy)
    ensures Goes(h, h2, busy)
  {
    hide Steady, Grown;
    SteadyThen(h, h1, h2, busy);
    Then(h.k, h.w, h1.k, h1.w, h2.k, h2.w, -1, -1);
  }

  lemma GoesNowhere(h: Heap, busy: set<int>, s: M.State)
    requires Carries(h, busy, s)
    ensures Goes(h, h, busy)
  {
    Same(h.k, h.w);
  }

  lemma QuietGoes(h: Heap, h1: Heap, busy: set<int>)
    requires Quiet(h, h1, busy) && Grown(h.k, h.w, h1.k, h1.w, -1)
    ensures Goes(h, h1, busy)
  {
    hide Typed, Grown, Steady;
  }

  // Variables

  /** One more binding becomes a place. */
  lemma AddPlace(h: Heap, busy: set<int>, s: M.State, n: nat, x: M.Val) returns (h1: Heap)
    requires Carries(h, busy, s) && n < |h.k| && h.k[n] == Binding && n !in h.locs
    requires n < |h.w.cells| && Stands(h, busy, h.w.cells[n].1, x)
    ensures h1 == h.(locs := h.locs + [n]) && Carries(h1, busy, s.(store := s.store + [x])) && Steady(h, h1, busy)
  {
    SameLength(h.k, h.w);
    h1 := h.(locs := h.locs + [n]);
    hide EnvStands, Stands, Typed;
    EnvKept(h, h1, busy, h.w.globalEnv, s.global);
    var store := s.store + [x];
    forall i | 0 <= i < |h1.locs| ensures Stands(h1, busy, h1.w.cells[h1.locs[i]].1, store[i]) {
      if i < |h.locs| {
        Kept(h, h1, busy, h.w.cells[h.locs[i]].1, s.store[i]);
      } else {
        Kept(h, h1, busy, h.w.cells[n].1, x);
      }
    }
  }

  /** The two new cells of an extended environment. */
  lemma NewBinding(h: Heap, busy: set<int>, s: M.State, sym: int, v: int, x: M.Val, e: int, env: M.Env)
      returns (h1: Heap)
    requires Carries(h, busy, s) && Stands(h, busy, v, x) && EnvStands(h, e, env) && IsSymbol(sym)
    ensures var made := EnvExtend(h.w, sym, v, e);
      && h1 == Heap(h.k + [Binding, Scope], made.w, h.locs)
      && Quiet(h, h1, busy) && Grown(h.k, h.w, h1.k, h1.w, -1) && Carries(h1, busy, s)
      && Stands(h1, busy, v, x) && EnvStands(h1, e, env)
  {
    var made := EnvExtend(h.w, sym, v, e);
    h1 := Heap(h.k + [Binding, Scope], made.w, h.locs);
    Word(h, busy, v, x);
    EnvBound(h, e, env);
    hide EnvStands, Stands, Typed, EnvOk;
    Extended(h.k, h.w, sym, v, e);
    NewQuiet(h, h1.k, h1.w, busy);
    StillCarries(h, h1, busy, s);
    Kept(h, h1, busy, v, x);
    EnvKept(h, h1, busy, e, env);
  }

  lemma Extends(h: Heap, busy: set<int>, s: M.State, sym: int, v: int, x: M.Val, e: int, env: M.Env)
      returns (h1: Heap)
    requires Carries(h, busy, s) && Stands(h, busy, v, x) && EnvStands(h, e, env) && IsSymbol(sym) && sym != NIL_VAL
    ensures var made := EnvExtend(h.w, sym, v, e); var scope := M.Extend(sym, x, env, s);
      && h1.w == made.w && Goes(h, h1, busy) && Carries(h1, busy, scope.s) && EnvStands(h1, made.v, scope.env)
  {
    var n := |h.w.cells|;
    var mid := NewBinding(h, busy, s, sym, v, x, e, env);
    SameLength(h.k, h.w);
    assert n !in h.locs by { LocsBelow(h, busy, s); }
    assert mid.k[n] == Binding && mid.w.cells[n] == (sym, v);
    h1 := AddPlace(mid, busy, s, n, x);
    hide Stands, Typed;
    EnvKept(mid, h1, busy, e, env);
    EnvBound(h1, e, env);
    EnvBelow(h, e, env);
    NewScope(h1, n, sym, e, env, |s.store|);
    hide EnvStands;
    SteadyThen(h, mid, h1, busy);
  }

  lemma LocsBelow(h: Heap, busy: set<int>, s: M.State)
    requires Carries(h, busy, s)
    ensures forall i :: 0 <= i < |h.locs| ==> h.locs[i] < |h.w.cells|
    ensures |h.locs| == |s.store|
  {
    hide EnvStands, Stands;
  }

  lemma EnvBelow(h: Heap, e: int, env: M.Env)
    requires EnvStands(h, e, env)
    ensures IsCons(e) ==> 0 <= PtrIdx(e) < |h.w.cells|
  {
  }

  lemma NewScope(h: Heap, n: nat, sym: int, e: int, env: M.Env, place: nat)
    requires n + 1 < |h.k| && n + 1 < |h.w.cells| && h.k[n] == Binding && h.k[n + 1] == Scope
    requires h.w.cells[n].0 == sym && h.w.cells[n + 1] == (MakeCons(n), e) && EnvStands(h, e, env)
    requires IsCons(e) ==> 0 <= PtrIdx(e) <= n
    requires sym != NIL_VAL ==> place < |h.locs| && h.locs[place] == n
    ensures EnvStands(h, MakeCons(n + 1), if sym == NIL_VAL then env else [(sym, place)] + env)
  {
    assert ([(sym, place)] + env)[1..] == env;
  }

  /** Binding nil adds no variable. */
  lemma ExtendsNil(h: Heap, busy: set<int>, s: M.State, v: int, x: M.Val, e: int, env: M.Env) returns (h1: Heap)
    requires Carries(h, busy, s) && Stands(h, busy, v, x) && EnvStands(h, e, env)
    ensures var made := EnvExtend(h.w, NIL_VAL, v, e);
      && h1.w == made.w && Goes(h, h1, busy) && Carries(h1, busy, s) && EnvStands(h1, made.v, env)
  {
    hide Stands, Typed, EnvStands, Steady, Grown;
    var n := |h.w.cells|;
    h1 := NewBinding(h, busy, s, NIL_VAL, v, x, e, env);
    SameLength(h.k, h.w);
    EnvBelow(h, e, env);
    NewScope(h1, n, NIL_VAL, e, env, 0);
    QuietGoes(h, h1, busy);
  }

  lemma Defines(h: Heap, busy: set<int>, s: M.State, sym: int, v: int, x: M.Val) returns (h1: Heap)
    requires Carries(h, busy, s) && Stands(h, busy, v, x) && IsSymbol(sym) && sym != NIL_VAL
    ensures var made := EnvExtend(h.w, sym, v, h.w.globalEnv);
      && h1.w == made.w.SetGlobal(made.v) && Goes(h, h1, busy) && Carries(h1, busy, M.Define(sym, x, s))
  {
    hide EnvStands, Stands, Typed, Steady, Grown, EnvExtend;
    var made := EnvExtend(h.w, sym, v, h.w.globalEnv);
    var scope := M.Extend(sym, x, s.global, s);
    var mid := Extends(h, busy, s, sym, v, x, h.w.globalEnv, s.global);
    h1 := mid.(w := made.w.SetGlobal(made.v));
    GlobalSet(mid, h1, busy, scope.s, made.v, scope.env);
    GoesThen(h, mid, h1, busy);
  }

  lemma WordOfEnv(h: Heap, e: int, env: M.Env)
    requires EnvStands(h, e, env)
    ensures EnvOk(h.k, e)
  {
  }

  lemma GlobalSet(h: Heap, h1: Heap, busy: set<int>, s: M.State, e: int, env: M.Env)
    requires Carries(h, busy, s) && EnvStands(h, e, env) && h1 == h.(w := h.w.SetGlobal(e))
    ensures Carries(h1, busy, s.(global := env)) && Steady(h, h1, busy) && Grown(h.k, h.w, h1.k, h1.w, -1)
  {
    WordOfEnv(h, e, env);
    assert Typed(h1.k, h1.w);
    hide EnvStands, Stands, CellOk, EnvOk;
    EnvKept(h, h1, busy, e, env);
    forall i | 0 <= i < |h1.locs| ensures Stands(h1, busy, h1.w.cells[h1.locs[i]].1, s.store[i]) {
      Kept(h, h1, busy, h.w.cells[h.locs[i]].1, s.store[i]);
    }
  }

  /** An assignment. */
  lemma Assigns(h: Heap, busy: set<int>, s: M.State, b: int, place: nat, v: int, x: M.Val) returns (h1: Heap)
    requires Carries(h, busy, s) && Stands(h, busy, v, x) && Is(h.k, b, Binding)
    requires place < |h.locs| && PtrIdx(b) == h.locs[place]
    ensures h1 == h.(w := h.w.SetCdr(b, v)) && Goes(h, h1, busy) && place < |s.store|
    ensures Carries(h1, busy, s.(store := s.store[place := x])) && Stands(h1, busy, v, x)
  {
    h1 := h.(w := h.w.SetCdr(b, v));
    Word(h, busy, v, x);
    NewCdr(h.k, h.w, b, v);
    SameLength(h.k, h.w);
    hide EnvStands, Stands, Typed;
    EnvKept(h, h1, busy, h.w.globalEnv, s.global);
    var store := s.store[place := x];
    Kept(h, h1, busy, v, x);
    forall i | 0 <= i < |h1.locs| ensures Stands(h1, busy, h1.w.cells[h1.locs[i]].1, store[i]) {
      if i != place {
        assert h.locs[i] != h.locs[place];
        Kept(h, h1, busy, h.w.cells[h.locs[i]].1, s.store[i]);
      }
    }
  }

  lemma Prints(h: Heap, busy: set<int>, s: M.State, ws: seq<int>) returns (h1: Heap)
    requires Carries(h, busy, s)
    ensures h1 == h.(w := h.w.Print(ws)) && Goes(h, h1, busy) && Carries(h1, busy, s.Print(ws))
  {
    h1 := h.(w := h.w.Print(ws));
    Printed(h.k, h.w, ws);
    hide EnvStands, Stands, Typed;
    EnvKept(h, h1, busy, h.w.globalEnv, s.global);
    forall i | 0 <= i < |h1.locs| ensures Stands(h1, busy, h1.w.cells[h1.locs[i]].1, s.store[i]) {
      Kept(h, h1, busy, h.w.cells[h.locs[i]].1, s.store[i]);
    }
  }

  // Functions

  /** make_closure and make_macro. */
  lemma Codes(h: Heap, busy: set<int>, s: M.State, macro: bool, pv: int, ps: M.Val, bv: int, body: M.Val, e: int,
              env: M.Env) returns (h1: Heap)
    requires Carries(h, busy, s) && Stands(h, busy, pv, ps) && Stands(h, busy, bv, body) && EnvStands(h, e, env)
    ensures var made := MakeCode(h.w, if macro then ETYPE_MACRO else ETYPE_CLOSURE, pv, bv, e);
      && h1.w == made.w && Goes(h, h1, busy) && Carries(h1, busy, s)
      && Stands(h1, busy, made.v, if macro then M.Macro(ps, body, env) else M.Closure(ps, body, env))
  {
    hide EnvStands, Stands, Carries, MakeCode, Grown, Quiet;
    var etype := if macro then ETYPE_MACRO else ETYPE_CLOSURE;
    var n := |h.w.cells|;
    h1 := CodeQuiet(h, busy, s, etype, pv, ps, bv, body, e, env);
    CodeCells(h.w, etype, pv, bv, e);
    QuietGoes(h, h1, busy);
    EnvKept(h, h1, busy, e, env) by { QuietSteady(h, h1, busy); }
    Kept(h, h1, busy, pv, ps) by { QuietSteady(h, h1, busy); }
    Kept(h, h1, busy, bv, body) by { QuietSteady(h, h1, busy); }
    NewCells(h.w.cells, (bv, e), (pv, MakeCons(n)), (etype, MakeCons(n + 1)));
    NewCode(h1, busy, n, macro, pv, ps, bv, body, e, env);
  }

  lemma NewCells(cells: seq<(int, int)>, a: (int, int), b: (int, int), c: (int, int))
    ensures var all := cells + [a, b, c]; var n := |cells|; all[n] == a && all[n + 1] == b && all[n + 2] == c
  {
  }

  lemma QuietSteady(h: Heap, h1: Heap, busy: set<int>)
    requires Quiet(h, h1, busy)
    ensures Steady(h, h1, busy)
  {
  }

  lemma CodeQuiet(h: Heap, busy: set<int>, s: M.State, etype: int, pv: int, ps: M.Val, bv: int, body: M.Val, e: int,
                  env: M.Env) returns (h1: Heap)
    requires Carries(h, busy, s) && Stands(h, busy, pv, ps) && Stands(h, busy, bv, body) && EnvStands(h, e, env)
    requires !IsExtended(etype)
    ensures h1 == Heap(h.k + [Inner, Data, Code], MakeCode(h.w, etype, pv, bv, e).w, h.locs) && |h.k| == |h.w.cells|
    ensures Quiet(h, h1, busy) && Grown(h.k, h.w, h1.k, h1.w, -1) && Carries(h1, busy, s)
  {
    h1 := Heap(h.k + [Inner, Data, Code], MakeCode(h.w, etype, pv, bv, e).w, h.locs);
    Word(h, busy, pv, ps);
    Word(h, busy, bv, body);
    EnvBound(h, e, env);
    hide EnvStands, Stands, Typed, EnvOk, MakeCode, WordOk;
    CodeMade(h.k, h.w, etype, pv, bv, e);
    SameLength(h.k, h.w);
    CodeCells(h.w, etype, pv, bv, e);
    NewQuiet(h, h1.k, h1.w, busy);
    StillCarries(h, h1, busy, s);
  }

  lemma CodeCells(w: World, etype: int, pv: int, bv: int, e: int)
    ensures var made := MakeCode(w, etype, pv, bv, e); var n := |w.cells|;
      && made.w == World(w.cells + [(bv, e), (pv, MakeCons(n)), (etype, MakeCons(n + 1))], w.globalEnv, w.output)
      && made.v == MakeExtended(n + 2)
  {
    var n := |w.cells|;
    var made := MakeCode(w, etype, pv, bv, e);
    assert made.w.cells == w.cells + [(bv, e), (pv, MakeCons(n)), (etype, MakeCons(n + 1))];
  }

  lemma NewCode(h: Heap, busy: set<int>, n: nat, macro: bool, pv: int, ps: M.Val, bv: int, body: M.Val, e: int,
                env: M.Env)
    requires n + 2 < |h.k| && n + 2 < |h.w.cells|
    requires h.k[n] == Inner && h.k[n + 1] == Data && h.k[n + 2] == Code
    requires h.w.cells[n] == (bv, e) && h.w.cells[n + 1] == (pv, MakeCons(n))
    requires h.w.cells[n + 2] == (if macro then ETYPE_MACRO else ETYPE_CLOSURE, MakeCons(n + 1))
    requires Stands(h, busy, pv, ps) && Stands(h, busy, bv, body) && EnvStands(h, e, env)
    ensures Stands(h, busy, MakeExtended(n + 2), if macro then M.Macro(ps, body, env) else M.Closure(ps, body, env))
  {
    var v := MakeExtended(n + 2);
    assert CodeData(h.w, v) == MakeCons(n + 1) && h.w.Cdr(MakeCons(n + 1)) == MakeCons(n);
    assert CodeParams(h.w, v) == pv && CodeBody(h.w, v) == bv && CodeEnv(h.w, v) == e;
  }

  lemma Bodies(h: Heap, busy: set<int>, s: M.State, v: int, forms: M.Val) returns (h1: Heap)
    requires Carries(h, busy, s) && Stands(h, busy, v, forms) && M.BodyOf(forms).Some?
    ensures var body := BodyOf(h.w, v);
      && h1.w == body.w && Goes(h, h1, busy) && Carries(h1, busy, s)
      && Stands(h1, busy, body.v, M.BodyOf(forms).value)
  {
    hide EnvStands, Stands, Typed;
    PairReads(h, busy, v, forms);
    Word(h, busy, h.w.Cdr(v), forms.cdr);
    if forms.cdr == M.NIL {
      h1 := h;
      GoesNowhere(h, busy, s);
    } else {
      AtomStands(h, busy, BEGIN);
      h1 := NewPair(h, busy, s, BEGIN, M.Atom(BEGIN), v, forms);
      QuietGoes(h, h1, busy);
    }
  }

  lemma AtomStands(h: Heap, busy: set<int>, w: int)
    requires !IsPointer(w)
    ensures Stands(h, busy, w, M.Atom(w))
  {
  }

  /** A body and its closure or macro. */
  lemma Lambdas(h: Heap, busy: set<int>, s: M.State, macro: bool, pv: int, ps: M.Val, v: int, forms: M.Val, e: int,
                env: M.Env) returns (h1: Heap)
    requires Carries(h, busy, s) && Stands(h, busy, pv, ps) && Stands(h, busy, v, forms) && EnvStands(h, e, env)
    requires M.BodyOf(forms).Some?
    ensures var body := BodyOf(h.w, v);
      var made := MakeCode(body.w, if macro then ETYPE_MACRO else ETYPE_CLOSURE, pv, body.v, e);
      var b := M.BodyOf(forms).value;
      && h1.w == made.w && Goes(h, h1, busy) && Carries(h1, busy, s)
      && Stands(h1, busy, made.v, if macro then M.Macro(ps, b, env) else M.Closure(ps, b, env))
  {
    hide EnvStands, Stands, Carries, BodyOf, MakeCode, Grown;
    var mid := Bodies(h, busy, s, v, forms);
    Kept(h, mid, busy, pv, ps);
    EnvKept(h, mid, busy, e, env);
    h1 := Codes(mid, busy, s, macro, pv, ps, BodyOf(h.w, v).v, M.BodyOf(forms).value, e, env);
    GoesThen(h, mid, h1, busy);
  }

  /** A definition of a closure or macro. */
  lemma CodeDefines(h: Heap, busy: set<int>, s: M.State, macro: bool, pv: int, ps: M.Val, v: int, forms: M.Val, e: int,
                    env: M.Env, sym: int) returns (h1: Heap)
    requires Carries(h, busy, s) && Stands(h, busy, pv, ps) && Stands(h, busy, v, forms) && EnvStands(h, e, env)
    requires M.BodyOf(forms).Some? && IsSymbol(sym) && sym != NIL_VAL
    ensures var body := BodyOf(h.w, v);
      var made := MakeCode(body.w, if macro then ETYPE_MACRO else ETYPE_CLOSURE, pv, body.v, e);
      var x := EnvExtend(made.w, sym, made.v, made.w.globalEnv);
      var fn := if macro then M.Macro(ps, M.BodyOf(forms).value, env) else M.Closure(ps, M.BodyOf(forms).value, env);
      && h1.w == x.w.SetGlobal(x.v) && Goes(h, h1, busy) && Carries(h1, busy, M.Define(sym, fn, s))
      && Stands(h1, busy, made.v, fn)
  {
    hide EnvStands, Stands, Carries, BodyOf, MakeCode, Grown, EnvExtend;
    var body := BodyOf(h.w, v);
    var made := MakeCode(body.w, if macro then ETYPE_MACRO else ETYPE_CLOSURE, pv, body.v, e);
    var fn := if macro then M.Macro(ps, M.BodyOf(forms).value, env) else M.Closure(ps, M.BodyOf(forms).value, env);
    var mid := Lambdas(h, busy, s, macro, pv, ps, v, forms, e, env);
    h1 := Defines(mid, busy, s, sym, made.v, fn);
    Kept(mid, h1, busy, made.v, fn);
    GoesThen(h, mid, h1, busy);
  }

  /** env_bind. */
  lemma {:induction false} Binds(h: Heap, busy: set<int>, s: M.State, pv: int, params: M.Val, av: int, args: M.Val,
                                 e: int, env: M.Env) returns (f: nat, h1: Heap)
    requires Carries(h, busy, s) && Stands(h, busy, pv, params) && Stands(h, busy, av, args) && EnvStands(h, e, env)
    requires M.Bind(params, args, env, s).Scope?
    ensures var b := EnvBind(h.w, pv, av, e, f); var scope := M.Bind(params, args, env, s);
      && b.Bound? && h1.w == b.w && Goes(h, h1, busy) && Carries(h1, busy, scope.s)
      && EnvStands(h1, b.env, scope.env)
    decreases params
  {
    hide EnvStands, Stands, Carries, EnvExtend, Grown;
    Word(h, busy, pv, params);
    if params.Pair? {
      PairReads(h, busy, pv, params);
      PairReads(h, busy, av, args);
      Word(h, busy, h.w.Car(pv), params.car);
      var sym, v := h.w.Car(pv), h.w.Car(av);
      var x := EnvExtend(h.w, sym, v, e);
      var scope := M.Extend(sym, args.car, env, s);
      var mid := Extends(h, busy, s, sym, v, args.car, e, env);
      Kept(h, mid, busy, h.w.Cdr(pv), params.cdr);
      Kept(h, mid, busy, h.w.Cdr(av), args.cdr);
      CdrKept(h, mid, busy, pv, params);
      CdrKept(h, mid, busy, av, args);
      f, h1 := Binds(mid, busy, scope.s, mid.w.Cdr(pv), params.cdr, mid.w.Cdr(av), args.cdr, x.v, scope.env);
      f := f + 1;
      GoesThen(h, mid, h1, busy);
    } else if params == M.NIL {
      f := 1;
      h1 := ExtendsNil(h, busy, s, av, args, e, env);
    } else {
      f := 1;
      h1 := Extends(h, busy, s, pv, av, args, e, env);
    }
  }

  lemma CdrKept(h: Heap, h1: Heap, busy: set<int>, v: int, x: M.Val)
    requires Stands(h, busy, v, x) && x.Pair? && Steady(h, h1, busy)
    ensures h1.w.Car(v) == h.w.Car(v) && h1.w.Cdr(v) == h.w.Cdr(v)
  {
    assert h1.w.cells[PtrIdx(v)] == h.w.cells[PtrIdx(v)];
  }

  // Lists under construction

  /** The cells from `v` to `tail` hold these values; the cdr of the last is still to be written. */
  ghost predicate Spine(h: Heap, busy: set<int>, tail: int, v: int, xs: seq<M.Val>)
    decreases |xs|
  {
    && xs != [] && IsCons(v) && Is(h.k, v, Pair) && PtrIdx(v) < |h.w.cells| && PtrIdx(v) !in busy
    && Stands(h, busy + {PtrIdx(tail)}, h.w.cells[PtrIdx(v)].0, xs[0])
    && if |xs| == 1 then v == tail
       else PtrIdx(v) != PtrIdx(tail) && Spine(h, busy, tail, h.w.cells[PtrIdx(v)].1, xs[1..])
  }

  lemma {:induction false} SpineKept(h: Heap, h1: Heap, busy: set<int>, tail: int, v: int, xs: seq<M.Val>)
    requires Spine(h, busy, tail, v, xs) && Steady(h, h1, busy + {PtrIdx(tail)})
    ensures Spine(h1, busy, tail, v, xs)
    decreases |xs|
  {
    hide Stands;
    var i := PtrIdx(v);
    assert h1.w.cells[i].0 == h.w.cells[i].0;
    Kept(h, h1, busy + {PtrIdx(tail)}, h.w.cells[i].0, xs[0]);
    if |xs| > 1 {
      assert h1.w.cells[i] == h.w.cells[i];
      SpineKept(h, h1, busy, tail, h.w.cells[i].1, xs[1..]);
    }
  }

  lemma {:induction false} SpineTail(h: Heap, busy: set<int>, tail: int, v: int, xs: seq<M.Val>)
    requires Spine(h, busy, tail, v, xs)
    ensures IsCons(tail) && Is(h.k, tail, Pair) && 0 <= PtrIdx(tail) < |h.w.cells| && PtrIdx(tail) !in busy
    decreases |xs|
  {
    if |xs| > 1 {
      SpineTail(h, busy, tail, h.w.cells[PtrIdx(v)].1, xs[1..]);
    }
  }

  /** With a new cell behind the tail, not there when the others were made. */
  lemma {:induction false} SpineMore(h: Heap, h1: Heap, busy: set<int>, tail: int, v: int, xs: seq<M.Val>, cell: int,
                                     x: M.Val)
    requires Spine(h, busy, tail, v, xs) && Steady(h, h1, busy + {PtrIdx(tail)})
    requires IsCons(cell) && |h.w.cells| <= PtrIdx(cell) < |h1.w.cells| && Is(h1.k, cell, Pair) && PtrIdx(cell) !in busy
    requires 0 <= PtrIdx(tail) < |h.w.cells| && h1.w.cells[PtrIdx(tail)].1 == cell
    requires Stands(h1, busy + {PtrIdx(cell)}, h1.w.cells[PtrIdx(cell)].0, x)
    ensures Spine(h1, busy, cell, v, xs + [x])
    decreases |xs|
  {
    hide Stands;
    var i := PtrIdx(v);
    assert h1.w.cells[i].0 == h.w.cells[i].0;
    Across(h, h1, busy + {PtrIdx(tail)}, busy + {PtrIdx(cell)}, h.w.cells[i].0, xs[0]);
    if |xs| > 1 {
      assert h1.w.cells[i] == h.w.cells[i];
      SpineMore(h, h1, busy, tail, h.w.cells[i].1, xs[1..], cell, x);
      assert (xs + [x])[1..] == xs[1..] + [x];
    } else {
      assert (xs + [x])[1..] == [x];
    }
  }

  /** From one heap to another with other busy cells, which are new or were busy before. */
  lemma Across(h: Heap, h1: Heap, busy: set<int>, busy1: set<int>, v: int, x: M.Val)
    requires Stands(h, busy, v, x) && Steady(h, h1, busy)
    requires forall c :: c in busy1 ==> c in busy || c >= |h.w.cells|
    ensures Stands(h1, busy1, v, x)
  {
    hide Stands;
    var all := busy + busy1;
    BusyStands(h, busy, all, v, x);
    SteadyMore(h, h1, busy, all);
    Kept(h, h1, all, v, x);
    BusyStands(h1, all, busy1, v, x);
  }

  lemma CarriesAcross(h: Heap, h1: Heap, busy: set<int>, busy1: set<int>, s: M.State)
    requires Carries(h, busy, s) && Quiet(h, h1, busy)
    requires forall c :: c in busy1 ==> (c in busy || c >= |h.w.cells|) && 0 <= c < |h1.k| && h1.k[c] == Pair
    ensures Carries(h1, busy1, s)
  {
    hide EnvStands, Stands, Typed;
    EnvKept(h, h1, busy, h.w.globalEnv, s.global);
    forall i | 0 <= i < |h1.locs| ensures Stands(h1, busy1, h1.w.cells[h1.locs[i]].1, s.store[i]) {
      Across(h, h1, busy, busy1, h.w.cells[h.locs[i]].1, s.store[i]);
      assert h.k[h.locs[i]] == Binding;
    }
  }

  lemma SteadyMore(h: Heap, h1: Heap, busy: set<int>, busy1: set<int>)
    requires Steady(h, h1, busy) && busy <= busy1
    ensures Steady(h, h1, busy1)
  {
  }

  /** With its last cdr written the list is complete. */
  lemma {:induction false} SpineEnds(h: Heap, busy: set<int>, tail: int, v: int, xs: seq<M.Val>, end: M.Val)
    requires Spine(h, busy, tail, v, xs) && 0 <= PtrIdx(tail) < |h.w.cells|
    requires Stands(h, busy, h.w.cells[PtrIdx(tail)].1, end)
    ensures Stands(h, busy, v, M.ListOf(xs, end))
    decreases |xs|
  {
    var i := PtrIdx(v);
    BusyStands(h, busy + {PtrIdx(tail)}, busy, h.w.cells[i].0, xs[0]);
    if |xs| > 1 {
      SpineEnds(h, busy, tail, h.w.cells[i].1, xs[1..], end);
    } else {
      assert xs[1..] == [];
    }
  }

  /** The list so far: nothing, or a spine that ends in nil. */
  ghost predicate ListSoFar(h: Heap, busy: set<int>, result: int, tail: int, xs: seq<M.Val>) {
    if xs == [] then result == NIL_VAL && tail == NIL_VAL
    else Spine(h, busy, tail, result, xs) && h.w.Cdr(tail) == NIL_VAL
  }

  /** The cells that are busy while the next value is found. */
  function Open(busy: set<int>, tail: int, xs: seq<M.Val>): set<int> {
    if xs == [] then busy else busy + {PtrIdx(tail)}
  }

  lemma ListOkay(h: Heap, busy: set<int>, result: int, tail: int, xs: seq<M.Val>)
    requires ListSoFar(h, busy, result, tail, xs)
    ensures ListOk(h.k, result, tail) && (xs == [] <==> result == NIL_VAL)
    ensures xs != [] ==> IsCons(result) && IsCons(tail) && Is(h.k, tail, Pair)
    ensures xs != [] ==> 0 <= PtrIdx(tail) < |h.w.cells| && PtrIdx(tail) !in busy
  {
    hide Stands;
    if xs != [] {
      SpineTail(h, busy, tail, result, xs);
    }
  }

  lemma AppendQuiet(h: Heap, busy: set<int>, s: M.State, v: int, x: M.Val, result: int, tail: int) returns (h1: Heap)
    requires Carries(h, busy, s) && Stands(h, busy, v, x) && ListOk(h.k, result, tail)
    requires result != NIL_VAL ==> PtrIdx(tail) in busy
    ensures var b := Append(h.w, v, result, tail); var n := |h.w.cells|;
      && h1 == Heap(h.k + [Pair], b.w, h.locs) && Quiet(h, h1, busy) && |h.k| == n
      && Grown(h.k, h.w, h1.k, h1.w, Hole(result, tail)) && b.Building? && b.tail == MakeCons(n)
      && h1.w.cells[n] == (v, NIL_VAL) && (result != NIL_VAL ==> b.result == result && h1.w.Cdr(tail) == MakeCons(n))
      && (result == NIL_VAL ==> b.result == MakeCons(n))
  {
    hide EnvStands, Stands, Typed, WordOk, CellOk, EnvOk;
    var b := Append(h.w, v, result, tail);
    h1 := Heap(h.k + [Pair], b.w, h.locs);
    Word(h, busy, v, x);
    SameLength(h.k, h.w);
    Appended(h.k, h.w, v, result, tail);
    GrownTyped(h.k, h.w, h1.k, h1.w, Hole(result, tail));
    hide Grown, Framed;
  }

  lemma GrownTyped(k: seq<Kind>, w: World, k1: seq<Kind>, w1: World, hole: int)
    requires Grown(k, w, k1, w1, hole)
    ensures Typed(k1, w1)
  {
  }

  lemma Appends(h: Heap, busy: set<int>, s: M.State, v: int, x: M.Val, result: int, tail: int, xs: seq<M.Val>)
      returns (h1: Heap)
    requires Carries(h, Open(busy, tail, xs), s) && Stands(h, Open(busy, tail, xs), v, x)
    requires ListSoFar(h, busy, result, tail, xs) && forall c :: c in busy ==> c < |h.w.cells|
    ensures var b := Append(h.w, v, result, tail);
      && b.Building? && h1.w == b.w && Quiet(h, h1, Open(busy, tail, xs))
      && Grown(h.k, h.w, h1.k, h1.w, Hole(result, tail)) && PtrIdx(b.tail) == |h.w.cells|
      && ListSoFar(h1, busy, b.result, b.tail, xs + [x]) && Carries(h1, Open(busy, b.tail, xs + [x]), s)
  {
    hide EnvStands, Stands, Typed, Append, Grown;
    ListOkay(h, busy, result, tail, xs);
    var all := Open(busy, tail, xs);
    h1 := AppendQuiet(h, all, s, v, x, result, tail);
    var b, n := Append(h.w, v, result, tail), |h.w.cells|;
    BusyPairs(h, all, s);
    CarriesAcross(h, h1, all, busy + {n}, s);
    Across(h, h1, all, busy + {n}, v, x);
    if xs != [] {
      SpineMore(h, h1, busy, tail, result, xs, b.tail, x);
    }
  }

  lemma BusyPairs(h: Heap, busy: set<int>, s: M.State)
    requires Carries(h, busy, s)
    ensures forall c :: c in busy ==> 0 <= c < |h.k| && h.k[c] == Pair
  {
  }

  lemma SteadyOn(h: Heap, h1: Heap, h2: Heap, busy: set<int>, busy1: set<int>)
    requires Steady(h, h1, busy) && Steady(h1, h2, busy1) && forall c :: c in busy1 ==> c in busy || c >= |h.w.cells|
    ensures Steady(h, h2, busy)
  {
    forall i {:trigger h2.w.cells[i]} | 0 <= i < |h.k|
      ensures h2.w.cells[i].0 == h.w.cells[i].0
      ensures h.k[i] != Binding && !(h.k[i] == Pair && i in busy) ==> h2.w.cells[i] == h.w.cells[i]
    {
      assert h1.k[i] == h.k[i] && h1.w.cells[i].0 == h.w.cells[i].0;
    }
  }

  /** The cells of a list, copied behind the last cell. */
  lemma {:induction false} Splices(h: Heap, busy: set<int>, s: M.State, v: int, x: M.Val, result: int, tail: int,
                                   xs: seq<M.Val>) returns (f: nat, h1: Heap)
    requires Carries(h, Open(busy, tail, xs), s) && Stands(h, Open(busy, tail, xs), v, x)
    requires ListSoFar(h, busy, result, tail, xs) && forall c :: c in busy ==> c < |h.w.cells|
    ensures var b := Splice(h.w, v, result, tail, f); var ys := xs + M.Elements(x);
      && b.Building? && h1.w == b.w && Steady(h, h1, Open(busy, tail, xs)) && h1.locs == h.locs
      && Grown(h.k, h.w, h1.k, h1.w, Hole(result, tail))
      && (Hole(b.result, b.tail) == Hole(result, tail) || Hole(b.result, b.tail) >= |h.k|)
      && ListSoFar(h1, busy, b.result, b.tail, ys) && Carries(h1, Open(busy, b.tail, ys), s)
    decreases x
  {
    hide EnvStands, Stands, Typed, Append, Spine, Framed;
    Word(h, Open(busy, tail, xs), v, x);
    SameLength(h.k, h.w);
    ListOkay(h, busy, result, tail, xs);
    if x.Pair? {
      PairReads(h, Open(busy, tail, xs), v, x);
      var mid := Appends(h, busy, s, h.w.Car(v), x.car, result, tail, xs);
      var b := Append(h.w, h.w.Car(v), result, tail);
      var open := Open(busy, b.tail, xs + [x.car]);
      Across(h, mid, Open(busy, tail, xs), open, h.w.Cdr(v), x.cdr);
      CdrKept(h, mid, Open(busy, tail, xs), v, x);
      f, h1 := Splices(mid, busy, s, mid.w.Cdr(v), x.cdr, b.result, b.tail, xs + [x.car]);
      f := f + 1;
      ListOkay(mid, busy, b.result, b.tail, xs + [x.car]);
      SteadyOn(h, mid, h1, Open(busy, tail, xs), open);
      Then(h.k, h.w, mid.k, mid.w, h1.k, h1.w, Hole(result, tail), Hole(b.result, b.tail));
      assert xs + [x.car] + M.Elements(x.cdr) == xs + M.Elements(x);
    } else {
      f, h1 := 1, h;
      assert xs + M.Elements(x) == xs;
      Same(h.k, h.w);
      AnyHole(h.k, h.w, h.k, h.w, Hole(result, tail));
    }
  }
}
