/** What is evaluated while a throw is under way. A quasiquote does not look at the flag
    between its parts, so the parts behind one that throws are evaluated too, each up to the
    first subform that hands control back. What that prints and what it defines can be read
    off the text and the environment at the moment of the throw. */
module BehindThrow {
  import opened Tml
  import opened Exceptions
  import opened EvalFuel
  import opened FormText

  // Environments

  /** The symbol is bound, locally or globally. */
  predicate Sees(w: World, env: int, sym: int) { FindBoth(w, env, sym, |w.cells| + 1).Found? }

  predicate InCells(cells: set<int>, e: int) { e == NIL_VAL || (IsCons(e) && PtrIdx(e) in cells) }

  /** `envs` are the cells of environment lists: each one's car names a cell, its cdr is nil or
      an earlier one of them. The two environments are among these lists. */
  ghost predicate Scoped(w: World, env: int, envs: set<int>) {
    && InCells(envs, env) && InCells(envs, w.globalEnv)
    && (forall i {:trigger i in envs} :: i in envs ==>
          && 0 <= i < |w.cells| && 0 <= PtrIdx(w.cells[i].0) < |w.cells|
          && InCells(envs, w.cells[i].1) && (IsCons(w.cells[i].1) ==> PtrIdx(w.cells[i].1) < i))
  }

  /** Cells stay, but for the cdr of the cell `hole`. */
  ghost predicate Kept(w: World, w1: World, hole: int) {
    && |w.cells| <= |w1.cells|
    && (forall i {:trigger w1.cells[i]} :: 0 <= i < |w.cells| ==>
          w1.cells[i].0 == w.cells[i].0 && (i != hole ==> w1.cells[i] == w.cells[i]))
  }

  /** Every walk of an environment ends. */
  lemma {:induction false} FindEnds(w: World, env: int, envs: set<int>, e: int, sym: int, f: nat)
    requires Scoped(w, env, envs) && InCells(envs, e)
    requires f >= 1 && (IsCons(e) ==> f >= PtrIdx(e) + 2)
    ensures !Find(w, e, sym, f).Lost?
    decreases f
  {
    if e != NIL_VAL && w.Car(w.Car(e)) != sym {
      FindEnds(w, env, envs, w.Cdr(e), sym, f - 1);
    }
  }

  lemma {:induction false} FindKept(w: World, w1: World, env: int, envs: set<int>, hole: int, e: int, sym: int, f: nat)
    requires Scoped(w, env, envs) && InCells(envs, e) && Kept(w, w1, hole) && hole !in envs
    ensures Find(w1, e, sym, f) == Find(w, e, sym, f)
    decreases f
  {
    if f > 0 && e != NIL_VAL {
      var i := PtrIdx(e);
      assert w1.cells[i] == w.cells[i];
      assert w1.cells[PtrIdx(w.cells[i].0)].0 == w.cells[PtrIdx(w.cells[i].0)].0;
      FindKept(w, w1, env, envs, hole, w.Cdr(e), sym, f - 1);
    }
  }

  /** Enough fuel finds what any fuel finds that does not run out. */
  lemma SeesAt(w: World, env: int, envs: set<int>, sym: int, f: nat)
    requires Scoped(w, env, envs) && !FindBoth(w, env, sym, f).Lost?
    ensures FindBoth(w, env, sym, f).Found? <==> Sees(w, env, sym)
  {
    var n := |w.cells| + 1;
    BothEnds(w, env, envs, sym);
    if f <= n {
      FindBothMore(w, env, sym, f, n);
    } else {
      FindBothMore(w, env, sym, n, f);
    }
  }

  lemma BothEnds(w: World, env: int, envs: set<int>, sym: int)
    requires Scoped(w, env, envs)
    ensures !FindBoth(w, env, sym, |w.cells| + 1).Lost?
    ensures !Find(w, env, sym, |w.cells| + 1).Lost? && !Find(w, w.globalEnv, sym, |w.cells| + 1).Lost?
  {
    hide Find;
    FindEnds(w, env, envs, env, sym, |w.cells| + 1);
    FindEnds(w, env, envs, w.globalEnv, sym, |w.cells| + 1);
  }

  lemma SeesKept(w: World, w1: World, env: int, envs: set<int>, hole: int, sym: int)
    requires Scoped(w, env, envs) && Kept(w, w1, hole) && hole !in envs && w1.globalEnv == w.globalEnv
    ensures Sees(w1, env, sym) <==> Sees(w, env, sym)
  {
    hide Find;
    var n, m := |w.cells| + 1, |w1.cells| + 1;
    BothEnds(w, env, envs, sym);
    FindKept(w, w1, env, envs, hole, env, sym, n);
    FindKept(w, w1, env, envs, hole, w.globalEnv, sym, n);
    FindBothMore(w1, env, sym, n, m);
  }

  /** A binding in front of the global environment adds its name. */
  lemma SeesDefined(w: World, env: int, envs: set<int>, name: int, val: int, sym: int)
    requires Scoped(w, env, envs)
    ensures var x := EnvExtend(w, name, val, w.globalEnv);
      Sees(x.w.SetGlobal(x.v), env, sym) <==> Sees(w, env, sym) || sym == name
  {
    var n := |w.cells| + 1;
    var x := EnvExtend(w, name, val, w.globalEnv);
    var w1 := x.w.SetGlobal(x.v);
    assert x.v == MakeCons(n) && w1.Car(x.v) == MakeCons(n - 1) && w1.Car(MakeCons(n - 1)) == name;
    assert w1.Cdr(x.v) == w.globalEnv;
    hide Find;
    assert Kept(w, w1, -1) && -1 !in envs;
    BothEnds(w, env, envs, sym);
    FindKept(w, w1, env, envs, -1, env, sym, n);
    FindKept(w, w1, env, envs, -1, w.globalEnv, sym, n);
    FindMore(w1, env, sym, n, n + 2);
    FindMore(w1, w.globalEnv, sym, n, n + 1);
    FindFirst(w1, x.v, sym, n + 2);
  }

  lemma FindFirst(w: World, e: int, sym: int, f: nat)
    requires f > 0 && e != NIL_VAL
    ensures Find(w, e, sym, f) == if w.Car(w.Car(e)) == sym then Found(w.Car(e)) else Find(w, w.Cdr(e), sym, f - 1)
  {
  }

  // What effects print and define

  function Defined(es: seq<Effect>): set<int> {
    if es == [] then {}
    else (if es[0].Define? then {es[0].name} else {}) + Defined(es[1..])
  }

  predicate Defines(es: seq<Effect>) { exists i :: 0 <= i < |es| && es[i].Define? }

  /** The messages: a symbol looked up is reported unless it was bound before or has been
      defined since, `done` being the names defined so far. */
  function Messages(es: seq<Effect>, w: World, env: int, done: set<int>): seq<int> {
    if es == [] then []
    else
      match es[0]
      case Define(name) => Messages(es[1..], w, env, done + {name})
      case Look(sym) =>
        (if sym in done || Sees(w, env, sym) then [] else [UNBOUND, sym]) + Messages(es[1..], w, env, done)
  }

  lemma {:induction false} DefinedAppend(a: seq<Effect>, b: seq<Effect>)
    ensures Defined(a + b) == Defined(a) + Defined(b)
    ensures Defines(a + b) <==> Defines(a) || Defines(b)
    decreases |a|
  {
    if a == [] {
      assert a + b == b;
    } else {
      assert (a + b)[1..] == a[1..] + b;
      DefinedAppend(a[1..], b);
    }
    forall i | 0 <= i < |b| ensures (a + b)[|a| + i] == b[i] {
    }
    forall i | 0 <= i < |a| ensures (a + b)[i] == a[i] {
    }
  }

  lemma {:induction false} MessagesAppend(a: seq<Effect>, b: seq<Effect>, w: World, env: int, done: set<int>)
    ensures Messages(a + b, w, env, done) == Messages(a, w, env, done) + Messages(b, w, env, done + Defined(a))
    decreases |a|
  {
    hide Sees;
    if a == [] {
      assert a + b == b && done + Defined(a) == done;
    } else {
      assert (a + b)[1..] == a[1..] + b;
      if a[0].Define? {
        MessagesAppend(a[1..], b, w, env, done + {a[0].name});
        assert done + {a[0].name} + Defined(a[1..]) == done + Defined(a);
      } else {
        MessagesAppend(a[1..], b, w, env, done);
        assert done + Defined(a[1..]) == done + Defined(a);
      }
    }
  }

  /** Symbols are bound in `w1` when they are in `w` or among the names. */
  ghost predicate Knows(w: World, w1: World, env: int, names: set<int>) {
    forall s :: IsSymbol(s) ==> (Sees(w1, env, s) <==> Sees(w, env, s) || s in names)
  }

  lemma {:induction false} MessagesLater(es: seq<Effect>, w: World, w1: World, env: int, names: set<int>,
        done: set<int>)
    requires Knows(w, w1, env, names) && LooksUpSymbols(es)
    ensures Messages(es, w1, env, done) == Messages(es, w, env, names + done)
    decreases |es|
  {
    hide Sees;
    if es != [] {
      if es[0].Define? {
        MessagesLater(es[1..], w, w1, env, names, done + {es[0].name});
        assert names + done + {es[0].name} == names + (done + {es[0].name});
      } else {
        MessagesLater(es[1..], w, w1, env, names, done);
      }
    }
  }

  /** Something is printed exactly if some symbol looked up is bound neither before nor by the
      definitions in front of it. */
  lemma {:induction false} PrintsExactly(es: seq<Effect>, w: World, env: int, done: set<int>)
    ensures Messages(es, w, env, done) != [] <==>
      exists i :: 0 <= i < |es| && es[i].Look? && es[i].sym !in done + Defined(es[..i]) && !Sees(w, env, es[i].sym)
    decreases |es|
  {
    hide Sees;
    if es != [] {
      var rest := es[1..];
      var later := if es[0].Define? then done + {es[0].name} else done;
      PrintsExactly(rest, w, env, later);
      forall i | 0 <= i < |rest|
        ensures es[i + 1] == rest[i] && later + Defined(rest[..i]) == done + Defined(es[..i + 1])
      {
        assert es[..i + 1][1..] == rest[..i] && es[..i + 1][0] == es[0];
      }
      if exists i :: 0 <= i < |rest| && rest[i].Look? && rest[i].sym !in later + Defined(rest[..i])
                     && !Sees(w, env, rest[i].sym) {
        var i :| 0 <= i < |rest| && rest[i].Look? && rest[i].sym !in later + Defined(rest[..i])
                 && !Sees(w, env, rest[i].sym);
        assert es[i + 1].Look? && es[i + 1].sym !in done + Defined(es[..i + 1]);
      }
      if exists i :: 0 <= i < |es| && es[i].Look? && es[i].sym !in done + Defined(es[..i]) && !Sees(w, env, es[i].sym) {
        var i :| 0 <= i < |es| && es[i].Look? && es[i].sym !in done + Defined(es[..i]) && !Sees(w, env, es[i].sym);
        if i > 0 {
          assert rest[i - 1] == es[i] && later + Defined(rest[..i - 1]) == done + Defined(es[..i]);
        } else {
          assert es[..0] == [];
        }
      }
    }
  }

  // From one world to another behind a throw

  /** The effects have taken place and nothing else: messages, definitions, new cells. `hole`
      is the tail of the list under construction. */
  ghost predicate After(w: World, w1: World, env: int, es: seq<Effect>, hole: int, envs: set<int>, envs1: set<int>) {
    && Kept(w, w1, hole) && Scoped(w1, env, envs1)
    && (forall i :: i in envs ==> i in envs1) && (forall i :: i in envs1 && i !in envs ==> i >= |w.cells|)
    && Knows(w, w1, env, Defined(es))
    && w1.output == w.output + Messages(es, w, env, {})
    && (if Defines(es) then IsCons(w1.globalEnv) && PtrIdx(w1.globalEnv) >= |w.cells| else w1.globalEnv == w.globalEnv)
  }

  lemma AfterBoth(w: World, w1: World, w2: World, env: int, a: seq<Effect>, b: seq<Effect>, hole: int, hole1: int,
                  envs: set<int>, envs1: set<int>, envs2: set<int>)
    requires After(w, w1, env, a, hole, envs, envs1) && After(w1, w2, env, b, hole1, envs1, envs2)
    requires (hole1 == hole || hole1 < 0 || hole1 >= |w.cells|) && LooksUpSymbols(b)
    ensures After(w, w2, env, a + b, hole, envs, envs2)
  {
    hide Sees, Scoped, Messages, Defined;
    DefinedAppend(a, b);
    MessagesAppend(a, b, w, env, {});
    MessagesLater(b, w, w1, env, Defined(a), {});
    assert Defined(a) + {} == {} + Defined(a);
    assert w.output + (Messages(a, w, env, {}) + Messages(b, w, env, {} + Defined(a)))
        == w.output + Messages(a, w, env, {}) + Messages(b, w, env, {} + Defined(a));
  }

  /** New cells, or a patched tail, are no effect. */
  lemma QuietAfter(w: World, w1: World, env: int, hole: int, envs: set<int>)
    requires Scoped(w, env, envs) && Kept(w, w1, hole) && hole !in envs
    requires w1.globalEnv == w.globalEnv && w1.output == w.output
    ensures After(w, w1, env, [], hole, envs, envs)
  {
    forall s | IsSymbol(s) ensures Sees(w1, env, s) <==> Sees(w, env, s) {
      SeesKept(w, w1, env, envs, hole, s);
    }
    hide Sees;
    assert Messages([], w, env, {}) == [] && w.output + [] == w.output;
    assert Scoped(w1, env, envs);
  }

  // The list under construction

  /** Its tail, if there is one, is a cell of its own, no part of the text or of an environment. */
  ghost predicate Built(w: World, result: int, tail: int, text: Text, envs: set<int>) {
    if result == NIL_VAL then tail == NIL_VAL
    else 0 <= PtrIdx(tail) < |w.cells| && PtrIdx(tail) !in text && PtrIdx(tail) !in envs
  }

  /** A step of the construction. */
  ghost predicate Grows(w: World, b: Building, env: int, result: int, tail: int, text: Text, envs: set<int>) {
    && b.Building? && After(w, b.w, env, [], Hole(result, tail), envs, envs)
    && Holds(text, b.w) && Built(b.w, b.result, b.tail, text, envs)
    && (Hole(b.result, b.tail) == Hole(result, tail) || Hole(b.result, b.tail) >= |w.cells|)
  }

  lemma AppendAfter(w: World, v: int, env: int, result: int, tail: int, text: Text, envs: set<int>)
    requires Built(w, result, tail, text, envs) && Scoped(w, env, envs) && Holds(text, w)
    ensures Grows(w, Append(w, v, result, tail), env, result, tail, text, envs)
  {
    hide Scoped, After;
    ScopedCells(w, env, envs);
    QuietAfter(w, Append(w, v, result, tail).w, env, Hole(result, tail), envs);
  }

  lemma ScopedCells(w: World, env: int, envs: set<int>)
    requires Scoped(w, env, envs)
    ensures forall i :: i in envs ==> 0 <= i < |w.cells|
  {
  }

  lemma AfterScoped(w: World, w1: World, env: int, es: seq<Effect>, hole: int, envs: set<int>, envs1: set<int>)
    requires After(w, w1, env, es, hole, envs, envs1)
    ensures Scoped(w1, env, envs1) && |w.cells| <= |w1.cells|
    ensures forall i :: i in envs1 && i !in envs ==> i >= |w.cells|
  {
  }

  lemma {:induction false} SpliceAfter(w: World, list: int, env: int, result: int, tail: int, f: nat, text: Text,
                                       envs: set<int>)
    requires Splice(w, list, result, tail, f).Building?
    requires Built(w, result, tail, text, envs) && Scoped(w, env, envs) && Holds(text, w)
    ensures Grows(w, Splice(w, list, result, tail, f), env, result, tail, text, envs)
    decreases f
  {
    hide Append, Built, After, Scoped, Holds;
    if IsCons(list) {
      var a := Append(w, w.Car(list), result, tail);
      AppendAfter(w, w.Car(list), env, result, tail, text, envs);
      AfterScoped(w, a.w, env, [], Hole(result, tail), envs, envs);
      SpliceAfter(a.w, a.w.Cdr(list), env, a.result, a.tail, f - 1, text, envs);
      var none: seq<Effect> := [];
      assert none + none == none;
      AfterBoth(w, a.w, Splice(w, list, result, tail, f).w, env, none, none, Hole(result, tail),
                Hole(a.result, a.tail), envs, envs, envs);
    } else {
      SameAfter(w, env, Hole(result, tail), envs);
    }
  }

  lemma SameAfter(w: World, env: int, hole: int, envs: set<int>)
    requires Scoped(w, env, envs)
    ensures After(w, w, env, [], hole, envs, envs)
  {
    assert w.output + [] == w.output;
  }

  lemma PartAdded(w: World, splicing: bool, v: int, env: int, result: int, tail: int, f: nat, text: Text,
                  envs: set<int>)
    requires AddPart(w, splicing, v, result, tail, f).Building?
    requires Built(w, result, tail, text, envs) && Scoped(w, env, envs) && Holds(text, w)
    ensures Grows(w, AddPart(w, splicing, v, result, tail, f), env, result, tail, text, envs)
  {
    hide Grows, Built, Scoped, Holds;
    if splicing {
      SpliceAfter(w, v, env, result, tail, f, text, envs);
    } else {
      AppendAfter(w, v, env, result, tail, text, envs);
    }
  }

  // Forms that evaluate nothing

  /** A closure or macro only takes new cells. */
  lemma CodeAfter(w: World, etype: int, params: int, forms: int, env: int, codeEnv: int, envs: set<int>)
    requires Scoped(w, env, envs)
    ensures var body := BodyOf(w, forms);
      After(w, MakeCode(body.w, etype, params, body.v, codeEnv).w, env, [], -1, envs, envs)
  {
    var body := BodyOf(w, forms);
    ScopedCells(w, env, envs);
    QuietAfter(w, MakeCode(body.w, etype, params, body.v, codeEnv).w, env, -1, envs);
  }

  /** A definition: a new binding and a new cell of the global environment. The name recorded
      may be any non-symbol if the word bound is none. */
  lemma GlobalAfter(w: World, w1: World, word: int, val: int, env: int, name: int, envs: set<int>)
      returns (envs1: set<int>)
    requires After(w, w1, env, [], -1, envs, envs) && Scoped(w, env, envs)
    requires name == word || (!IsSymbol(name) && !IsSymbol(word))
    ensures var x := EnvExtend(w1, word, val, w1.globalEnv);
      After(w, x.w.SetGlobal(x.v), env, [Define(name)], -1, envs, envs1)
  {
    var x := EnvExtend(w1, word, val, w1.globalEnv);
    var w2 := x.w.SetGlobal(x.v);
    envs1 := envs + {|w1.cells| + 1};
    forall s | IsSymbol(s) ensures Sees(w2, env, s) <==> Sees(w1, env, s) || s == word {
      SeesDefined(w1, env, envs, word, val, s);
    }
    hide Sees;
    var es := [Define(name)];
    assert Defined(es) == {name} && Messages(es, w, env, {}) == [] && es[0].Define?;
    assert w2.output == w.output + [];
    assert Scoped(w2, env, envs1);
  }

  lemma LeafAfter(p: Prims, f: nat, expr: int, env: int, w: World, live: seq<int>, pend: Pend, t: Tree,
                  envs: set<int>)
    requires pend.Thrown? && Aimed(pend, live) && !Eval(p, f, expr, env, w, live, pend).Out?
    requires Scoped(w, env, envs) && t == Leaf(expr) && !IsCons(expr)
    ensures After(w, Eval(p, f, expr, env, w, live, pend).w, env, Effects(t), -1, envs, envs)
  {
    var o := Eval(p, f, expr, env, w, live, pend);
    ScopedCells(w, env, envs);
    if Effects(t) == [] {
      QuietAfter(w, o.w, env, -1, envs);
    } else {
      SeesAt(w, env, envs, expr, f);
      forall s | IsSymbol(s) ensures Sees(o.w, env, s) <==> Sees(w, env, s) {
        SeesKept(w, o.w, env, envs, -1, s);
      }
      LookPrints(w, env, expr);
      hide Sees;
      assert Scoped(o.w, env, envs);
    }
  }

  lemma LookPrints(w: World, env: int, sym: int)
    ensures Messages([Look(sym)], w, env, {}) == if Sees(w, env, sym) then [] else [UNBOUND, sym]
    ensures Defined([Look(sym)]) == {} && !Defines([Look(sym)])
  {
    hide Sees;
    assert [Look(sym)][1..] == [];
    assert Messages([], w, env, {}) == [];
    assert Defined([]) == {};
  }

  // Reading the text in the world

  lemma NodeReads(text: Text, w: World, v: int, t: Tree)
    requires Holds(text, w) && Is(text, v, t) && t.Node?
    ensures IsCons(v) && Is(text, w.Car(v), t.car) && Is(text, w.Cdr(v), t.cdr)
    ensures forall x :: !IsCons(x) ==> (w.Car(v) == x <==> t.car == Leaf(x))
    ensures forall x :: !IsCons(x) ==> (w.Cdr(v) == x <==> t.cdr == Leaf(x))
  {
    assert w.cells[PtrIdx(v)] == text[PtrIdx(v)];
  }

  lemma NilWords(text: Text, w: World)
    requires Holds(text, w) && NilReads(text)
    ensures Inert(w.Car(NIL_VAL)) && Inert(w.Car(w.Cdr(NIL_VAL)))
  {
    assert w.cells[0] == text[0] && w.cells[PtrIdx(text[0].1)] == text[PtrIdx(text[0].1)];
  }

  /** The first form of a list, which in an empty one is a word that does nothing. */
  lemma FirstReads(text: Text, w: World, v: int, args: Tree) returns (t: Tree)
    requires Holds(text, w) && NilReads(text) && Is(text, v, args) && LegalFirst(args)
    ensures Is(text, w.Car(v), t) && Legal(t) && Effects(t) == FirstEffects(args)
  {
    if args.Node? {
      NodeReads(text, w, v, args);
      t := args.car;
    } else {
      NilWords(text, w);
      t := Leaf(w.Car(v));
    }
  }

  /** The second. */
  lemma SecondReads(text: Text, w: World, v: int, args: Tree) returns (t: Tree)
    requires Holds(text, w) && NilReads(text) && Is(text, v, args)
    requires IsList(args) && (args.Node? ==> LegalFirst(args.cdr))
    ensures Is(text, w.Car(w.Cdr(v)), t) && Legal(t)
    ensures Effects(t) == if args.Node? then FirstEffects(args.cdr) else []
  {
    if args.Node? {
      NodeReads(text, w, v, args);
      t := FirstReads(text, w, w.Cdr(v), args.cdr);
    } else {
      NilWords(text, w);
      t := Leaf(w.Car(w.Cdr(v)));
    }
  }

  // Evaluation behind a throw

  /** Forms with one first evaluated subform give up behind it. */
  lemma FirstSubform(p: Prims, f: nat, expr: int, env: int, w: World, live: seq<int>, pend: Pend, first: int)
      returns (g: nat)
    requires pend.Thrown? && Aimed(pend, live) && !Eval(p, f, expr, env, w, live, pend).Out? && IsCons(expr)
    requires var head, args := w.Car(expr), w.Cdr(expr);
      || (head in [IF, CATCH] && first == w.Car(args))
      || (head == BEGIN && args != NIL_VAL && first == w.Car(args))
      || (head == SET && first == w.Car(w.Cdr(args)))
      || (head == DEFINE && !IsCons(w.Car(args)) && first == w.Car(w.Cdr(args)))
      || (head !in [QUOTE, QUASIQUOTE, IF, DEFINE, SET, LAMBDA, DEFMACRO, CATCH, BEGIN] && first == head)
    ensures g < f && !Eval(p, g, first, env, w, live, pend).Out?
    ensures Eval(p, f, expr, env, w, live, pend).w == Eval(p, g, first, env, w, live, pend).w
  {
    g := if w.Car(expr) in [IF, CATCH, BEGIN, SET, DEFINE] then f - 2 else f - 1;
    assert Eval(p, g, first, env, w, live, pend).Raise?;
  }

  /** The name a defining form records. */
  lemma NameReads(text: Text, w: World, v: int, t: Tree) returns (name: int)
    requires Holds(text, w) && NilReads(text) && Is(text, v, t) && t.Node? && Legal(t)
    requires w.Car(v) == DEFMACRO || (w.Car(v) == DEFINE && IsCons(w.Car(w.Cdr(v))))
    ensures Effects(t) == [Define(name)]
    ensures var first := w.Car(w.Cdr(v));
      var word := if w.Car(v) == DEFMACRO then first else w.Car(first);
      name == word || (!IsSymbol(name) && !IsSymbol(word))
  {
    hide Holds, NilReads, Is;
    NodeReads(text, w, v, t);
    NilWords(text, w);
    var args := t.cdr;
    if args.Node? {
      NodeReads(text, w, w.Cdr(v), args);
      if w.Car(v) == DEFMACRO {
        WordReads(text, w.Car(w.Cdr(v)), args.car);
        name := Word(args.car);
      } else {
        PairWord(text, w.Car(w.Cdr(v)), args.car);
        NodeReads(text, w, w.Car(w.Cdr(v)), args.car);
        WordReads(text, w.Car(w.Car(w.Cdr(v))), args.car.car);
        name := Word(args.car.car);
      }
    } else {
      name := 0;
    }
  }

  lemma WordReads(text: Text, v: int, t: Tree)
    requires Is(text, v, t)
    ensures Word(t) == v || (!IsSymbol(Word(t)) && !IsSymbol(v))
  {
  }

  /** The template of a quasiquote form. */
  lemma TemplateReads(p: Prims, f: nat, expr: int, env: int, w: World, live: seq<int>, pend: Pend, text: Text, t: Tree)
      returns (q: Tree)
    requires Aimed(pend, live) && !Eval(p, f, expr, env, w, live, pend).Out?
    requires Holds(text, w) && NilReads(text) && Is(text, expr, t) && t.Node? && Legal(t) && w.Car(expr) == QUASIQUOTE
    ensures var tmpl := w.Car(w.Cdr(expr));
      && Is(text, tmpl, q) && LegalQuasi(q) && QuasiEffects(q) == Effects(t)
      && f > 0 && Eval(p, f, expr, env, w, live, pend) == EvalQuasi(p, f - 1, tmpl, env, w, live, pend)
  {
    hide Holds, NilReads, EvalQuasi;
    NodeReads(text, w, expr, t);
    if t.cdr.Node? {
      NodeReads(text, w, w.Cdr(expr), t.cdr);
      q := t.cdr.car;
    } else {
      NilWords(text, w);
      q := Leaf(w.Car(w.Cdr(expr)));
    }
  }

  /** The first evaluated subform of any other form. */
  lemma SubformReads(p: Prims, f: nat, expr: int, env: int, w: World, live: seq<int>, pend: Pend, text: Text, t: Tree)
      returns (g: nat, first: Tree, word: int)
    requires pend.Thrown? && Aimed(pend, live) && !Eval(p, f, expr, env, w, live, pend).Out?
    requires Holds(text, w) && NilReads(text) && Is(text, expr, t) && t.Node? && Legal(t)
    requires w.Car(expr) !in [QUOTE, LAMBDA, DEFMACRO, QUASIQUOTE] && !(w.Car(expr) == BEGIN && w.Cdr(expr) == NIL_VAL)
    requires !(w.Car(expr) == DEFINE && IsCons(w.Car(w.Cdr(expr))))
    ensures g < f && !Eval(p, g, word, env, w, live, pend).Out?
    ensures Eval(p, f, expr, env, w, live, pend).w == Eval(p, g, word, env, w, live, pend).w
    ensures Is(text, word, first) && Legal(first) && Effects(first) == Effects(t)
  {
    hide Eval, Holds, NilReads;
    NodeReads(text, w, expr, t);
    var head, args := w.Car(expr), w.Cdr(expr);
    if head == IF || head == CATCH || head == BEGIN {
      word := w.Car(args);
      first := FirstReads(text, w, args, t.cdr);
    } else if head == DEFINE || head == SET {
      if t.cdr.Node? {
        NodeReads(text, w, args, t.cdr);
        PairWord(text, w.Car(args), t.cdr.car);
      }
      word := w.Car(w.Cdr(args));
      first := SecondReads(text, w, args, t.cdr);
    } else {
      word, first := head, t.car;
    }
    g := FirstSubform(p, f, expr, env, w, live, pend, word);
  }

  lemma PairWord(text: Text, v: int, t: Tree)
    requires Is(text, v, t)
    ensures IsCons(v) <==> t.Node?
  {
  }

  /** The forms that only allocate, or do nothing. */
  lemma StillAfter(p: Prims, f: nat, expr: int, env: int, w: World, live: seq<int>, pend: Pend, t: Tree,
                   envs: set<int>)
    requires pend.Thrown? && Aimed(pend, live) && !Eval(p, f, expr, env, w, live, pend).Out? && IsCons(expr)
    requires Scoped(w, env, envs)
    requires w.Car(expr) in [QUOTE, LAMBDA] || (w.Car(expr) == BEGIN && w.Cdr(expr) == NIL_VAL)
    requires t.Node? && t.car == Leaf(w.Car(expr)) && (w.Car(expr) == BEGIN ==> t.cdr == Leaf(NIL_VAL))
    ensures After(w, Eval(p, f, expr, env, w, live, pend).w, env, Effects(t), -1, envs, envs)
  {
    hide After, Scoped, BodyOf, MakeCode;
    if w.Car(expr) == LAMBDA {
      CodeAfter(w, ETYPE_CLOSURE, w.Car(w.Cdr(expr)), w.Cdr(w.Cdr(expr)), env, env, envs);
    } else {
      SameAfter(w, env, -1, envs);
    }
  }

  /** The forms that define; `name` is the name recorded for the word they bind. */
  lemma DefiningAfter(p: Prims, f: nat, expr: int, env: int, w: World, live: seq<int>, pend: Pend, name: int,
                      envs: set<int>) returns (envs1: set<int>)
    requires pend.Thrown? && Aimed(pend, live) && !Eval(p, f, expr, env, w, live, pend).Out? && IsCons(expr)
    requires Scoped(w, env, envs)
    requires w.Car(expr) == DEFMACRO || (w.Car(expr) == DEFINE && IsCons(w.Car(w.Cdr(expr))))
    requires var first := w.Car(w.Cdr(expr));
      var word := if w.Car(expr) == DEFMACRO then first else w.Car(first);
      name == word || (!IsSymbol(name) && !IsSymbol(word))
    ensures After(w, Eval(p, f, expr, env, w, live, pend).w, env, [Define(name)], -1, envs, envs1)
  {
    hide After, Scoped, BodyOf, MakeCode, EnvExtend;
    var args := w.Cdr(expr);
    if w.Car(expr) == DEFMACRO {
      var body := BodyOf(w, w.Cdr(w.Cdr(args)));
      CodeAfter(w, ETYPE_MACRO, w.Car(w.Cdr(args)), w.Cdr(w.Cdr(args)), env, env, envs);
      var made := MakeCode(body.w, ETYPE_MACRO, w.Car(w.Cdr(args)), body.v, env);
      envs1 := GlobalAfter(w, made.w, w.Car(args), made.v, env, name, envs);
    } else {
      var first := w.Car(args);
      var body := BodyOf(w, w.Cdr(args));
      CodeAfter(w, ETYPE_CLOSURE, w.Cdr(first), w.Cdr(args), env, env, envs);
      var made := MakeCode(body.w, ETYPE_CLOSURE, w.Cdr(first), body.v, env);
      envs1 := GlobalAfter(w, made.w, w.Car(first), made.v, env, name, envs);
    }
  }

  /** An evaluation behind a throw has the effects of its text. */
  lemma {:induction false} Behind(p: Prims, f: nat, expr: int, env: int, w: World, live: seq<int>, pend: Pend,
                                  text: Text, t: Tree, envs: set<int>) returns (envs1: set<int>)
    requires pend.Thrown? && Aimed(pend, live) && !Eval(p, f, expr, env, w, live, pend).Out?
    requires Holds(text, w) && NilReads(text) && Is(text, expr, t) && Legal(t) && Scoped(w, env, envs)
    ensures After(w, Eval(p, f, expr, env, w, live, pend).w, env, Effects(t), -1, envs, envs1)
    decreases f
  {
    hide After, Scoped, Holds, NilReads, Sees, Eval, Effects, Legal;
    if t.Leaf? {
      LeafAfter(p, f, expr, env, w, live, pend, t, envs);
      return envs;
    }
    NodeReads(text, w, expr, t);
    var head, args := w.Car(expr), w.Cdr(expr);
    if head == QUOTE || head == LAMBDA || (head == BEGIN && args == NIL_VAL) {
      StillAfter(p, f, expr, env, w, live, pend, t, envs);
      envs1 := envs;
    } else if head == DEFMACRO || (head == DEFINE && IsCons(w.Car(args))) {
      var name := NameReads(text, w, expr, t);
      envs1 := DefiningAfter(p, f, expr, env, w, live, pend, name, envs);
    } else if head == QUASIQUOTE {
      var q := TemplateReads(p, f, expr, env, w, live, pend, text, t);
      envs1 := QuasiBehind(p, f - 1, w.Car(args), env, w, live, pend, text, q, envs);
    } else {
      var g, first, word := SubformReads(p, f, expr, env, w, live, pend, text, t);
      envs1 := Behind(p, g, word, env, w, live, pend, text, first, envs);
    }
  }

  lemma {:induction false} QuasiBehind(p: Prims, f: nat, tmpl: int, env: int, w: World, live: seq<int>, pend: Pend,
                                       text: Text, t: Tree, envs: set<int>) returns (envs1: set<int>)
    requires pend.Thrown? && Aimed(pend, live) && !EvalQuasi(p, f, tmpl, env, w, live, pend).Out?
    requires Holds(text, w) && NilReads(text) && Is(text, tmpl, t) && LegalQuasi(t) && Scoped(w, env, envs)
    ensures After(w, EvalQuasi(p, f, tmpl, env, w, live, pend).w, env, QuasiEffects(t), -1, envs, envs1)
    decreases f
  {
    hide After, Scoped, Holds, NilReads, Sees, Eval, EvalParts;
    if t.Leaf? {
      SameAfter(w, env, -1, envs);
      envs1 := envs;
    } else {
      NodeReads(text, w, tmpl, t);
      if w.Car(tmpl) == UNQUOTE {
        var first := FirstReads(text, w, w.Cdr(tmpl), t.cdr);
        envs1 := Behind(p, f - 1, w.Car(w.Cdr(tmpl)), env, w, live, pend, text, first, envs);
      } else {
        envs1 := PartsBehind(p, f - 1, tmpl, env, w, live, pend, NIL_VAL, NIL_VAL, text, t, envs);
      }
    }
  }

  lemma {:induction false} PartBehind(p: Prims, f: nat, elem: int, env: int, w: World, live: seq<int>, pend: Pend,
                                      text: Text, t: Tree, envs: set<int>) returns (envs1: set<int>)
    requires pend.Thrown? && Aimed(pend, live) && !EvalPart(p, f, elem, env, w, live, pend).Out?
    requires Holds(text, w) && NilReads(text) && Is(text, elem, t) && LegalPart(t) && Scoped(w, env, envs)
    ensures After(w, EvalPart(p, f, elem, env, w, live, pend).w, env, PartEffects(t), -1, envs, envs1)
    decreases f
  {
    hide After, Scoped, Holds, NilReads, Sees, Eval, EvalQuasi;
    if t.Node? {
      NodeReads(text, w, elem, t);
    }
    if IsSplicing(w, elem) {
      var first := FirstReads(text, w, w.Cdr(elem), t.cdr);
      envs1 := Behind(p, f - 1, w.Car(w.Cdr(elem)), env, w, live, pend, text, first, envs);
    } else {
      envs1 := QuasiBehind(p, f - 1, elem, env, w, live, pend, text, t, envs);
    }
  }

  /** The parts of a template behind a throw. */
  lemma {:induction false} PartsBehind(p: Prims, f: nat, rest: int, env: int, w: World, live: seq<int>, pend: Pend,
                                       result: int, tail: int, text: Text, t: Tree, envs: set<int>)
      returns (envs1: set<int>)
    requires pend.Thrown? && Aimed(pend, live) && !EvalParts(p, f, rest, env, w, live, pend, result, tail).Out?
    requires Holds(text, w) && NilReads(text) && Is(text, rest, t) && LegalParts(t) && Scoped(w, env, envs)
    requires Built(w, result, tail, text, envs)
    ensures After(w, EvalParts(p, f, rest, env, w, live, pend, result, tail).w, env, PartsEffects(t),
                  Hole(result, tail), envs, envs1)
    decreases f, 1
  {
    hide After, Append, Splice, EvalPart, Scoped, Holds, NilReads, Sees;
    if t.Leaf? {
      EndAfter(w, rest, env, result, tail, text, envs);
      envs1 := envs;
    } else {
      NodeReads(text, w, rest, t);
      var part := EvalPart(p, f - 1, w.Car(rest), env, w, live, pend);
      var mid := PartBehind(p, f - 1, w.Car(rest), env, w, live, pend, text, t.car, envs);
      PartStays(w, part.w, env, PartEffects(t.car), result, tail, text, envs, mid);
      envs1 := RestBehind(p, f, rest, env, w, live, pend, result, tail, text, t, mid);
      AfterHole(w, part.w, env, PartEffects(t.car), Hole(result, tail), envs, mid);
      AfterBoth(w, part.w, EvalParts(p, f, rest, env, w, live, pend, result, tail).w, env, PartEffects(t.car),
                PartsEffects(t.cdr), Hole(result, tail), Hole(result, tail), envs, mid, envs1);
    }
  }

  /** The end of the loop. */
  lemma EndAfter(w: World, rest: int, env: int, result: int, tail: int, text: Text, envs: set<int>)
    requires Scoped(w, env, envs) && Built(w, result, tail, text, envs)
    ensures After(w, if rest != NIL_VAL && tail != NIL_VAL then w.SetCdr(tail, rest) else w, env, [],
                  Hole(result, tail), envs, envs)
  {
    ScopedCells(w, env, envs);
    var w1 := if rest != NIL_VAL && tail != NIL_VAL then w.SetCdr(tail, rest) else w;
    QuietAfter(w, w1, env, Hole(result, tail), envs);
  }

  /** Keeping every cell is keeping all but one. */
  lemma AfterHole(w: World, w1: World, env: int, es: seq<Effect>, hole: int, envs: set<int>, envs1: set<int>)
    requires After(w, w1, env, es, -1, envs, envs1)
    ensures After(w, w1, env, es, hole, envs, envs1)
  {
    hide Scoped, Sees;
  }

  lemma PartStays(w: World, w1: World, env: int, es: seq<Effect>, result: int, tail: int, text: Text, envs: set<int>,
                  envs1: set<int>)
    requires After(w, w1, env, es, -1, envs, envs1) && Holds(text, w) && Built(w, result, tail, text, envs)
    ensures Holds(text, w1) && Built(w1, result, tail, text, envs1) && Scoped(w1, env, envs1)
  {
    hide Scoped, Sees;
  }

  /** A part that throws, or finds a throw under way: from its end on exactly the effects of
      the parts behind it take place. The throw goes on to its frame with its value. */
  lemma {:induction false} RestBehind(p: Prims, f: nat, rest: int, env: int, w: World, live: seq<int>, pend: Pend,
                                      result: int, tail: int, text: Text, t: Tree, envs: set<int>)
      returns (envs1: set<int>)
    requires Aimed(pend, live) && !EvalParts(p, f, rest, env, w, live, pend, result, tail).Out? && IsCons(rest)
    requires EvalPart(p, f - 1, w.Car(rest), env, w, live, pend).Raise?
    requires NilReads(text) && Is(text, rest, t) && LegalParts(t)
    requires var part := EvalPart(p, f - 1, w.Car(rest), env, w, live, pend);
      Holds(text, part.w) && Scoped(part.w, env, envs) && Built(part.w, result, tail, text, envs)
    ensures var part := EvalPart(p, f - 1, w.Car(rest), env, w, live, pend);
      var o := EvalParts(p, f, rest, env, w, live, pend, result, tail);
      && o.Raise? && o.tag == part.tag && o.v == part.v
      && After(part.w, o.w, env, PartsEffects(t.cdr), Hole(result, tail), envs, envs1)
    decreases f, 0
  {
    hide After, Append, Splice, EvalPart, Scoped, Holds, NilReads, Sees, Built;
    var part := EvalPart(p, f - 1, w.Car(rest), env, w, live, pend);
    var splicing := IsSplicing(w, w.Car(rest));
    var a := AddPart(part.w, splicing, Back(part), result, tail, f);
    PartAdded(part.w, splicing, Back(part), env, result, tail, f, text, envs);
    AfterScoped(part.w, a.w, env, [], Hole(result, tail), envs, envs);
    NodeReads(text, a.w, rest, t);
    envs1 := PartsBehind(p, f - 1, a.w.Cdr(rest), env, a.w, live, Carry(part), a.result, a.tail, text, t.cdr, envs);
    var none: seq<Effect> := [];
    assert none + PartsEffects(t.cdr) == PartsEffects(t.cdr);
    AfterBoth(part.w, a.w, EvalParts(p, f, rest, env, w, live, pend, result, tail).w, env, none, PartsEffects(t.cdr),
              Hole(result, tail), Hole(a.result, a.tail), envs, envs, envs1);
  }
}
