/** A quasiquote form that throws, from the moment of the throw to its end: which of its
    unquoted expressions throws, and what the ones behind it still do. */
module QuasiThrow {
  import opened Tml
  import opened Exceptions
  import opened FormText
  import BehindThrow
  import EvalFrame

  type Kinds = seq<EvalFrame.Kind>

  /** Between two moments exactly these effects have taken place: the symbols bound are those
      bound before and the names defined, the messages are printed, and the global environment
      is another one exactly if something has been defined. */
  ghost predicate Effected(w: World, w1: World, env: int, es: seq<Effect>) {
    && |w.cells| <= |w1.cells|
    && BehindThrow.Knows(w, w1, env, BehindThrow.Defined(es))
    && w1.output == w.output + BehindThrow.Messages(es, w, env, {})
    && (if BehindThrow.Defines(es) then IsCons(w1.globalEnv) && PtrIdx(w1.globalEnv) >= |w.cells|
        else w1.globalEnv == w.globalEnv)
  }

  lemma EffectedBoth(w: World, w1: World, w2: World, env: int, a: seq<Effect>, b: seq<Effect>)
    requires Effected(w, w1, env, a) && Effected(w1, w2, env, b) && LooksUpSymbols(b)
    ensures Effected(w, w2, env, a + b)
  {
    hide BehindThrow.Sees, BehindThrow.Messages, BehindThrow.Defined;
    BehindThrow.DefinedAppend(a, b);
    BehindThrow.MessagesAppend(a, b, w, env, {});
    BehindThrow.MessagesLater(b, w, w1, env, BehindThrow.Defined(a), {});
    assert BehindThrow.Defined(a) + {} == {} + BehindThrow.Defined(a);
    var first := BehindThrow.Messages(a, w, env, {});
    var second := BehindThrow.Messages(b, w, env, {} + BehindThrow.Defined(a));
    assert w.output + (first + second) == w.output + first + second;
  }

  lemma NothingEffected(w: World, env: int)
    ensures Effected(w, w, env, AllEffects([]))
  {
    hide BehindThrow.Sees;
    assert AllEffects([]) == [] && w.output + [] == w.output;
  }

  lemma AfterEffected(w: World, w1: World, env: int, es: seq<Effect>, hole: int, envs: set<int>, envs1: set<int>)
    requires BehindThrow.After(w, w1, env, es, hole, envs, envs1)
    ensures Effected(w, w1, env, es)
  {
    hide BehindThrow.Scoped, BehindThrow.Knows;
  }

  // Text in a typed heap

  /** The text holds no binding and not the tail of the list under construction. */
  ghost predicate Outside(text: Text, k: Kinds, result: int, tail: int) {
    && (forall i :: i in text ==> 0 <= i < |k| && k[i] != EvalFrame.Binding)
    && (result != NIL_VAL ==> PtrIdx(tail) !in text)
  }

  lemma TextKept(text: Text, k: Kinds, w: World, k1: Kinds, w1: World, result: int, tail: int, hole: int)
    requires Outside(text, k, result, tail) && Holds(text, w) && EvalFrame.Grown(k, w, k1, w1, hole)
    requires hole == Hole(result, tail) || hole < 0
    ensures Outside(text, k1, result, tail) && Holds(text, w1)
  {
  }

  function Scopes(k: Kinds): set<int> { set i | 0 <= i < |k| && k[i] == EvalFrame.Scope }

  lemma TypedScoped(k: Kinds, w: World, env: int)
    requires EvalFrame.Typed(k, w) && EvalFrame.EnvOk(k, env)
    ensures BehindThrow.Scoped(w, env, Scopes(k))
  {
    forall i {:trigger i in Scopes(k)} | i in Scopes(k)
      ensures 0 <= i < |w.cells| && 0 <= PtrIdx(w.cells[i].0) < |w.cells|
      ensures BehindThrow.InCells(Scopes(k), w.cells[i].1) && (IsCons(w.cells[i].1) ==> PtrIdx(w.cells[i].1) < i)
    {
      assert EvalFrame.CellOk(k, i, w.cells[i]);
    }
  }

  lemma ListBuilt(k: Kinds, w: World, result: int, tail: int, text: Text)
    requires EvalFrame.Typed(k, w) && EvalFrame.ListOk(k, result, tail) && Outside(text, k, result, tail)
    ensures BehindThrow.Built(w, result, tail, text, Scopes(k))
  {
  }

  // The throwing expression

  /** Expression `j` of the template, the first word of the list `arg`, evaluated with no throw
      under way, ends in a throw: the moment is `at`. */
  datatype Moment = Moment(j: nat, arg: int, before: World, at: World)

  /** The outcome is a throw that this expression raised, with its tag and value; from then on
      exactly the effects of the expressions behind it have taken place. */
  ghost predicate ThrownAt(p: Prims, m: Moment, env: int, live: seq<int>, o: Outcome, args: seq<Tree>, text: Text) {
    && m.j < |args| && Is(text, m.arg, args[m.j]) && Holds(text, m.before) && o.Raise? && GlobalThere(m.at)
    && Throws(p, m, env, live, o)
    && Effected(m.at, o.w, env, AllEffects(args[m.j + 1..]))
  }

  predicate GlobalThere(w: World) { w.globalEnv == NIL_VAL || PtrIdx(w.globalEnv) < |w.cells| }

  ghost predicate Throws(p: Prims, m: Moment, env: int, live: seq<int>, o: Outcome)
    requires o.Raise?
  {
    exists g: nat, back :: Eval(p, g, m.before.Car(m.arg), env, m.before, live, Free) == Raise(o.tag, o.v, m.at, back)
  }

  /** What may be evaluated: the heap is typed and holds the text. */
  ghost predicate Fit(p: Prims, env: int, w: World, k: Kinds, text: Text, result: int, tail: int) {
    && EvalFrame.PrimsOk(p) && EvalFrame.Typed(k, w) && EvalFrame.EnvOk(k, env)
    && EvalFrame.ListOk(k, result, tail)
    && Holds(text, w) && NilReads(text) && Outside(text, k, result, tail)
  }

  lemma {:induction false} TemplateThrown(p: Prims, f: nat, tmpl: int, env: int, w: World, live: seq<int>, k: Kinds,
                                          text: Text, t: Tree) returns (m: Moment)
    requires EvalQuasi(p, f, tmpl, env, w, live, Free).Raise?
    requires Fit(p, env, w, k, text, NIL_VAL, NIL_VAL) && Is(text, tmpl, t) && LegalQuasi(t)
    ensures ThrownAt(p, m, env, live, EvalQuasi(p, f, tmpl, env, w, live, Free), Unquotes(t), text)
    decreases f, 1
  {
    hide Eval, EvalParts, Fit, ThrownAt;
    FitText(p, env, w, k, text, NIL_VAL, NIL_VAL);
    BehindThrow.PairWord(text, tmpl, t);
    BehindThrow.NodeReads(text, w, tmpl, t);
    if w.Car(tmpl) == UNQUOTE {
      m := ExpressionThrown(p, f - 1, w.Cdr(tmpl), env, w, live, k, text, t.cdr);
    } else {
      m := PartsThrown(p, f - 1, tmpl, env, w, live, NIL_VAL, NIL_VAL, k, text, t);
    }
  }

  lemma FitText(p: Prims, env: int, w: World, k: Kinds, text: Text, result: int, tail: int)
    requires Fit(p, env, w, k, text, result, tail)
    ensures Holds(text, w) && NilReads(text)
  {
  }

  /** The expression that throws is this one. */
  lemma ExpressionThrown(p: Prims, g: nat, arg: int, env: int, w: World, live: seq<int>, k: Kinds, text: Text, t: Tree)
      returns (m: Moment)
    requires Eval(p, g, w.Car(arg), env, w, live, Free).Raise? && Is(text, arg, t)
    requires Fit(p, env, w, k, text, NIL_VAL, NIL_VAL)
    ensures ThrownAt(p, m, env, live, Eval(p, g, w.Car(arg), env, w, live, Free), [t], text)
  {
    hide Eval, Effected, EvalFrame.Framed, EvalFrame.PrimsOk;
    var o := Eval(p, g, w.Car(arg), env, w, live, Free);
    m := Moment(0, arg, w, o.w);
    EvalFrame.Reads(k, w, arg);
    var k1 := EvalFrame.EvalFrames(p, g, w.Car(arg), env, w, live, Free, k);
    EvalFrame.Behind(k, w, k1, o, o.back, env);
    assert [t][1..] == [];
    NothingEffected(o.w, env);
    assert o == Raise(o.tag, o.v, m.at, o.back);
  }

  lemma {:induction false} PartThrown(p: Prims, f: nat, elem: int, env: int, w: World, live: seq<int>, k: Kinds,
                                      text: Text, t: Tree) returns (m: Moment)
    requires EvalPart(p, f, elem, env, w, live, Free).Raise?
    requires Fit(p, env, w, k, text, NIL_VAL, NIL_VAL) && Is(text, elem, t) && LegalPart(t)
    ensures ThrownAt(p, m, env, live, EvalPart(p, f, elem, env, w, live, Free), PartUnquotes(t), text)
    decreases f
  {
    hide Eval, EvalQuasi, Fit, ThrownAt;
    FitText(p, env, w, k, text, NIL_VAL, NIL_VAL);
    BehindThrow.PairWord(text, elem, t);
    if t.Node? {
      BehindThrow.NodeReads(text, w, elem, t);
    }
    if IsSplicing(w, elem) {
      m := ExpressionThrown(p, f - 1, w.Cdr(elem), env, w, live, k, text, t.cdr);
    } else {
      m := TemplateThrown(p, f - 1, elem, env, w, live, k, text, t);
    }
  }

  /** Expressions in front of the throwing one count up to it. */
  lemma ThrownLater(p: Prims, m: Moment, env: int, live: seq<int>, o: Outcome, front: seq<Tree>, args: seq<Tree>,
                    text: Text)
    requires ThrownAt(p, m, env, live, o, args, text)
    ensures ThrownAt(p, m.(j := |front| + m.j), env, live, o, front + args, text)
  {
    hide Effected;
    assert (front + args)[|front| + m.j + 1..] == args[m.j + 1..];
  }

  /** And the expressions behind the throwing part have their effects after it. */
  lemma ThrownThen(p: Prims, m: Moment, env: int, live: seq<int>, part: Outcome, o: Outcome, args: seq<Tree>,
                   rest: seq<Tree>, text: Text)
    requires part.Raise? && o.Raise? && o.tag == part.tag && o.v == part.v
    requires ThrownAt(p, m, env, live, part, args, text) && Effected(part.w, o.w, env, AllEffects(rest))
    ensures ThrownAt(p, m, env, live, o, args + rest, text)
  {
    hide Effected, Throws, Is, Holds, AllEffects, FirstEffects;
    ThrowsOn(p, m, env, live, part, o);
    AllEffectsAppend(args[m.j + 1..], rest);
    assert (args + rest)[m.j + 1..] == args[m.j + 1..] + rest;
    EffectedBoth(m.at, part.w, o.w, env, AllEffects(args[m.j + 1..]), AllEffects(rest));
  }

  lemma ThrowsOn(p: Prims, m: Moment, env: int, live: seq<int>, part: Outcome, o: Outcome)
    requires part.Raise? && o.Raise? && o.tag == part.tag && o.v == part.v && Throws(p, m, env, live, part)
    ensures Throws(p, m, env, live, o)
  {
    hide Eval;
  }

  lemma {:induction false} PartsThrown(p: Prims, f: nat, rest: int, env: int, w: World, live: seq<int>, result: int,
                                       tail: int, k: Kinds, text: Text, t: Tree) returns (m: Moment)
    requires EvalParts(p, f, rest, env, w, live, Free, result, tail).Raise?
    requires Fit(p, env, w, k, text, result, tail) && Is(text, rest, t) && LegalParts(t)
    ensures ThrownAt(p, m, env, live, EvalParts(p, f, rest, env, w, live, Free, result, tail), PartsUnquotes(t), text)
    decreases f
  {
    hide EvalPart, AddPart, Fit, ThrownAt, NilReads, Holds, Effected;
    FitText(p, env, w, k, text, result, tail);
    BehindThrow.PairWord(text, rest, t);
    BehindThrow.NodeReads(text, w, rest, t);
    var o := EvalParts(p, f, rest, env, w, live, Free, result, tail);
    var part := EvalPart(p, f - 1, w.Car(rest), env, w, live, Free);
    if part.Ok? {
      var splicing := IsSplicing(w, w.Car(rest));
      var b := AddPart(part.w, splicing, part.v, result, tail, f);
      var k1 := PartFits(p, f, rest, env, w, live, result, tail, k, text);
      FitText(p, env, b.w, k1, text, b.result, b.tail);
      BehindThrow.NodeReads(text, b.w, rest, t);
      m := PartsThrown(p, f - 1, b.w.Cdr(rest), env, b.w, live, b.result, b.tail, k1, text, t.cdr);
      ThrownLater(p, m, env, live, o, PartUnquotes(t.car), PartsUnquotes(t.cdr), text);
      m := m.(j := |PartUnquotes(t.car)| + m.j);
    } else {
      FitAlone(p, env, w, k, text, result, tail);
      m := PartThrown(p, f - 1, w.Car(rest), env, w, live, k, text, t.car);
      RestEffected(p, f, rest, env, w, live, result, tail, k, text, t);
      ThrownThen(p, m, env, live, part, o, PartUnquotes(t.car), PartsUnquotes(t.cdr), text);
    }
  }

  lemma FitAlone(p: Prims, env: int, w: World, k: Kinds, text: Text, result: int, tail: int)
    requires Fit(p, env, w, k, text, result, tail)
    ensures Fit(p, env, w, k, text, NIL_VAL, NIL_VAL)
  {
  }

  /** Behind a part that returns evaluation can go on. */
  lemma PartFits(p: Prims, f: nat, rest: int, env: int, w: World, live: seq<int>, result: int, tail: int, k: Kinds,
                 text: Text) returns (k1: Kinds)
    requires f > 0 && EvalPart(p, f - 1, w.Car(rest), env, w, live, Free).Ok?
    requires Fit(p, env, w, k, text, result, tail)
    requires var part := EvalPart(p, f - 1, w.Car(rest), env, w, live, Free);
      AddPart(part.w, IsSplicing(w, w.Car(rest)), part.v, result, tail, f).Building?
    ensures var part := EvalPart(p, f - 1, w.Car(rest), env, w, live, Free);
      var b := AddPart(part.w, IsSplicing(w, w.Car(rest)), part.v, result, tail, f);
      Fit(p, env, b.w, k1, text, b.result, b.tail)
  {
    hide EvalPart, AddPart, EvalFrame.PrimsOk, EvalFrame.Typed, EvalFrame.Framed, NilReads, Outside, Holds;
    var part := EvalPart(p, f - 1, w.Car(rest), env, w, live, Free);
    var b := AddPart(part.w, IsSplicing(w, w.Car(rest)), part.v, result, tail, f);
    EvalFrame.Reads(k, w, rest);
    var mid := EvalFrame.PartFrames(p, f - 1, w.Car(rest), env, w, live, Free, k);
    EvalFrame.Behind(k, w, mid, part, part.v, env);
    EvalFrame.ListStays(k, w, mid, part, result, tail);
    TextKept(text, k, w, mid, part.w, result, tail, -1);
    k1 := EvalFrame.Added(mid, part.w, IsSplicing(w, w.Car(rest)), part.v, result, tail, f);
    EvalFrame.BehindList(mid, part.w, k1, b, result, tail, env, Free);
    TextKept(text, mid, part.w, k1, b.w, result, tail, Hole(result, tail));
    NewOutside(text, mid, k1, part.w, b, result, tail);
  }

  lemma NewOutside(text: Text, k: Kinds, k1: Kinds, w: World, b: Building, result: int, tail: int)
    requires EvalFrame.ListGrown(k, w, k1, b, result, tail)
    requires Outside(text, k, result, tail) && Outside(text, k1, result, tail)
    ensures Outside(text, k1, b.result, b.tail)
  {
    hide EvalFrame.Typed, EvalFrame.Framed;
  }

  /** Behind a part that throws exactly the effects of the parts behind it take place. */
  lemma RestEffected(p: Prims, f: nat, rest: int, env: int, w: World, live: seq<int>, result: int, tail: int,
                     k: Kinds, text: Text, t: Tree)
    requires f > 0 && IsCons(rest) && EvalPart(p, f - 1, w.Car(rest), env, w, live, Free).Raise?
    requires !EvalParts(p, f, rest, env, w, live, Free, result, tail).Out?
    requires Fit(p, env, w, k, text, result, tail) && Is(text, rest, t) && LegalParts(t) && t.Node?
    ensures var part := EvalPart(p, f - 1, w.Car(rest), env, w, live, Free);
      var o := EvalParts(p, f, rest, env, w, live, Free, result, tail);
      && o.Raise? && o.tag == part.tag && o.v == part.v
      && Effected(part.w, o.w, env, AllEffects(PartsUnquotes(t.cdr)))
  {
    hide EvalPart, EvalParts, EvalFrame.PrimsOk, EvalFrame.Typed, EvalFrame.Framed, NilReads, Outside, Holds, Effected;
    hide BehindThrow.After, BehindThrow.Built, BehindThrow.Scoped, EvalFrame.ListOk;
    var part := EvalPart(p, f - 1, w.Car(rest), env, w, live, Free);
    var o := EvalParts(p, f, rest, env, w, live, Free, result, tail);
    EvalFrame.Reads(k, w, rest);
    var mid := EvalFrame.PartFrames(p, f - 1, w.Car(rest), env, w, live, Free, k);
    EvalFrame.Behind(k, w, mid, part, part.v, env);
    EvalFrame.ListStays(k, w, mid, part, result, tail);
    TextKept(text, k, w, mid, part.w, result, tail, -1);
    TypedScoped(mid, part.w, env);
    ListBuilt(mid, part.w, result, tail, text);
    var envs1 := BehindThrow.RestBehind(p, f, rest, env, w, live, Free, result, tail, text, t, Scopes(mid));
    AfterEffected(part.w, o.w, env, PartsEffects(t.cdr), Hole(result, tail), Scopes(mid), envs1);
    TemplateEffects(t.cdr);
  }

  /** A quasiquote form that throws: expression `j` of its template throws, and from that moment
      to the end of the form exactly the effects of the expressions behind it take place. The
      global environment changes if and only if one of them defines; something is printed if
      and only if one of them looks up a symbol bound neither at the throw nor since. */
  lemma DefinedBehind(p: Prims, f: nat, expr: int, env: int, w: World, live: seq<int>, k: Kinds, text: Text, t: Tree)
      returns (m: Moment)
    requires Eval(p, f, expr, env, w, live, Free).Raise? && IsCons(expr) && w.Car(expr) == QUASIQUOTE
    requires EvalFrame.PrimsOk(p) && EvalFrame.Typed(k, w) && EvalFrame.EnvOk(k, env)
    requires Holds(text, w) && (forall i :: i in text ==> 0 <= i < |k| && k[i] != EvalFrame.Binding)
    requires NilReads(text) && Is(text, expr, t) && Legal(t)
    ensures t.Node? && t.cdr.Node? && m.j < |Unquotes(t.cdr.car)|
    ensures Holds(text, m.before) && Is(text, m.arg, Unquotes(t.cdr.car)[m.j])
    ensures Throws(p, m, env, live, Eval(p, f, expr, env, w, live, Free))
    ensures var o := Eval(p, f, expr, env, w, live, Free);
      var es := AllEffects(Unquotes(t.cdr.car)[m.j + 1..]);
      && (o.w.globalEnv != m.at.globalEnv <==> BehindThrow.Defines(es))
      && BehindThrow.Knows(m.at, o.w, env, BehindThrow.Defined(es))
      && o.w.output == m.at.output + BehindThrow.Messages(es, m.at, env, {})
      && (o.w.output != m.at.output <==>
          exists i :: 0 <= i < |es| && es[i].Look? && es[i].sym !in BehindThrow.Defined(es[..i])
                      && !BehindThrow.Sees(m.at, env, es[i].sym))
  {
    hide Eval, EvalQuasi, EvalFrame.Typed, EvalFrame.PrimsOk, Throws, BehindThrow.Sees, BehindThrow.Messages,
         BehindThrow.Defined, BehindThrow.Defines, BehindThrow.Knows, ThrownAt, Is, Legal, LegalQuasi, Holds, NilReads,
         Unquotes, AllEffects;
    var o := Eval(p, f, expr, env, w, live, Free);
    var tmpl := TemplateRead(p, f, expr, env, w, live, text, t);
    assert Fit(p, env, w, k, text, NIL_VAL, NIL_VAL);
    m := TemplateThrown(p, f - 1, tmpl, env, w, live, k, text, t.cdr.car);
    Spelled(p, m, env, live, o, Unquotes(t.cdr.car), text);
  }

  /** The template of the form. */
  lemma TemplateRead(p: Prims, f: nat, expr: int, env: int, w: World, live: seq<int>, text: Text, t: Tree)
      returns (tmpl: int)
    requires Eval(p, f, expr, env, w, live, Free).Raise? && IsCons(expr) && w.Car(expr) == QUASIQUOTE
    requires Holds(text, w) && NilReads(text) && Is(text, expr, t) && Legal(t)
    ensures t.Node? && t.cdr.Node? && Is(text, tmpl, t.cdr.car) && LegalQuasi(t.cdr.car)
    ensures f > 0 && Eval(p, f, expr, env, w, live, Free) == EvalQuasi(p, f - 1, tmpl, env, w, live, Free)
  {
    hide Eval, Holds, NilReads;
    BehindThrow.PairWord(text, expr, t);
    BehindThrow.NodeReads(text, w, expr, t);
    tmpl := w.Car(w.Cdr(expr));
    QuotedTemplate(p, f, expr, env, w, live);
    if t.cdr.Leaf? {
      BehindThrow.NilWords(text, w);
      InertTemplate(p, f - 1, tmpl, env, w, live);
      assert false;
    }
    BehindThrow.NodeReads(text, w, w.Cdr(expr), t.cdr);
  }

  lemma Spelled(p: Prims, m: Moment, env: int, live: seq<int>, o: Outcome, args: seq<Tree>, text: Text)
    requires ThrownAt(p, m, env, live, o, args, text)
    ensures m.j < |args| && Holds(text, m.before) && Is(text, m.arg, args[m.j])
    ensures o.Raise? && Throws(p, m, env, live, o)
    ensures var es := AllEffects(args[m.j + 1..]);
      && (o.w.globalEnv != m.at.globalEnv <==> BehindThrow.Defines(es))
      && BehindThrow.Knows(m.at, o.w, env, BehindThrow.Defined(es))
      && o.w.output == m.at.output + BehindThrow.Messages(es, m.at, env, {})
      && (o.w.output != m.at.output <==>
          exists i :: 0 <= i < |es| && es[i].Look? && es[i].sym !in BehindThrow.Defined(es[..i])
                      && !BehindThrow.Sees(m.at, env, es[i].sym))
  {
    hide Throws, BehindThrow.Sees, BehindThrow.Messages, BehindThrow.Defined, BehindThrow.Defines, BehindThrow.Knows,
         Is, Holds, AllEffects;
    var es := AllEffects(args[m.j + 1..]);
    BehindThrow.PrintsExactly(es, m.at, env, {});
    EmptyDone(es);
  }

  lemma EmptyDone(es: seq<Effect>)
    ensures forall i :: 0 <= i < |es| ==> {} + BehindThrow.Defined(es[..i]) == BehindThrow.Defined(es[..i])
  {
    hide BehindThrow.Defined;
  }

  lemma QuotedTemplate(p: Prims, f: nat, expr: int, env: int, w: World, live: seq<int>)
    requires !Eval(p, f, expr, env, w, live, Free).Out? && IsCons(expr) && w.Car(expr) == QUASIQUOTE
    ensures f > 0
    ensures Eval(p, f, expr, env, w, live, Free) == EvalQuasi(p, f - 1, w.Car(w.Cdr(expr)), env, w, live, Free)
  {
    hide EvalQuasi;
  }

  lemma InertTemplate(p: Prims, f: nat, tmpl: int, env: int, w: World, live: seq<int>)
    requires !IsCons(tmpl)
    ensures !EvalQuasi(p, f, tmpl, env, w, live, Free).Raise?
  {
  }
}
