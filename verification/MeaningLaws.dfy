/** What Meaning comes to: what parameters are bound to, and a small form. */
module MeaningLaws {
  import opened Tml
  import opened Meaning
  import opened Wrappers
  import E = Exceptions

  /** Parameter names in front of nil or of a dotted parameter. */
  function Parameters(ps: seq<int>, rest: Val): Val {
    if ps == [] then rest else Pair(Atom(ps[0]), Parameters(ps[1..], rest))
  }

  predicate Names(ps: seq<int>) { forall i :: 0 <= i < |ps| ==> IsName(Atom(ps[i])) }

  /** Binding takes away no place, and names that are no parameters keep theirs. */
  lemma {:induction false} OthersKept(ps: seq<int>, vs: seq<Val>, rest: Val, more: Val, env: Env, s: State, x: int)
    requires Names(ps) && |ps| == |vs| && (rest == NIL || IsName(rest)) && x !in ps && rest != Atom(x)
    ensures var b := Bind(Parameters(ps, rest), ListOf(vs, more), env, s);
      b.Scope? && s.store <= b.s.store && Find(b.env, x) == Find(env, x)
    decreases |ps|
  {
    if ps != [] {
      var e := Extend(ps[0], vs[0], env, s);
      assert e.env[1..] == env;
      OthersKept(ps[1..], vs[1..], rest, more, e.env, e.s, x);
    } else if rest != NIL {
      assert Extend(rest.w, more, env, s).env[1..] == env;
    }
  }

  /** A parameter stands for the argument at its place, the last of the same name counting. */
  lemma {:induction false} ParameterIs(ps: seq<int>, vs: seq<Val>, rest: Val, more: Val, env: Env, s: State, i: nat)
    requires Names(ps) && |ps| == |vs| && (rest == NIL || IsName(rest)) && i < |ps|
    requires rest != Atom(ps[i]) && forall j :: i < j < |ps| ==> ps[j] != ps[i]
    ensures var b := Bind(Parameters(ps, rest), ListOf(vs, more), env, s);
      && b.Scope? && Find(b.env, ps[i]).Some? && Find(b.env, ps[i]).value < |b.s.store|
      && b.s.store[Find(b.env, ps[i]).value] == vs[i]
    decreases |ps|
  {
    var e := Extend(ps[0], vs[0], env, s);
    if i == 0 {
      OthersKept(ps[1..], vs[1..], rest, more, e.env, e.s, ps[0]);
    } else {
      ParameterIs(ps[1..], vs[1..], rest, more, e.env, e.s, i - 1);
    }
  }

  /** A dotted parameter stands for the list of the arguments that are left. */
  lemma {:induction false} RestIs(ps: seq<int>, vs: seq<Val>, rest: Val, more: Val, env: Env, s: State)
    requires Names(ps) && |ps| == |vs| && IsName(rest)
    ensures var b := Bind(Parameters(ps, rest), ListOf(vs, more), env, s);
      && b.Scope? && Find(b.env, rest.w).Some? && Find(b.env, rest.w).value < |b.s.store|
      && b.s.store[Find(b.env, rest.w).value] == more
    decreases |ps|
  {
    if ps != [] {
      var e := Extend(ps[0], vs[0], env, s);
      RestIs(ps[1..], vs[1..], rest, more, e.env, e.s);
    }
  }

  /** `(if t 1 2)` is 1 and `(if nil 1 2)` is 2. */
  lemma IfExample(q: Prims, env: Env, s: State)
    ensures var one, two := Atom(MakeFixnum(1)), Atom(MakeFixnum(2));
      && Eval(q, 3, ListOf([Atom(E.IF), Atom(T_VAL), one, two], NIL), env, s, []) == Done(one, s)
      && Eval(q, 3, ListOf([Atom(E.IF), NIL, one, two], NIL), env, s, []) == Done(two, s)
  {
    var one, two := Atom(MakeFixnum(1)), Atom(MakeFixnum(2));
    FourOf(Atom(E.IF), Atom(T_VAL), one, two);
    FourOf(Atom(E.IF), NIL, one, two);
    assert Eval(q, 1, one, env, s, []) == Done(one, s) && Eval(q, 1, two, env, s, []) == Done(two, s);
    assert Eval(q, 1, Atom(T_VAL), env, s, []) == Done(Atom(T_VAL), s) && Eval(q, 1, NIL, env, s, []) == Done(NIL, s);
    var branches := Pair(one, Pair(two, NIL));
    assert If(q, 2, Pair(Atom(T_VAL), branches), env, s, []) == Done(one, s);
    assert If(q, 2, Pair(NIL, branches), env, s, []) == Done(two, s);
  }

  lemma FourOf(a: Val, b: Val, c: Val, d: Val)
    ensures ListOf([a, b, c, d], NIL) == Pair(a, Pair(b, Pair(c, Pair(d, NIL))))
  {
    assert [a, b, c, d][1..] == [b, c, d] && [b, c, d][1..] == [c, d] && [c, d][1..] == [d] && [d][1..] == [];
    assert ListOf([d], NIL) == Pair(d, NIL) && ListOf([c, d], NIL) == Pair(c, Pair(d, NIL));
  }
}
