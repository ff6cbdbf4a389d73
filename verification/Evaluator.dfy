/** The evaluator of eval.h: tail calls by looping, catch and throw by a stack of frames and
    a flag that every caller has to look at. It is proved to compute the outcomes of
    Exceptions. */
module Evaluator {
  import opened Tml
  import opened Exceptions

  /** The innermost frame with this tag. */
  function Innermost(tags: seq<int>, tag: int): (i: nat)
    requires tag in tags
    ensures i < |tags| && tags[i] == tag && tag !in tags[i + 1..]
  {
    if tags[|tags| - 1] == tag then |tags| - 1 else Innermost(tags[..|tags| - 1], tag)
  }

  /** Entering a catch form changes the target of a throw exactly for its own tag. */
  lemma InnermostPushed(tags: seq<int>, tag: int, t: int)
    requires t in tags + [tag]
    ensures Innermost(tags + [tag], t) == if t == tag then |tags| else Innermost(tags, t)
  {
    assert (tags + [tag])[..|tags|] == tags;
  }

  class Interp {
    const prims: Prims
    var cells: seq<(int, int)>
    var globalEnv: int
    var output: seq<int>
    const catchTags: array<int>
    const catchVals: array<int>
    var catchDepth: nat
    var catchThrowing: bool
    var catchTarget: nat

    ghost predicate Valid()
      reads this
    {
      && catchTags.Length == MAX_CATCH_DEPTH && catchVals.Length == MAX_CATCH_DEPTH
      && catchTags != catchVals && catchDepth <= MAX_CATCH_DEPTH
    }

    function ToWorld(): World
      reads this
    {
      World(cells, globalEnv, output)
    }

    ghost function Live(): seq<int>
      requires Valid()
      reads this, catchTags
    {
      catchTags[..catchDepth]
    }

    /** A throw of `v` is under way to the innermost live frame with this tag. */
    ghost predicate Throwing(tag: int, v: int)
      requires Valid()
      reads this, catchTags, catchVals
    {
      && catchThrowing && tag in Live()
      && catchTarget == Innermost(Live(), tag) && catchVals[catchTarget] == v
    }

    /** The machine is left as the outcome says: either the value is returned and no throw
        is pending, or one is pending for the innermost live frame with its tag. */
    ghost predicate Matches(o: Outcome, r: int)
      requires Valid()
      reads this, catchTags, catchVals
    {
      match o
      case Out => false
      case Ok(v, w) => !catchThrowing && r == v && ToWorld() == w
      case Raise(t, v, w, back) => Throwing(t, v) && r == back && ToWorld() == w
    }

    /** Ready to evaluate. */
    ghost predicate Ready(live: seq<int>, pend: Pend)
      reads this, catchTags, catchVals
    {
      && Valid() && Live() == live
      && match pend
         case Free => !catchThrowing
         case Thrown(tag, v) => Throwing(tag, v)
    }

    constructor (p: Prims)
      ensures Ready([], Free) && ToWorld() == World([], NIL_VAL, []) && prims == p
      ensures fresh(catchTags) && fresh(catchVals)
    {
      prims := p;
      cells, globalEnv, output := [], NIL_VAL, [];
      catchTags := new int[MAX_CATCH_DEPTH];
      catchVals := new int[MAX_CATCH_DEPTH];
      catchDepth, catchThrowing, catchTarget := 0, false, 0;
    }

    // Cells and environments

    method MakePair(a: int, d: int) returns (r: int)
      modifies this`cells
      ensures Made(r, ToWorld()) == Cons(old(ToWorld()), a, d)
    {
      r := MakeCons(|cells|);
      cells := cells + [(a, d)];
    }

    method Extend(sym: int, val: int, env: int) returns (r: int)
      modifies this`cells
      ensures Made(r, ToWorld()) == EnvExtend(old(ToWorld()), sym, val, env)
    {
      var binding := MakePair(sym, val);
      r := MakePair(binding, env);
    }

    method Define(sym: int, val: int)
      modifies this`cells, this`globalEnv
      ensures var e := EnvExtend(old(ToWorld()), sym, val, old(globalEnv)); ToWorld() == e.w.SetGlobal(e.v)
    {
      var env := Extend(sym, val, globalEnv);
      globalEnv := env;
    }

    /** make_closure and make_macro. */
    method NewCode(etype: int, params: int, body: int, env: int) returns (r: int)
      modifies this`cells
      ensures Made(r, ToWorld()) == MakeCode(old(ToWorld()), etype, params, body, env)
    {
      var inner := MakePair(body, env);
      var data := MakePair(params, inner);
      r := MakeExtended(|cells|);
      cells := cells + [(etype, data)];
    }

    method NewBody(forms: int) returns (r: int)
      modifies this`cells
      ensures Made(r, ToWorld()) == BodyOf(old(ToWorld()), forms)
    {
      if ToWorld().Cdr(forms) == NIL_VAL {
        return ToWorld().Car(forms);
      }
      r := MakePair(BEGIN, forms);
    }

    method SetTail(cell: int, d: int)
      modifies this`cells
      ensures ToWorld() == old(ToWorld()).SetCdr(cell, d)
    {
      if 0 <= PtrIdx(cell) < |cells| {
        cells := cells[PtrIdx(cell) := (cells[PtrIdx(cell)].0, d)];
      }
    }

    method Report(ws: seq<int>)
      modifies this`output
      ensures ToWorld() == old(ToWorld()).Print(ws)
    {
      output := output + ws;
    }

    /** env_lookup, without the message. */
    method FindBinding(env: int, sym: int, ghost fuel: nat) returns (binding: int, found: bool)
      requires !Find(ToWorld(), env, sym, fuel).Lost?
      ensures Find(ToWorld(), env, sym, fuel) == if found then Found(binding) else Missing
    {
      var e := env;
      ghost var f: nat := fuel;
      while e != NIL_VAL
        invariant Find(ToWorld(), e, sym, f) == Find(ToWorld(), env, sym, fuel)
        decreases f
      {
        binding := ToWorld().Car(e);
        if ToWorld().Car(binding) == sym {
          return binding, true;
        }
        e := ToWorld().Cdr(e);
        f := f - 1;
      }
      return 0, false;
    }

    /** The local environment, then the global one. */
    method Lookup(env: int, sym: int, ghost fuel: nat) returns (binding: int, found: bool)
      requires !FindBoth(ToWorld(), env, sym, fuel).Lost?
      ensures FindBoth(ToWorld(), env, sym, fuel) == if found then Found(binding) else Missing
    {
      binding, found := FindBinding(env, sym, fuel);
      if !found {
        binding, found := FindBinding(globalEnv, sym, fuel);
      }
    }

    /** env_bind. */
    method Bind(params: int, args: int, env: int, ghost fuel: nat) returns (r: int)
      requires EnvBind(ToWorld(), params, args, env, fuel).Bound?
      modifies this`cells
      ensures Bound(r, ToWorld()) == EnvBind(old(ToWorld()), params, args, env, fuel)
    {
      var ps, vals := params, args;
      ghost var f: nat := fuel;
      r := env;
      while IsCons(ps)
        invariant EnvBind(ToWorld(), ps, vals, r, f) == EnvBind(old(ToWorld()), params, args, env, fuel)
        decreases f
      {
        r := Extend(ToWorld().Car(ps), ToWorld().Car(vals), r);
        ps, vals := ToWorld().Cdr(ps), ToWorld().Cdr(vals);
        f := f - 1;
      }
      if IsSymbol(ps) {
        r := Extend(ps, vals, r);
      }
    }

    // Evaluation

    /** PRIM_THROW: search the frames from the innermost outwards. */
    method Throw(tag: int, val: int, ghost live: seq<int>) returns (r: int)
      requires Ready(live, Free)
      modifies this, catchVals
      ensures Valid() && Live() == live
      ensures Matches(if tag in live then Raise(tag, val, old(ToWorld()), NIL_VAL)
                      else Ok(NIL_VAL, old(ToWorld()).Print([NO_CATCH, tag])), r)
    {
      var i: int := catchDepth - 1;
      while i >= 0
        invariant -1 <= i < catchDepth && tag !in catchTags[i + 1..catchDepth]
        invariant Ready(live, Free) && ToWorld() == old(ToWorld())
      {
        if catchTags[i] == tag {
          assert live[i] == tag;
          assert live[i + 1..] == catchTags[i + 1..catchDepth];
          InnermostIs(live, tag, i);
          catchThrowing := true;
          catchTarget := i;
          catchVals[i] := val;
          return NIL_VAL;
        }
        assert catchTags[i..catchDepth] == [catchTags[i]] + catchTags[i + 1..catchDepth];
        i := i - 1;
      }
      assert catchTags[0..catchDepth] == live;
      Report([NO_CATCH, tag]);
      return NIL_VAL;
    }

    /** apply_primitive. */
    method ApplyPrimitive(id: int, list: int, ghost live: seq<int>, ghost fuel: nat) returns (r: int)
      requires Ready(live, Free) && !ApplyPrim(prims, fuel, id, list, ToWorld(), live).Out?
      modifies this, catchTags, catchVals
      ensures Valid() && Live() == live
      ensures Matches(ApplyPrim(prims, fuel, id, list, old(ToWorld()), live), r)
      decreases fuel
    {
      hide Eval, Innermost;
      var a := FirstArg(ToWorld(), list);
      var b := SecondArg(ToWorld(), list);
      if id == PRIM_THROW {
        r := Throw(a, b, live);
      } else if id == PRIM_APPLY {
        r := ApplyFn(a, b, live, fuel - 1);
      } else if id == PRIM_EVAL {
        r := EvalExpr(a, globalEnv, live, Free, fuel - 1);
      } else if id == PRIM_MACEXPAND {
        r := MacroExpand(a, live, fuel - 1);
      } else {
        var made := prims(id, list, ToWorld());
        cells, globalEnv, output := made.w.cells, made.w.globalEnv, made.w.output;
        r := made.v;
      }
    }

    /** macroexpand-1, whose lookup does not complain. */
    method MacroExpand(form: int, ghost live: seq<int>, ghost fuel: nat) returns (r: int)
      requires Ready(live, Free) && !MacExpand(prims, fuel, form, ToWorld(), live).Out?
      modifies this, catchTags, catchVals
      ensures Valid() && Live() == live
      ensures Matches(MacExpand(prims, fuel, form, old(ToWorld()), live), r)
      decreases fuel
    {
      hide Eval, Innermost;
      var w := ToWorld();
      if !IsCons(form) || !IsSymbol(w.Car(form)) {
        return form;
      }
      var binding, found := FindBinding(globalEnv, w.Car(form), fuel);
      if found && IsCode(w, w.Cdr(binding), ETYPE_MACRO) {
        var fn := w.Cdr(binding);
        var env := Bind(CodeParams(w, fn), w.Cdr(form), CodeEnv(w, fn), fuel);
        r := EvalExpr(CodeBody(ToWorld(), fn), env, live, Free, fuel - 1);
        return;
      }
      return form;
    }

    /** apply_fn. */
    method ApplyFn(fn: int, list: int, ghost live: seq<int>, ghost fuel: nat) returns (r: int)
      requires Ready(live, Free) && !Apply(prims, fuel, fn, list, ToWorld(), live).Out?
      modifies this, catchTags, catchVals
      ensures Valid() && Live() == live
      ensures Matches(Apply(prims, fuel, fn, list, old(ToWorld()), live), r)
      decreases fuel
    {
      hide Eval, Innermost;
      var w := ToWorld();
      if IsCode(w, fn, ETYPE_CLOSURE) {
        var env := Bind(CodeParams(w, fn), list, CodeEnv(w, fn), fuel);
        r := EvalExpr(CodeBody(ToWorld(), fn), env, live, Free, fuel - 1);
      } else if IsCode(w, fn, ETYPE_PRIMITIVE) {
        r := ApplyPrimitive(w.Cdr(fn) / 4, list, live, fuel - 1);
      } else {
        Report([NOT_FN]);
        return NIL_VAL;
      }
    }

    /** eval_list. */
    method EvalList(args: int, env: int, ghost live: seq<int>, ghost fuel: nat) returns (r: int)
      requires Ready(live, Free) && !EvalArgs(prims, fuel, args, env, ToWorld(), live).Out?
      modifies this, catchTags, catchVals
      ensures Valid() && Live() == live
      ensures Matches(EvalArgs(prims, fuel, args, env, old(ToWorld()), live), r)
      decreases fuel
    {
      hide Eval, Innermost;
      if args == NIL_VAL {
        return NIL_VAL;
      }
      var val := EvalExpr(ToWorld().Car(args), env, live, Free, fuel - 1);
      if catchThrowing {
        return NIL_VAL;
      }
      var first := MakePair(val, NIL_VAL);
      r := EvalListRest(ToWorld().Cdr(args), env, live, fuel - 1, first);
    }

    /** The loop of eval_list, which hangs each new cell behind the last. */
    method EvalListRest(args: int, env: int, ghost live: seq<int>, ghost fuel: nat, first: int) returns (r: int)
      requires Ready(live, Free) && !EvalRest(prims, fuel, args, env, ToWorld(), live, first, first).Out?
      modifies this, catchTags, catchVals
      ensures Valid() && Live() == live
      ensures Matches(EvalRest(prims, fuel, args, env, old(ToWorld()), live, first, first), r)
      decreases fuel
    {
      hide Eval, Innermost;
      ghost var goal := EvalRest(prims, fuel, args, env, ToWorld(), live, first, first);
      var tail, list := first, args;
      ghost var f: nat := fuel;
      while IsCons(list)
        invariant Ready(live, Free) && f <= fuel
        invariant goal == EvalRest(prims, f, list, env, ToWorld(), live, first, tail)
        decreases f
      {
        var val := EvalExpr(ToWorld().Car(list), env, live, Free, f - 1);
        if catchThrowing {
          return NIL_VAL;
        }
        var cell := MakePair(val, NIL_VAL);
        SetTail(tail, cell);
        tail := cell;
        list := ToWorld().Cdr(list);
        f := f - 1;
      }
      return first;
    }

    /** The if form up to the branch, which is a tail call. */
    method IfForm(args: int, env: int, ghost live: seq<int>, ghost pend: Pend, ghost fuel: nat)
        returns (done: bool, r: int, next: int)
      requires Ready(live, pend) && !EvalIf(prims, fuel, args, env, ToWorld(), live, pend).Out?
      modifies this, catchTags, catchVals
      ensures Valid() && Live() == live
      ensures done ==> Matches(EvalIf(prims, fuel, args, env, old(ToWorld()), live, pend), r)
      ensures !done ==> Ready(live, pend) && fuel > 0
      ensures !done ==> EvalIf(prims, fuel, args, env, old(ToWorld()), live, pend) ==
                        Eval(prims, fuel - 1, next, env, ToWorld(), live, pend)
      decreases fuel, 0
    {
      hide Eval, Innermost;
      var cond := EvalExpr(ToWorld().Car(args), env, live, pend, fuel - 1);
      if catchThrowing {
        return true, NIL_VAL, 0;
      }
      if cond != NIL_VAL {
        return false, 0, ToWorld().Car(ToWorld().Cdr(args));
      }
      var elsePart := ToWorld().Cdr(ToWorld().Cdr(args));
      if elsePart == NIL_VAL {
        return true, NIL_VAL, 0;
      }
      return false, 0, ToWorld().Car(elsePart);
    }

    /** The define form. */
    method DefineForm(args: int, env: int, ghost live: seq<int>, ghost pend: Pend, ghost fuel: nat) returns (r: int)
      requires Ready(live, pend) && !EvalDefine(prims, fuel, args, env, ToWorld(), live, pend).Out?
      modifies this, catchTags, catchVals
      ensures Valid() && Live() == live
      ensures Matches(EvalDefine(prims, fuel, args, env, old(ToWorld()), live, pend), r)
      decreases fuel, 0
    {
      hide Eval, Innermost;
      var first := ToWorld().Car(args);
      if IsCons(first) {
        var sym, params := ToWorld().Car(first), ToWorld().Cdr(first);
        var body := NewBody(ToWorld().Cdr(args));
        r := NewCode(ETYPE_CLOSURE, params, body, env);
        Define(sym, r);
        return;
      }
      r := EvalExpr(ToWorld().Car(ToWorld().Cdr(args)), env, live, pend, fuel - 1);
      if catchThrowing {
        return NIL_VAL;
      }
      Define(first, r);
    }

    /** The set! form. */
    method SetForm(args: int, env: int, ghost live: seq<int>, ghost pend: Pend, ghost fuel: nat) returns (r: int)
      requires Ready(live, pend) && !EvalSet(prims, fuel, args, env, ToWorld(), live, pend).Out?
      modifies this, catchTags, catchVals
      ensures Valid() && Live() == live
      ensures Matches(EvalSet(prims, fuel, args, env, old(ToWorld()), live, pend), r)
      decreases fuel, 0
    {
      hide Eval, Innermost;
      var sym := ToWorld().Car(args);
      var val := EvalExpr(ToWorld().Car(ToWorld().Cdr(args)), env, live, pend, fuel - 1);
      if catchThrowing {
        return NIL_VAL;
      }
      var binding, found := Lookup(env, sym, fuel);
      if found {
        SetTail(binding, val);
        return val;
      }
      Report([SET_UNBOUND, sym]);
      return NIL_VAL;
    }

    /** The catch form: a frame around the body, which answers for its own index only. */
    method CatchForm(args: int, env: int, ghost live: seq<int>, ghost pend: Pend, ghost fuel: nat) returns (r: int)
      requires Ready(live, pend) && !EvalCatch(prims, fuel, args, env, ToWorld(), live, pend).Out?
      modifies this, catchTags, catchVals
      ensures Valid() && Live() == live
      ensures Matches(EvalCatch(prims, fuel, args, env, old(ToWorld()), live, pend), r)
      decreases fuel, 0
    {
      hide Eval, Innermost;
      var tag := EvalExpr(ToWorld().Car(args), env, live, pend, fuel - 1);
      if catchThrowing {
        return NIL_VAL;
      }
      if catchDepth >= MAX_CATCH_DEPTH {
        Report([CATCH_OVERFLOW]);
        return NIL_VAL;
      }
      catchTags[catchDepth] := tag;
      catchVals[catchDepth] := NIL_VAL;
      var saved := catchDepth;
      catchDepth := catchDepth + 1;
      assert Live() == live + [tag];
      ghost var body := Eval(prims, fuel - 1, ToWorld().Car(ToWorld().Cdr(args)), env, ToWorld(), live + [tag],
                              Free);
      r := EvalExpr(ToWorld().Car(ToWorld().Cdr(args)), env, live + [tag], Free, fuel - 1);
      assert catchTags[..saved] == (live + [tag])[..saved];
      if body.Raise? {
        InnermostPushed(live, tag, body.tag);
      }
      catchDepth := saved;
      if catchThrowing && catchTarget == saved {
        catchThrowing := false;
        return catchVals[saved];
      }
      if catchThrowing {
        return NIL_VAL;
      }
    }

    /** The begin form up to its last expression, which is a tail call. */
    method BeginForm(args: int, env: int, ghost live: seq<int>, ghost pend: Pend, ghost fuel: nat)
        returns (done: bool, r: int, next: int, ghost f: nat)
      requires Ready(live, pend) && !EvalBegin(prims, fuel, args, env, ToWorld(), live, pend).Out?
      modifies this, catchTags, catchVals
      ensures Valid() && Live() == live
      ensures done ==> Matches(EvalBegin(prims, fuel, args, env, old(ToWorld()), live, pend), r)
      ensures !done ==> Ready(live, pend) && f < fuel
      ensures !done ==> EvalBegin(prims, fuel, args, env, old(ToWorld()), live, pend) ==
                        Eval(prims, f, next, env, ToWorld(), live, pend)
      decreases fuel, 0
    {
      hide Eval, Innermost;
      var rest := args;
      f := fuel;
      while ToWorld().Cdr(rest) != NIL_VAL
        invariant Ready(live, pend) && f <= fuel
        invariant EvalBegin(prims, fuel, args, env, old(ToWorld()), live, pend)
               == EvalBegin(prims, f, rest, env, ToWorld(), live, pend)
        decreases f
      {
        var _ := EvalExpr(ToWorld().Car(rest), env, live, pend, f - 1);
        if catchThrowing {
          return true, NIL_VAL, 0, 0;
        }
        rest := ToWorld().Cdr(rest);
        f := f - 1;
      }
      return false, 0, ToWorld().Car(rest), f - 1;
    }

    /** A call once the head has its value, up to the body of a closure or the expansion of
        a macro, which are tail calls. */
    method CallForm(fn: int, args: int, env: int, ghost live: seq<int>, ghost fuel: nat)
        returns (done: bool, r: int, next: int, nextEnv: int, ghost f: nat)
      requires Ready(live, Free) && !EvalCall(prims, fuel, fn, args, env, ToWorld(), live).Out?
      modifies this, catchTags, catchVals
      ensures Valid() && Live() == live
      ensures done ==> Matches(EvalCall(prims, fuel, fn, args, env, old(ToWorld()), live), r)
      ensures !done ==> Ready(live, Free) && f < fuel
      ensures !done ==> EvalCall(prims, fuel, fn, args, env, old(ToWorld()), live) ==
                        Eval(prims, f, next, nextEnv, ToWorld(), live, Free)
      decreases fuel, 0
    {
      hide Eval, Innermost;
      var w := ToWorld();
      if IsCode(w, fn, ETYPE_MACRO) {
        var macroEnv := Bind(CodeParams(w, fn), args, CodeEnv(w, fn), fuel);
        next := EvalExpr(CodeBody(ToWorld(), fn), macroEnv, live, Free, fuel - 1);
        if catchThrowing {
          return true, NIL_VAL, 0, 0, 0;
        }
        return false, 0, next, env, fuel - 1;
      }
      var list := EvalList(args, env, live, fuel - 1);
      if catchThrowing {
        return true, NIL_VAL, 0, 0, 0;
      }
      w := ToWorld();
      if IsCode(w, fn, ETYPE_CLOSURE) {
        next := CodeBody(w, fn);
        nextEnv := Bind(CodeParams(w, fn), list, CodeEnv(w, fn), fuel);
        return false, 0, next, nextEnv, fuel - 1;
      }
      if IsCode(w, fn, ETYPE_PRIMITIVE) {
        r := ApplyPrimitive(w.Cdr(fn) / 4, list, live, fuel - 2);
        return true, r, 0, 0, 0;
      }
      Report([NOT_FN]);
      return true, NIL_VAL, 0, 0, 0;
    }

    /** One more cell behind the last of a list under construction. */
    method AppendCell(v: int, result: int, tail: int) returns (newResult: int, newTail: int)
      modifies this`cells
      ensures Building(newResult, newTail, ToWorld()) == Append(old(ToWorld()), v, result, tail)
    {
      var cell := MakePair(v, NIL_VAL);
      if result == NIL_VAL {
        return cell, cell;
      }
      SetTail(tail, cell);
      return result, cell;
    }

    /** Copies of the cells of a list behind the last cell. */
    method SpliceCells(list: int, result: int, tail: int, ghost fuel: nat) returns (newResult: int, newTail: int)
      requires Splice(ToWorld(), list, result, tail, fuel).Building?
      modifies this`cells
      ensures Building(newResult, newTail, ToWorld()) == Splice(old(ToWorld()), list, result, tail, fuel)
    {
      hide Append;
      ghost var goal := Splice(ToWorld(), list, result, tail, fuel);
      var spliced := list;
      ghost var f: nat := fuel;
      newResult, newTail := result, tail;
      while IsCons(spliced)
        invariant goal == Splice(ToWorld(), spliced, newResult, newTail, f)
        decreases f
      {
        newResult, newTail := AppendCell(ToWorld().Car(spliced), newResult, newTail);
        spliced := ToWorld().Cdr(spliced);
        f := f - 1;
      }
    }

    /** One turn of the loop of qq_expand. */
    method QuasiPart(elem: int, env: int, ghost live: seq<int>, ghost pend: Pend, ghost fuel: nat,
                     result: int, tail: int) returns (newResult: int, newTail: int)
      requires Ready(live, pend) && fuel > 0
      requires var o := EvalPart(prims, fuel - 1, elem, env, ToWorld(), live, pend);
        !o.Out? && AddPart(o.w, IsSplicing(ToWorld(), elem), Back(o), result, tail, fuel).Building?
      modifies this, catchTags, catchVals
      ensures var o := EvalPart(prims, fuel - 1, elem, env, old(ToWorld()), live, pend);
        Ready(live, Carry(o)) && Building(newResult, newTail, ToWorld())
        == AddPart(o.w, IsSplicing(old(ToWorld()), elem), Back(o), result, tail, fuel)
      decreases fuel, 0
    {
      hide Eval, EvalQuasi, Innermost, Splice, Append;
      if IsCons(elem) && ToWorld().Car(elem) == UNQUOTE_SPLICING {
        var spliced := EvalExpr(ToWorld().Car(ToWorld().Cdr(elem)), env, live, pend, fuel - 2);
        newResult, newTail := SpliceCells(spliced, result, tail, fuel);
      } else {
        var expanded := QuasiExpand(elem, env, live, pend, fuel - 2);
        newResult, newTail := AppendCell(expanded, result, tail);
      }
    }

    /** qq_expand, which does not look at the flag between the parts. */
    method QuasiExpand(tmpl: int, env: int, ghost live: seq<int>, ghost pend: Pend, ghost fuel: nat)
        returns (r: int)
      requires Ready(live, pend) && !EvalQuasi(prims, fuel, tmpl, env, ToWorld(), live, pend).Out?
      modifies this, catchTags, catchVals
      ensures Valid() && Live() == live
      ensures Matches(EvalQuasi(prims, fuel, tmpl, env, old(ToWorld()), live, pend), r)
      decreases fuel, 0
    {
      hide Eval, EvalPart, AddPart, Innermost;
      if !IsCons(tmpl) {
        return tmpl;
      }
      if ToWorld().Car(tmpl) == UNQUOTE {
        r := EvalExpr(ToWorld().Car(ToWorld().Cdr(tmpl)), env, live, pend, fuel - 1);
        return;
      }
      ghost var goal := EvalQuasi(prims, fuel, tmpl, env, ToWorld(), live, pend);
      var result, tail, rest := NIL_VAL, NIL_VAL, tmpl;
      ghost var f: nat, now := fuel - 1, pend;
      while IsCons(rest)
        invariant Ready(live, now) && f < fuel
        invariant goal == EvalParts(prims, f, rest, env, ToWorld(), live, now, result, tail)
        decreases f
      {
        ghost var part := EvalPart(prims, f - 1, ToWorld().Car(rest), env, ToWorld(), live, now);
        result, tail := QuasiPart(ToWorld().Car(rest), env, live, now, f, result, tail);
        rest := ToWorld().Cdr(rest);
        f, now := f - 1, Carry(part);
      }
      if rest != NIL_VAL && tail != NIL_VAL {
        var end := QuasiExpand(rest, env, live, now, 1);
        SetTail(tail, end);
      }
      return result;
    }

    /** A variable. */
    method SymbolForm(sym: int, env: int, ghost live: seq<int>, ghost pend: Pend, ghost fuel: nat) returns (r: int)
      requires Ready(live, pend) && fuel > 0 && IsSymbol(sym) && sym != NIL_VAL && sym != T_VAL
      requires !Eval(prims, fuel, sym, env, ToWorld(), live, pend).Out?
      modifies this
      ensures Valid() && Live() == live
      ensures Matches(Eval(prims, fuel, sym, env, old(ToWorld()), live, pend), r)
    {
      var binding, found := Lookup(env, sym, fuel);
      if found {
        return ToWorld().Cdr(binding);
      }
      Report([UNBOUND, sym]);
      return NIL_VAL;
    }

    /** The lambda and defmacro forms. */
    method CodeForm(expr: int, args: int, env: int, ghost live: seq<int>, ghost pend: Pend, ghost fuel: nat)
        returns (r: int)
      requires Ready(live, pend) && fuel > 0 && IsCons(expr) && ToWorld().Cdr(expr) == args
      requires ToWorld().Car(expr) == LAMBDA || ToWorld().Car(expr) == DEFMACRO
      modifies this
      ensures Valid() && Live() == live
      ensures Matches(Eval(prims, fuel, expr, env, old(ToWorld()), live, pend), r)
    {
      var w := ToWorld();
      if w.Car(expr) == LAMBDA {
        var body := NewBody(w.Cdr(args));
        r := NewCode(ETYPE_CLOSURE, w.Car(args), body, env);
      } else {
        var body := NewBody(w.Cdr(w.Cdr(args)));
        r := NewCode(ETYPE_MACRO, w.Car(w.Cdr(args)), body, env);
        Define(w.Car(args), r);
      }
    }

    /** eval. Behind a throw, which only a quasiquote makes happen, the throw stays under way to
        the same frame with the same value. */
    method EvalExpr(expr: int, env: int, ghost live: seq<int>, ghost pend: Pend, ghost fuel: nat)
        returns (r: int)
      requires Ready(live, pend) && !Eval(prims, fuel, expr, env, ToWorld(), live, pend).Out?
      modifies this, catchTags, catchVals
      ensures Valid() && Live() == live
      ensures Matches(Eval(prims, fuel, expr, env, old(ToWorld()), live, pend), r)
      ensures catchDepth == old(catchDepth)
      ensures old(catchThrowing) ==> catchThrowing && catchTarget == old(catchTarget) < MAX_CATCH_DEPTH
      ensures old(catchThrowing) ==> catchVals[catchTarget] == old(catchVals[catchTarget])
      decreases fuel, 1
    {
      hide EvalQuasi, EvalIf, EvalDefine, EvalSet, EvalCatch, EvalBegin, EvalCall, FindBoth, MakeCode, EnvExtend,
            BodyOf, Innermost;
      ghost var goal := Eval(prims, fuel, expr, env, ToWorld(), live, pend);
      var e, current := expr, env;
      ghost var f: nat := fuel;
      while true
        invariant Ready(live, pend) && f <= fuel
        invariant goal == Eval(prims, f, e, current, ToWorld(), live, pend)
        decreases f
      {
        if IsSymbol(e) && e != NIL_VAL && e != T_VAL {
          r := SymbolForm(e, current, live, pend, f);
          return;
        }
        if !IsCons(e) {
          return e;
        }
        var head, args := ToWorld().Car(e), ToWorld().Cdr(e);
        var done := true;
        if head == QUOTE {
          return ToWorld().Car(args);
        } else if head == QUASIQUOTE {
          r := QuasiExpand(ToWorld().Car(args), current, live, pend, f - 1);
          return;
        } else if head == IF {
          done, r, e := IfForm(args, current, live, pend, f - 1);
          if done { return; }
          f := f - 2;
        } else if head == DEFINE {
          r := DefineForm(args, current, live, pend, f - 1);
          return;
        } else if head == SET {
          r := SetForm(args, current, live, pend, f - 1);
          return;
        } else if head == LAMBDA || head == DEFMACRO {
          r := CodeForm(e, args, current, live, pend, f);
          return;
        } else if head == CATCH {
          r := CatchForm(args, current, live, pend, f - 1);
          return;
        } else if head == BEGIN {
          if args == NIL_VAL {
            return NIL_VAL;
          }
          done, r, e, f := BeginForm(args, current, live, pend, f - 1);
          if done { return; }
        } else {
          var fn := EvalExpr(head, current, live, pend, f - 1);
          if catchThrowing {
            return NIL_VAL;
          }
          done, r, e, current, f := CallForm(fn, args, current, live, f - 1);
          if done { return; }
        }
      }
    }
  }

  lemma {:induction false} InnermostIs(tags: seq<int>, tag: int, i: nat)
    requires i < |tags| && tags[i] == tag && tag !in tags[i + 1..]
    ensures Innermost(tags, tag) == i
    decreases |tags|
  {
    var n := |tags| - 1;
    if i < n {
      assert tags[n] == tags[i + 1..][n - i - 1];
      assert tags[..n][i + 1..] == tags[i + 1..][..n - i - 1];
      InnermostIs(tags[..n], tag, i);
    }
  }
}
