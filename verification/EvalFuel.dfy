/** The outcome of an evaluation does not depend on how much fuel it is given, as long as it
    is enough: Exceptions.Eval describes one meaning. */
module EvalFuel {
  import opened Tml
  import opened Exceptions

  lemma {:induction false} FindMore(w: World, e: int, sym: int, f: nat, g: nat)
    requires f <= g && !Find(w, e, sym, f).Lost?
    ensures Find(w, e, sym, g) == Find(w, e, sym, f)
    decreases f
  {
    if f > 0 && e != NIL_VAL && w.Car(w.Car(e)) != sym {
      FindMore(w, w.Cdr(e), sym, f - 1, g - 1);
    }
  }

  lemma FindBothMore(w: World, env: int, sym: int, f: nat, g: nat)
    requires f <= g && !FindBoth(w, env, sym, f).Lost?
    ensures FindBoth(w, env, sym, g) == FindBoth(w, env, sym, f)
  {
    hide Find;
    FindMore(w, env, sym, f, g);
    if Find(w, env, sym, f).Missing? {
      FindMore(w, w.globalEnv, sym, f, g);
    }
  }

  lemma {:induction false} EnvBindMore(w: World, params: int, args: int, env: int, f: nat, g: nat)
    requires f <= g && EnvBind(w, params, args, env, f).Bound?
    ensures EnvBind(w, params, args, env, g) == EnvBind(w, params, args, env, f)
    decreases f
  {
    if IsCons(params) {
      var x := EnvExtend(w, w.Car(params), w.Car(args), env);
      EnvBindMore(x.w, x.w.Cdr(params), x.w.Cdr(args), x.v, f - 1, g - 1);
    }
  }

  lemma {:induction false} EvalMore(p: Prims, f: nat, g: nat, expr: int, env: int, w: World, live: seq<int>,
        pend: Pend)
    requires Aimed(pend, live)
    requires f <= g && !Eval(p, f, expr, env, w, live, pend).Out?
    ensures Eval(p, g, expr, env, w, live, pend) == Eval(p, f, expr, env, w, live, pend)
    decreases f
  {
    hide EvalQuasi, EvalIf, EvalDefine, EvalSet, EvalCatch, EvalBegin, EvalCall, FindBoth, MakeCode, EnvExtend, BodyOf;
    if IsSymbol(expr) && expr != NIL_VAL && expr != T_VAL {
      FindBothMore(w, env, expr, f, g);
    } else if IsCons(expr) {
      var head, args := w.Car(expr), w.Cdr(expr);
      if head == QUOTE || head == LAMBDA || head == DEFMACRO {
      } else if head == QUASIQUOTE {
        EvalQuasiMore(p, f - 1, g - 1, w.Car(args), env, w, live, pend);
      } else if head == IF {
        EvalIfMore(p, f - 1, g - 1, args, env, w, live, pend);
      } else if head == DEFINE {
        EvalDefineMore(p, f - 1, g - 1, args, env, w, live, pend);
      } else if head == SET {
        EvalSetMore(p, f - 1, g - 1, args, env, w, live, pend);
      } else if head == CATCH {
        EvalCatchMore(p, f - 1, g - 1, args, env, w, live, pend);
      } else if head == BEGIN {
        if args != NIL_VAL {
          EvalBeginMore(p, f - 1, g - 1, args, env, w, live, pend);
        }
      } else {
        EvalMore(p, f - 1, g - 1, head, env, w, live, pend);
        match Eval(p, f - 1, head, env, w, live, pend)
        case Ok(fn, w1) => EvalCallMore(p, f - 1, g - 1, fn, args, env, w1, live);
        case _ =>
      }
    }
  }

  lemma {:induction false} EvalIfMore(p: Prims, f: nat, g: nat, args: int, env: int, w: World, live: seq<int>,
        pend: Pend)
    requires Aimed(pend, live)
    requires f <= g && !EvalIf(p, f, args, env, w, live, pend).Out?
    ensures EvalIf(p, g, args, env, w, live, pend) == EvalIf(p, f, args, env, w, live, pend)
    decreases f
  {
    hide Eval;
    EvalMore(p, f - 1, g - 1, w.Car(args), env, w, live, pend);
    match Eval(p, f - 1, w.Car(args), env, w, live, pend)
    case Ok(v, w1) =>
      if v != NIL_VAL {
        EvalMore(p, f - 1, g - 1, w1.Car(w1.Cdr(args)), env, w1, live, Free);
      } else if w1.Cdr(w1.Cdr(args)) != NIL_VAL {
        EvalMore(p, f - 1, g - 1, w1.Car(w1.Cdr(w1.Cdr(args))), env, w1, live, Free);
      }
    case _ =>
  }

  lemma {:induction false} EvalDefineMore(p: Prims, f: nat, g: nat, args: int, env: int, w: World, live: seq<int>,
        pend: Pend)
    requires Aimed(pend, live)
    requires f <= g && !EvalDefine(p, f, args, env, w, live, pend).Out?
    ensures EvalDefine(p, g, args, env, w, live, pend) == EvalDefine(p, f, args, env, w, live, pend)
    decreases f
  {
    hide Eval, MakeCode, EnvExtend, BodyOf;
    if !IsCons(w.Car(args)) {
      EvalMore(p, f - 1, g - 1, w.Car(w.Cdr(args)), env, w, live, pend);
    }
  }

  lemma {:induction false} EvalSetMore(p: Prims, f: nat, g: nat, args: int, env: int, w: World, live: seq<int>,
        pend: Pend)
    requires Aimed(pend, live)
    requires f <= g && !EvalSet(p, f, args, env, w, live, pend).Out?
    ensures EvalSet(p, g, args, env, w, live, pend) == EvalSet(p, f, args, env, w, live, pend)
    decreases f
  {
    hide Eval, FindBoth;
    EvalMore(p, f - 1, g - 1, w.Car(w.Cdr(args)), env, w, live, pend);
    match Eval(p, f - 1, w.Car(w.Cdr(args)), env, w, live, pend)
    case Ok(v, w1) => FindBothMore(w1, env, w.Car(args), f, g);
    case _ =>
  }

  lemma {:induction false} EvalCatchMore(p: Prims, f: nat, g: nat, args: int, env: int, w: World, live: seq<int>,
        pend: Pend)
    requires Aimed(pend, live)
    requires f <= g && !EvalCatch(p, f, args, env, w, live, pend).Out?
    ensures EvalCatch(p, g, args, env, w, live, pend) == EvalCatch(p, f, args, env, w, live, pend)
    decreases f
  {
    hide Eval;
    EvalMore(p, f - 1, g - 1, w.Car(args), env, w, live, pend);
    match Eval(p, f - 1, w.Car(args), env, w, live, pend)
    case Ok(tag, w1) =>
      if |live| < MAX_CATCH_DEPTH {
        EvalMore(p, f - 1, g - 1, w1.Car(w1.Cdr(args)), env, w1, live + [tag], Free);
      }
    case _ =>
  }

  lemma {:induction false} EvalBeginMore(p: Prims, f: nat, g: nat, args: int, env: int, w: World, live: seq<int>,
        pend: Pend)
    requires Aimed(pend, live)
    requires f <= g && !EvalBegin(p, f, args, env, w, live, pend).Out?
    ensures EvalBegin(p, g, args, env, w, live, pend) == EvalBegin(p, f, args, env, w, live, pend)
    decreases f
  {
    hide Eval;
    EvalMore(p, f - 1, g - 1, w.Car(args), env, w, live, pend);
    match Eval(p, f - 1, w.Car(args), env, w, live, pend)
    case Ok(_, w1) =>
      if w.Cdr(args) != NIL_VAL {
        EvalBeginMore(p, f - 1, g - 1, w1.Cdr(args), env, w1, live, Free);
      }
    case _ =>
  }

  lemma {:induction false} SpliceMore(w: World, list: int, result: int, tail: int, f: nat, g: nat)
    requires f <= g && Splice(w, list, result, tail, f).Building?
    ensures Splice(w, list, result, tail, g) == Splice(w, list, result, tail, f)
    decreases f
  {
    if IsCons(list) {
      var b := Append(w, w.Car(list), result, tail);
      SpliceMore(b.w, b.w.Cdr(list), b.result, b.tail, f - 1, g - 1);
    }
  }

  lemma {:induction false} EvalQuasiMore(p: Prims, f: nat, g: nat, tmpl: int, env: int, w: World, live: seq<int>,
        pend: Pend)
    requires Aimed(pend, live)
    requires f <= g && !EvalQuasi(p, f, tmpl, env, w, live, pend).Out?
    ensures EvalQuasi(p, g, tmpl, env, w, live, pend) == EvalQuasi(p, f, tmpl, env, w, live, pend)
    decreases f
  {
    hide Eval, EvalParts;
    if IsCons(tmpl) {
      if w.Car(tmpl) == UNQUOTE {
        EvalMore(p, f - 1, g - 1, w.Car(w.Cdr(tmpl)), env, w, live, pend);
      } else {
        EvalPartsMore(p, f - 1, g - 1, tmpl, env, w, live, pend, NIL_VAL, NIL_VAL);
      }
    }
  }

  lemma {:induction false} EvalPartMore(p: Prims, f: nat, g: nat, elem: int, env: int, w: World, live: seq<int>,
        pend: Pend)
    requires Aimed(pend, live)
    requires f <= g && !EvalPart(p, f, elem, env, w, live, pend).Out?
    ensures EvalPart(p, g, elem, env, w, live, pend) == EvalPart(p, f, elem, env, w, live, pend)
    decreases f
  {
    hide Eval, EvalQuasi;
    if IsSplicing(w, elem) {
      EvalMore(p, f - 1, g - 1, w.Car(w.Cdr(elem)), env, w, live, pend);
    } else {
      EvalQuasiMore(p, f - 1, g - 1, elem, env, w, live, pend);
    }
  }

  lemma {:induction false} EvalPartsMore(p: Prims, f: nat, g: nat, rest: int, env: int, w: World, live: seq<int>,
        pend: Pend, result: int, tail: int)
    requires Aimed(pend, live)
    requires f <= g && !EvalParts(p, f, rest, env, w, live, pend, result, tail).Out?
    ensures EvalParts(p, g, rest, env, w, live, pend, result, tail)
         == EvalParts(p, f, rest, env, w, live, pend, result, tail)
    decreases f
  {
    hide EvalPart, Splice, Append;
    if IsCons(rest) {
      var elem := w.Car(rest);
      EvalPartMore(p, f - 1, g - 1, elem, env, w, live, pend);
      var part := EvalPart(p, f - 1, elem, env, w, live, pend);
      var splicing := IsSplicing(w, elem);
      if splicing {
        SpliceMore(part.w, Back(part), result, tail, f, g);
      }
      var b := AddPart(part.w, splicing, Back(part), result, tail, f);
      EvalPartsMore(p, f - 1, g - 1, b.w.Cdr(rest), env, b.w, live, Carry(part), b.result, b.tail);
    }
  }

  lemma {:induction false} EvalCallMore(p: Prims, f: nat, g: nat, fn: int, args: int, env: int, w: World,
        live: seq<int>)
    requires f <= g && !EvalCall(p, f, fn, args, env, w, live).Out?
    ensures EvalCall(p, g, fn, args, env, w, live) == EvalCall(p, f, fn, args, env, w, live)
    decreases f
  {
    hide Eval, EvalArgs, Apply, EnvBind, CodeParams, CodeBody, CodeEnv;
    if IsCode(w, fn, ETYPE_MACRO) {
      EnvBindMore(w, CodeParams(w, fn), args, CodeEnv(w, fn), f, g);
      var b := EnvBind(w, CodeParams(w, fn), args, CodeEnv(w, fn), f);
      EvalMore(p, f - 1, g - 1, CodeBody(b.w, fn), b.env, b.w, live, Free);
      match Eval(p, f - 1, CodeBody(b.w, fn), b.env, b.w, live, Free)
      case Ok(expanded, w2) => EvalMore(p, f - 1, g - 1, expanded, env, w2, live, Free);
      case _ =>
    } else {
      EvalArgsMore(p, f - 1, g - 1, args, env, w, live);
      match EvalArgs(p, f - 1, args, env, w, live)
      case Ok(list, w1) =>
        if IsCode(w1, fn, ETYPE_CLOSURE) {
          EnvBindMore(w1, CodeParams(w1, fn), list, CodeEnv(w1, fn), f, g);
          var b := EnvBind(w1, CodeParams(w1, fn), list, CodeEnv(w1, fn), f);
          EvalMore(p, f - 1, g - 1, CodeBody(w1, fn), b.env, b.w, live, Free);
        } else {
          ApplyMore(p, f - 1, g - 1, fn, list, w1, live);
        }
      case _ =>
    }
  }

  lemma {:induction false} EvalArgsMore(p: Prims, f: nat, g: nat, list: int, env: int, w: World, live: seq<int>)
    requires f <= g && !EvalArgs(p, f, list, env, w, live).Out?
    ensures EvalArgs(p, g, list, env, w, live) == EvalArgs(p, f, list, env, w, live)
    decreases f
  {
    hide Eval, EvalRest;
    if list != NIL_VAL {
      EvalMore(p, f - 1, g - 1, w.Car(list), env, w, live, Free);
      match Eval(p, f - 1, w.Car(list), env, w, live, Free)
      case Ok(v, w1) =>
        var cell := Cons(w1, v, NIL_VAL);
        EvalRestMore(p, f - 1, g - 1, cell.w.Cdr(list), env, cell.w, live, cell.v, cell.v);
      case _ =>
    }
  }

  lemma {:induction false} EvalRestMore(p: Prims, f: nat, g: nat, list: int, env: int, w: World, live: seq<int>,
                                        result: int, tail: int)
    requires f <= g && !EvalRest(p, f, list, env, w, live, result, tail).Out?
    ensures EvalRest(p, g, list, env, w, live, result, tail) == EvalRest(p, f, list, env, w, live, result, tail)
    decreases f
  {
    hide Eval;
    if IsCons(list) {
      EvalMore(p, f - 1, g - 1, w.Car(list), env, w, live, Free);
      match Eval(p, f - 1, w.Car(list), env, w, live, Free)
      case Ok(v, w1) =>
        var cell := Cons(w1, v, NIL_VAL);
        var w2 := cell.w.SetCdr(tail, cell.v);
        EvalRestMore(p, f - 1, g - 1, w2.Cdr(list), env, w2, live, result, cell.v);
      case _ =>
    }
  }

  lemma {:induction false} ApplyMore(p: Prims, f: nat, g: nat, fn: int, list: int, w: World, live: seq<int>)
    requires f <= g && !Apply(p, f, fn, list, w, live).Out?
    ensures Apply(p, g, fn, list, w, live) == Apply(p, f, fn, list, w, live)
    decreases f
  {
    hide Eval, ApplyPrim, EnvBind, CodeParams, CodeBody, CodeEnv;
    if IsCode(w, fn, ETYPE_CLOSURE) {
      EnvBindMore(w, CodeParams(w, fn), list, CodeEnv(w, fn), f, g);
      var b := EnvBind(w, CodeParams(w, fn), list, CodeEnv(w, fn), f);
      EvalMore(p, f - 1, g - 1, CodeBody(b.w, fn), b.env, b.w, live, Free);
    } else if IsCode(w, fn, ETYPE_PRIMITIVE) {
      ApplyPrimMore(p, f - 1, g - 1, w.Cdr(fn) / 4, list, w, live);
    }
  }

  lemma {:induction false} ApplyPrimMore(p: Prims, f: nat, g: nat, id: int, list: int, w: World, live: seq<int>)
    requires f <= g && !ApplyPrim(p, f, id, list, w, live).Out?
    ensures ApplyPrim(p, g, id, list, w, live) == ApplyPrim(p, f, id, list, w, live)
    decreases f
  {
    hide Eval, Apply, MacExpand;
    if id == PRIM_APPLY {
      ApplyMore(p, f - 1, g - 1, FirstArg(w, list), SecondArg(w, list), w, live);
    } else if id == PRIM_EVAL {
      EvalMore(p, f - 1, g - 1, FirstArg(w, list), w.globalEnv, w, live, Free);
    } else if id == PRIM_MACEXPAND {
      MacExpandMore(p, f - 1, g - 1, FirstArg(w, list), w, live);
    }
  }

  lemma {:induction false} MacExpandMore(p: Prims, f: nat, g: nat, form: int, w: World, live: seq<int>)
    requires f <= g && !MacExpand(p, f, form, w, live).Out?
    ensures MacExpand(p, g, form, w, live) == MacExpand(p, f, form, w, live)
    decreases f
  {
    hide Eval, Find, EnvBind, CodeParams, CodeBody, CodeEnv;
    if IsCons(form) && IsSymbol(w.Car(form)) {
      FindMore(w, w.globalEnv, w.Car(form), f, g);
      match Find(w, w.globalEnv, w.Car(form), f)
      case Found(binding) =>
        var fn := w.Cdr(binding);
        if IsCode(w, fn, ETYPE_MACRO) {
          EnvBindMore(w, CodeParams(w, fn), w.Cdr(form), CodeEnv(w, fn), f, g);
          var b := EnvBind(w, CodeParams(w, fn), w.Cdr(form), CodeEnv(w, fn), f);
          EvalMore(p, f - 1, g - 1, CodeBody(b.w, fn), b.env, b.w, live, Free);
        }
      case _ =>
    }
  }

  /** Two evaluations that finish agree. */
  lemma OneOutcome(p: Prims, f: nat, g: nat, expr: int, env: int, w: World, live: seq<int>, pend: Pend)
    requires Aimed(pend, live)
    requires !Eval(p, f, expr, env, w, live, pend).Out? && !Eval(p, g, expr, env, w, live, pend).Out?
    ensures Eval(p, f, expr, env, w, live, pend) == Eval(p, g, expr, env, w, live, pend)
  {
    if f <= g {
      EvalMore(p, f, g, expr, env, w, live, pend);
    } else {
      EvalMore(p, g, f, expr, env, w, live, pend);
    }
  }
}
