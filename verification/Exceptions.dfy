/** What the evaluator of eval.h means: a big-step semantics in which a throw is an
    exceptional outcome that carries its tag, its value and the world at that moment.

    The heap here never reuses a cell; Mutator shows that the collected heap cannot be told
    apart from such a one. */
module Exceptions {
  import opened Tml

  // The world

  /** Cells as (car, cdr), the global environment, and everything printed. */
  datatype World = World(cells: seq<(int, int)>, globalEnv: int, output: seq<int>)
  {
    /** Reading a word that names no cell finds the zeros of a never used array element. */
    function Car(v: int): int {
      if 0 <= PtrIdx(v) < |cells| then cells[PtrIdx(v)].0 else 0
    }

    function Cdr(v: int): int {
      if 0 <= PtrIdx(v) < |cells| then cells[PtrIdx(v)].1 else 0
    }

    function SetCdr(v: int, d: int): World {
      if 0 <= PtrIdx(v) < |cells| then
        World(cells[PtrIdx(v) := (cells[PtrIdx(v)].0, d)], globalEnv, output)
      else this
    }

    function Fresh(a: int, d: int): World { World(cells + [(a, d)], globalEnv, output) }

    function Print(ws: seq<int>): World { World(cells, globalEnv, output + ws) }

    function SetGlobal(env: int): World { World(cells, env, output) }
  }

  // Symbols in the order eval_init interns them.
  const QUOTE: int := MakeSymbol(2)
  const IF: int := MakeSymbol(3)
  const DEFINE: int := MakeSymbol(4)
  const LAMBDA: int := MakeSymbol(5)
  const DEFMACRO: int := MakeSymbol(6)
  const BEGIN: int := MakeSymbol(7)
  const QUASIQUOTE: int := MakeSymbol(8)
  const UNQUOTE: int := MakeSymbol(9)
  const UNQUOTE_SPLICING: int := MakeSymbol(10)
  const SET: int := MakeSymbol(11)
  const CATCH: int := MakeSymbol(12)

  const ETYPE_CLOSURE: int := 4
  const ETYPE_MACRO: int := 8
  const ETYPE_PRIMITIVE: int := 12

  const PRIM_APPLY: int := 24
  const PRIM_EVAL: int := 36
  const PRIM_MACEXPAND: int := 37
  const PRIM_THROW: int := 41
  const PRIM_DYN_WIND: int := 42

  const MAX_CATCH_DEPTH: nat := 16

  // What is printed: a number for the message, then the offending word, if any.
  const UNBOUND: int := 1
  const SET_UNBOUND: int := 2
  const CATCH_OVERFLOW: int := 3
  const NOT_FN: int := 4
  const NO_CATCH: int := 5

  /** A value and the world it is found in. */
  datatype Made = Made(v: int, w: World)

  function Cons(w: World, a: int, d: int): Made { Made(MakeCons(|w.cells|), w.Fresh(a, d)) }

  function EnvExtend(w: World, sym: int, val: int, env: int): Made {
    var binding := Cons(w, sym, val);
    Cons(binding.w, binding.v, env)
  }

  /** make_closure and make_macro. */
  function MakeCode(w: World, etype: int, params: int, body: int, env: int): Made {
    var inner := Cons(w, body, env);
    var data := Cons(inner.w, params, inner.v);
    Made(MakeExtended(|data.w.cells|), data.w.Fresh(etype, data.v))
  }

  /** The body of a lambda: one form, or a begin around several. */
  function BodyOf(w: World, forms: int): Made {
    if w.Cdr(forms) == NIL_VAL then Made(w.Car(forms), w) else Cons(w, BEGIN, forms)
  }

  function CodeData(w: World, fn: int): int { w.Cdr(fn) }
  function CodeParams(w: World, fn: int): int { w.Car(CodeData(w, fn)) }
  function CodeBody(w: World, fn: int): int { w.Car(w.Cdr(CodeData(w, fn))) }
  function CodeEnv(w: World, fn: int): int { w.Cdr(w.Cdr(CodeData(w, fn))) }

  predicate IsCode(w: World, fn: int, etype: int) { IsExtended(fn) && w.Car(fn) == etype }

  // Environments

  /** Walking an association list; `Lost` when the walk does not end in `fuel` steps. */
  datatype Search = Lost | Missing | Found(binding: int)

  function Find(w: World, e: int, sym: int, fuel: nat): Search
    decreases fuel
  {
    if fuel == 0 then Lost
    else if e == NIL_VAL then Missing
    else if w.Car(w.Car(e)) == sym then Found(w.Car(e))
    else Find(w, w.Cdr(e), sym, fuel - 1)
  }

  /** The local environment first, then the global one. */
  function FindBoth(w: World, env: int, sym: int, fuel: nat): Search {
    match Find(w, env, sym, fuel)
    case Missing => Find(w, w.globalEnv, sym, fuel)
    case found => found
  }

  datatype Bound = Unbound | Bound(env: int, w: World)

  /** env_bind: parameters to arguments, the rest of the arguments to a dotted parameter. */
  function EnvBind(w: World, params: int, args: int, env: int, fuel: nat): Bound
    decreases fuel
  {
    if fuel == 0 then Unbound
    else if IsCons(params) then
      var extended := EnvExtend(w, w.Car(params), w.Car(args), env);
      EnvBind(extended.w, extended.w.Cdr(params), extended.w.Cdr(args), extended.v, fuel - 1)
    else if IsSymbol(params) then
      var extended := EnvExtend(w, params, args, env);
      Bound(extended.v, extended.w)
    else Bound(env, w)
  }

  // Evaluation

  /** Whether a throw is under way when an evaluation starts. Only a quasiquote evaluates
      anything in that state: it does not look at the flag between its parts. */
  datatype Pend = Free | Thrown(tag: int, v: int)

  /** `Out` when the fuel does not last or a form outside this model is met. A throw carries
      its tag and its value; `back` is the word handed back beside it, which callers that
      look at the flag drop. */
  datatype Outcome = Out | Ok(v: int, w: World) | Raise(tag: int, v: int, w: World, back: int)

  /** A form that evaluates nothing: a throw that is under way stays so. */
  function Give(pend: Pend, r: int, w: World): Outcome {
    match pend
    case Free => Ok(r, w)
    case Thrown(tag, v) => Raise(tag, v, w, r)
  }

  /** A form that looks at the flag behind a subform and gives up. */
  function Stop(o: Outcome): Outcome {
    match o
    case Raise(tag, v, w, _) => Raise(tag, v, w, NIL_VAL)
    case _ => o
  }

  /** The state a form that does not look at the flag goes on in. */
  function Carry(o: Outcome): Pend
    requires !o.Out?
  {
    match o
    case Ok(_, _) => Free
    case Raise(tag, v, _, _) => Thrown(tag, v)
  }

  /** The word it goes on with. */
  function Back(o: Outcome): int
    requires !o.Out?
  {
    match o
    case Ok(v, _) => v
    case Raise(_, _, _, back) => back
  }

  /** What a form does to a throw that was under way: nothing. One it raises itself is aimed
      at a live frame. */
  predicate Passes(o: Outcome, live: seq<int>, pend: Pend) {
    && (o.Raise? ==> o.tag in live)
    && (pend.Thrown? ==> o.Out? || (o.Raise? && o.tag == pend.tag && o.v == pend.v))
  }

  predicate Aimed(pend: Pend, live: seq<int>) { pend.Thrown? ==> pend.tag in live }

  /** The primitives that neither throw nor evaluate: any function of their number, their
      arguments and the world. */
  type Prims = (int, int, World) -> Made

  function FirstArg(w: World, args: int): int { if args == NIL_VAL then NIL_VAL else w.Car(args) }

  function SecondArg(w: World, args: int): int {
    if args == NIL_VAL || w.Cdr(args) == NIL_VAL then NIL_VAL else w.Car(w.Cdr(args))
  }

  /** A list under construction: its first cell, its last cell and the world. */
  datatype Building = Unfinished | Building(result: int, tail: int, w: World)

  /** The cell the next step of the construction writes, -1 for none. */
  function Hole(result: int, tail: int): int { if result == NIL_VAL then -1 else PtrIdx(tail) }

  /** One more cell behind the last. */
  function Append(w: World, v: int, result: int, tail: int): Building {
    var cell := Cons(w, v, NIL_VAL);
    if result == NIL_VAL then Building(cell.v, cell.v, cell.w)
    else Building(result, cell.v, cell.w.SetCdr(tail, cell.v))
  }

  /** Copies of the cells of a list behind the last cell. */
  function Splice(w: World, list: int, result: int, tail: int, fuel: nat): Building
    decreases fuel
  {
    if fuel == 0 then Unfinished
    else if !IsCons(list) then Building(result, tail, w)
    else
      var b := Append(w, w.Car(list), result, tail);
      Splice(b.w, b.w.Cdr(list), b.result, b.tail, fuel - 1)
  }

  // A throw never leaves the catch forms it is aimed at: its tag is always a live one.

  /** The value of `expr`; `live` are the tags of the catch forms around it, innermost
      last. */
  function Eval(p: Prims, fuel: nat, expr: int, env: int, w: World, live: seq<int>, pend: Pend): (o: Outcome)
    requires Aimed(pend, live)
    ensures Passes(o, live, pend)
    decreases fuel
  {
    if fuel == 0 then Out
    else if IsSymbol(expr) && expr != NIL_VAL && expr != T_VAL then
      (match FindBoth(w, env, expr, fuel)
       case Lost => Out
       case Missing => Give(pend, NIL_VAL, w.Print([UNBOUND, expr]))
       case Found(binding) => Give(pend, w.Cdr(binding), w))
    else if !IsCons(expr) then Give(pend, expr, w)
    else
      var head := w.Car(expr);
      var args := w.Cdr(expr);
      if head == QUOTE then Give(pend, w.Car(args), w)
      else if head == QUASIQUOTE then EvalQuasi(p, fuel - 1, w.Car(args), env, w, live, pend)
      else if head == IF then EvalIf(p, fuel - 1, args, env, w, live, pend)
      else if head == DEFINE then EvalDefine(p, fuel - 1, args, env, w, live, pend)
      else if head == SET then EvalSet(p, fuel - 1, args, env, w, live, pend)
      else if head == LAMBDA then
        var body := BodyOf(w, w.Cdr(args));
        var made := MakeCode(body.w, ETYPE_CLOSURE, w.Car(args), body.v, env);
        Give(pend, made.v, made.w)
      else if head == DEFMACRO then
        var body := BodyOf(w, w.Cdr(w.Cdr(args)));
        var made := MakeCode(body.w, ETYPE_MACRO, w.Car(w.Cdr(args)), body.v, env);
        var extended := EnvExtend(made.w, w.Car(args), made.v, made.w.globalEnv);
        Give(pend, made.v, extended.w.SetGlobal(extended.v))
      else if head == CATCH then EvalCatch(p, fuel - 1, args, env, w, live, pend)
      else if head == BEGIN then
        if args == NIL_VAL then Give(pend, NIL_VAL, w) else EvalBegin(p, fuel - 1, args, env, w, live, pend)
      else
        match Eval(p, fuel - 1, head, env, w, live, pend)
        case Ok(fn, w1) => EvalCall(p, fuel - 1, fn, args, env, w1, live)
        case other => Stop(other)
  }

  function EvalIf(p: Prims, fuel: nat, args: int, env: int, w: World, live: seq<int>, pend: Pend): (o: Outcome)
    requires Aimed(pend, live)
    ensures Passes(o, live, pend)
    decreases fuel
  {
    if fuel == 0 then Out
    else
      match Eval(p, fuel - 1, w.Car(args), env, w, live, pend)
      case Ok(v, w1) =>
        if v != NIL_VAL then Eval(p, fuel - 1, w1.Car(w1.Cdr(args)), env, w1, live, Free)
        else
          var elsePart := w1.Cdr(w1.Cdr(args));
          if elsePart == NIL_VAL then Ok(NIL_VAL, w1)
          else Eval(p, fuel - 1, w1.Car(elsePart), env, w1, live, Free)
      case other => Stop(other)
  }

  function EvalDefine(p: Prims, fuel: nat, args: int, env: int, w: World, live: seq<int>, pend: Pend): (o: Outcome)
    requires Aimed(pend, live)
    ensures Passes(o, live, pend)
    decreases fuel
  {
    if fuel == 0 then Out
    else
      var first := w.Car(args);
      if IsCons(first) then
        var body := BodyOf(w, w.Cdr(args));
        var made := MakeCode(body.w, ETYPE_CLOSURE, w.Cdr(first), body.v, env);
        var extended := EnvExtend(made.w, w.Car(first), made.v, made.w.globalEnv);
        Give(pend, made.v, extended.w.SetGlobal(extended.v))
      else
        match Eval(p, fuel - 1, w.Car(w.Cdr(args)), env, w, live, pend)
        case Ok(v, w1) =>
          var extended := EnvExtend(w1, first, v, w1.globalEnv);
          Ok(v, extended.w.SetGlobal(extended.v))
        case other => Stop(other)
  }

  function EvalSet(p: Prims, fuel: nat, args: int, env: int, w: World, live: seq<int>, pend: Pend): (o: Outcome)
    requires Aimed(pend, live)
    ensures Passes(o, live, pend)
    decreases fuel
  {
    if fuel == 0 then Out
    else
      var sym := w.Car(args);
      match Eval(p, fuel - 1, w.Car(w.Cdr(args)), env, w, live, pend)
      case Ok(v, w1) =>
        (match FindBoth(w1, env, sym, fuel)
         case Lost => Out
         case Missing => Ok(NIL_VAL, w1.Print([SET_UNBOUND, sym]))
         case Found(binding) => Ok(v, w1.SetCdr(binding, v)))
      case other => Stop(other)
  }

  /** A catch form handles the throws to its own tag and lets the others pass. */
  function EvalCatch(p: Prims, fuel: nat, args: int, env: int, w: World, live: seq<int>, pend: Pend): (o: Outcome)
    requires Aimed(pend, live)
    ensures Passes(o, live, pend)
    decreases fuel
  {
    if fuel == 0 then Out
    else
      match Eval(p, fuel - 1, w.Car(args), env, w, live, pend)
      case Ok(tag, w1) =>
        if |live| >= MAX_CATCH_DEPTH then Ok(NIL_VAL, w1.Print([CATCH_OVERFLOW]))
        else
          (match Eval(p, fuel - 1, w1.Car(w1.Cdr(args)), env, w1, live + [tag], Free)
           case Raise(t, v, w2, _) => if t == tag then Ok(v, w2) else Raise(t, v, w2, NIL_VAL)
           case other => other)
      case other => Stop(other)
  }

  function EvalBegin(p: Prims, fuel: nat, args: int, env: int, w: World, live: seq<int>, pend: Pend): (o: Outcome)
    requires Aimed(pend, live)
    ensures Passes(o, live, pend)
    decreases fuel
  {
    if fuel == 0 then Out
    else if w.Cdr(args) == NIL_VAL then Eval(p, fuel - 1, w.Car(args), env, w, live, pend)
    else
      match Eval(p, fuel - 1, w.Car(args), env, w, live, pend)
      case Ok(_, w1) => EvalBegin(p, fuel - 1, w1.Cdr(args), env, w1, live, Free)
      case other => Stop(other)
  }

  /** qq_expand: a template with its unquoted parts evaluated. */
  function EvalQuasi(p: Prims, fuel: nat, tmpl: int, env: int, w: World, live: seq<int>, pend: Pend): (o: Outcome)
    requires Aimed(pend, live)
    ensures Passes(o, live, pend)
    decreases fuel
  {
    if fuel == 0 then Out
    else if !IsCons(tmpl) then Give(pend, tmpl, w)
    else if w.Car(tmpl) == UNQUOTE then Eval(p, fuel - 1, w.Car(w.Cdr(tmpl)), env, w, live, pend)
    else EvalParts(p, fuel - 1, tmpl, env, w, live, pend, NIL_VAL, NIL_VAL)
  }

  /** One part of a template: the world, the state and the word the loop goes on with. */
  function EvalPart(p: Prims, fuel: nat, elem: int, env: int, w: World, live: seq<int>, pend: Pend): (o: Outcome)
    requires Aimed(pend, live)
    ensures Passes(o, live, pend)
    decreases fuel
  {
    if fuel == 0 then Out
    else if IsSplicing(w, elem) then Eval(p, fuel - 1, w.Car(w.Cdr(elem)), env, w, live, pend)
    else EvalQuasi(p, fuel - 1, elem, env, w, live, pend)
  }

  predicate IsSplicing(w: World, elem: int) { IsCons(elem) && w.Car(elem) == UNQUOTE_SPLICING }

  /** The word of a part joins the list: its cells are copied when it is spliced in. */
  function AddPart(w: World, splicing: bool, v: int, result: int, tail: int, fuel: nat): Building {
    if splicing then Splice(w, v, result, tail, fuel) else Append(w, v, result, tail)
  }

  /** The parts from `rest` on, behind those collected already. The loop goes on behind a
      part that throws. */
  function EvalParts(p: Prims, fuel: nat, rest: int, env: int, w: World, live: seq<int>, pend: Pend,
                     result: int, tail: int): (o: Outcome)
    requires Aimed(pend, live)
    ensures Passes(o, live, pend)
    decreases fuel
  {
    if fuel == 0 then Out
    else if !IsCons(rest) then
      Give(pend, result, if rest != NIL_VAL && tail != NIL_VAL then w.SetCdr(tail, rest) else w)
    else
      var elem := w.Car(rest);
      var part := EvalPart(p, fuel - 1, elem, env, w, live, pend);
      if part.Out? then Out
      else
        match AddPart(part.w, IsSplicing(w, elem), Back(part), result, tail, fuel)
        case Unfinished => Out
        case Building(result1, tail1, w1) =>
          EvalParts(p, fuel - 1, w1.Cdr(rest), env, w1, live, Carry(part), result1, tail1)
  }

  /** A call once the head has its value. */
  function EvalCall(p: Prims, fuel: nat, fn: int, args: int, env: int, w: World, live: seq<int>): (o: Outcome)
    ensures Passes(o, live, Free)
    decreases fuel
  {
    if fuel == 0 then Out
    else if IsCode(w, fn, ETYPE_MACRO) then
      match EnvBind(w, CodeParams(w, fn), args, CodeEnv(w, fn), fuel)
      case Unbound => Out
      case Bound(env1, w1) =>
        match Eval(p, fuel - 1, CodeBody(w1, fn), env1, w1, live, Free)
        case Ok(expanded, w2) => Eval(p, fuel - 1, expanded, env, w2, live, Free)
        case other => Stop(other)
    else
      match EvalArgs(p, fuel - 1, args, env, w, live)
      case Ok(list, w1) =>
        if IsCode(w1, fn, ETYPE_CLOSURE) then
          match EnvBind(w1, CodeParams(w1, fn), list, CodeEnv(w1, fn), fuel)
          case Unbound => Out
          case Bound(env1, w2) => Eval(p, fuel - 1, CodeBody(w1, fn), env1, w2, live, Free)
        else Apply(p, fuel - 1, fn, list, w1, live)
      case other => Stop(other)
  }

  /** eval_list: the values, left to right, in a fresh list. */
  function EvalArgs(p: Prims, fuel: nat, list: int, env: int, w: World, live: seq<int>): (o: Outcome)
    ensures Passes(o, live, Free)
    decreases fuel
  {
    if fuel == 0 then Out
    else if list == NIL_VAL then Ok(NIL_VAL, w)
    else
      match Eval(p, fuel - 1, w.Car(list), env, w, live, Free)
      case Ok(v, w1) =>
        var cell := Cons(w1, v, NIL_VAL);
        EvalRest(p, fuel - 1, cell.w.Cdr(list), env, cell.w, live, cell.v, cell.v)
      case other => Stop(other)
  }

  /** The rest of the list, appended cell by cell behind `tail`. */
  function EvalRest(p: Prims, fuel: nat, list: int, env: int, w: World, live: seq<int>,
                    result: int, tail: int): (o: Outcome)
    ensures Passes(o, live, Free)
    decreases fuel
  {
    if fuel == 0 then Out
    else if !IsCons(list) then Ok(result, w)
    else
      match Eval(p, fuel - 1, w.Car(list), env, w, live, Free)
      case Ok(v, w1) =>
        var cell := Cons(w1, v, NIL_VAL);
        var w2 := cell.w.SetCdr(tail, cell.v);
        EvalRest(p, fuel - 1, w2.Cdr(list), env, w2, live, result, cell.v)
      case other => Stop(other)
  }

  /** apply_fn. */
  function Apply(p: Prims, fuel: nat, fn: int, list: int, w: World, live: seq<int>): (o: Outcome)
    ensures Passes(o, live, Free)
    decreases fuel
  {
    if fuel == 0 then Out
    else if IsCode(w, fn, ETYPE_CLOSURE) then
      match EnvBind(w, CodeParams(w, fn), list, CodeEnv(w, fn), fuel)
      case Unbound => Out
      case Bound(env1, w1) => Eval(p, fuel - 1, CodeBody(w1, fn), env1, w1, live, Free)
    else if IsCode(w, fn, ETYPE_PRIMITIVE) then
      ApplyPrim(p, fuel - 1, w.Cdr(fn) / 4, list, w, live)
    else Ok(NIL_VAL, w.Print([NOT_FN]))
  }

  /** apply_primitive; a throw to a tag nobody catches is only reported. */
  function ApplyPrim(p: Prims, fuel: nat, id: int, list: int, w: World, live: seq<int>): (o: Outcome)
    ensures Passes(o, live, Free)
    decreases fuel
  {
    if fuel == 0 then Out
    else if id == PRIM_THROW then
      var tag := FirstArg(w, list);
      if tag in live then Raise(tag, SecondArg(w, list), w, NIL_VAL)
      else Ok(NIL_VAL, w.Print([NO_CATCH, tag]))
    else if id == PRIM_APPLY then Apply(p, fuel - 1, FirstArg(w, list), SecondArg(w, list), w, live)
    else if id == PRIM_EVAL then Eval(p, fuel - 1, FirstArg(w, list), w.globalEnv, w, live, Free)
    else if id == PRIM_MACEXPAND then MacExpand(p, fuel - 1, FirstArg(w, list), w, live)
    else if id == PRIM_DYN_WIND then Out
    else
      var made := p(id, list, w);
      Ok(made.v, made.w)
  }

  /** macroexpand-1: a form whose head names a global macro becomes its expansion, any other
      stays what it is. */
  function MacExpand(p: Prims, fuel: nat, form: int, w: World, live: seq<int>): (o: Outcome)
    ensures Passes(o, live, Free)
    decreases fuel
  {
    if fuel == 0 then Out
    else if !IsCons(form) || !IsSymbol(w.Car(form)) then Ok(form, w)
    else
      match Find(w, w.globalEnv, w.Car(form), fuel)
      case Lost => Out
      case Missing => Ok(form, w)
      case Found(binding) =>
        var fn := w.Cdr(binding);
        if !IsCode(w, fn, ETYPE_MACRO) then Ok(form, w)
        else
          match EnvBind(w, CodeParams(w, fn), w.Cdr(form), CodeEnv(w, fn), fuel)
          case Unbound => Out
          case Bound(env1, w1) => Eval(p, fuel - 1, CodeBody(w1, fn), env1, w1, live, Free)
  }
}
