/** What forms mean, without a heap: programs and data are trees, variables are places in a
    store, and functions remember the environment they were made in. */
module Meaning {
  import opened Tml
  import opened Wrappers
  import E = Exceptions

  /** Variables to places, innermost first. */
  type Env = seq<(int, nat)>

  /** Fixnums and symbols are known by their words, strings by themselves. */
  datatype Val =
    | Atom(w: int)
    | Pair(car: Val, cdr: Val)
    | Closure(params: Val, body: Val, env: Env)
    | Macro(params: Val, body: Val, env: Env)
    | Primitive(id: int)
    | Object(w: int)

  const NIL: Val := Atom(NIL_VAL)

  datatype State = State(store: seq<Val>, global: Env, out: seq<int>)
  {
    function Print(ws: seq<int>): State { State(store, global, out + ws) }
  }

  /** `Stuck` when the fuel does not last, or for a form that is none or that this meaning leaves
      out: a throw inside a template, dynamic-wind. */
  datatype Result = Stuck | Done(v: Val, s: State) | Thrown(tag: int, v: Val, s: State)

  /** Primitives that neither throw nor evaluate: their value, and what they print, on the list of
      their arguments. */
  type Prims = (int, Val) -> Option<(Val, seq<int>)>

  /** Nothing printed is taken back and no place is lost. */
  predicate Onward(s: State, r: Result) {
    match r
    case Stuck => true
    case Done(_, s1) => s.out <= s1.out && |s.store| <= |s1.store|
    case Thrown(_, _, s1) => s.out <= s1.out && |s.store| <= |s1.store|
  }

  // Variables

  function Find(env: Env, sym: int): Option<nat> {
    if env == [] then None else if env[0].0 == sym then Some(env[0].1) else Find(env[1..], sym)
  }

  /** Local before global. */
  function Lookup(env: Env, s: State, sym: int): Option<nat> {
    match Find(env, sym)
    case Some(place) => Some(place)
    case None => Find(s.global, sym)
  }

  /** A name: a symbol but nil. */
  predicate IsName(v: Val) { v.Atom? && IsSymbol(v.w) && v.w != NIL_VAL }

  datatype Scope = Unbound | Scope(env: Env, s: State)

  function Extend(sym: int, v: Val, env: Env, s: State): Scope {
    Scope([(sym, |s.store|)] + env, s.(store := s.store + [v]))
  }

  function Define(sym: int, v: Val, s: State): State {
    s.(store := s.store + [v], global := [(sym, |s.store|)] + s.global)
  }

  /** Each parameter to its argument, in order; a dotted one takes the rest. */
  function Bind(params: Val, args: Val, env: Env, s: State): (b: Scope)
    ensures b.Scope? ==> s.out == b.s.out && |s.store| <= |b.s.store| && s.global == b.s.global
    decreases params
  {
    if params.Pair? then
      if IsName(params.car) && args.Pair? then
        var x := Extend(params.car.w, args.car, env, s);
        Bind(params.cdr, args.cdr, x.env, x.s)
      else Unbound
    else if params == NIL then Scope(env, s)
    else if IsName(params) then Extend(params.w, args, env, s)
    else Unbound
  }

  // Forms

  /** Several forms are a begin. */
  function BodyOf(forms: Val): Option<Val> {
    if !forms.Pair? then None
    else if forms.cdr == NIL then Some(forms.car)
    else Some(Pair(Atom(E.BEGIN), forms))
  }

  predicate IsVariable(w: int) { IsSymbol(w) && w != NIL_VAL && w != T_VAL }

  /** `live` are the tags of the catch forms around the form. */
  function Eval(q: Prims, g: nat, e: Val, env: Env, s: State, live: seq<int>): (r: Result)
    ensures Onward(s, r)
    decreases g
  {
    if g == 0 then Stuck
    else if e.Atom? && IsVariable(e.w) then
      match Lookup(env, s, e.w)
      case Some(place) => if place < |s.store| then Done(s.store[place], s) else Stuck
      case None => Done(NIL, s.Print([E.UNBOUND, e.w]))
    else if !e.Pair? then Done(e, s)
    else
      var head, args := e.car, e.cdr;
      if head == Atom(E.QUOTE) then if args.Pair? then Done(args.car, s) else Stuck
      else if head == Atom(E.QUASIQUOTE) then
        if args.Pair? then Quasi(q, g - 1, args.car, env, s, live) else Stuck
      else if head == Atom(E.IF) then If(q, g - 1, args, env, s, live)
      else if head == Atom(E.DEFINE) then DefineForm(q, g - 1, args, env, s, live)
      else if head == Atom(E.SET) then Set(q, g - 1, args, env, s, live)
      else if head == Atom(E.LAMBDA) then
        if args.Pair? && BodyOf(args.cdr).Some? then Done(Closure(args.car, BodyOf(args.cdr).value, env), s)
        else Stuck
      else if head == Atom(E.DEFMACRO) then
        if args.Pair? && IsName(args.car) && args.cdr.Pair? && BodyOf(args.cdr.cdr).Some? then
          var macro := Macro(args.cdr.car, BodyOf(args.cdr.cdr).value, env);
          Done(macro, Define(args.car.w, macro, s))
        else Stuck
      else if head == Atom(E.CATCH) then Catch(q, g - 1, args, env, s, live)
      else if head == Atom(E.BEGIN) then
        if args == NIL then Done(NIL, s) else Begin(q, g - 1, args, env, s, live)
      else
        match Eval(q, g - 1, head, env, s, live)
        case Done(fn, s1) => Call(q, g - 1, fn, args, env, s1, live)
        case other => other
  }

  /** The second form when the first is not nil, else the third, nil when there is none. */
  function If(q: Prims, g: nat, args: Val, env: Env, s: State, live: seq<int>): (r: Result)
    ensures Onward(s, r)
    decreases g
  {
    if g == 0 || !args.Pair? || !args.cdr.Pair? then Stuck
    else
      match Eval(q, g - 1, args.car, env, s, live)
      case Done(v, s1) =>
        var rest := args.cdr.cdr;
        if v != NIL then Eval(q, g - 1, args.cdr.car, env, s1, live)
        else if rest == NIL then Done(NIL, s1)
        else if rest.Pair? then Eval(q, g - 1, rest.car, env, s1, live)
        else Stuck
      case other => other
  }

  function DefineForm(q: Prims, g: nat, args: Val, env: Env, s: State, live: seq<int>): (r: Result)
    ensures Onward(s, r)
    decreases g
  {
    if g == 0 || !args.Pair? then Stuck
    else if args.car.Pair? then
      if IsName(args.car.car) && BodyOf(args.cdr).Some? then
        var fn := Closure(args.car.cdr, BodyOf(args.cdr).value, env);
        Done(fn, Define(args.car.car.w, fn, s))
      else Stuck
    else if IsName(args.car) && args.cdr.Pair? then
      match Eval(q, g - 1, args.cdr.car, env, s, live)
      case Done(v, s1) => Done(v, Define(args.car.w, v, s1))
      case other => other
    else Stuck
  }

  /** The place of the variable gets the value, if it has one. */
  function Set(q: Prims, g: nat, args: Val, env: Env, s: State, live: seq<int>): (r: Result)
    ensures Onward(s, r)
    decreases g
  {
    if g == 0 || !args.Pair? || !IsName(args.car) || !args.cdr.Pair? then Stuck
    else
      match Eval(q, g - 1, args.cdr.car, env, s, live)
      case Done(v, s1) =>
        (match Lookup(env, s1, args.car.w)
         case Some(place) => if place < |s1.store| then Done(v, s1.(store := s1.store[place := v])) else Stuck
         case None => Done(NIL, s1.Print([E.SET_UNBOUND, args.car.w])))
      case other => other
  }

  /** A throw to the form's tag ends here with its value. */
  function Catch(q: Prims, g: nat, args: Val, env: Env, s: State, live: seq<int>): (r: Result)
    ensures Onward(s, r)
    decreases g
  {
    if g == 0 || !args.Pair? || !args.cdr.Pair? then Stuck
    else
      match Eval(q, g - 1, args.car, env, s, live)
      case Done(tag, s1) =>
        if !tag.Atom? then Stuck
        else if |live| >= E.MAX_CATCH_DEPTH then Done(NIL, s1.Print([E.CATCH_OVERFLOW]))
        else
          (match Eval(q, g - 1, args.cdr.car, env, s1, live + [tag.w])
           case Thrown(t, v, s2) => if t == tag.w then Done(v, s2) else Thrown(t, v, s2)
           case other => other)
      case other => other
  }

  /** The value of the last of several forms. */
  function Begin(q: Prims, g: nat, forms: Val, env: Env, s: State, live: seq<int>): (r: Result)
    ensures Onward(s, r)
    decreases g
  {
    if g == 0 || !forms.Pair? then Stuck
    else if forms.cdr == NIL then Eval(q, g - 1, forms.car, env, s, live)
    else
      match Eval(q, g - 1, forms.car, env, s, live)
      case Done(_, s1) => Begin(q, g - 1, forms.cdr, env, s1, live)
      case other => other
  }

  // Calls

  /** Macros get the forms of their arguments, and what they make of them is evaluated in turn;
      functions get the values. */
  function Call(q: Prims, g: nat, fn: Val, args: Val, env: Env, s: State, live: seq<int>): (r: Result)
    ensures Onward(s, r)
    decreases g
  {
    if g == 0 then Stuck
    else if fn.Macro? then
      match Bind(fn.params, args, fn.env, s)
      case Unbound => Stuck
      case Scope(env1, s1) =>
        (match Eval(q, g - 1, fn.body, env1, s1, live)
         case Done(expansion, s2) => Eval(q, g - 1, expansion, env, s2, live)
         case other => other)
    else
      match Args(q, g - 1, args, env, s, live)
      case Done(values, s1) => Apply(q, g - 1, fn, values, s1, live)
      case other => other
  }

  /** The list of the values, left to right. */
  function Args(q: Prims, g: nat, args: Val, env: Env, s: State, live: seq<int>): (r: Result)
    ensures Onward(s, r)
    decreases g
  {
    if g == 0 then Stuck
    else if args == NIL then Done(NIL, s)
    else if !args.Pair? then Stuck
    else
      match Eval(q, g - 1, args.car, env, s, live)
      case Done(v, s1) =>
        (match Args(q, g - 1, args.cdr, env, s1, live)
         case Done(rest, s2) => Done(Pair(v, rest), s2)
         case other => other)
      case other => other
  }

  /** The body of a function is evaluated where the function was made, with its parameters. */
  function Apply(q: Prims, g: nat, fn: Val, values: Val, s: State, live: seq<int>): (r: Result)
    ensures Onward(s, r)
    decreases g
  {
    if g == 0 then Stuck
    else if fn.Closure? then
      match Bind(fn.params, values, fn.env, s)
      case Unbound => Stuck
      case Scope(env1, s1) => Eval(q, g - 1, fn.body, env1, s1, live)
    else if fn.Primitive? then ApplyPrim(q, g - 1, fn.id, values, s, live)
    else Done(NIL, s.Print([E.NOT_FN]))
  }

  function First(values: Val): Val { if values.Pair? then values.car else NIL }

  function Second(values: Val): Val { if values.Pair? then First(values.cdr) else NIL }

  /** A list as far as two arguments are looked for. */
  predicate TwoOf(values: Val) { values == NIL || (values.Pair? && (values.cdr == NIL || values.cdr.Pair?)) }

  function ApplyPrim(q: Prims, g: nat, id: int, values: Val, s: State, live: seq<int>): (r: Result)
    ensures Onward(s, r)
    decreases g
  {
    var a, b := First(values), Second(values);
    if g == 0 || !TwoOf(values) then Stuck
    else if id == E.PRIM_THROW then
      if !a.Atom? then Stuck
      else if a.w in live then Thrown(a.w, b, s)
      else Done(NIL, s.Print([E.NO_CATCH, a.w]))
    else if id == E.PRIM_APPLY then Apply(q, g - 1, a, b, s, live)
    else if id == E.PRIM_EVAL then Eval(q, g - 1, a, s.global, s, live)
    else if id == E.PRIM_MACEXPAND then Expand(q, g - 1, a, s, live)
    else if id == E.PRIM_DYN_WIND then Stuck
    else
      match q(id, values)
      case Some(r) => Done(r.0, s.Print(r.1))
      case None => Stuck
  }

  /** A form whose head names a global macro is expanded once. */
  function Expand(q: Prims, g: nat, form: Val, s: State, live: seq<int>): (r: Result)
    ensures Onward(s, r)
    decreases g
  {
    if g == 0 then Stuck
    else if !form.Pair? || !form.car.Atom? || !IsSymbol(form.car.w) then Done(form, s)
    else if form.car == NIL then Stuck
    else
      match Find(s.global, form.car.w)
      case None => Done(form, s)
      case Some(place) =>
        if place >= |s.store| then Stuck
        else if !s.store[place].Macro? then Done(form, s)
        else
          var macro := s.store[place];
          match Bind(macro.params, form.cdr, macro.env, s)
          case Unbound => Stuck
          case Scope(env1, s1) => Eval(q, g - 1, macro.body, env1, s1, live)
  }

  // Templates

  /** Values in front of an end. */
  function ListOf(vs: seq<Val>, end: Val): Val {
    if vs == [] then end else Pair(vs[0], ListOf(vs[1..], end))
  }

  /** The elements of a list, whatever it ends in. */
  function Elements(v: Val): seq<Val> { if v.Pair? then [v.car] + Elements(v.cdr) else [] }

  /** A template with its unquoted forms evaluated. */
  function Quasi(q: Prims, g: nat, t: Val, env: Env, s: State, live: seq<int>): (r: Result)
    ensures Onward(s, r)
    decreases g, 1
  {
    if g == 0 then Stuck
    else if !t.Pair? then Done(t, s)
    else if t.car == Atom(E.UNQUOTE) then
      if t.cdr.Pair? then Eval(q, g - 1, t.cdr.car, env, s, live) else Stuck
    else Parts(q, g - 1, t, [], env, s, live)
  }

  /** The parts from `rest` on behind the values `vs`; a spliced list gives its elements. */
  function Parts(q: Prims, g: nat, rest: Val, vs: seq<Val>, env: Env, s: State, live: seq<int>): (r: Result)
    ensures Onward(s, r)
    decreases g
  {
    if g == 0 then Stuck
    else if !rest.Pair? then Done(if vs == [] then NIL else ListOf(vs, rest), s)
    else if rest.car.Pair? && rest.car.car == Atom(E.UNQUOTE_SPLICING) then
      if !rest.car.cdr.Pair? then Stuck
      else
        match Eval(q, g - 1, rest.car.cdr.car, env, s, live)
        case Done(v, s1) => Parts(q, g - 1, rest.cdr, vs + Elements(v), env, s1, live)
        case _ => Stuck
    else
      match Quasi(q, g - 1, rest.car, env, s, live)
      case Done(v, s1) => Parts(q, g - 1, rest.cdr, vs + [v], env, s1, live)
      case _ => Stuck
  }
}
