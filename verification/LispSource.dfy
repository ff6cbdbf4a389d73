/** The expressions that compile.h compiles, and what they mean. */
module LispSource {
  import opened Words24
  import opened Wrappers

  /** Symbol table indices (MAX_SYMBOLS is 512). */
  type symbol = i: int | 0 <= i < 512

  /** An expression as the reader builds it: fixnum, symbol, pair, or some other object. */
  datatype SExpr = Fix(n: fixnum) | Sym(i: symbol) | Pair(car: SExpr, cdr: SExpr) | Obj

  const NIL: SExpr := Sym(0)
  const T: SExpr := Sym(1)

  // Symbols in the order eval_init and compile_init intern them.
  const SYM_QUOTE: symbol := 2
  const SYM_IF: symbol := 3
  const SYM_DEFINE: symbol := 4
  const SYM_LAMBDA: symbol := 5
  const SYM_BEGIN: symbol := 7
  const SYM_ASM: symbol := 13
  const SYM_PLUS: symbol := 14
  const SYM_MINUS: symbol := 15
  const SYM_STAR: symbol := 16
  const SYM_LT: symbol := 19
  const SYM_EQ: symbol := 20
  const SYM_CONS: symbol := 21
  const SYM_CAR: symbol := 22
  const SYM_CDR: symbol := 23
  const SYM_NULLP: symbol := 25
  const SYM_PAIRP: symbol := 26
  const SYM_NOT: symbol := 29
  const SYM_PRINT: symbol := 30

  function Size(e: SExpr): (n: nat)
    ensures n >= 1
  {
    match e
    case Pair(a, d) => 1 + Size(a) + Size(d)
    case _ => 1
  }

  function Sizes(es: seq<SExpr>): (n: nat)
    ensures forall i :: 0 <= i < |es| ==> Size(es[i]) <= n
  {
    if es == [] then 0 else Size(es[0]) + Sizes(es[1..])
  }

  /** The elements of a proper list. */
  function Elements(e: SExpr): (r: Option<seq<SExpr>>)
    ensures r.Some? ==> Sizes(r.value) < Size(e)
  {
    match e
    case Pair(a, d) =>
      var rest := Elements(d);
      if rest.Some? then Some([a] + rest.value) else None
    case _ => if e == NIL then Some([]) else None
  }

  /** The symbols of a proper list of symbols. */
  function Symbols(e: SExpr): Option<seq<symbol>> {
    match e
    case Pair(Sym(i), d) =>
      var rest := Symbols(d);
      if rest.Some? then Some([i] + rest.value) else None
    case _ => if e == NIL then Some([]) else None
  }

  datatype Op1 = CarOp | CdrOp | NullOp | PairOp | NotOp | PrintOp
  datatype Op2 = AddOp | SubOp | MulOp | LessOp | EqualOp | ConsOp

  function Prim1(head: symbol): Option<Op1> {
    if head == SYM_CAR then Some(CarOp)
    else if head == SYM_CDR then Some(CdrOp)
    else if head == SYM_NULLP then Some(NullOp)
    else if head == SYM_PAIRP then Some(PairOp)
    else if head == SYM_NOT then Some(NotOp)
    else if head == SYM_PRINT then Some(PrintOp)
    else None
  }

  function Prim2(head: symbol): Option<Op2> {
    if head == SYM_PLUS then Some(AddOp)
    else if head == SYM_MINUS then Some(SubOp)
    else if head == SYM_STAR then Some(MulOp)
    else if head == SYM_LT then Some(LessOp)
    else if head == SYM_EQ then Some(EqualOp)
    else if head == SYM_CONS then Some(ConsOp)
    else None
  }

  /** What an expression is, in the order in which cexpr tests for it.  `Bad` is an
      expression whose code cexpr would take from a car or cdr that is not there, and
      the asm form. */
  datatype Form =
    | Const(value: SExpr)
    | Var(sym: symbol)
    | Quote(datum: SExpr)
    | If(test: SExpr, yes: SExpr, no: SExpr)
    | Begin(body: seq<SExpr>)
    | DefineFn(sym: symbol, params: seq<symbol>, fnBody: SExpr)
    | Define(sym: symbol, value: SExpr)
    | Lambda(params: seq<symbol>, fnBody: SExpr)
    | Unary(op1: Op1, arg: SExpr)
    | Binary(op2: Op2, left: SExpr, right: SExpr)
    | Call(head: SExpr, args: seq<SExpr>)
    | Bad

  /** The first argument, nil when there is none. */
  function Arg1(args: SExpr): SExpr { if args.Pair? then args.car else NIL }

  /** The second argument, nil when there is none. */
  function Arg2(args: SExpr): SExpr { if args.Pair? && args.cdr.Pair? then args.cdr.car else NIL }

  /** (params body ...): only the first body form is compiled. */
  function LambdaParts(args: SExpr): (r: Option<(seq<symbol>, SExpr)>)
    ensures r.Some? ==> Size(r.value.1) < Size(args)
  {
    if args.Pair? && args.cdr.Pair? then
      match Symbols(args.car)
      case Some(ps) => Some((ps, args.cdr.car))
      case None => None
    else None
  }

  /** The compiled parts of `f` together are smaller than `n`. */
  predicate Smaller(f: Form, n: nat) {
    match f
    case If(t, a, b) => Size(t) + Size(a) + Size(b) < n
    case Begin(es) => Sizes(es) < n
    case DefineFn(_, _, body) => Size(body) < n
    case Define(_, e) => Size(e) < n
    case Lambda(_, body) => Size(body) < n
    case Unary(_, a) => Size(a) < n
    case Binary(_, a, b) => Size(a) + Size(b) < n
    case Call(head, es) => Size(head) + Sizes(es) < n
    case _ => true
  }

  function ViewIf(args: SExpr): (f: Form)
    ensures Smaller(f, 1 + Size(args)) && (f.If? || f.Bad?)
  {
    if args.Pair? && args.cdr.Pair? then
      var rest := args.cdr.cdr;
      assert Size(args.cdr) == 1 + Size(args.cdr.car) + Size(rest);
      if rest == NIL then If(args.car, args.cdr.car, NIL)
      else if rest.Pair? then If(args.car, args.cdr.car, rest.car)
      else Bad
    else Bad
  }

  function ViewDefine(args: SExpr): (f: Form)
    ensures Smaller(f, Size(args)) && (f.Define? || f.DefineFn? || f.Bad?)
  {
    if args.Pair? && args.car.Sym? && args.cdr.Pair? then
      var value := args.cdr.car;
      assert Size(args.cdr) == 1 + Size(value) + Size(args.cdr.cdr);
      if value.Pair? && value.car == Sym(SYM_LAMBDA) then
        match LambdaParts(value.cdr)
        case Some((ps, body)) => DefineFn(args.car.i, ps, body)
        case None => Bad
      else Define(args.car.i, value)
    else Bad
  }

  function ViewPrim(head: symbol, args: SExpr): (f: Form)
    requires Prim1(head).Some? || Prim2(head).Some?
    ensures Smaller(f, 2 + Size(args)) && (f.Unary? || f.Binary? || f.Bad?)
  {
    if args != NIL && !args.Pair? then Bad
    else if Prim1(head).Some? then Unary(Prim1(head).value, Arg1(args))
    else if args.Pair? && args.cdr != NIL && !args.cdr.Pair? then Bad
    else
      assert args.Pair? ==> Size(args) == 1 + Size(args.car) + Size(args.cdr);
      Binary(Prim2(head).value, Arg1(args), Arg2(args))
  }

  function View(e: SExpr): (f: Form)
    ensures Smaller(f, Size(e))
  {
    match e
    case Fix(_) => Const(e)
    case Sym(i) => if i == 0 || i == 1 then Const(e) else Var(i)
    case Obj => Const(NIL)
    case Pair(head, args) =>
      if head == Sym(SYM_ASM) then Bad
      else if head == Sym(SYM_QUOTE) then
        if args.Pair? then Quote(args.car) else Bad
      else if head == Sym(SYM_IF) then ViewIf(args)
      else if head == Sym(SYM_BEGIN) then
        match Elements(args)
        case Some(es) => Begin(es)
        case None => Bad
      else if head == Sym(SYM_DEFINE) then ViewDefine(args)
      else if head == Sym(SYM_LAMBDA) then
        match LambdaParts(args)
        case Some((ps, body)) => Lambda(ps, body)
        case None => Bad
      else if head.Sym? && (Prim1(head.i).Some? || Prim2(head.i).Some?) then ViewPrim(head.i, args)
      else
        match Elements(args)
        case Some(es) => Call(head, es)
        case None => Bad
  }

  /** A value of the running program.  A function is known by its text. */
  datatype Value =
    | VFix(n: fixnum)
    | VSym(i: symbol)
    | VPair(id: nat)
    | VFun(params: seq<symbol>, body: SExpr)

  const VNil: Value := VSym(0)
  const VTrue: Value := VSym(1)

  /** Globals (0 until defined), the pairs made so far, and what was printed. */
  datatype World = World(globals: map<symbol, Value>, heap: seq<(Value, Value)>, out: seq<Value>)

  type Locals = seq<(symbol, Value)>

  /** `deep` is how far below the stack pointer the evaluation reaches. */
  datatype Outcome = Done(value: Value, world: World, deep: nat) | NotDone
  datatype Outcomes = Dones(values: seq<Value>, world: World, deep: nat) | NotDones

  function Max(a: nat, b: nat): nat { if a < b then b else a }

  function Global(w: World, sym: symbol): Value {
    if sym in w.globals then w.globals[sym] else VFix(0)
  }

  /** The innermost binding of `sym`. */
  function Local(sym: symbol, loc: Locals): Option<Value> {
    if loc == [] then None
    else if loc[0].0 == sym then Some(loc[0].1)
    else Local(sym, loc[1..])
  }

  function Lookup(sym: symbol, loc: Locals, w: World): Value {
    match Local(sym, loc)
    case Some(v) => v
    case None => Global(w, sym)
  }

  /** The parameters bound to the first arguments, later parameters innermost. */
  function Bind(params: seq<symbol>, values: seq<Value>, loc: Locals): Locals
    requires |params| <= |values|
  {
    if params == [] then loc
    else Bind(params[1..], values[1..], [(params[0], values[0])] + loc)
  }

  function Truth(b: bool): Value { if b then VTrue else VNil }

  function ConstValue(e: SExpr): Value {
    match e
    case Fix(n) => VFix(n)
    case Sym(i) => VSym(i)
    case _ => VNil
  }

  /** What the target offers: stack bytes a runtime routine needs, pairs it can make. */
  datatype Budget = Budget(need: nat, pairs: nat)

  /** Quoted data is rebuilt pair by pair, cdr before car. */
  function EvalQuote(bud: Budget, e: SExpr, w: World): Outcome {
    match e
    case Pair(a, d) =>
      (match EvalQuote(bud, d, w)
       case Done(vd, w1, n1) =>
         (match EvalQuote(bud, a, w1)
          case Done(va, w2, n2) =>
            if |w2.heap| >= bud.pairs then NotDone
            else Done(VPair(|w2.heap|), w2.(heap := w2.heap + [(va, vd)]), Max(n1, Max(3 + n2, 6 + bud.need)))
          case NotDone => NotDone)
       case NotDone => NotDone)
    case _ => Done(ConstValue(e), w, 0)
  }

  /** The operators on values; anything else is a program error, which has no outcome. */
  function Apply1(op: Op1, v: Value, w: World): Option<(Value, World)> {
    match op
    case CarOp => if v.VPair? && v.id < |w.heap| then Some((w.heap[v.id].0, w)) else None
    case CdrOp => if v.VPair? && v.id < |w.heap| then Some((w.heap[v.id].1, w)) else None
    case NullOp => Some((Truth(v == VNil), w))
    case PairOp => if v.VFun? then None else Some((Truth(v.VPair?), w))
    case NotOp => Some((Truth(v == VNil), w))
    case PrintOp => Some((v, w.(out := w.out + [v])))
  }

  function Apply2(op: Op2, a: Value, b: Value, w: World, pairs: nat): Option<(Value, World)> {
    match op
    case AddOp => if a.VFix? && b.VFix? then Some((VFix(Fold(a.n + b.n)), w)) else None
    case SubOp => if a.VFix? && b.VFix? then Some((VFix(Fold(a.n - b.n)), w)) else None
    case MulOp => if a.VFix? && b.VFix? then Some((VFix(Fold(a.n * b.n)), w)) else None
    case LessOp => if a.VFix? && b.VFix? then Some((Truth(a.n < b.n), w)) else None
    case EqualOp => if a.VFun? || b.VFun? then None else Some((Truth(a == b), w))
    case ConsOp => if |w.heap| < pairs then Some((VPair(|w.heap|), w.(heap := w.heap + [(a, b)]))) else None
  }

  /** Stack bytes an operator itself needs below its operands. */
  function Need1(op: Op1, rt: nat): nat {
    match op
    case CarOp => 3 + rt
    case CdrOp => 3 + rt
    case PrintOp => 6 + rt
    case _ => 0
  }

  function Need2(op: Op2, rt: nat): nat { if op.ConsOp? then 6 + rt else 0 }

  /** Evaluation, right operand first; `fuel` bounds the call depth. */
  function Eval(bud: Budget, fuel: nat, e: SExpr, loc: Locals, w: World): Outcome
    decreases fuel, Size(e), 0
  {
    match View(e)
    case Const(c) => Done(ConstValue(c), w, 0)
    case Var(sym) => Done(Lookup(sym, loc, w), w, 0)
    case Quote(d) => EvalQuote(bud, d, w)
    case If(t, a, b) =>
      (match Eval(bud, fuel, t, loc, w)
       case Done(v, w1, n1) =>
         (match Eval(bud, fuel, if v != VNil then a else b, loc, w1)
          case Done(v2, w2, n2) => Done(v2, w2, Max(n1, n2))
          case NotDone => NotDone)
       case NotDone => NotDone)
    case Begin(es) => if es == [] then NotDone else EvalSeq(bud, fuel, es, loc, w)
    case DefineFn(sym, ps, body) =>
      Done(VFun(ps, body), w.(globals := w.globals[sym := VFun(ps, body)]), 0)
    case Define(sym, e1) =>
      (match Eval(bud, fuel, e1, loc, w)
       case Done(v, w1, n1) => Done(v, w1.(globals := w1.globals[sym := v]), n1)
       case NotDone => NotDone)
    case Lambda(ps, body) => Done(VFun(ps, body), w, 0)
    case Unary(op, a) =>
      (match Eval(bud, fuel, a, loc, w)
       case Done(v, w1, n1) =>
         (match Apply1(op, v, w1)
          case Some((r, w2)) => Done(r, w2, Max(n1, Need1(op, bud.need)))
          case None => NotDone)
       case NotDone => NotDone)
    case Binary(op, a, b) =>
      (match Eval(bud, fuel, b, loc, w)
       case Done(vb, w1, n1) =>
         (match Eval(bud, fuel, a, loc, w1)
          case Done(va, w2, n2) =>
            (match Apply2(op, va, vb, w2, bud.pairs)
             case Some((r, w3)) => Done(r, w3, Max(n1, Max(3 + n2, Need2(op, bud.need))))
             case None => NotDone)
          case NotDone => NotDone)
       case NotDone => NotDone)
    case Call(head, args) =>
      (match EvalArgs(bud, fuel, args, loc, w)
       case Dones(vs, w1, n1) =>
         (match if head.Sym? then Done(Lookup(head.i, loc, w1), w1, 0) else Eval(bud, fuel, head, loc, w1)
          case Done(f, w2, n2) =>
            if fuel > 0 && f.VFun? && |f.params| <= |vs| then
              (match Eval(bud, fuel - 1, f.body, Bind(f.params, vs, []), w2)
               case Done(v, w3, n3) => Done(v, w3, Max(n1, 3 * |vs| + Max(n2, 9 + n3)))
               case NotDone => NotDone)
            else NotDone
          case NotDone => NotDone)
       case NotDones => NotDone)
    case Bad => NotDone
  }

  /** Argument values, evaluated last to first and pushed as they come. */
  function EvalArgs(bud: Budget, fuel: nat, args: seq<SExpr>, loc: Locals, w: World): (r: Outcomes)
    ensures r.Dones? ==> |r.values| == |args| && r.deep >= 3 * |args|
    decreases fuel, Sizes(args), 1
  {
    if args == [] then Dones([], w, 0)
    else
      match EvalArgs(bud, fuel, args[1..], loc, w)
      case Dones(vs, w1, n1) =>
        (match Eval(bud, fuel, args[0], loc, w1)
         case Done(v, w2, n2) => Dones([v] + vs, w2, Max(n1, 3 * |vs| + Max(3, n2)))
         case NotDone => NotDones)
      case NotDones => NotDones
  }

  /** The value of the last of several expressions. */
  function EvalSeq(bud: Budget, fuel: nat, es: seq<SExpr>, loc: Locals, w: World): Outcome
    requires es != []
    decreases fuel, Sizes(es), 1
  {
    match Eval(bud, fuel, es[0], loc, w)
    case Done(v, w1, n1) =>
      if |es| == 1 then Done(v, w1, n1)
      else
        (match EvalSeq(bud, fuel, es[1..], loc, w1)
         case Done(v2, w2, n2) => Done(v2, w2, Max(n1, n2))
         case NotDone => NotDone)
    case NotDone => NotDone
  }
}
