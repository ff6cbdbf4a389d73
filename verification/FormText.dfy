/** Forms as trees of cells, and what a form does when it is evaluated only as far as the first
    subform that hands control back: which symbols it looks up and which names it defines. */
module FormText {
  import opened Tml
  import opened Exceptions

  /** The cells of a text, by their indices. */
  type Text = map<int, (int, int)>

  /** Words that are no pairs, and pairs. */
  datatype Tree = Leaf(v: int) | Node(car: Tree, cdr: Tree)

  /** Word `v` is the root of the tree. */
  ghost predicate Is(text: Text, v: int, t: Tree)
    decreases t
  {
    match t
    case Leaf(x) => v == x && !IsCons(v)
    case Node(a, d) =>
      && IsCons(v) && PtrIdx(v) in text
      && Is(text, text[PtrIdx(v)].0, a) && Is(text, text[PtrIdx(v)].1, d)
  }

  ghost predicate Holds(text: Text, w: World) {
    forall i :: i in text ==> 0 <= i < |w.cells| && w.cells[i] == text[i]
  }

  /** Evaluating such a word does nothing. */
  predicate Inert(v: int) { !IsCons(v) && !IsSymbol(v) }

  /** Reading through nil reads cell 0, in the source the first primitive, of which both words
      are fixnums. */
  ghost predicate NilReads(text: Text) {
    && 0 in text && Inert(text[0].0)
    && PtrIdx(text[0].1) in text && Inert(text[PtrIdx(text[0].1)].0)
  }

  // Effects

  datatype Effect = Look(sym: int) | Define(name: int)

  predicate LooksUpSymbols(es: seq<Effect>) { forall i :: 0 <= i < |es| && es[i].Look? ==> IsSymbol(es[i].sym) }

  /** The word of a leaf; 0, which is no symbol, stands for anything else. */
  function Word(t: Tree): int { if t.Leaf? then t.v else 0 }

  /** The chain of first evaluated subforms: it ends in a word, of which symbols are looked up,
      or in a form that evaluates nothing, of which `(define (f ..) ..)` and `defmacro` define. */
  function Effects(t: Tree): (es: seq<Effect>)
    ensures LooksUpSymbols(es)
    decreases t, 0
  {
    match t
    case Leaf(v) => if IsSymbol(v) && v != NIL_VAL && v != T_VAL then [Look(v)] else []
    case Node(head, args) =>
      if head == Leaf(QUOTE) || head == Leaf(LAMBDA) then []
      else if head == Leaf(DEFMACRO) then [Define(if args.Node? then Word(args.car) else 0)]
      else if head == Leaf(QUASIQUOTE) then if args.Node? then QuasiEffects(args.car) else []
      else if head == Leaf(IF) || head == Leaf(CATCH) || head == Leaf(BEGIN) then FirstEffects(args)
      else if head == Leaf(DEFINE) && args.Node? && args.car.Node? then [Define(Word(args.car.car))]
      else if head == Leaf(DEFINE) || head == Leaf(SET) then if args.Node? then FirstEffects(args.cdr) else []
      else Effects(head)
  }

  function FirstEffects(args: Tree): (es: seq<Effect>)
    ensures LooksUpSymbols(es)
    decreases args, 0
  {
    if args.Node? then Effects(args.car) else []
  }

  /** A template: all its unquoted parts, one after the other. */
  function QuasiEffects(t: Tree): (es: seq<Effect>)
    ensures LooksUpSymbols(es)
    decreases t, 1
  {
    if t.Leaf? then []
    else if t.car == Leaf(UNQUOTE) then FirstEffects(t.cdr)
    else PartsEffects(t)
  }

  function PartEffects(e: Tree): (es: seq<Effect>)
    ensures LooksUpSymbols(es)
    decreases e, 2
  {
    if e.Node? && e.car == Leaf(UNQUOTE_SPLICING) then FirstEffects(e.cdr) else QuasiEffects(e)
  }

  function PartsEffects(t: Tree): (es: seq<Effect>)
    ensures LooksUpSymbols(es)
    decreases t, 0
  {
    if t.Leaf? then [] else PartEffects(t.car) + PartsEffects(t.cdr)
  }

  // The unquoted expressions of a template, in the order they are evaluated

  /** The argument lists of the unquote forms. */
  function Unquotes(t: Tree): seq<Tree>
    decreases t, 1
  {
    if t.Leaf? then []
    else if t.car == Leaf(UNQUOTE) then [t.cdr]
    else PartsUnquotes(t)
  }

  function PartUnquotes(e: Tree): seq<Tree>
    decreases e, 2
  {
    if e.Node? && e.car == Leaf(UNQUOTE_SPLICING) then [e.cdr] else Unquotes(e)
  }

  function PartsUnquotes(t: Tree): seq<Tree>
    decreases t, 0
  {
    if t.Leaf? then [] else PartUnquotes(t.car) + PartsUnquotes(t.cdr)
  }

  /** What they do one after the other. */
  function AllEffects(args: seq<Tree>): (es: seq<Effect>)
    ensures LooksUpSymbols(es)
  {
    if args == [] then [] else FirstEffects(args[0]) + AllEffects(args[1..])
  }

  lemma {:induction false} AllEffectsAppend(a: seq<Tree>, b: seq<Tree>)
    ensures AllEffects(a + b) == AllEffects(a) + AllEffects(b)
    decreases |a|
  {
    hide FirstEffects;
    if a == [] {
      assert a + b == b;
    } else {
      assert (a + b)[1..] == a[1..] + b;
      AllEffectsAppend(a[1..], b);
    }
  }

  /** A template does what its unquoted expressions do. */
  lemma {:induction false} TemplateEffects(t: Tree)
    ensures QuasiEffects(t) == AllEffects(Unquotes(t)) && PartEffects(t) == AllEffects(PartUnquotes(t))
    ensures PartsEffects(t) == AllEffects(PartsUnquotes(t))
    decreases t
  {
    hide FirstEffects, LooksUpSymbols;
    if t.Node? {
      TemplateEffects(t.car);
      TemplateEffects(t.cdr);
      AllEffectsAppend(PartUnquotes(t.car), PartsUnquotes(t.cdr));
      assert AllEffects([t.cdr]) == FirstEffects(t.cdr) + AllEffects([]);
      assert AllEffects([]) == [];
    }
  }

  // Lists that are read on the way must be lists.

  predicate IsList(t: Tree) { t.Node? || t == Leaf(NIL_VAL) }

  predicate Legal(t: Tree)
    decreases t, 0
  {
    match t
    case Leaf(_) => true
    case Node(head, args) =>
      if head == Leaf(QUOTE) || head == Leaf(LAMBDA) then true
      else if head == Leaf(DEFMACRO) then IsList(args)
      else if head == Leaf(QUASIQUOTE) then IsList(args) && (args.Node? ==> LegalQuasi(args.car))
      else if head == Leaf(IF) || head == Leaf(CATCH) || head == Leaf(BEGIN) then LegalFirst(args)
      else if head == Leaf(DEFINE) && args.Node? && args.car.Node? then true
      else if head == Leaf(DEFINE) || head == Leaf(SET) then IsList(args) && (args.Node? ==> LegalFirst(args.cdr))
      else Legal(head)
  }

  predicate LegalFirst(args: Tree)
    decreases args, 0
  {
    IsList(args) && (args.Node? ==> Legal(args.car))
  }

  predicate LegalQuasi(t: Tree)
    decreases t, 1
  {
    if t.Leaf? then true
    else if t.car == Leaf(UNQUOTE) then LegalFirst(t.cdr)
    else LegalParts(t)
  }

  predicate LegalPart(e: Tree)
    decreases e, 2
  {
    if e.Node? && e.car == Leaf(UNQUOTE_SPLICING) then LegalFirst(e.cdr) else LegalQuasi(e)
  }

  predicate LegalParts(t: Tree)
    decreases t, 0
  {
    t.Leaf? || (LegalPart(t.car) && LegalParts(t.cdr))
  }

  /** Every list ends in nil. */
  predicate Proper(t: Tree) { t.Leaf? || (Proper(t.car) && IsList(t.cdr) && Proper(t.cdr)) }

  lemma {:induction false} ProperLegal(t: Tree)
    requires Proper(t)
    ensures Legal(t) && LegalQuasi(t) && LegalPart(t) && LegalParts(t) && (IsList(t) ==> LegalFirst(t))
    decreases t
  {
    if t.Node? {
      ProperLegal(t.car);
      ProperLegal(t.cdr);
      if t.cdr.Node? {
        ProperLegal(t.cdr.car);
        ProperLegal(t.cdr.cdr);
      }
    }
  }
}
