/** S-expressions as text: what read.h makes of a character string and what print.h writes,
    and that reading takes back what was written. Symbols are told apart by their names. */
module LispText {
  import opened Words24

  datatype Datum = Int(n: fixnum) | Name(s: string) | Str(s: string) | Pair(car: Datum, cdr: Datum)

  const NIL: Datum := Name("nil")

  // Characters

  /** The string ends in a zero. */
  function Ch(text: string, i: nat): char { if i < |text| then text[i] else '\0' }

  predicate IsSpace(c: char) { c == ' ' || c == '\n' || c == '\t' || c == '\r' }
  predicate IsDigit(c: char) { '0' <= c <= '9' }

  predicate IsSymChar(c: char) {
    c != '\0' && !IsSpace(c) && c != '(' && c != ')' && c != '\'' && c != '`' && c != ',' && c != '.'
  }

  function DigitChar(d: nat): char
    requires d < 10
  {
    "0123456789"[d]
  }

  /** Hexadecimal digit, -1 for anything else. */
  function HexDigit(c: char): (d: int)
    ensures -1 <= d < 16
  {
    if '0' <= c <= '9' then c as int - '0' as int
    else if 'a' <= c <= 'f' then c as int - 'a' as int + 10
    else if 'A' <= c <= 'F' then c as int - 'A' as int + 10
    else -1
  }

  // Printing

  /** print_int. */
  function Digits(n: nat): string {
    if n == 0 then "" else Digits(n / 10) + [DigitChar(n % 10)]
  }

  function IntText(n: int): string {
    if n == 0 then "0" else if n < 0 then "-" + Digits(-n) else Digits(n)
  }

  function Escaped(c: char): string {
    if c == '\n' then "\\n" else if c == '"' then "\\\"" else if c == '\\' then "\\\\" else [c]
  }

  function Escape(s: string): string {
    if s == "" then "" else Escape(s[..|s| - 1]) + Escaped(s[|s| - 1])
  }

  /** print_val. */
  function Print(d: Datum): string
    decreases d, 0
  {
    match d
    case Int(n) => IntText(n)
    case Name(s) => s
    case Str(s) => "\"" + Escape(s) + "\""
    case Pair(a, b) => "(" + Print(a) + PrintRest(b)
  }

  /** print_list behind an element. */
  function PrintRest(d: Datum): string
    decreases d, 1
  {
    if d.Pair? then " " + Print(d.car) + PrintRest(d.cdr)
    else if d == NIL then ")"
    else " . " + Print(d) + ")"
  }

  // Reading

  datatype Parsed = Parsed(d: Datum, pos: nat)

  function LineEnd(text: string, pos: nat): (q: nat)
    ensures q >= pos && (pos <= |text| ==> q <= |text|)
    ensures Ch(text, pos) != '\0' && Ch(text, pos) != '\n' ==> q > pos
    decreases |text| - pos
  {
    if Ch(text, pos) == '\0' || Ch(text, pos) == '\n' then pos else LineEnd(text, pos + 1)
  }

  /** skip_whitespace, comments included. */
  function Skip(text: string, pos: nat): (q: nat)
    ensures q >= pos && (pos <= |text| ==> q <= |text|)
    ensures !IsSpace(Ch(text, q)) && Ch(text, q) != ';'
    decreases |text| - pos
  {
    if IsSpace(Ch(text, pos)) then Skip(text, pos + 1)
    else if Ch(text, pos) == ';' then Skip(text, LineEnd(text, pos))
    else pos
  }

  /** The digits from `pos` on, appended to the number `n`. */
  function Number(text: string, pos: nat, n: nat): (r: (nat, nat))
    ensures r.1 >= pos && (IsDigit(Ch(text, pos)) ==> r.1 > pos)
    decreases |text| - pos
  {
    if IsDigit(Ch(text, pos)) then Number(text, pos + 1, 10 * n + (Ch(text, pos) as int - '0' as int))
    else (n, pos)
  }

  function HexNumber(text: string, pos: nat, n: nat): (r: (nat, nat))
    ensures r.1 >= pos
    decreases |text| - pos
  {
    if HexDigit(Ch(text, pos)) >= 0 then HexNumber(text, pos + 1, 16 * n + HexDigit(Ch(text, pos)))
    else (n, pos)
  }

  function ReadInt(text: string, pos: nat): (r: Parsed)
    requires IsDigit(Ch(text, pos)) || (Ch(text, pos) == '-' && IsDigit(Ch(text, pos + 1)))
    ensures r.pos > pos
  {
    if Ch(text, pos) == '-' then
      var r := Number(text, pos + 1, 0);
      Parsed(Int(Fold(0 - r.0)), r.1)
    else
      var r := Number(text, pos, 0);
      Parsed(Int(Fold(r.0)), r.1)
  }

  /** The end of a symbol that has `i` characters already; 63 fit the buffer. */
  function SymbolEnd(text: string, pos: nat, i: nat): (q: nat)
    ensures q >= pos && (pos <= |text| ==> q <= |text|)
    ensures IsSymChar(Ch(text, pos)) && i < 63 ==> q > pos
    decreases |text| - pos
  {
    if IsSymChar(Ch(text, pos)) && i < 63 then SymbolEnd(text, pos + 1, i + 1) else pos
  }

  function Unescaped(c: char): char {
    if c == 'n' then '\n' else if c == 'r' then '\r' else if c == 't' then '\t' else c
  }

  /** The rest of a string literal behind the characters `s`; 119 fit the buffer. */
  function StringBody(text: string, pos: nat, s: string): (r: (string, nat))
    ensures r.1 >= pos
    decreases |text| - pos
  {
    if Ch(text, pos) == '\0' || Ch(text, pos) == '"' || |s| >= 119 then (s, pos)
    else if Ch(text, pos) == '\\' then
      if pos + 1 < |text| then StringBody(text, pos + 2, s + [Unescaped(text[pos + 1])])
      else (s + ['\0'], pos + 2)
    else StringBody(text, pos + 1, s + [text[pos]])
  }

  function ReadString(text: string, pos: nat): (r: Parsed)
    ensures r.pos > pos
  {
    var r := StringBody(text, pos + 1, "");
    Parsed(Str(r.0), if Ch(text, r.1) == '"' then r.1 + 1 else r.1)
  }

  function Quoted(name: string, r: Parsed): Parsed {
    Parsed(Pair(Name(name), Pair(r.d, NIL)), r.pos)
  }

  /** Where read_expr may stay without taking a character. */
  predicate Stuck(c: char) { c == '\0' || c == ')' || c == '.' }

  /** read_expr. */
  function ReadExpr(text: string, pos: nat): (r: Parsed)
    ensures r.pos >= pos
    ensures !Stuck(Ch(text, Skip(text, pos))) ==> r.pos > pos
    decreases |text| - pos, 1
  {
    var p := Skip(text, pos);
    var c := Ch(text, p);
    var next := Ch(text, p + 1);
    if c == '"' then ReadString(text, p)
    else if c == '(' then ReadList(text, p)
    else if c == '\'' then Quoted("quote", ReadExpr(text, p + 1))
    else if c == '`' then Quoted("quasiquote", ReadExpr(text, p + 1))
    else if c == ',' then
      if next == '@' then Quoted("unquote-splicing", ReadExpr(text, p + 2))
      else Quoted("unquote", ReadExpr(text, p + 1))
    else if c == '#' && next == 'x' then
      var r := HexNumber(text, p + 2, 0);
      Parsed(Int(Fold(r.0)), r.1)
    else if c == '#' && next == 't' then Parsed(Name("t"), p + 2)
    else if c == '#' && next == 'f' then Parsed(NIL, p + 2)
    else if c == '#' && next == '_' then ReadExpr(text, ReadExpr(text, p + 2).pos)
    else if IsDigit(c) || (c == '-' && IsDigit(next)) then ReadInt(text, p)
    else if c != '\0' && c != ')' then
      var q := SymbolEnd(text, p, 0);
      Parsed(Name(text[p..q]), q)
    else Parsed(NIL, p)
  }

  /** read_list, at its parenthesis. */
  function ReadList(text: string, pos: nat): (r: Parsed)
    requires pos < |text|
    ensures r.pos > pos
    decreases |text| - pos, 0
  {
    var p := Skip(text, pos + 1);
    if Ch(text, p) == ')' then Parsed(NIL, p + 1)
    else
      var first := ReadExpr(text, p);
      var rest := ReadRest(text, first.pos);
      Parsed(Pair(first.d, rest.d), rest.pos)
  }

  /** The list behind an element: a dot and a last value, the end, or more elements. */
  function ReadRest(text: string, pos: nat): (r: Parsed)
    ensures r.pos >= pos
    decreases |text| - pos, 2
  {
    var p := Skip(text, pos);
    var c := Ch(text, p);
    if c == '.' then
      var last := ReadExpr(text, Skip(text, p + 1));
      var q := Skip(text, last.pos);
      Parsed(last.d, if Ch(text, q) == ')' then q + 1 else q)
    else if c == '\0' then Parsed(NIL, p)
    else if c == ')' then Parsed(NIL, p + 1)
    else
      var elem := ReadExpr(text, p);
      var rest := ReadRest(text, elem.pos);
      Parsed(Pair(elem.d, rest.d), rest.pos)
  }
}
