/** What the reader makes of texts that the printer never writes: numbers in any decimal or
    hexadecimal spelling, the short forms of quoting, booleans, escapes, comments. */
module ReadLaws {
  import opened Numerals
  import opened LispText
  import opened ReadPrint
  import opened Words24

  // Decimal numbers

  /** print_int writes the decimal text of the number, without a zero in front. */
  lemma {:induction false} DigitsDecimal(n: nat)
    ensures Decimal(Digits(n), n) && (n > 0 ==> Digits(n) != "" && Digits(n)[0] != '0')
    decreases n
  {
    if n > 0 {
      DigitsDecimal(n / 10);
      assert Digits(n)[..|Digits(n)| - 1] == Digits(n / 10);
    }
  }

  lemma IntDecimal(n: int)
    ensures n > 0 ==> Decimal(IntText(n), n) && IntText(n)[0] != '0'
    ensures n == 0 ==> IntText(n) == "0"
    ensures n < 0 ==> IntText(n) == "-" + IntText(-n)
  {
    if n > 0 {
      DigitsDecimal(n);
    }
  }

  lemma {:induction false} DecimalOver(text: string, pos: nat, s: string, n: nat)
    requires Decimal(s, n) && TextAt(text, pos, s)
    ensures Number(text, pos, 0) == Number(text, pos + |s|, n)
    ensures s != "" ==> IsDigit(s[0])
    decreases |s|
  {
    if s != "" {
      var k := |s| - 1;
      assert s == s[..k] + [s[k]];
      TextSplit(text, pos, s[..k], [s[k]]);
      DecimalOver(text, pos, s[..k], n / 10);
      ChAt(text, pos, s, k);
    }
  }

  /** A decimal text, with or without a minus sign, reads as the number, folded into 22 bits, and
      exactly this text is consumed. */
  lemma DecimalReads(text: string, pos: nat, s: string, n: nat)
    requires s != "" && Decimal(s, n)
    ensures TextAt(text, pos, s) && !IsDigit(Ch(text, pos + |s|)) ==>
              ReadExpr(text, pos) == Parsed(Int(Fold(n)), pos + |s|)
    ensures TextAt(text, pos, "-" + s) && !IsDigit(Ch(text, pos + 1 + |s|)) ==>
              ReadExpr(text, pos) == Parsed(Int(Fold(0 - n)), pos + 1 + |s|)
  {
    hide ReadExpr, Decimal, TextAt, Ch, Fold;
    if TextAt(text, pos, s) && !IsDigit(Ch(text, pos + |s|)) {
      DecimalOver(text, pos, s, n);
      ChAt(text, pos, s, 0);
      ExprInt(text, pos);
    }
    if TextAt(text, pos, "-" + s) && !IsDigit(Ch(text, pos + 1 + |s|)) {
      TextSplit(text, pos, "-", s);
      ChAt(text, pos, "-", 0);
      DecimalOver(text, pos + 1, s, n);
      ChAt(text, pos + 1, s, 0);
      ExprInt(text, pos);
    }
  }

  // Hexadecimal numbers

  lemma DigitIs(d: nat)
    requires d < 16
    ensures HexDigit(LOWER[d]) == d && HexDigit(UPPER[d]) == d
  {
  }

  lemma NoDigit(c: char)
    requires c !in LOWER && c !in UPPER
    ensures HexDigit(c) < 0
  {
    forall d | 0 <= d < 16 ensures c != LOWER[d] && c != UPPER[d] {
      assert LOWER[d] in LOWER && UPPER[d] in UPPER;
    }
  }

  lemma {:induction false} HexOver(text: string, pos: nat, s: string, n: nat)
    requires Spells(s, n) && TextAt(text, pos, s)
    ensures HexNumber(text, pos, 0) == HexNumber(text, pos + |s|, n)
    decreases |s|
  {
    hide HexDigit;
    if s != "" {
      var k := |s| - 1;
      assert s == s[..k] + [s[k]];
      TextSplit(text, pos, s[..k], [s[k]]);
      HexOver(text, pos, s[..k], n / 16);
      ChAt(text, pos, s, k);
      DigitIs(n % 16);
    }
  }

  lemma HashReads(text: string, pos: nat)
    requires Ch(text, pos) == '#'
    ensures Ch(text, pos + 1) == 'x' ==>
              ReadExpr(text, pos) == var r := HexNumber(text, pos + 2, 0); Parsed(Int(Fold(r.0)), r.1)
    ensures Ch(text, pos + 1) == 't' ==> ReadExpr(text, pos) == Parsed(Name("t"), pos + 2)
    ensures Ch(text, pos + 1) == 'f' ==> ReadExpr(text, pos) == Parsed(Name("nil"), pos + 2)
    ensures Ch(text, pos + 1) == '_' ==> ReadExpr(text, pos) == ReadExpr(text, ReadExpr(text, pos + 2).pos)
  {
    hide HexNumber, SymbolEnd;
    SkipNone(text, pos);
  }

  lemma HexEnds(text: string, pos: nat, n: nat)
    requires Ch(text, pos) !in LOWER && Ch(text, pos) !in UPPER
    ensures HexNumber(text, pos, n) == (n, pos)
  {
    hide HexDigit;
    NoDigit(Ch(text, pos));
  }

  /** `#x` and a hexadecimal text of the number read as the number, folded into 22 bits, and
      exactly this text is consumed. */
  lemma HexReads(text: string, pos: nat, s: string, n: nat)
    requires Spells(s, n) && TextAt(text, pos, "#x" + s)
    requires Ch(text, pos + 2 + |s|) !in LOWER && Ch(text, pos + 2 + |s|) !in UPPER
    ensures ReadExpr(text, pos) == Parsed(Int(Fold(n)), pos + 2 + |s|)
  {
    hide HexDigit, HexNumber, ReadExpr, TextAt, Fold, Ch, Spells;
    HexAt(text, pos, s);
    HashReads(text, pos);
    HexOver(text, pos + 2, s, n);
    HexEnds(text, pos + 2 + |s|, n);
  }

  lemma HexAt(text: string, pos: nat, s: string)
    requires TextAt(text, pos, "#x" + s)
    ensures Ch(text, pos) == '#' && Ch(text, pos + 1) == 'x' && TextAt(text, pos + 2, s)
  {
    hide TextAt, Ch;
    var all := "#x" + s;
    ChAt(text, pos, all, 0);
    ChAt(text, pos, all, 1);
    TextSplit(text, pos, "#x", s);
  }

  // Names

  /** The characters that end a name: the end of the text, white space, parentheses, the marks of
      quoting and the dot. */
  const ENDS := "\0 \n\t\r()'`,."

  lemma NameChar(c: char)
    ensures IsSymChar(c) <==> c !in ENDS
  {
    assert ENDS[0] == '\0' && ENDS[1] == ' ' && ENDS[2] == '\n' && ENDS[3] == '\t' && ENDS[4] == '\r';
    assert ENDS[5] == '(' && ENDS[6] == ')' && ENDS[7] == '\'' && ENDS[8] == '`' && ENDS[9] == ',' && ENDS[10] == '.';
  }

  /** A text of up to 63 other characters, up to one of these, reads as the symbol of that name, if it
      does not start like a number, a string, a comment or a special constant. */
  lemma NameReadsWhole(text: string, pos: nat, s: string)
    requires 0 < |s| <= 63 && TextAt(text, pos, s) && Ch(text, pos + |s|) in ENDS
    requires forall i :: 0 <= i < |s| ==> s[i] !in ENDS
    requires s[0] !in DIGITS && s[0] !in "\";#" && (s[0] == '-' && |s| > 1 ==> s[1] !in DIGITS)
    ensures ReadExpr(text, pos) == Parsed(Name(s), pos + |s|)
  {
    hide ReadExpr, TextAt, Ch, IsSymChar;
    NameChar(Ch(text, pos + |s|));
    forall i | 0 <= i < |s| ensures IsSymChar(s[i]) {
      NameChar(s[i]);
    }
    DecimalDigit(s[0]);
    DecimalDigit(if |s| > 1 then s[1] else s[0]);
    assert "\";#"[0] == '"' && "\";#"[1] == ';' && "\";#"[2] == '#';
    NameReads(text, pos, s);
  }

  lemma DecimalDigit(c: char)
    ensures IsDigit(c) <==> c in DIGITS
  {
    if IsDigit(c) {
      assert DIGITS[c as int - '0' as int] == c;
    }
  }

  // Booleans

  lemma TrueReads(text: string, pos: nat)
    requires TextAt(text, pos, "#t")
    ensures ReadExpr(text, pos) == Parsed(Name("t"), pos + 2)
  {
    ChAt(text, pos, "#t", 0);
    ChAt(text, pos, "#t", 1);
    HashReads(text, pos);
  }

  lemma FalseReads(text: string, pos: nat)
    requires TextAt(text, pos, "#f")
    ensures ReadExpr(text, pos) == Parsed(Name("nil"), pos + 2)
  {
    ChAt(text, pos, "#f", 0);
    ChAt(text, pos, "#f", 1);
    HashReads(text, pos);
  }

  // The short forms of quoting

  /** The name of the form a prefix stands for. */
  predicate Shorthand(prefix: string, name: string) {
    || (prefix == "'" && name == "quote") || (prefix == "`" && name == "quasiquote")
    || (prefix == "," && name == "unquote") || (prefix == ",@" && name == "unquote-splicing")
  }

  lemma PrefixReads(text: string, pos: nat, prefix: string, name: string)
    requires Shorthand(prefix, name) && TextAt(text, pos, prefix)
    requires prefix == "," ==> Ch(text, pos + 1) != '@'
    ensures ReadExpr(text, pos) == Quoted(name, ReadExpr(text, pos + |prefix|))
  {
    ChAt(text, pos, prefix, 0);
    if prefix == ",@" {
      ChAt(text, pos, prefix, 1);
    }
    hide HexNumber, SymbolEnd, ReadString, ReadInt, ReadList;
    SkipNone(text, pos);
  }

  /** A prefix in front of the text of a value reads as the long form with that value does. */
  lemma ShortReads(text: string, pos: nat, prefix: string, name: string, d: Datum)
    requires Shorthand(prefix, name) && Readable(d) && TextAt(text, pos, prefix + Print(d))
    requires Delim(text, pos + |prefix| + |Print(d)|) && (prefix == "," ==> Print(d)[..1] != "@")
    ensures var long := Pair(Name(name), Pair(d, NIL));
      && ReadExpr(text, pos) == Parsed(long, pos + |prefix| + |Print(d)|)
      && Readable(long) && ReadExpr(Print(long), 0) == Parsed(long, |Print(long)|)
  {
    hide ReadExpr, Print;
    TextSplit(text, pos, prefix, Print(d));
    PrintStarts(d);
    if prefix == "," {
      ChAt(text, pos + 1, Print(d), 0);
    }
    PrefixReads(text, pos, prefix, name);
    Reads(text, pos + |prefix|, d);
    LongReadable(name, d);
    RoundTrip(Pair(Name(name), Pair(d, NIL)));
  }

  lemma LongReadable(name: string, d: Datum)
    requires name in ["quote", "quasiquote", "unquote", "unquote-splicing"] && Readable(d)
    ensures Readable(Pair(Name(name), Pair(d, NIL)))
  {
    assert ReadableName(name);
    assert ReadableName("nil");
  }

  // String literals

  /** A character of a literal, as it stands or behind a backslash. */
  datatype Piece = Plain(c: char) | Escaped(c: char)

  /** Newline, carriage return and tab have letters of their own. */
  function Meant(p: Piece): char {
    match p
    case Plain(c) => c
    case Escaped(c) =>
      if c == 'n' then 10 as char else if c == 'r' then 13 as char else if c == 't' then 9 as char else c
  }

  function Source(ps: seq<Piece>): string {
    if ps == [] then ""
    else
      var p := ps[|ps| - 1];
      Source(ps[..|ps| - 1]) + if p.Plain? then [p.c] else ['\\', p.c]
  }

  function Meanings(ps: seq<Piece>): (s: string)
    ensures |s| == |ps|
  {
    if ps == [] then "" else Meanings(ps[..|ps| - 1]) + [Meant(ps[|ps| - 1])]
  }

  /** A plain character ends neither the literal nor the text and escapes nothing. */
  predicate Proper(ps: seq<Piece>) {
    forall i :: 0 <= i < |ps| && ps[i].Plain? ==> ps[i].c != '"' && ps[i].c != '\\' && ps[i].c != '\0'
  }

  lemma {:induction false} BodyOver(text: string, pos: nat, ps: seq<Piece>)
    requires Proper(ps) && |ps| <= 119 && TextAt(text, pos, Source(ps))
    ensures StringBody(text, pos, "") == StringBody(text, pos + |Source(ps)|, Meanings(ps))
    decreases |ps|
  {
    if ps != [] {
      var k := |ps| - 1;
      var p := ps[k];
      var last := if p.Plain? then [p.c] else ['\\', p.c];
      TextSplit(text, pos, Source(ps[..k]), last);
      BodyOver(text, pos, ps[..k]);
      var q := pos + |Source(ps[..k])|;
      ChAt(text, q, last, 0);
      if p.Escaped? {
        ChAt(text, q, last, 1);
      }
      PieceOver(text, q, Meanings(ps[..k]), p);
    }
  }

  lemma PieceOver(text: string, pos: nat, s: string, p: Piece)
    requires |s| < 119 && TextAt(text, pos, if p.Plain? then [p.c] else ['\\', p.c])
    requires p.Plain? ==> p.c != '"' && p.c != '\\' && p.c != '\0'
    ensures StringBody(text, pos, s)
         == StringBody(text, pos + if p.Plain? then 1 else 2, s + [Meant(p)])
  {
    var chars := if p.Plain? then [p.c] else ['\\', p.c];
    ChAt(text, pos, chars, 0);
    if p.Escaped? {
      ChAt(text, pos, chars, 1);
      assert pos + 1 < |text| && text[pos + 1] == p.c;
      assert Unescaped(p.c) == Meant(p);
    }
  }

  /** A literal of up to 119 characters reads as the string it means. */
  lemma LiteralReads(text: string, pos: nat, ps: seq<Piece>)
    requires Proper(ps) && |ps| <= 119 && TextAt(text, pos, "\"" + Source(ps) + "\"")
    ensures ReadExpr(text, pos) == Parsed(Str(Meanings(ps)), pos + |Source(ps)| + 2)
  {
    hide StringBody;
    ThreeParts(text, pos, '"', Source(ps), "\"");
    ExprString(text, pos);
    BodyOver(text, pos + 1, ps);
    var q := pos + 1 + |Source(ps)|;
    ChAt(text, q, "\"", 0);
    BodyEnds(text, q, Meanings(ps));
  }

  lemma BodyEnds(text: string, pos: nat, s: string)
    requires Ch(text, pos) == '"'
    ensures StringBody(text, pos, s) == (s, pos)
  {
  }

  // Comments and white space

  lemma {:induction false} LineOver(text: string, pos: nat, s: string)
    requires TextAt(text, pos, s) && '\n' !in s && '\0' !in s && Ch(text, pos + |s|) == '\n'
    ensures LineEnd(text, pos) == pos + |s|
    decreases |s|
  {
    if s != "" {
      ChAt(text, pos, s, 0);
      assert s == [s[0]] + s[1..];
      TextSplit(text, pos, [s[0]], s[1..]);
      LineOver(text, pos + 1, s[1..]);
    }
  }

  /** A comment up to the end of its line reads as nothing. */
  lemma CommentReads(text: string, pos: nat, s: string)
    requires TextAt(text, pos, ";" + s + "\n") && '\n' !in s && '\0' !in s
    ensures ReadExpr(text, pos) == ReadExpr(text, pos + |s| + 2)
  {
    hide ReadExpr;
    ThreeParts(text, pos, ';', s, "\n");
    ChAt(text, pos + 1 + |s|, "\n", 0);
    LineOver(text, pos + 1, s);
    SkippedReads(text, pos, pos + |s| + 2) by {
      assert LineEnd(text, pos) == pos + 1 + |s|;
      assert Skip(text, pos) == Skip(text, pos + 1 + |s|);
    }
  }

  /** So do blanks, tabs and the ends of lines. */
  lemma SpaceReads(text: string, pos: nat)
    requires Ch(text, pos) as int in {9, 10, 13, 32}
    ensures ReadExpr(text, pos) == ReadExpr(text, pos + 1)
  {
    hide ReadExpr;
    assert IsSpace(Ch(text, pos));
    SkippedReads(text, pos, pos + 1);
  }

  lemma SkippedReads(text: string, pos: nat, q: nat)
    requires Skip(text, pos) == Skip(text, q)
    ensures ReadExpr(text, pos) == ReadExpr(text, q)
  {
    hide Skip, HexNumber, SymbolEnd, ReadString, ReadInt, ReadList;
  }

  /** `#_` and the text of a value read as nothing. */
  lemma DatumCommentReads(text: string, pos: nat, d: Datum)
    requires Readable(d) && TextAt(text, pos, "#_" + Print(d)) && Delim(text, pos + 2 + |Print(d)|)
    ensures ReadExpr(text, pos) == ReadExpr(text, pos + 2 + |Print(d)|)
  {
    hide ReadExpr, Print, TextAt, Ch;
    var all := "#_" + Print(d);
    ChAt(text, pos, all, 0);
    ChAt(text, pos, all, 1);
    HashReads(text, pos);
    TextSplit(text, pos, "#_", Print(d));
    Reads(text, pos + 2, d);
  }
}
