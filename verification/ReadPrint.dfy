/** Reading takes back what printing wrote. */
module ReadPrint {
  import opened Words24
  import opened LispText

  /** Names that print as themselves and read back as symbols. */
  predicate ReadableName(s: string) {
    && 0 < |s| <= 63
    && (forall i :: 0 <= i < |s| ==> IsSymChar(s[i]))
    && s[0] != '"' && s[0] != ';' && !IsDigit(s[0])
    && (s[0] == '-' && |s| > 1 ==> !IsDigit(s[1]))
    && (s[0] == '#' && |s| > 1 ==> s[1] != 'x' && s[1] != 't' && s[1] != 'f' && s[1] != '_')
  }

  /** Any fixnum, readable names, strings that fit the buffer, and lists of these, proper or
      dotted. */
  predicate Readable(d: Datum) {
    match d
    case Int(_) => true
    case Name(s) => ReadableName(s)
    case Str(s) => |s| <= 119 && '\0' !in s
    case Pair(a, b) => Readable(a) && Readable(b)
  }

  /** The text at `pos` starts with `s`. */
  predicate TextAt(text: string, pos: nat, s: string) {
    pos + |s| <= |text| && text[pos..pos + |s|] == s
  }

  /** No symbol character at `pos`. */
  predicate Delim(text: string, pos: nat) { !IsSymChar(Ch(text, pos)) }

  lemma ChAt(text: string, pos: nat, s: string, i: nat)
    requires TextAt(text, pos, s) && i < |s|
    ensures Ch(text, pos + i) == s[i]
  {
    assert text[pos..pos + |s|][i] == text[pos + i];
  }

  lemma TextSplit(text: string, pos: nat, a: string, b: string)
    requires TextAt(text, pos, a + b)
    ensures TextAt(text, pos, a) && TextAt(text, pos + |a|, b)
  {
    assert a == (a + b)[..|a|] && b == (a + b)[|a|..];
  }

  /** A character, a value and the rest behind it, whatever their texts. */
  lemma ThreeParts(text: string, pos: nat, c: char, a: string, b: string)
    requires TextAt(text, pos, [c] + a + b)
    ensures Ch(text, pos) == c && TextAt(text, pos + 1, a) && TextAt(text, pos + 1 + |a|, b)
  {
    hide TextAt, Ch;
    assert [c] + a + b == [c] + (a + b);
    TextSplit(text, pos, [c], a + b);
    TextSplit(text, pos + 1, a, b);
    ChAt(text, pos, [c], 0);
  }

  // Single steps of the reader

  lemma SkipNone(text: string, pos: nat)
    requires !IsSpace(Ch(text, pos)) && Ch(text, pos) != ';'
    ensures Skip(text, pos) == pos
  {
  }

  lemma SkipSpace(text: string, pos: nat)
    requires Ch(text, pos) == ' '
    ensures Skip(text, pos) == Skip(text, pos + 1)
  {
  }

  lemma ExprInt(text: string, pos: nat)
    requires IsDigit(Ch(text, pos)) || (Ch(text, pos) == '-' && IsDigit(Ch(text, pos + 1)))
    ensures ReadExpr(text, pos) == ReadInt(text, pos)
  {
    SkipNone(text, pos);
  }

  lemma ExprString(text: string, pos: nat)
    requires Ch(text, pos) == '"'
    ensures ReadExpr(text, pos) == ReadString(text, pos)
  {
    SkipNone(text, pos);
  }

  lemma ExprList(text: string, pos: nat)
    requires Ch(text, pos) == '('
    ensures pos < |text| && ReadExpr(text, pos) == ReadList(text, pos)
  {
    SkipNone(text, pos);
  }

  // Numbers

  predicate AllDigits(s: string) { forall i :: 0 <= i < |s| ==> IsDigit(s[i]) }

  function Accumulate(s: string, n: nat): nat
    requires AllDigits(s)
  {
    if s == "" then n else 10 * Accumulate(s[..|s| - 1], n) + (s[|s| - 1] as int - '0' as int)
  }

  lemma {:induction false} DigitsAre(n: nat)
    ensures AllDigits(Digits(n)) && Accumulate(Digits(n), 0) == n && (n > 0 ==> Digits(n) != "")
  {
    if n > 0 {
      DigitsAre(n / 10);
      assert Digits(n)[..|Digits(n)| - 1] == Digits(n / 10);
    }
  }

  lemma {:induction false} NumberOver(text: string, pos: nat, s: string, n: nat)
    requires AllDigits(s) && TextAt(text, pos, s)
    ensures Number(text, pos, n) == Number(text, pos + |s|, Accumulate(s, n))
    decreases |s|
  {
    if s != "" {
      var k := |s| - 1;
      assert s == s[..k] + [s[k]];
      TextSplit(text, pos, s[..k], [s[k]]);
      NumberOver(text, pos, s[..k], n);
      ChAt(text, pos, s, k);
    }
  }

  lemma DigitsRead(text: string, pos: nat, n: nat)
    requires n > 0 && TextAt(text, pos, Digits(n)) && Delim(text, pos + |Digits(n)|)
    ensures Number(text, pos, 0) == (n, pos + |Digits(n)|) && IsDigit(Ch(text, pos))
  {
    DigitsAre(n);
    NumberOver(text, pos, Digits(n), 0);
    ChAt(text, pos, Digits(n), 0);
  }

  lemma IntReads(text: string, pos: nat, n: fixnum)
    requires TextAt(text, pos, IntText(n)) && Delim(text, pos + |IntText(n)|)
    ensures ReadExpr(text, pos) == Parsed(Int(n), pos + |IntText(n)|)
  {
    hide ReadExpr, Digits, TextAt, Skip, Ch;
    if n == 0 {
      ChAt(text, pos, "0", 0);
      ExprInt(text, pos);
      ZeroReads(text, pos);
    } else if n < 0 {
      assert IntText(n) == "-" + Digits(0 - n);
      TextSplit(text, pos, "-", Digits(0 - n));
      ChAt(text, pos, "-", 0);
      DigitsRead(text, pos + 1, 0 - n);
      ExprInt(text, pos);
    } else {
      DigitsRead(text, pos, n);
      ExprInt(text, pos);
    }
  }

  lemma ZeroReads(text: string, pos: nat)
    requires Ch(text, pos) == '0' && Delim(text, pos + 1)
    ensures Number(text, pos, 0) == (0, pos + 1)
  {
    assert Number(text, pos, 0) == Number(text, pos + 1, 0);
  }

  // Symbols and strings

  lemma {:induction false} SymbolReads(text: string, pos: nat, s: string, i: nat)
    requires ReadableName(s) && TextAt(text, pos, s) && Delim(text, pos + |s|) && i <= |s|
    ensures SymbolEnd(text, pos + i, i) == pos + |s|
    decreases |s| - i
  {
    if i < |s| {
      ChAt(text, pos, s, i);
      SymbolReads(text, pos, s, i + 1);
    }
  }

  lemma NameReads(text: string, pos: nat, s: string)
    requires ReadableName(s) && TextAt(text, pos, s) && Delim(text, pos + |s|)
    ensures ReadExpr(text, pos) == Parsed(Name(s), pos + |s|)
  {
    ChAt(text, pos, s, 0);
    if |s| > 1 {
      ChAt(text, pos, s, 1);
    }
    SymbolReads(text, pos, s, 0);
  }

  /** One printed character of a string. */
  lemma CharReads(text: string, pos: nat, s: string, c: char)
    requires |s| < 119 && c != '\0' && TextAt(text, pos, Escaped(c))
    ensures StringBody(text, pos, s) == StringBody(text, pos + |Escaped(c)|, s + [c])
  {
    ChAt(text, pos, Escaped(c), 0);
    if |Escaped(c)| > 1 {
      ChAt(text, pos, Escaped(c), 1);
    }
  }

  lemma EscapeLast(s: string, k: nat)
    requires |s| == k + 1
    ensures Escape(s) == Escape(s[..k]) + Escaped(s[k])
  {
    hide Escaped;
  }

  /** The characters of `s` one by one, behind those before `k`. */
  lemma {:induction false} StringOver(text: string, pos: nat, s: string, k: nat)
    requires k <= |s| <= 119 && '\0' !in s && TextAt(text, pos, Escape(s[..k]))
    ensures StringBody(text, pos, "") == StringBody(text, pos + |Escape(s[..k])|, s[..k])
    decreases k
  {
    hide StringBody, TextAt, Escape, Escaped;
    if k == 0 {
      EscapeNone(s[..k]);
    } else {
      var a, b, c := s[..k - 1], s[..k], s[k - 1];
      TakeOne(s, k);
      EscapeLast(b, k - 1);
      TextSplit(text, pos, Escape(a), Escaped(c));
      StringOver(text, pos, s, k - 1);
      CharReads(text, pos + |Escape(a)|, a, c);
    }
  }

  lemma EscapeNone(s: string)
    requires s == ""
    ensures Escape(s) == ""
  {
  }

  lemma TakeOne(s: string, k: nat)
    requires 0 < k <= |s|
    ensures s[..k][..k - 1] == s[..k - 1] && s[..k][k - 1] == s[k - 1] && s[..k] == s[..k - 1] + [s[k - 1]]
  {
  }

  lemma StringReads(text: string, pos: nat, s: string)
    requires |s| <= 119 && '\0' !in s && TextAt(text, pos, "\"" + Escape(s) + "\"")
    ensures ReadExpr(text, pos) == Parsed(Str(s), pos + |Escape(s)| + 2)
  {
    hide ReadExpr, TextAt, Escape, Skip, Ch;
    ThreeParts(text, pos, '"', Escape(s), "\"");
    ChAt(text, pos + 1 + |Escape(s)|, "\"", 0);
    assert s[..|s|] == s;
    StringOver(text, pos + 1, s, |s|);
    ExprString(text, pos);
  }

  // Lists

  /** Printed text starts with a character that is neither skipped nor an end of list. */
  lemma PrintStarts(d: Datum)
    requires Readable(d)
    ensures Print(d) != "" && var c := Print(d)[0]; !IsSpace(c) && c != ';' && !Stuck(c)
  {
    if d.Int? && d.n != 0 {
      DigitsAre(if d.n < 0 then 0 - d.n else d.n);
    }
  }

  lemma SolidAt(text: string, pos: nat, d: Datum)
    requires Readable(d) && TextAt(text, pos, Print(d))
    ensures Skip(text, pos) == pos && !Stuck(Ch(text, pos))
  {
    PrintStarts(d);
    ChAt(text, pos, Print(d), 0);
  }

  lemma RestStarts(d: Datum)
    ensures PrintRest(d) != "" && !IsSymChar(PrintRest(d)[0])
  {
  }

  lemma PairText(text: string, pos: nat, a: Datum, b: Datum)
    requires TextAt(text, pos, Print(Pair(a, b)))
    ensures Ch(text, pos) == '(' && TextAt(text, pos + 1, Print(a)) && TextAt(text, pos + 1 + |Print(a)|, PrintRest(b))
  {
    hide TextAt, Ch;
    ThreeParts(text, pos, '(', Print(a), PrintRest(b));
  }

  lemma MoreText(text: string, pos: nat, a: Datum, b: Datum)
    requires TextAt(text, pos, PrintRest(Pair(a, b)))
    ensures Ch(text, pos) == ' ' && TextAt(text, pos + 1, Print(a)) && TextAt(text, pos + 1 + |Print(a)|, PrintRest(b))
  {
    hide TextAt, Ch;
    ThreeParts(text, pos, ' ', Print(a), PrintRest(b));
  }

  lemma RestDelimits(text: string, pos: nat, d: Datum)
    requires TextAt(text, pos, PrintRest(d))
    ensures Delim(text, pos)
  {
    hide TextAt, PrintRest, IsSymChar, Ch;
    RestStarts(d);
    ChAt(text, pos, PrintRest(d), 0);
  }

  lemma PairSplit(text: string, pos: nat, a: Datum, b: Datum)
    requires Readable(a) && TextAt(text, pos, Print(Pair(a, b)))
    ensures Ch(text, pos) == '(' && TextAt(text, pos + 1, Print(a)) && TextAt(text, pos + 1 + |Print(a)|, PrintRest(b))
    ensures Skip(text, pos + 1) == pos + 1 && !Stuck(Ch(text, pos + 1)) && Delim(text, pos + 1 + |Print(a)|)
  {
    hide TextAt, Skip, Ch, Print, PrintRest, Readable, IsSymChar;
    PairText(text, pos, a, b);
    SolidAt(text, pos + 1, a);
    SkipNone(text, pos + 1);
    RestDelimits(text, pos + 1 + |Print(a)|, b);
  }

  lemma MoreSplit(text: string, pos: nat, a: Datum, b: Datum)
    requires Readable(a) && TextAt(text, pos, PrintRest(Pair(a, b)))
    ensures TextAt(text, pos + 1, Print(a)) && TextAt(text, pos + 1 + |Print(a)|, PrintRest(b))
    ensures Skip(text, pos) == pos + 1 && !Stuck(Ch(text, pos + 1)) && Delim(text, pos + 1 + |Print(a)|)
  {
    hide TextAt, Skip, Ch, Print, PrintRest, Readable, IsSymChar;
    MoreText(text, pos, a, b);
    SkipSpace(text, pos);
    SolidAt(text, pos + 1, a);
    RestDelimits(text, pos + 1 + |Print(a)|, b);
  }

  /** A dot between two spaces. */
  lemma DotChars(text: string, pos: nat)
    requires TextAt(text, pos, " . ")
    ensures Ch(text, pos) == ' ' && Ch(text, pos + 1) == '.' && Ch(text, pos + 2) == ' '
  {
    hide TextAt;
    ChAt(text, pos, " . ", 0);
    ChAt(text, pos, " . ", 1);
    ChAt(text, pos, " . ", 2);
  }

  /** The text of a last value that is not nil, cut into its three parts. */
  lemma LastText(text: string, pos: nat, d: Datum)
    requires !d.Pair? && d != NIL && TextAt(text, pos, PrintRest(d))
    ensures TextAt(text, pos, " . ") && TextAt(text, pos + 3, Print(d)) && TextAt(text, pos + 3 + |Print(d)|, ")")
  {
    hide TextAt, Print;
    assert PrintRest(d) == " . " + (Print(d) + ")");
    TextSplit(text, pos, " . ", Print(d) + ")");
    TextSplit(text, pos + 3, Print(d), ")");
  }

  lemma DotSplit(text: string, pos: nat, d: Datum)
    requires Readable(d) && !d.Pair? && d != NIL && TextAt(text, pos, PrintRest(d))
    ensures Skip(text, pos) == pos + 1 && Ch(text, pos + 1) == '.'
    ensures Skip(text, pos + 2) == pos + 3 && TextAt(text, pos + 3, Print(d))
    ensures var q := pos + 3 + |Print(d)|; Ch(text, q) == ')' && Skip(text, q) == q
  {
    hide TextAt, Skip, Print, PrintRest, Readable;
    LastText(text, pos, d);
    SolidAt(text, pos + 3, d);
    DotChars(text, pos);
    SkipSpace(text, pos);
    SkipNone(text, pos + 1);
    SkipSpace(text, pos + 2);
    ChAt(text, pos + 3 + |Print(d)|, ")", 0);
    SkipNone(text, pos + 3 + |Print(d)|);
  }

  /** Text that print_val wrote reads back as the same value, and no more is read. */
  lemma {:induction false} Reads(text: string, pos: nat, d: Datum)
    requires Readable(d) && TextAt(text, pos, Print(d)) && Delim(text, pos + |Print(d)|)
    ensures ReadExpr(text, pos) == Parsed(d, pos + |Print(d)|)
    decreases d, 0
  {
    hide ReadExpr, ReadRest, Skip, TextAt, Ch, ReadableName, IsSymChar, IntText, Escape;
    match d
    case Int(n) => IntReads(text, pos, n);
    case Name(s) => NameReads(text, pos, s);
    case Str(s) => StringReads(text, pos, s);
    case Pair(a, b) =>
      PairSplit(text, pos, a, b);
      ExprList(text, pos);
      Reads(text, pos + 1, a);
      RestReads(text, pos + 1 + |Print(a)|, b);
  }

  lemma {:induction false} RestReads(text: string, pos: nat, d: Datum)
    requires Readable(d) && TextAt(text, pos, PrintRest(d))
    ensures ReadRest(text, pos) == Parsed(d, pos + |PrintRest(d)|)
    decreases d, 1
  {
    hide ReadExpr, Skip, TextAt, Ch, ReadableName, IsSymChar, IntText, Escape;
    if d.Pair? {
      MoreSplit(text, pos, d.car, d.cdr);
      Reads(text, pos + 1, d.car);
      RestReads(text, pos + 1 + |Print(d.car)|, d.cdr);
    } else if d == NIL {
      ChAt(text, pos, ")", 0);
      SkipNone(text, pos);
    } else {
      DotSplit(text, pos, d);
      assert Delim(text, pos + 3 + |Print(d)|) by { ParenDelimits(); }
      Reads(text, pos + 3, d);
    }
  }

  lemma ParenDelimits()
    ensures !IsSymChar(')')
  {
  }

  /** The whole text of a value. */
  lemma RoundTrip(d: Datum)
    requires Readable(d)
    ensures ReadExpr(Print(d), 0) == Parsed(d, |Print(d)|)
  {
    assert Print(d)[0..|Print(d)|] == Print(d);
    Reads(Print(d), 0, d);
  }
}
