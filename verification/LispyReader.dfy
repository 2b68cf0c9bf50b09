/** The trees of Lispy programs as values, values as text, and that what is printed is read back. */
module LispyReader {
  import opened Options
  import opened MpcAst
  import opened MpcText
  import opened MpcMeaning
  import opened MpcMatching
  import opened MpcLispyReading
  import opened LispyValues
  import opened Lispy

  // ----- reading -----

  /** C's strstr finds t in s. */
  predicate Contains(s: string, t: string) {
    exists i | 0 <= i <= |s| :: FoundAt(s, t, i)
  }

  predicate FoundAt(s: string, t: string, i: nat) {
    i + |t| <= |s| && s[i..i + |t|] == t
  }

  function DigitValue(ch: char): nat
    requires IsDigit(ch)
  {
    ch as int - '0' as int
  }

  predicate AllDigits(s: string) {
    forall k | 0 <= k < |s| :: IsDigit(s[k])
  }

  function NumberValue(s: string): nat
    requires AllDigits(s)
  {
    if s == "" then 0 else 10 * NumberValue(s[..|s| - 1]) + DigitValue(s[|s| - 1])
  }

  lemma {:induction false} DigitsSkipped(s: string, i: nat, k: nat)
    requires i <= |s| && i <= k < SkipDigits(s, i)
    ensures IsDigit(s[k])
    decreases |s| - i
  {
    if i < k { DigitsSkipped(s, i + 1, k); }
  }

  /** What C's strtol reads: blanks, a sign perhaps, and the digits that follow. */
  function Signed(s: string): int {
    var i := SkipBlanks(s, 0);
    var k := if i < |s| && (s[i] == '-' || s[i] == '+') then i + 1 else i;
    var m := SkipDigits(s, k);
    assert AllDigits(s[k..m]) by {
      forall j | 0 <= j < m - k ensures IsDigit(s[k..m][j]) { DigitsSkipped(s, k, k + j); }
    }
    var x: int := NumberValue(s[k..m]);
    if i < |s| && s[i] == '-' then -x else x
  }

  const LONG_MAX: int := 0x7fff_ffff_ffff_ffff
  const LONG_MIN: int := -0x8000_0000_0000_0000

  function ReadNum(s: string): Lval {
    if LONG_MIN <= Signed(s) <= LONG_MAX then Num(Signed(s)) else Err("invalid number")
  }

  /** Brackets and anchors are no cells. */
  predicate Skipped(a: Ast) {
    a.contents == "(" || a.contents == ")" || a.contents == "{" || a.contents == "}" || a.tag == "regex"
  }

  /** None is no value: a NULL pointer, or one that is written through. */
  function ReadLval(a: Ast): Option<Lval>
    decreases a, 1
  {
    if Contains(a.tag, "number") then Some(ReadNum(a.contents))
    else if Contains(a.tag, "symbol") then Some(Sym(a.contents))
    else
      var cells := ReadCells(a.children);
      if cells.None? then None
      else if Contains(a.tag, "qexpr") then Some(Qexpr(cells.value))
      else if a.tag == ">" || Contains(a.tag, "sexpr") then Some(Sexpr(cells.value))
      else None
  }

  function ReadCells(cs: seq<Ast>): Option<seq<Lval>>
    decreases cs, 0
  {
    if cs == [] then Some([])
    else
      var init, last := ReadCells(cs[..|cs| - 1]), cs[|cs| - 1];
      if init.None? || Skipped(last) then init
      else
        match ReadLval(last)
        case None => None
        case Some(v) => Some(init.value + [v])
  }

  lemma CellsNext(cs: seq<Ast>, i: nat)
    requires i < |cs|
    ensures var init := ReadCells(cs[..i]);
      ReadCells(cs[..i + 1]) ==
        if init.None? || Skipped(cs[i]) then init
        else if ReadLval(cs[i]).Some? then Some(init.value + [ReadLval(cs[i]).value])
        else None
  {
    hide ReadLval;
    assert cs[..i + 1][..i] == cs[..i];
  }

  lemma {:induction false} NoCells(cs: seq<Ast>, i: nat)
    requires i <= |cs| && ReadCells(cs[..i]).None?
    ensures ReadCells(cs).None?
    decreases |cs| - i
  {
    if i < |cs| {
      CellsNext(cs, i);
      NoCells(cs, i + 1);
    } else {
      assert cs[..i] == cs;
    }
  }

  /** The loop that adds the cells. */
  method LvalRead(t: Ast) returns (r: Option<Lval>)
    ensures r == ReadLval(t)
    decreases t
  {
    if Contains(t.tag, "number") { return Some(ReadNum(t.contents)); }
    if Contains(t.tag, "symbol") { return Some(Sym(t.contents)); }
    hide Contains, ReadCells;
    var quoted := Contains(t.tag, "qexpr");
    var given := t.tag == ">" || Contains(t.tag, "sexpr") || quoted;
    var x := new Expr(if quoted then Qexpr([]) else Sexpr([]));
    NothingRead();
    for i := 0 to |t.children|
      invariant x.quoted == quoted && ReadCells(t.children[..i]) == Some(x.cell)
    {
      CellsNext(t.children, i);
      if !Skipped(t.children[i]) {
        var y := LvalRead(t.children[i]);
        if y.None? {
          NoCells(t.children, i + 1);
          return None;
        }
        x.Add(y.value);
      }
    }
    assert t.children[..|t.children|] == t.children;
    return if given then Some(x.Value()) else None;
  }

  lemma NothingRead()
    ensures ReadCells([]) == Some([])
  {}

  // ----- printing -----

  function Decimal(n: nat): (s: string)
    ensures s != "" && AllDigits(s)
  {
    if n < 10 then [('0' as int + n) as char] else Decimal(n / 10) + [('0' as int + n % 10) as char]
  }

  function PrintedNum(x: int): string {
    if x < 0 then "-" + Decimal(-x) else Decimal(x)
  }

  function Printed(v: Lval): string
    decreases v, 1
  {
    match v
    case Num(x) => PrintedNum(x)
    case Err(e) => "Error: " + e
    case Sym(s) => s
    case Sexpr(cell) => "(" + PrintedAll(cell) + ")"
    case Qexpr(cell) => "{" + PrintedAll(cell) + "}"
  }

  /** The cells with a blank between any two. */
  function PrintedAll(vs: seq<Lval>): string
    decreases vs, 0
  {
    if vs == [] then ""
    else if |vs| == 1 then Printed(vs[0])
    else Printed(vs[0]) + " " + PrintedAll(vs[1..])
  }

  /** Prints the cells between the brackets, and a blank behind all but the last. */
  method LvalExprPrint(cell: seq<Lval>, open: char, close: char) returns (out: string)
    ensures out == [open] + PrintedAll(cell) + [close]
    decreases cell, 0
  {
    out := [open];
    for i := 0 to |cell|
      invariant out + PrintedAll(cell[i..]) == [open] + PrintedAll(cell)
    {
      PrintedNext(cell, i);
      var x := LvalPrint(cell[i]);
      ghost var rest := PrintedAll(cell[i + 1..]);
      ghost var before := out;
      out := out + x;
      if i != |cell| - 1 {
        out := out + " ";
        assert out + rest == before + (x + " " + rest);
      } else {
        assert out + rest == before + (x + rest);
      }
    }
    assert cell[|cell|..] == [] && out == [open] + PrintedAll(cell);
    return out + [close];
  }

  lemma PrintedNext(cell: seq<Lval>, i: nat)
    requires i < |cell|
    ensures PrintedAll(cell[i..]) ==
      Printed(cell[i]) + (if i == |cell| - 1 then "" else " ") + PrintedAll(cell[i + 1..])
  {
    hide Printed;
    assert cell[i..][1..] == cell[i + 1..];
  }

  method LvalPrint(v: Lval) returns (out: string)
    ensures out == Printed(v)
    decreases v, 1
  {
    match v
    case Num(x) => return PrintedNum(x);
    case Err(e) => return "Error: " + e;
    case Sym(s) => return s;
    case Sexpr(cell) => out := LvalExprPrint(cell, '(', ')');
    case Qexpr(cell) => out := LvalExprPrint(cell, '{', '}');
  }

  // ----- what is printed is read back -----

  const SYMBOLS: set<string> := {"list", "head", "tail", "join", "eval", "+", "-", "/", "*", "%", "^"}

  /** Numbers that fit into 64 bits, the symbols of the grammar, and lists of such. */
  predicate Readable(v: Lval) {
    match v
    case Num(x) => LONG_MIN <= x <= LONG_MAX
    case Err(_) => false
    case Sym(s) => s in SYMBOLS
    case Sexpr(cell) => forall i | 0 <= i < |cell| :: Readable(cell[i])
    case Qexpr(cell) => forall i | 0 <= i < |cell| :: Readable(cell[i])
  }

  /** No digit stands at i. */
  predicate Delimited(text: string, i: nat) {
    i < |text| ==> !IsDigit(text[i])
  }

  lemma {:induction false} DecimalReads(n: nat)
    ensures NumberValue(Decimal(n)) == n
  {
    var s := Decimal(n);
    if n < 10 {
      assert s[..0] == "";
    } else {
      DecimalReads(n / 10);
      assert s[..|s| - 1] == Decimal(n / 10);
    }
  }

  lemma {:induction false} DigitsEnd(text: string, i: nat, j: nat)
    requires i <= j <= |text| && Delimited(text, j) && forall k | i <= k < j :: IsDigit(text[k])
    ensures SkipDigits(text, i) == j
    decreases j - i
  {
    if i < j { DigitsEnd(text, i + 1, j); }
  }

  /** A decimal that stands in a text. */
  lemma DecimalStands(text: string, i: nat, n: nat)
    requires WordAt(text, i, Decimal(n)) && Delimited(text, i + |Decimal(n)|)
    ensures IsDigit(text[i]) && SkipDigits(text, i) == i + |Decimal(n)|
    ensures text[i..i + |Decimal(n)|] == Decimal(n) && NumberValue(Decimal(n)) == n
  {
    var d := Decimal(n);
    DecimalReads(n);
    forall k | i <= k < i + |d| ensures IsDigit(text[k]) { assert text[i + (k - i)] == d[k - i]; }
    DigitsEnd(text, i, i + |d|);
    WordIsSlice(text, i, d);
  }

  lemma NumStands(text: string, i: nat, x: int)
    requires WordAt(text, i, PrintedNum(x))
    ensures var n: nat := if x < 0 then -x else x;
      var k := if x < 0 then 1 else 0;
      && |PrintedNum(x)| == k + |Decimal(n)| && WordAt(text, i + k, Decimal(n))
      && (x < 0 ==> text[i] == '-') && text[i..i + |PrintedNum(x)|] == PrintedNum(x)
  {
    hide Decimal, WordAt;
    var s := PrintedNum(x);
    WordEnds(text, i, s);
    if x < 0 {
      var d := Decimal(-x);
      assert s == "-" + d + "";
      PartsStand(text, i, "-", d, "");
      BeginsWith(text, i, s);
    }
    WordIsSlice(text, i, s);
  }

  lemma SignedIs(s: string, k: nat)
    requires s != "" && !IsSpace(s[0]) && k == (if s[0] == '-' || s[0] == '+' then 1 else 0)
    requires SkipDigits(s, k) == |s| && AllDigits(s[k..])
    ensures var x: int := NumberValue(s[k..]); Signed(s) == if s[0] == '-' then -x else x
  {
    assert SkipBlanks(s, 0) == 0 && s[k..|s|] == s[k..];
    hide NumberValue, AllDigits, SkipDigits, SkipBlanks;
  }

  lemma WholeDigits(s: string, k: nat)
    requires k <= |s| && AllDigits(s[k..])
    ensures SkipDigits(s, k) == |s|
  {
    forall j | k <= j < |s| ensures IsDigit(s[j]) { assert s[k..][j - k] == s[j]; }
    DigitsEnd(s, k, |s|);
  }

  /** The text of a number, read by strtol. */
  lemma NumReads(x: int)
    ensures Signed(PrintedNum(x)) == x
  {
    var n: nat := if x < 0 then -x else x;
    var s, d := PrintedNum(x), Decimal(n);
    DecimalReads(n);
    assert IsDigit(d[0]);
    hide Decimal, AllDigits, NumberValue, Signed, SkipDigits;
    if x < 0 {
      assert s == "-" + d && s[1..] == d;
      WholeDigits(s, 1);
      SignedIs(s, 1);
    } else {
      assert s == d && s[0..] == d;
      WholeDigits(s, 0);
      SignedIs(s, 0);
    }
  }

  /** A printed number in a text, with no digit behind it. */
  lemma PrintedNumberReads(text: string, i: nat, x: int)
    requires WordAt(text, i, PrintedNum(x)) && Delimited(text, i + |PrintedNum(x)|)
    ensures var s := PrintedNum(x);
      ReadNumber(text, i) == Read(Leaf(text, i, "regex", s), SkipBlanks(text, i + |s|))
  {
    hide Leaf, SkipBlanks, Decimal, PrintedNum, WordAt, SkipDigits, AllDigits, NumberValue;
    var n: nat := if x < 0 then -x else x;
    NumStands(text, i, x);
    DecimalStands(text, if x < 0 then i + 1 else i, n);
    DecimalSome(n);
  }

  lemma DecimalSome(n: nat)
    ensures |Decimal(n)| > 0
  {}

  lemma ContainsLetters(s: string, t: string, ch: char)
    requires Contains(s, t) && ch in t
    ensures ch in s
  {
    var i :| 0 <= i <= |s| && FoundAt(s, t, i);
    var k :| 0 <= k < |t| && t[k] == ch;
    assert s[i..i + |t|][k] == s[i + k];
  }

  lemma LetterMissing(s: string, t: string, ch: char)
    requires ch in t && ch !in s
    ensures !Contains(s, t)
  {
    if Contains(s, t) { ContainsLetters(s, t, ch); }
  }

  /** What the tags of entries say. */
  lemma TagsTell()
    ensures Contains("expr|number|regex", "number")
    ensures !Contains("expr|symbol|string", "number") && Contains("expr|symbol|string", "symbol")
    ensures !Contains("expr|symbol|char", "number") && Contains("expr|symbol|char", "symbol")
  {
    assert FoundAt("expr|number|regex", "number", 5);
    LetterMissing("expr|symbol|string", "number", 'u');
    LetterMissing("expr|symbol|char", "number", 'u');
    assert FoundAt("expr|symbol|string", "symbol", 5) && FoundAt("expr|symbol|char", "symbol", 5);
  }

  lemma ListTagsTell()
    ensures !Contains("expr|sexpr|>", "number") && !Contains("expr|sexpr|>", "symbol")
    ensures !Contains("expr|sexpr|>", "qexpr") && Contains("expr|sexpr|>", "sexpr")
    ensures !Contains("expr|qexpr|>", "number") && !Contains("expr|qexpr|>", "symbol")
    ensures Contains("expr|qexpr|>", "qexpr")
  {
    LetterMissing("expr|sexpr|>", "number", 'n');
    LetterMissing("expr|sexpr|>", "symbol", 'y');
    LetterMissing("expr|sexpr|>", "qexpr", 'q');
    LetterMissing("expr|qexpr|>", "number", 'n');
    LetterMissing("expr|qexpr|>", "symbol", 'y');
    assert FoundAt("expr|sexpr|>", "sexpr", 5) && FoundAt("expr|qexpr|>", "qexpr", 5);
  }

  lemma RootTagTells()
    ensures !Contains(">", "number") && !Contains(">", "symbol") && !Contains(">", "qexpr")
  {
    LetterMissing(">", "number", 'n');
    LetterMissing(">", "symbol", 'y');
    LetterMissing(">", "qexpr", 'q');
  }

  /** An expression among others, as it stands in their list. */
  function Entry(text: string, i: nat, a: Ast): Ast
    requires i <= |text|
  {
    Listed(Named(a, "expr", At(text, i)))
  }

  /** The entry reads as the value, and is no bracket. */
  predicate IsEntryOf(e: Ast, v: Lval) {
    !Skipped(e) && ReadLval(e) == Some(v)
  }

  lemma NumberEntry(text: string, i: nat, x: int, at: Position)
    requires i <= |text| && LONG_MIN <= x <= LONG_MAX
    ensures IsEntryOf(Entry(text, i, Named(Leaf(text, i, "regex", PrintedNum(x)), "number", at)), Num(x))
  {
    var s := PrintedNum(x);
    var e := Entry(text, i, Named(Leaf(text, i, "regex", s), "number", at));
    assert e.tag == "expr" + "|" + ("number" + "|" + "regex") == "expr|number|regex" && e.contents == s;
    NumReads(x);
    TagsTell();
    NotABracket(x);
    hide Contains, PrintedNum, Signed;
  }

  lemma NotABracket(x: int)
    ensures PrintedNum(x) !in ["(", ")", "{", "}"]
  {
    assert IsDigit(PrintedNum(x)[0]) || PrintedNum(x)[0] == '-';
  }

  lemma SymbolsAreWords(s: string)
    requires s in SYMBOLS
    ensures s !in ["(", ")", "{", "}"]
  {}

  lemma SymbolTags()
    ensures "expr" + "|" + ("symbol" + "|" + "string") == "expr|symbol|string"
    ensures "expr" + "|" + ("symbol" + "|" + "char") == "expr|symbol|char"
  {}

  lemma SymbolEntry(text: string, i: nat, tag: string, s: string, at: Position)
    requires i <= |text| && s in SYMBOLS && (tag == "string" || tag == "char")
    ensures IsEntryOf(Entry(text, i, Named(Leaf(text, i, tag, s), "symbol", at)), Sym(s))
  {
    SymbolsAreWords(s);
    LeafEntry(text, i, tag, s, at);
    SymbolTags();
    TagsTell();
    hide Contains, Entry, Named, Leaf;
  }

  lemma LeafEntry(text: string, i: nat, tag: string, s: string, at: Position)
    requires i <= |text|
    ensures var e := Entry(text, i, Named(Leaf(text, i, tag, s), "symbol", at));
      e.tag == "expr" + "|" + ("symbol" + "|" + tag) && e.contents == s
  {
    hide Standing;
  }

  lemma ListTags()
    ensures "expr|" + ("sexpr" + "|" + ">") == "expr|sexpr|>" && "expr|" + ("qexpr" + "|" + ">") == "expr|qexpr|>"
    ensures var outer := "expr" + "|" + ">"; outer != "" && outer[..|outer| - 1] == "expr|"
  {}

  lemma InnerEntry(text: string, i: nat, name: string, kids: seq<Ast>, at: Position, st: Position)
    requires i <= |text| && |kids| >= 2
    ensures var e := Entry(text, i, Named(Ast(">", "", st, kids), name, at));
      e.tag == "expr|" + (name + "|" + ">") && e.contents == "" && e.children == kids
  {
    ListTags();
    hide Standing;
  }

  lemma ListEntry(text: string, i: nat, quoted: bool, kids: seq<Ast>, vs: seq<Lval>, at: Position, st: Position)
    requires i <= |text| && |kids| >= 2 && ReadCells(kids) == Some(vs)
    ensures IsEntryOf(Entry(text, i, Named(Ast(">", "", st, kids), if quoted then "qexpr" else "sexpr", at)),
        if quoted then Qexpr(vs) else Sexpr(vs))
  {
    hide Contains, ReadCells, Entry, Named, Standing;
    ListTagsTell();
    ListTags();
    InnerEntry(text, i, if quoted then "qexpr" else "sexpr", kids, at, st);
    var e := Entry(text, i, Named(Ast(">", "", st, kids), if quoted then "qexpr" else "sexpr", at));
    TaggedReads(e, quoted, vs);
  }

  lemma TaggedReads(e: Ast, quoted: bool, vs: seq<Lval>)
    requires e.tag == (if quoted then "expr|qexpr|>" else "expr|sexpr|>") && e.contents == ""
    requires ReadCells(e.children) == Some(vs)
    ensures IsEntryOf(e, if quoted then Qexpr(vs) else Sexpr(vs))
  {
    ListTagsTell();
    hide Contains, ReadCells;
  }

  // ----- symbols and lists in a text -----

  lemma BeginsWith(text: string, i: nat, s: string)
    requires WordAt(text, i, s) && s != ""
    ensures i < |text| && text[i] == s[0]
  {
    assert text[i + 0] == s[0];
  }

  lemma NoNumber(text: string, i: nat)
    requires i <= |text| && (i < |text| ==> !IsDigit(text[i]))
    requires i < |text| && text[i] == '-' ==> Delimited(text, i + 1)
    ensures ReadNumber(text, i) == Nothing
  {
    hide Leaf, SkipBlanks;
  }

  /** At most one word begins with a letter. */
  lemma OtherWord(text: string, i: nat, s: string)
    requires s != "" && i < |text| && text[i] != s[0]
    ensures !WordAt(text, i, s)
  {
    if WordAt(text, i, s) { BeginsWith(text, i, s); }
  }

  lemma SymbolStands(text: string, i: nat, s: string) returns (tag: string)
    requires s in SYMBOLS && WordAt(text, i, s)
    ensures tag == "string" || tag == "char"
    ensures ReadSymbol(text, i) == Read(Leaf(text, i, tag, s), SkipBlanks(text, i + |s|))
  {
    BeginsWith(text, i, s);
    var ch := text[i];
    if ch != 'l' { OtherWord(text, i, "list"); }
    if ch != 'h' { OtherWord(text, i, "head"); }
    if ch != 't' { OtherWord(text, i, "tail"); }
    if ch != 'j' { OtherWord(text, i, "join"); }
    if ch != 'e' { OtherWord(text, i, "eval"); }
    OneCharWord(text, i, ch);
    hide Leaf, SkipBlanks, WordAt;
    tag := if |s| == 1 then "char" else "string";
    if |s| == 1 { assert s == [ch]; }
  }

  lemma SymbolNoNumber(text: string, i: nat, s: string)
    requires s in SYMBOLS && WordAt(text, i, s) && Delimited(text, i + |s|)
    ensures ReadNumber(text, i) == Nothing
  {
    BeginsWith(text, i, s);
    assert !IsDigit(s[0]) && (s[0] == '-' ==> s == "-");
    NoNumber(text, i);
  }

  lemma NoExpr(text: string, i: nat)
    requires i <= |text| && (i < |text| ==> text[i] == ')' || text[i] == '}')
    ensures ReadExpr(text, i) == Nothing
  {
    NoNumber(text, i);
    if i < |text| { NoSymbol(text, i); }
    hide ReadList;
  }

  lemma NoSymbol(text: string, i: nat)
    requires i < |text| && text[i] in "(){}"
    ensures ReadSymbol(text, i) == Nothing
  {
    OtherWord(text, i, "list"); OtherWord(text, i, "head"); OtherWord(text, i, "tail");
    OtherWord(text, i, "join"); OtherWord(text, i, "eval");
    hide WordAt;
  }

  lemma PrintedBegins(v: Lval)
    requires Readable(v)
    ensures Printed(v) != "" && !IsSpace(Printed(v)[0])
  {
    if v.Num? { assert IsDigit(PrintedNum(v.num)[0]) || PrintedNum(v.num)[0] == '-'; }
  }

  lemma {:induction false} CellsAppend(a: seq<Ast>, b: seq<Ast>)
    requires ReadCells(a).Some? && ReadCells(b).Some?
    ensures ReadCells(a + b) == Some(ReadCells(a).value + ReadCells(b).value)
  {
    hide ReadLval;
    if b == [] {
      NothingRead();
      assert a + b == a && ReadCells(a).value + [] == ReadCells(a).value;
    } else {
      var n := |b| - 1;
      var init := b[..n];
      assert ReadCells(init).Some?;
      CellsAppend(a, init);
      assert (a + b)[..|a + b| - 1] == a + init && (a + b)[|a + b| - 1] == b[n];
      var x, y := ReadCells(a).value, ReadCells(init).value;
      if !Skipped(b[n]) {
        var v := ReadLval(b[n]).value;
        assert x + y + [v] == x + (y + [v]);
      }
    }
  }

  lemma OneCell(e: Ast, v: Lval)
    requires IsEntryOf(e, v)
    ensures ReadCells([e]) == Some([v])
  {
    NothingRead();
    assert [e][..0] == [] && [] + [v] == [v];
    hide ReadLval, Skipped;
  }

  lemma OneSkipped(e: Ast)
    requires Skipped(e)
    ensures ReadCells([e]) == Some([])
  {
    NothingRead();
    assert [e][..0] == [];
    hide ReadLval, Skipped;
  }

  lemma MoreListed(e: Ast, es: seq<Ast>)
    ensures InList([e] + es) == [Listed(e)] + InList(es)
  {}

  lemma BlankEnds(text: string, i: nat)
    requires i <= |text| && (i < |text| ==> !IsSpace(text[i]))
    ensures SkipBlanks(text, i) == i
  {}

  /** The three parts of a word that stands in a text. */
  lemma PartsStand(text: string, i: nat, a: string, b: string, c: string)
    requires WordAt(text, i, a + b + c)
    ensures WordAt(text, i, a) && WordAt(text, i + |a|, b) && WordAt(text, i + |a| + |b|, c)
  {
    var s := a + b + c;
    forall k | 0 <= k < |a| ensures text[i + k] == a[k] { assert s[k] == a[k]; }
    forall k | 0 <= k < |b| ensures text[i + |a| + k] == b[k] { assert text[i + (|a| + k)] == s[|a| + k] == b[k]; }
    forall k | 0 <= k < |c| ensures text[i + |a| + |b| + k] == c[k] {
      assert text[i + (|a| + |b| + k)] == s[|a| + |b| + k] == c[k];
    }
  }

  // ----- the induction -----

  /** A printed value in a text, with no digit behind it. */
  lemma {:induction false} PrintedReads(text: string, i: nat, v: Lval)
    requires Readable(v) && WordAt(text, i, Printed(v)) && Delimited(text, i + |Printed(v)|)
    ensures var r := ReadExpr(text, i);
      && r.Read? && r.end == SkipBlanks(text, i + |Printed(v)|)
      && IsEntryOf(Entry(text, i, r.tree), v)
    decreases v, 1
  {
    hide IsEntryOf, Entry, Leaf, SkipBlanks, Standing, Named, ReadNumber, ReadSymbol, WordAt;
    match v
    case Num(x) =>
      PrintedNumberReads(text, i, x);
      NumberEntry(text, i, x, At(text, i));
    case Sym(s) =>
      SymbolNoNumber(text, i, s);
      var tag := SymbolStands(text, i, s);
      SymbolEntry(text, i, tag, s, At(text, i));
    case Sexpr(cell) => PrintedListReads(text, i, v);
    case Qexpr(cell) => PrintedListReads(text, i, v);
  }

  lemma {:induction false} PrintedListReads(text: string, i: nat, v: Lval)
    requires (v.Sexpr? || v.Qexpr?) && Readable(v) && WordAt(text, i, Printed(v))
    ensures var r := ReadExpr(text, i);
      && r.Read? && r.end == SkipBlanks(text, i + |Printed(v)|)
      && IsEntryOf(Entry(text, i, r.tree), v)
    decreases v, 0
  {
    hide IsEntryOf, Entry, SkipBlanks, Standing, Named, WordAt, ReadExpr, ReadExprs, InList, ReadCells, Leaf,
        PrintedAll;
    var open, close := if v.Qexpr? then "{" else "(", if v.Qexpr? then "}" else ")";
    PartsStand(text, i, open, PrintedAll(v.cell), close);
    var m := i + 1 + |PrintedAll(v.cell)|;
    BeginsWith(text, i, open);
    BeginsWith(text, m, close);
    CellsRead(text, i + 1, v.cell);
    InsideBegins(text, i + 1, v.cell);
    OpensList(text, i, v.Qexpr?);
    var es := ReadExprs(text, i + 1).0;
    KidsRead(text, i, m, InList(es), v.cell);
    var kids := [Leaf(text, i, "char", [text[i]])] + InList(es) + [Leaf(text, m, "char", [text[m]])];
    ListEntry(text, i, v.Qexpr?, kids, v.cell, At(text, i), At(text, i));
  }

  lemma OpensList(text: string, i: nat, quoted: bool)
    requires i < |text| && text[i] == if quoted then '{' else '('
    ensures ReadExpr(text, i) ==
        NamedReading(ReadList(text, i, if quoted then '}' else ')'), if quoted then "qexpr" else "sexpr", At(text, i))
  {
    NoNumber(text, i);
    NoSymbol(text, i);
    hide ReadNumber, ReadSymbol, ReadList, Standing, Named;
  }

  /** What stands behind an opening bracket is no blank. */
  lemma InsideBegins(text: string, i: nat, vs: seq<Lval>)
    requires (forall k | 0 <= k < |vs| :: Readable(vs[k])) && WordAt(text, i, PrintedAll(vs))
    requires i + |PrintedAll(vs)| < |text| && !IsSpace(text[i + |PrintedAll(vs)|])
    ensures SkipBlanks(text, i) == i
  {
    if vs != [] {
      PrintedBegins(vs[0]);
      BeginsWith(text, i, PrintedAll(vs));
      hide Printed, PrintedAll, WordAt;
    }
    BlankEnds(text, i);
  }

  lemma KidsRead(text: string, i: nat, m: nat, es: seq<Ast>, vs: seq<Lval>)
    requires i < |text| && m < |text| && text[i] in "({" && text[m] in ")}" && ReadCells(es) == Some(vs)
    ensures ReadCells([Leaf(text, i, "char", [text[i]])] + es + [Leaf(text, m, "char", [text[m]])]) == Some(vs)
  {
    var a, b := Leaf(text, i, "char", [text[i]]), Leaf(text, m, "char", [text[m]]);
    OneSkipped(a);
    OneSkipped(b);
    hide ReadCells, Standing;
    CellsAppend([a], es);
    CellsAppend([a] + es, [b]);
    assert [] + vs + [] == vs;
  }

  /** Printed cells in a text, with a closing bracket or the end behind them. */
  lemma {:induction false} CellsRead(text: string, i: nat, vs: seq<Lval>)
    requires (forall k | 0 <= k < |vs| :: Readable(vs[k])) && WordAt(text, i, PrintedAll(vs))
    requires var j := i + |PrintedAll(vs)|; j < |text| ==> text[j] == ')' || text[j] == '}'
    ensures var (es, m) := ReadExprs(text, i);
      m == i + |PrintedAll(vs)| && ReadCells(InList(es)) == Some(vs)
    decreases vs, 0
  {
    hide IsEntryOf, SkipBlanks, Standing, Named, WordAt, InList, ReadCells, ReadExpr, Printed;
    WordEnds(text, i, PrintedAll(vs));
    if vs == [] {
      NoExpr(text, i);
      NoneListed();
    } else {
      var v, rest, sep := vs[0], vs[1..], if |vs| == 1 then "" else " ";
      assert PrintedAll(vs) == Printed(v) + sep + PrintedAll(rest);
      PartsStand(text, i, Printed(v), sep, PrintedAll(rest));
      var k := i + |Printed(v)|;
      if |vs| > 1 { BeginsWith(text, k, " "); }
      PrintedReads(text, i, v);
      CellsRead(text, k + |sep|, rest);
      SeparatorSkipped(text, k, sep, rest);
      var r := ReadExpr(text, i);
      var (es, m) := ReadExprs(text, r.end);
      var e := Named(r.tree, "expr", At(text, i));
      MoreListed(e, es);
      OneCell(Listed(e), v);
      CellsAppend([Listed(e)], InList(es));
      assert [v] + rest == vs;
    }
  }

  lemma WordEnds(text: string, i: nat, s: string)
    requires WordAt(text, i, s)
    ensures i + |s| <= |text|
  {}

  lemma NoneListed()
    ensures ReadCells(InList([])) == Some([])
  {
    assert InList([]) == [];
  }

  lemma SeparatorSkipped(text: string, k: nat, sep: string, rest: seq<Lval>)
    requires sep == if rest == [] then "" else " "
    requires (forall j | 0 <= j < |rest| :: Readable(rest[j])) && WordAt(text, k, sep)
    requires WordAt(text, k + |sep|, PrintedAll(rest))
    requires var j := k + |sep| + |PrintedAll(rest)|; j < |text| ==> text[j] == ')' || text[j] == '}'
    ensures k <= |text| && SkipBlanks(text, k) == k + |sep|
  {
    if rest == [] {
      assert PrintedAll(rest) == "";
      BlankEnds(text, k);
    } else {
      BeginsWith(text, k, sep);
      PrintedBegins(rest[0]);
      BeginsWith(text, k + 1, PrintedAll(rest));
      hide Printed, PrintedAll, WordAt;
      BlankEnds(text, k + 1);
    }
  }

  /** What is printed of a value is a program, and reading it gives that value as its only member. */
  lemma PrintedIsRead(v: Lval)
    requires Readable(v)
    ensures var r := ReadProgram(Printed(v));
      r.Read? && r.end == |Printed(v)| && ReadLval(r.tree) == Some(Sexpr([v]))
  {
    var text := Printed(v);
    hide Printed, ReadExprs, ReadCells, InList, Standing, Contains;
    assert PrintedAll([v]) == text;
    assert text[0..|text|] == text;
    WordIsSlice(text, 0, text);
    PrintedBegins(v);
    BlankEnds(text, 0);
    CellsRead(text, 0, [v]);
    BlankEnds(text, |text|);
    var (es, m) := ReadExprs(text, 0);
    var a, b := Leaf(text, 0, "regex", ""), Leaf(text, m, "regex", "");
    OneSkipped(a);
    OneSkipped(b);
    CellsAppend([a], InList(es));
    CellsAppend([a] + InList(es), [b]);
    assert [] + [v] + [] == [v];
    RootTagTells();
  }
}
