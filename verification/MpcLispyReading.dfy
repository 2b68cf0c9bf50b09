/** What the Lispy grammar reads: a reader written by hand, and that the grammar accepts just the texts it
    reads, with the same trees. */
module MpcLispyReading {
  import opened Options
  import opened MpcAst
  import opened MpcParser
  import opened MpcText
  import opened MpcMeaning
  import opened MpcOptimise
  import opened MpcRegex
  import opened MpcMatching
  import opened MpcGrammars
  import opened MpcLispyGrammar
  import Ends = MpcLispyEnds

  // ----- the reader -----

  /** A tree and the character behind it and the blanks that follow. */
  datatype Reading = Nothing | Read(tree: Ast, end: nat)

  function SkipBlanks(text: string, i: nat): (j: nat)
    requires i <= |text|
    ensures i <= j <= |text|
    decreases |text| - i
  {
    if i < |text| && IsSpace(text[i]) then SkipBlanks(text, i + 1) else i
  }

  function SkipDigits(text: string, i: nat): (j: nat)
    requires i <= |text|
    ensures i <= j <= |text|
    decreases |text| - i
  {
    if i < |text| && IsDigit(text[i]) then SkipDigits(text, i + 1) else i
  }

  function At(text: string, i: nat): Position
    requires i <= |text|
  {
    Standing(text, i).state
  }

  function Leaf(text: string, i: nat, tag: string, s: string): Ast
    requires i <= |text|
  {
    Ast(tag, s, At(text, i), [])
  }

  function ReadWord(text: string, i: nat, tag: string, s: string): (r: Reading)
    requires i <= |text|
    ensures r.Read? ==> i + |s| <= r.end <= |text|
  {
    if WordAt(text, i, s) then Read(Leaf(text, i, tag, s), SkipBlanks(text, i + |s|)) else Nothing
  }

  /** A sign perhaps, and all digits that follow. */
  function ReadNumber(text: string, i: nat): (r: Reading)
    requires i <= |text|
    ensures r.Read? ==> i < r.end <= |text|
  {
    var k := if i < |text| && text[i] == '-' then i + 1 else i;
    var m := SkipDigits(text, k);
    if m == k then Nothing else Read(Leaf(text, i, "regex", text[i..m]), SkipBlanks(text, m))
  }

  /** The first of the words that stands there. */
  function ReadSymbol(text: string, i: nat): (r: Reading)
    requires i <= |text|
    ensures r.Read? ==> i < r.end <= |text|
  {
    if WordAt(text, i, "list") then ReadWord(text, i, "string", "list")
    else if WordAt(text, i, "head") then ReadWord(text, i, "string", "head")
    else if WordAt(text, i, "tail") then ReadWord(text, i, "string", "tail")
    else if WordAt(text, i, "join") then ReadWord(text, i, "string", "join")
    else if WordAt(text, i, "eval") then ReadWord(text, i, "string", "eval")
    else if i < |text| && IsSign(text[i]) then ReadWord(text, i, "char", [text[i]])
    else Nothing
  }

  predicate IsSign(ch: char) {
    ch == '+' || ch == '-' || ch == '/' || ch == '*' || ch == '%' || ch == '^'
  }

  /** The tree of a name: its name goes before the tag, and more than one child under a root. */
  function Named(a: Ast, name: string, at: Position): Ast {
    var b := a.(tag := name + "|" + a.tag);
    if |b.children| <= 1 then b.(state := at) else Ast(">", "", at, [b])
  }

  function NamedReading(r: Reading, name: string, at: Position): Reading {
    if r.Read? then Read(Named(r.tree, name, at), r.end) else Nothing
  }

  function ReadExpr(text: string, i: nat): (r: Reading)
    requires i <= |text|
    ensures r.Read? ==> i < r.end <= |text|
    decreases |text| - i, 1
  {
    var number, symbol := ReadNumber(text, i), ReadSymbol(text, i);
    if number.Read? then NamedReading(number, "number", At(text, i))
    else if symbol.Read? then NamedReading(symbol, "symbol", At(text, i))
    else if i < |text| && text[i] == '(' then NamedReading(ReadList(text, i, ')'), "sexpr", At(text, i))
    else if i < |text| && text[i] == '{' then NamedReading(ReadList(text, i, '}'), "qexpr", At(text, i))
    else Nothing
  }

  /** From an opening bracket to the closing one. */
  function ReadList(text: string, i: nat, close: char): (r: Reading)
    requires i < |text|
    ensures r.Read? ==> i < r.end <= |text|
    decreases |text| - i, 0
  {
    var (es, m) := ReadExprs(text, SkipBlanks(text, i + 1));
    if m < |text| && text[m] == close then
      Read(Ast(">", "", At(text, i),
          [Leaf(text, i, "char", [text[i]])] + InList(es) + [Leaf(text, m, "char", [close])]),
        SkipBlanks(text, m + 1))
    else Nothing
  }

  /** As many expressions as there are. */
  function ReadExprs(text: string, i: nat): (r: (seq<Ast>, nat))
    requires i <= |text|
    ensures i <= r.1 <= |text|
    decreases |text| - i, 2
  {
    var e := ReadExpr(text, i);
    if e.Nothing? then ([], i)
    else
      var (es, m) := ReadExprs(text, e.end);
      ([Named(e.tree, "expr", At(text, i))] + es, m)
  }

  /** In a list an only child takes its parent's place, with the parent's tag before its own. */
  function InList(es: seq<Ast>): seq<Ast> {
    seq(|es|, k requires 0 <= k < |es| => Listed(es[k]))
  }

  function Listed(e: Ast): Ast {
    if |e.children| == 1 && e.tag != "" then e.children[0].(tag := e.tag[..|e.tag| - 1] + e.children[0].tag) else e
  }

  /** All of a text: blanks, expressions, and nothing behind them. */
  function ReadProgram(text: string): Reading {
    var start := SkipBlanks(text, 0);
    var (es, m) := ReadExprs(text, start);
    if AtEnd(text, m) then
      Read(Ast(">", "", At(text, 0), [Leaf(text, 0, "regex", "")] + InList(es) + [Leaf(text, m, "regex", "")]),
        SkipBlanks(text, m))
    else Nothing
  }

  // ----- how successes and failures are put together -----

  lemma NextInTurn(g: Grammar, text: string, x: Parser, xs: seq<Parser>, depth: int, i: nat, v: Val, m: nat,
      vs: seq<Val>, j: nat)
    requires Succeeds(g, text, x, depth, i, v, m) && InTurn(g, text, xs, depth, m, vs, j)
    ensures InTurn(g, text, [x] + xs, depth, i, [v] + vs, j)
  {
    hide Succeeds;
    assert ([x] + xs)[1..] == xs && ([v] + vs)[1..] == vs;
  }

  lemma TwoInTurn(g: Grammar, text: string, a: Parser, b: Parser, depth: int, i: nat, v: Val, m: nat, w: Val, j: nat)
    requires Succeeds(g, text, a, depth, i, v, m) && Succeeds(g, text, b, depth, m, w, j)
    ensures InTurn(g, text, [a, b], depth, i, [v, w], j)
  {
    assert InTurn(g, text, [], depth, j, [], j);
    hide Succeeds, InTurn;
    NextInTurn(g, text, b, [], depth, m, w, j, [], j);
    assert [b] + [] == [b] && [w] + [] == [w];
    NextInTurn(g, text, a, [b], depth, i, v, m, [w], j);
    assert [a] + [b] == [a, b] && [v] + [w] == [v, w];
  }

  lemma PairSucceeds(g: Grammar, text: string, f: Fold, a: Parser, b: Parser, depth: int, i: nat, v: Val, m: nat,
      w: Val, j: nat, r: Val)
    requires Succeeds(g, text, a, depth, i, v, m) && Succeeds(g, text, b, depth, m, w, j)
    requires ApplyFold(f, [v, w]) == Some(r)
    ensures Succeeds(g, text, And(f, [a, b]), depth, i, r, j)
  {
    hide InTurn, ApplyFold, Folds;
    TwoInTurn(g, text, a, b, depth, i, v, m, w, j);
    FoldsExactly(f, [v, w], r);
    assert [a, b] != [];
  }

  lemma PairFails(g: Grammar, text: string, f: Fold, a: Parser, b: Parser, depth: int, i: nat, v: Val, m: nat, j: nat)
    requires depth >= 1
    requires Fails(g, text, a, depth, i, j) || (Succeeds(g, text, a, depth, i, v, m) && Fails(g, text, b, depth, m, j))
    ensures Fails(g, text, And(f, [a, b]), depth, i, i)
  {
    var xs := [a, b];
    assert xs[1..] == [b] && [b][1..] == [];
    assert Left(depth, i, j) == i;
    if Fails(g, text, a, depth, i, j) {
      assert OneFails(g, text, xs, depth, i, j);
    } else {
      assert OneFails(g, text, [b], depth, m, j);
      assert OneFails(g, text, xs, depth, i, j);
    }
  }

  lemma EitherSucceeds(g: Grammar, text: string, a: Parser, b: Parser, depth: int, i: nat, m: nat, v: Val, j: nat)
    requires Succeeds(g, text, a, depth, i, v, j)
        || (Fails(g, text, a, depth, i, m) && Succeeds(g, text, b, depth, m, v, j))
    ensures Succeeds(g, text, Or([a, b]), depth, i, v, j)
  {
    var xs := [a, b];
    assert xs[1..] == [b];
    if !Succeeds(g, text, a, depth, i, v, j) { assert FirstSucceeds(g, text, [b], depth, m, v, j); }
    assert FirstSucceeds(g, text, xs, depth, i, v, j);
  }

  lemma NeitherSucceeds(g: Grammar, text: string, a: Parser, b: Parser, depth: int, i: nat, m: nat, j: nat)
    requires Fails(g, text, a, depth, i, m) && Fails(g, text, b, depth, m, j)
    ensures Fails(g, text, Or([a, b]), depth, i, j)
  {
    var xs := [a, b];
    assert xs[1..] == [b] && [b][1..] == [];
    assert AllFail(g, text, [], depth, j, j);
    assert AllFail(g, text, [b], depth, m, j);
    assert AllFail(g, text, xs, depth, i, j);
  }

  /** A success that yields the tree read, or a failure in place. */
  ghost predicate ReadsAs(g: Grammar, text: string, p: Parser, depth: int, i: nat, r: Reading) {
    match r
    case Read(a, j) => Succeeds(g, text, p, depth, i, Tree(a), j)
    case Nothing => Fails(g, text, p, depth, i, i)
  }

  // ----- tokens -----

  lemma {:induction false} BlanksRepeat(g: Grammar, text: string, i: nat, depth: int) returns (vs: seq<Val>)
    requires i <= |text|
    ensures Rounds(g, text, Whitespace(), depth, i, vs, SkipBlanks(text, i)) && AllStr(vs)
    decreases |text| - i
  {
    var w := Whitespace();
    if i < |text| { SpaceIs(text[i]); }
    SpaceReads(g, text, i, depth);
    hide Whitespace;
    vs := [];
    if i < |text| && IsSpace(text[i]) {
      var rest := BlanksRepeat(g, text, i + 1, depth);
      vs := [Str([text[i]])] + rest;
      OneRound(g, text, w, depth, i, Str([text[i]]), i + 1, rest, SkipBlanks(text, i + 1));
    } else {
      NoRound(g, text, w, depth, i, i);
    }
  }

  lemma SpaceReads(g: Grammar, text: string, i: nat, depth: int)
    requires i <= |text|
    ensures if i < |text| && IsSpace(text[i]) then Succeeds(g, text, Whitespace(), depth, i, Str([text[i]]), i + 1)
      else Fails(g, text, Whitespace(), depth, i, i)
  {
    if i < |text| { SpaceIs(text[i]); }
    var p := OneOf(SPACES);
    if i < |text| && IsSpace(text[i]) {
      assert Succeeds(g, text, p, depth, i, Str([text[i]]), i + 1);
      assert Succeeds(g, text, Expect(p), depth, i, Str([text[i]]), i + 1);
    } else {
      assert Fails(g, text, p, depth, i, i);
      assert Fails(g, text, Expect(p), depth, i, i);
    }
  }

  lemma BlankReads(g: Grammar, text: string, i: nat, depth: int)
    requires i <= |text|
    ensures Succeeds(g, text, Blank(), depth, i, Null, SkipBlanks(text, i))
  {
    var vs := BlanksRepeat(g, text, i, depth);
    SpacesRead(g, text, i, depth, vs);
    hide Succeeds, Whitespace, SkipBlanks;
    var many, v := Expect(Many(StrFold, Whitespace())), Str(Concat(vs));
    NulledReads(g, text, many, i, depth, v, SkipBlanks(text, i));
  }

  lemma SpacesRead(g: Grammar, text: string, i: nat, depth: int, vs: seq<Val>)
    requires i <= |text| && AllStr(vs) && Rounds(g, text, Whitespace(), depth, i, vs, SkipBlanks(text, i))
    ensures Succeeds(g, text, Expect(Many(StrFold, Whitespace())), depth, i, Str(Concat(vs)), SkipBlanks(text, i))
  {
    FoldsExactly(StrFold, vs, Str(Concat(vs)));
    hide Folds, Whitespace, SkipBlanks, Rounds;
    assert Succeeds(g, text, Many(StrFold, Whitespace()), depth, i, Str(Concat(vs)), SkipBlanks(text, i));
  }

  lemma NulledReads(g: Grammar, text: string, x: Parser, i: nat, depth: int, v: Val, j: nat)
    requires Succeeds(g, text, x, depth, i, v, j)
    ensures Succeeds(g, text, Expect(Apply(x, v => Some(Null))), depth, i, Null, j)
  {
    var nulled := Apply(x, v => Some(Null));
    assert nulled.apply(v) == Some(Null);
    assert Succeeds(g, text, nulled, depth, i, Null, j);
  }

  /** A parser with the state before it. */
  lemma ItemReads(g: Grammar, text: string, x: Parser, i: nat, depth: int, r: Reading)
    requires i <= |text| && depth >= 1 && ReadsAs(g, text, x, depth, i, r)
    ensures ReadsAs(g, text, Item(x), depth, i,
        if r.Read? then Read(r.tree.(state := At(text, i)), r.end) else Nothing)
  {
    assert Succeeds(g, text, State, depth, i, Place(At(text, i)), i);
    hide Standing;
    if r.Read? {
      var v, w := Place(At(text, i)), Tree(r.tree);
      PairSucceeds(g, text, StateTree, State, x, depth, i, v, i, w, r.end, Tree(r.tree.(state := At(text, i))));
    } else {
      PairFails(g, text, StateTree, State, x, depth, i, Place(At(text, i)), i, i);
    }
  }

  lemma TokenFails(g: Grammar, text: string, x: Parser, tag: string, i: nat, depth: int)
    requires i <= |text| && depth >= 1 && Fails(g, text, x, depth, i, i)
    ensures ReadsAs(g, text, Token(x, tag), depth, i, Nothing)
  {
    hide Standing, Blank, StrAst, SetTag, Item;
    var p := And(Nth(0), [x, Blank()]);
    PairFails(g, text, Nth(0), x, Blank(), depth, i, Null, i, i);
    var a := Apply(p, StrAst);
    assert Fails(g, text, a, depth, i, i);
    var t := ApplyTo(a, SetTag, Str(tag));
    assert Fails(g, text, t, depth, i, i);
    ItemReads(g, text, t, i, depth, Nothing);
  }

  /** A word of the text, as a leaf with the blanks behind it. */
  lemma TokenReads(g: Grammar, text: string, x: Parser, tag: string, i: nat, m: nat, depth: int)
    requires i <= m <= |text| && depth >= 1 && Succeeds(g, text, x, depth, i, Str(text[i..m]), m)
    ensures ReadsAs(g, text, Token(x, tag), depth, i, Read(Leaf(text, i, tag, text[i..m]), SkipBlanks(text, m)))
  {
    hide Standing, Blank, SkipBlanks, Item;
    var s, j := text[i..m], SkipBlanks(text, m);
    var leaf := Ast("", s, START, []);
    var p := And(Nth(0), [x, Blank()]);
    BlankReads(g, text, m, depth);
    PairSucceeds(g, text, Nth(0), x, Blank(), depth, i, Str(s), m, Null, j, Str(s));
    LeafMade(g, text, p, tag, i, s, j, depth);
    ItemReads(g, text, ApplyTo(Apply(p, StrAst), SetTag, Str(tag)), i, depth, Read(leaf.(tag := tag), j));
  }

  lemma LeafMade(g: Grammar, text: string, p: Parser, tag: string, i: nat, s: string, j: nat, depth: int)
    requires Succeeds(g, text, p, depth, i, Str(s), j)
    ensures Succeeds(g, text, ApplyTo(Apply(p, StrAst), SetTag, Str(tag)), depth, i, Tree(Ast(tag, s, START, [])), j)
  {
    var leaf := Ast("", s, START, []);
    assert StrAst(Str(s)) == Some(Tree(leaf)) && SetTag(Tree(leaf), Str(tag)) == Some(Tree(leaf.(tag := tag)));
    hide StrAst, SetTag;
    assert Succeeds(g, text, Apply(p, StrAst), depth, i, Tree(leaf), j);
  }

  /** The tree before its state is set. */
  function Tagged(a: Ast, name: string): Ast {
    var b := a.(tag := name + "|" + a.tag);
    if |b.children| <= 1 then b else Ast(">", "", START, [b])
  }

  lemma TagsAdded(a: Ast, name: string)
    ensures var b := a.(tag := name + "|" + a.tag);
      AddTag(Tree(a), Str(name)) == Some(Tree(b)) && AddRoot(Tree(b)) == Some(Tree(Tagged(a, name)))
  {}

  lemma NameSucceeds(g: Grammar, text: string, id: nat, name: string, i: nat, depth: int, a: Ast, j: nat)
    requires Succeeds(g, text, Ref(id), depth, i, Tree(a), j)
    ensures Succeeds(g, text, Apply(ApplyTo(Ref(id), AddTag, Str(name)), AddRoot), depth, i, Tree(Tagged(a, name)), j)
  {
    TagsAdded(a, name);
    hide AddTag, AddRoot, Tagged;
    var t := ApplyTo(Ref(id), AddTag, Str(name));
    assert Succeeds(g, text, t, depth, i, Tree(a.(tag := name + "|" + a.tag)), j);
  }

  lemma NameFails(g: Grammar, text: string, id: nat, name: string, i: nat, depth: int)
    requires Fails(g, text, Ref(id), depth, i, i)
    ensures Fails(g, text, Apply(ApplyTo(Ref(id), AddTag, Str(name)), AddRoot), depth, i, i)
  {
    hide AddTag, AddRoot;
    assert Fails(g, text, ApplyTo(Ref(id), AddTag, Str(name)), depth, i, i);
  }

  lemma NameReads(g: Grammar, text: string, id: nat, name: string, i: nat, depth: int, r: Reading)
    requires i <= |text| && depth >= 1 && ReadsAs(g, text, Ref(id), depth, i, r)
    ensures ReadsAs(g, text, Name(id, name), depth, i, NamedReading(r, name, At(text, i)))
  {
    hide Standing, Item, Succeeds, Fails, AddTag, AddRoot;
    var a := Apply(ApplyTo(Ref(id), AddTag, Str(name)), AddRoot);
    if r.Read? {
      NameSucceeds(g, text, id, name, i, depth, r.tree, r.end);
      ItemReads(g, text, a, i, depth, Read(Tagged(r.tree, name), r.end));
    } else {
      NameFails(g, text, id, name, i, depth);
      ItemReads(g, text, a, i, depth, Nothing);
    }
  }

  lemma OneCharWord(text: string, i: nat, c: char)
    ensures WordAt(text, i, [c]) <==> i < |text| && text[i] == c
  {
    assert WordAt(text, i, [c]) ==> text[i + 0] == [c][0];
  }

  lemma CharReads(g: Grammar, text: string, c: char, i: nat, depth: int)
    requires i <= |text| && depth >= 1
    ensures ReadsAs(g, text, Char(c), depth, i, ReadWord(text, i, "char", [c]))
  {
    OneCharWord(text, i, c);
    hide Standing, Token, SkipBlanks, WordAt;
    var p := Single(c);
    if i < |text| && text[i] == c {
      assert Succeeds(g, text, p, depth, i, Str([c]), i + 1);
      assert Succeeds(g, text, Expect(p), depth, i, Str([c]), i + 1);
      assert text[i..i + 1] == [c];
      TokenReads(g, text, Expect(p), "char", i, i + 1, depth);
    } else {
      assert Fails(g, text, p, depth, i, i);
      assert Fails(g, text, Expect(p), depth, i, i);
      TokenFails(g, text, Expect(p), "char", i, depth);
    }
  }

  lemma WordMissing(text: string, i: nat, s: string) returns (n: nat)
    requires i <= |text| && !WordAt(text, i, s)
    ensures n < |s| && Agrees(text, i, s, n)
  {
    n := SpellStands(text, i, s);
    WordIsSlice(text, i, s[..n]);
    assert s[..|s|] == s;
    WordDiffers(text, i, s, n);
  }

  lemma WordReads(g: Grammar, text: string, s: string, i: nat, depth: int)
    requires i <= |text| && depth >= 1
    ensures ReadsAs(g, text, Word(s), depth, i, ReadWord(text, i, "string", s))
  {
    hide Standing, Token, SkipBlanks, WordAt;
    var p := Literal(s);
    if WordAt(text, i, s) {
      WordFits(text, i, s);
      assert Succeeds(g, text, p, depth, i, Str(s), i + |s|);
      assert Succeeds(g, text, Expect(p), depth, i, Str(s), i + |s|);
      TokenReads(g, text, Expect(p), "string", i, i + |s|, depth);
    } else {
      var n := WordMissing(text, i, s);
      assert LeafFails(text, p, depth, i, i);
      assert Fails(g, text, p, depth, i, i);
      assert Fails(g, text, Expect(p), depth, i, i);
      TokenFails(g, text, Expect(p), "string", i, depth);
    }
  }

  lemma WordFits(text: string, i: nat, s: string)
    requires WordAt(text, i, s)
    ensures i + |s| <= |text| && text[i..i + |s|] == s
  {
    WordIsSlice(text, i, s);
  }

  // ----- rules -----

  lemma ChainReads(g: Grammar, text: string, x: Parser, i: nat, depth: int, r: Reading)
    requires i <= |text| && depth >= 1 && ReadsAs(g, text, x, depth, i, r)
    ensures ReadsAs(g, text, Chain([x]), depth, i, r)
  {
    assert Chain([x]) == And(FoldTree, [Pass, x]);
    assert Succeeds(g, text, Pass, depth, i, Null, i);
    if r.Read? {
      PairSucceeds(g, text, FoldTree, Pass, x, depth, i, Null, i, Tree(r.tree), r.end, Tree(r.tree));
    } else {
      PairFails(g, text, FoldTree, Pass, x, depth, i, Null, i, i);
    }
  }

  lemma FirstReads(g: Grammar, text: string, ts: seq<seq<Parser>>, i: nat, depth: int, r: Reading)
    requires i <= |text| && depth >= 1 && ts != [] && |ts[0]| == 1 && r.Read?
    requires ReadsAs(g, text, ts[0][0], depth, i, r)
    ensures ReadsAs(g, text, Alternatives(ts), depth, i, r)
  {
    assert ts[0] == [ts[0][0]];
    ChainReads(g, text, ts[0][0], i, depth, r);
    hide Chain;
    if |ts| > 1 {
      EitherSucceeds(g, text, Chain(ts[0]), Alternatives(ts[1..]), depth, i, i, Tree(r.tree), r.end);
    }
  }

  lemma LaterReads(g: Grammar, text: string, ts: seq<seq<Parser>>, i: nat, depth: int, r: Reading)
    requires i <= |text| && depth >= 1 && |ts| > 1 && |ts[0]| == 1
    requires ReadsAs(g, text, ts[0][0], depth, i, Nothing) && ReadsAs(g, text, Alternatives(ts[1..]), depth, i, r)
    ensures ReadsAs(g, text, Alternatives(ts), depth, i, r)
  {
    assert ts[0] == [ts[0][0]];
    ChainReads(g, text, ts[0][0], i, depth, Nothing);
    hide Chain;
    if r.Read? {
      EitherSucceeds(g, text, Chain(ts[0]), Alternatives(ts[1..]), depth, i, i, Tree(r.tree), r.end);
    } else {
      NeitherSucceeds(g, text, Chain(ts[0]), Alternatives(ts[1..]), depth, i, i, i);
    }
  }

  /** What the first of the readings that is one comes to. */
  function FirstOf(rs: seq<Reading>): Reading {
    if rs == [] then Nothing else if rs[0].Read? then rs[0] else FirstOf(rs[1..])
  }

  lemma {:induction false} RuleReads(g: Grammar, text: string, ts: seq<seq<Parser>>, i: nat, depth: int,
      rs: seq<Reading>)
    requires i <= |text| && depth >= 1 && ts != [] && |rs| == |ts|
    requires forall k | 0 <= k < |ts| :: |ts[k]| == 1 && ReadsAs(g, text, ts[k][0], depth, i, rs[k])
    ensures ReadsAs(g, text, Alternatives(ts), depth, i, FirstOf(rs))
  {
    hide ReadsAs, Chain;
    if rs[0].Read? {
      FirstReads(g, text, ts, i, depth, rs[0]);
    } else if |ts| > 1 {
      RuleReads(g, text, ts[1..], i, depth, rs[1..]);
      LaterReads(g, text, ts, i, depth, FirstOf(rs[1..]));
    } else {
      assert rs[1..] == [];
      assert ts[0] == [ts[0][0]];
      ChainReads(g, text, ts[0][0], i, depth, Nothing);
    }
  }

  // ----- numbers -----

  /** A parser that succeeds where an expression matches, with the text matched. */
  ghost predicate MatchesAs(g: Grammar, text: string, x: Parser, depth: int, i: nat, m: Matching)
    requires i <= |text|
  {
    && (m.Upto? ==> i <= m.end <= |text| && Succeeds(g, text, x, depth, i, Str(text[i..m.end]), m.end))
    && (m.NoMatch? ==> Fails(g, text, x, depth, i, i))
  }

  lemma {:induction false} DigitsMatch(text: string, i: nat)
    requires i <= |text|
    ensures MatchRepeat(Set(false, DIGITS), text, i) == Upto(SkipDigits(text, i))
    decreases |text| - i
  {
    OneDigit(text, i);
    if i < |text| && IsDigit(text[i]) { DigitsMatch(text, i + 1); }
  }

  lemma OneDigit(text: string, i: nat)
    requires i <= |text|
    ensures Match(Set(false, DIGITS), text, i) == if i < |text| && IsDigit(text[i]) then Upto(i + 1) else NoMatch
  {
    if i < |text| { DigitIs(text[i]); }
  }

  lemma NumberMatches(text: string, i: nat)
    requires i <= |text| && NoTimes(Ends.NumberExpr())
    ensures var k := if i < |text| && text[i] == '-' then i + 1 else i;
      var m := SkipDigits(text, k);
      Match(Ends.NumberExpr(), text, i) == if m == k then NoMatch else Upto(m)
  {
    var sign, digits := Regex.Optional(Letter('-')), Plus(Set(false, DIGITS));
    var xs := [sign, digits];
    var k := if i < |text| && text[i] == '-' then i + 1 else i;
    assert xs[1..] == [digits] && [digits][1..] == [];
    assert NoTimes(xs[0]) && NoTimes(xs[1]);
    OneDigit(text, k);
    if k < |text| { DigitsMatch(text, k + 1); }
    assert Match(Letter('-'), text, i) == if i < |text| && text[i] == '-' then Upto(i + 1) else NoMatch;
    assert Match(sign, text, i) == Upto(k);
    PlusUnfolds(Set(false, DIGITS), text, k);
    hide Match, MatchRepeat;
    assert MatchInTurn([digits], text, k) ==
      if Match(digits, text, k).Upto? then Upto(Match(digits, text, k).end) else Match(digits, text, k);
  }

  // ----- lists -----

  function Trees(es: seq<Ast>): seq<Val> {
    seq(|es|, k requires 0 <= k < |es| => Tree(es[k]))
  }

  /** The tree of an expression in a list: it has a tag, and one child at most. */
  predicate IsEntry(e: Ast) {
    |e.children| <= 1 && e.tag != ""
  }

  predicate AreEntries(es: seq<Ast>) {
    forall k | 0 <= k < |es| :: IsEntry(es[k])
  }

  lemma {:induction false} EntriesFlatten(es: seq<Ast>)
    requires AreEntries(es)
    ensures FlattenAll(AsParts(Trees(es))) == InList(es)
  {
    if es != [] {
      EntriesFlatten(es[1..]);
      assert AsParts(Trees(es))[1..] == AsParts(Trees(es[1..]));
      assert Flatten(Present(es[0])) == [Listed(es[0])];
      assert InList(es) == [Listed(es[0])] + InList(es[1..]);
    }
  }

  /** What the repeat of expressions yields, and what it leaves in the tree around it. */
  lemma EntriesFold(es: seq<Ast>) returns (v: Val)
    requires AreEntries(es)
    ensures FoldTreeVals(Trees(es)) == Some(v) && TreeOrNull(v) && (v.Null? <==> es == [])
    ensures Flatten(AsPart(v)) == InList(es)
  {
    EntriesFlatten(es);
    var vs := Trees(es);
    assert AllTreeOrNull(vs);
    FoldContributes(AsParts(vs));
    FlattenAllEmpty(AsParts(vs));
    hide FlattenAll, Flatten, AllAbsent;
    assert |es| > 0 ==> |InList(es)| > 0;
    v := FoldTreeVals(vs).value;
    assert AsPart(v) == FoldAst(AsParts(vs));
  }

  /** An opening leaf, what the expressions leave, and a closing one. */
  lemma BracketsFold(a: Ast, v: Val, b: Ast, kids: seq<Ast>) returns (w: Val)
    requires a.children == [] && b.children == [] && TreeOrNull(v) && Flatten(AsPart(v)) == kids
    requires v.Null? <==> kids == []
    ensures FoldTreeVals([Tree(a), v]) == Some(w) && FoldTreeVals([w, Tree(b)]) == Some(Tree(Root([a] + kids + [b])))
  {
    FlattenTwo(Present(a), AsPart(v));
    w := if v.Null? then Tree(a) else Tree(Root([a] + kids));
    assert AsParts([Tree(a), v]) == [Present(a), AsPart(v)];
    assert FoldTreeVals([Tree(a), v]) == Some(w);
    FlattenTwo(AsPart(w), Present(b));
    assert AsParts([w, Tree(b)]) == [AsPart(w), Present(b)];
    assert Flatten(AsPart(w)) == if v.Null? then [a] else [a] + kids;
    assert [a] + [] == [a];
  }

  lemma ExprsFold(g: Grammar, text: string, depth: int, i: nat, es: seq<Ast>, v: Val, m: nat)
    requires Rounds(g, text, Name(EXPR, "expr"), depth, i, Trees(es), m) && FoldTreeVals(Trees(es)) == Some(v)
    ensures Succeeds(g, text, Exprs(), depth, i, v, m)
  {
    FoldsExactly(FoldTree, Trees(es), v);
    hide Rounds, Name, Folds, FoldTreeVals;
  }

  lemma OneChain(x: Parser)
    ensures Chain([x]) == And(FoldTree, [Pass, x])
  {
    assert [x][..0] == [];
  }

  lemma ThreeChain(x: Parser, y: Parser, z: Parser)
    ensures Chain([x, y, z]) == And(FoldTree, [And(FoldTree, [And(FoldTree, [Pass, x]), y]), z])
  {
    assert [x, y, z][..2] == [x, y] && [x, y][..1] == [x] && [x][..0] == [];
    assert Chain([x]) == And(FoldTree, [Pass, x]);
    assert Chain([x, y]) == And(FoldTree, [Chain([x]), y]);
  }

  /** Two leaves around expressions, of which the second may be missing. */
  lemma BracketsRead(g: Grammar, text: string, x: Parser, z: Parser, i: nat, depth: int, a: Ast, from: nat,
      es: seq<Ast>, m: nat, r: Reading)
    requires i <= |text| && depth >= 1 && AreEntries(es) && a.children == []
    requires ReadsAs(g, text, x, depth, i, Read(a, from)) && ReadsAs(g, text, z, depth, m, r)
    requires Rounds(g, text, Name(EXPR, "expr"), depth, from, Trees(es), m)
    requires r.Read? ==> r.tree.children == []
    ensures ReadsAs(g, text, Chain([x, Exprs(), z]), depth, i,
        if r.Read? then Read(Root([a] + InList(es) + [r.tree]), r.end) else Nothing)
  {
    hide Rounds, Name, IsEntry, FoldTreeVals, Folds, Succeeds, Fails, Chain, Exprs, Flatten;
    var v := EntriesFold(es);
    ExprsFold(g, text, depth, from, es, v, m);
    ThreeChain(x, Exprs(), z);
    ChainReads(g, text, x, i, depth, Read(a, from));
    OneChain(x);
    BracketsFollow(g, text, Chain([x]), Exprs(), z, i, depth, a, from, v, m, r, InList(es));
  }

  lemma BracketsFollow(g: Grammar, text: string, x: Parser, y: Parser, z: Parser, i: nat, depth: int, a: Ast,
      from: nat, v: Val, m: nat, r: Reading, kids: seq<Ast>)
    requires i <= |text| && depth >= 1 && a.children == [] && TreeOrNull(v) && Flatten(AsPart(v)) == kids
    requires v.Null? <==> kids == []
    requires ReadsAs(g, text, x, depth, i, Read(a, from)) && ReadsAs(g, text, z, depth, m, r)
    requires Succeeds(g, text, y, depth, from, v, m) && (r.Read? ==> r.tree.children == [])
    ensures ReadsAs(g, text, And(FoldTree, [And(FoldTree, [x, y]), z]), depth, i,
        if r.Read? then Read(Root([a] + kids + [r.tree]), r.end) else Nothing)
  {
    hide FoldTreeVals, Flatten, TreeOrNull;
    var b := if r.Read? then r.tree else a;
    var w := BracketsFold(a, v, b, kids);
    PairSucceeds(g, text, FoldTree, x, y, depth, i, Tree(a), from, v, m, w);
    if r.Read? {
      PairSucceeds(g, text, FoldTree, And(FoldTree, [x, y]), z, depth, i, w, m, Tree(b), r.end,
        Tree(Root([a] + kids + [b])));
    } else {
      PairFails(g, text, FoldTree, And(FoldTree, [x, y]), z, depth, i, w, m, m);
    }
  }

  /** A term whose first factor is missing. */
  lemma BracketMissing(g: Grammar, text: string, x: Parser, z: Parser, i: nat, depth: int)
    requires i <= |text| && depth >= 1 && ReadsAs(g, text, x, depth, i, Nothing)
    ensures ReadsAs(g, text, Chain([x, Exprs(), z]), depth, i, Nothing)
  {
    hide Exprs;
    ThreeChain(x, Exprs(), z);
    var c := And(FoldTree, [Pass, x]);
    ChainReads(g, text, x, i, depth, Nothing);
    assert Chain([x]) == c;
    PairFails(g, text, FoldTree, c, Exprs(), depth, i, Null, i, i);
    PairFails(g, text, FoldTree, And(FoldTree, [c, Exprs()]), z, depth, i, Null, i, i);
  }

  // ----- the grammar reads what the reader reads -----

  /** The grammar with a parser for numbers that matches as its expression does. */
  ghost predicate IsLispy(g: Grammar, text: string, number: Parser, begin: Parser, end: Parser, depth: int) {
    && depth >= 1 && g == GrammarOf(LispyRules(number, begin, end))
    && forall i | 0 <= i <= |text| :: MatchesAs(g, text, number, depth, i, MatchNumber(text, i))
  }

  function MatchNumber(text: string, i: nat): Matching
    requires i <= |text|
  {
    var k := if i < |text| && text[i] == '-' then i + 1 else i;
    var m := SkipDigits(text, k);
    if m == k then NoMatch else Upto(m)
  }

  lemma RefReads(g: Grammar, text: string, id: nat, i: nat, depth: int, r: Reading)
    requires id < |g| && ReadsAs(g, text, g[id], depth, i, r)
    ensures ReadsAs(g, text, Ref(id), depth, i, r)
  {}

  lemma NumberReads(g: Grammar, text: string, number: Parser, begin: Parser, end: Parser, i: nat, depth: int)
    requires i <= |text| && IsLispy(g, text, number, begin, end, depth)
    ensures ReadsAs(g, text, Ref(NUMBER), depth, i, ReadNumber(text, i))
  {
    var m := MatchNumber(text, i);
    assert MatchesAs(g, text, number, depth, i, m);
    assert g[NUMBER] == Chain([Token(number, "regex")]);
    hide Token, Chain, SkipBlanks, SkipDigits, LispyRules, GrammarOf;
    if m.Upto? {
      TokenReads(g, text, number, "regex", i, m.end, depth);
    } else {
      TokenFails(g, text, number, "regex", i, depth);
    }
    ChainReads(g, text, Token(number, "regex"), i, depth, ReadNumber(text, i));
    RefReads(g, text, NUMBER, i, depth, ReadNumber(text, i));
  }

  lemma {:induction false} FirstOfAt(rs: seq<Reading>, k: nat)
    requires k <= |rs| && (forall j | 0 <= j < k :: rs[j].Nothing?) && (k < |rs| ==> rs[k].Read?)
    ensures FirstOf(rs) == if k < |rs| then rs[k] else Nothing
  {
    if k > 0 { FirstOfAt(rs[1..], k - 1); }
  }

  function SymbolReadings(text: string, i: nat): seq<Reading>
    requires i <= |text|
  {
    [ReadWord(text, i, "string", "list"), ReadWord(text, i, "string", "head"), ReadWord(text, i, "string", "tail"),
     ReadWord(text, i, "string", "join"), ReadWord(text, i, "string", "eval"), ReadWord(text, i, "char", "+"),
     ReadWord(text, i, "char", "-"), ReadWord(text, i, "char", "/"), ReadWord(text, i, "char", "*"),
     ReadWord(text, i, "char", "%"), ReadWord(text, i, "char", "^")]
  }

  lemma FirstSymbol(text: string, i: nat)
    requires i <= |text|
    ensures FirstOf(SymbolReadings(text, i)) == ReadSymbol(text, i)
  {
    var rs := SymbolReadings(text, i);
    forall c: char ensures WordAt(text, i, [c]) <==> i < |text| && text[i] == c { OneCharWord(text, i, c); }
    hide WordAt, SkipBlanks, Leaf;
    var k := if rs[0].Read? then 0 else if rs[1].Read? then 1 else if rs[2].Read? then 2 else if rs[3].Read? then 3
      else if rs[4].Read? then 4 else if rs[5].Read? then 5 else if rs[6].Read? then 6 else if rs[7].Read? then 7
      else if rs[8].Read? then 8 else if rs[9].Read? then 9 else if rs[10].Read? then 10 else 11;
    FirstOfAt(rs, k);
    hide FirstOf;
  }

  lemma SymbolsRead(g: Grammar, text: string, i: nat, depth: int, k: nat)
    requires i <= |text| && depth >= 1 && k < 11
    ensures |SymbolRule()[k]| == 1 && ReadsAs(g, text, SymbolRule()[k][0], depth, i, SymbolReadings(text, i)[k])
  {
    hide Word, Char, ReadWord, ReadsAs;
    if k < 5 {
      var s := if k == 0 then "list" else if k == 1 then "head" else if k == 2 then "tail" else if k == 3 then "join"
        else "eval";
      WordReads(g, text, s, i, depth);
    } else {
      var c := if k == 5 then '+' else if k == 6 then '-' else if k == 7 then '/' else if k == 8 then '*'
        else if k == 9 then '%' else '^';
      CharReads(g, text, c, i, depth);
    }
  }

  lemma SymbolReads(g: Grammar, text: string, number: Parser, begin: Parser, end: Parser, i: nat, depth: int)
    requires i <= |text| && IsLispy(g, text, number, begin, end, depth)
    ensures ReadsAs(g, text, Ref(SYMBOL), depth, i, ReadSymbol(text, i))
  {
    var ts, rs := SymbolRule(), SymbolReadings(text, i);
    assert g[SYMBOL] == Alternatives(ts) && |ts| == |rs| == 11;
    hide SymbolRule, SymbolReadings, ReadsAs, Alternatives, LispyRules, GrammarOf;
    forall k | 0 <= k < |ts| ensures |ts[k]| == 1 && ReadsAs(g, text, ts[k][0], depth, i, rs[k]) {
      SymbolsRead(g, text, i, depth, k);
    }
    FirstSymbol(text, i);
    RuleReads(g, text, ts, i, depth, rs);
    RefReads(g, text, SYMBOL, i, depth, ReadSymbol(text, i));
  }

  lemma ListRule(number: Parser, begin: Parser, end: Parser, quoted: bool)
    ensures var g := GrammarOf(LispyRules(number, begin, end));
      g[if quoted then QEXPR else SEXPR] ==
        if quoted then Chain([Char('{'), Exprs(), Char('}')]) else Chain([Char('('), Exprs(), Char(')')])
  {
    hide Chain, Char, Exprs, SymbolRule, ExprRule;
  }

  lemma ExprRuleIs(number: Parser, begin: Parser, end: Parser)
    ensures GrammarOf(LispyRules(number, begin, end))[EXPR] == Alternatives(ExprRule())
  {
    hide Chain, Char, Exprs, SymbolRule, ExprRule, Alternatives;
  }

  predicate Opens(text: string, i: nat, quoted: bool) {
    i < |text| && text[i] == if quoted then '{' else '('
  }

  function ReadingOf(text: string, i: nat, quoted: bool): Reading
    requires i <= |text|
  {
    if Opens(text, i, quoted) then ReadList(text, i, if quoted then '}' else ')') else Nothing
  }

  /** A list in brackets, given that expressions read behind its opening. */
  lemma {:induction false} ListReads(g: Grammar, text: string, number: Parser, begin: Parser, end: Parser, i: nat,
      depth: int, quoted: bool)
    requires i <= |text| && IsLispy(g, text, number, begin, end, depth)
    ensures ReadsAs(g, text, Ref(if quoted then QEXPR else SEXPR), depth, i, ReadingOf(text, i, quoted))
    decreases |text| - i, 0
  {
    hide ReadsAs, Char, Exprs, Chain, LispyRules, GrammarOf, ReadExprs, SkipBlanks, IsLispy;
    assert depth >= 1
        && g == GrammarOf(LispyRules(number, begin, end)) by { LispyIs(g, text, number, begin, end, depth); }
    var open, close := if quoted then '{' else '(', if quoted then '}' else ')';
    ListRule(number, begin, end, quoted);
    CharReads(g, text, open, i, depth);
    OneCharWord(text, i, open);
    if Opens(text, i, quoted) {
      var from := SkipBlanks(text, i + 1);
      var (es, m) := ReadExprs(text, from);
      ExprsRead(g, text, number, begin, end, from, depth);
      CharReads(g, text, close, m, depth);
      OneCharWord(text, m, close);
      BracketsRead(g, text, Char(open), Char(close), i, depth, Leaf(text, i, "char", [open]), from, es, m,
        ReadWord(text, m, "char", [close]));
    } else {
      BracketMissing(g, text, Char(open), Char(close), i, depth);
    }
    RulesCount(number, begin, end);
    RefReads(g, text, if quoted then QEXPR else SEXPR, i, depth, ReadingOf(text, i, quoted));
  }

  lemma LispyIs(g: Grammar, text: string, number: Parser, begin: Parser, end: Parser, depth: int)
    requires IsLispy(g, text, number, begin, end, depth)
    ensures depth >= 1 && g == GrammarOf(LispyRules(number, begin, end))
  {}

  lemma RulesCount(number: Parser, begin: Parser, end: Parser)
    ensures |GrammarOf(LispyRules(number, begin, end))| == 6
  {}

  function ExprReadings(text: string, i: nat): seq<Reading>
    requires i <= |text|
  {
    var at := At(text, i);
    [NamedReading(ReadNumber(text, i), "number", at), NamedReading(ReadSymbol(text, i), "symbol", at),
     NamedReading(ReadingOf(text, i, false), "sexpr", at), NamedReading(ReadingOf(text, i, true), "qexpr", at)]
  }

  lemma FirstExpr(text: string, i: nat)
    requires i <= |text|
    ensures FirstOf(ExprReadings(text, i)) == ReadExpr(text, i)
  {
    hide ReadNumber, ReadSymbol, ReadList, Standing, Named;
    var rs := ExprReadings(text, i);
    var k := if rs[0].Read? then 0 else if rs[1].Read? then 1 else if rs[2].Read? then 2 else if rs[3].Read? then 3
      else 4;
    FirstOfAt(rs, k);
    hide FirstOf;
  }

  lemma {:induction false} ExprReads(g: Grammar, text: string, number: Parser, begin: Parser, end: Parser, i: nat,
      depth: int)
    requires i <= |text| && IsLispy(g, text, number, begin, end, depth)
    ensures ReadsAs(g, text, Ref(EXPR), depth, i, ReadExpr(text, i))
    decreases |text| - i, 1
  {
    hide ReadsAs, Name, LispyRules, GrammarOf, ReadExpr, ReadNumber, ReadSymbol, ReadingOf, Alternatives, IsLispy,
      NamedReading, Standing, FirstOf;
    LispyIs(g, text, number, begin, end, depth);
    var at := At(text, i);
    NumberReads(g, text, number, begin, end, i, depth);
    NameReads(g, text, NUMBER, "number", i, depth, ReadNumber(text, i));
    SymbolReads(g, text, number, begin, end, i, depth);
    NameReads(g, text, SYMBOL, "symbol", i, depth, ReadSymbol(text, i));
    ListReads(g, text, number, begin, end, i, depth, false);
    NameReads(g, text, SEXPR, "sexpr", i, depth, ReadingOf(text, i, false));
    ListReads(g, text, number, begin, end, i, depth, true);
    NameReads(g, text, QEXPR, "qexpr", i, depth, ReadingOf(text, i, true));
    RuleReads(g, text, ExprRule(), i, depth, ExprReadings(text, i));
    FirstExpr(text, i);
    ExprRuleIs(number, begin, end);
    RulesCount(number, begin, end);
    RefReads(g, text, EXPR, i, depth, ReadExpr(text, i));
  }

  lemma MoreExprs(g: Grammar, text: string, x: Parser, depth: int, i: nat, e: Ast, k: nat, es: seq<Ast>, m: nat)
    requires ReadsAs(g, text, x, depth, i, Read(e, k)) && Rounds(g, text, x, depth, k, Trees(es), m)
    requires IsEntry(e) && AreEntries(es)
    ensures AreEntries([e] + es) && Rounds(g, text, x, depth, i, Trees([e] + es), m)
  {
    hide Rounds, Succeeds;
    OneRound(g, text, x, depth, i, Tree(e), k, Trees(es), m);
    assert Trees([e] + es) == [Tree(e)] + Trees(es);
  }

  lemma NoExprs(g: Grammar, text: string, x: Parser, depth: int, i: nat)
    requires ReadsAs(g, text, x, depth, i, Nothing)
    ensures AreEntries([]) && Rounds(g, text, x, depth, i, Trees([]), i)
  {
    NoRound(g, text, x, depth, i, i);
    hide Rounds;
    assert Trees([]) == [];
  }

  lemma {:induction false} ExprsRead(g: Grammar, text: string, number: Parser, begin: Parser, end: Parser, i: nat,
      depth: int)
    requires i <= |text| && IsLispy(g, text, number, begin, end, depth)
    ensures var (es, m) := ReadExprs(text, i);
      AreEntries(es) && Rounds(g, text, Name(EXPR, "expr"), depth, i, Trees(es), m)
    decreases |text| - i, 2
  {
    hide Name, ReadExpr, Standing, IsLispy, Rounds, ReadsAs, AreEntries, Trees;
    var x, r := Name(EXPR, "expr"), ReadExpr(text, i);
    LispyIs(g, text, number, begin, end, depth);
    ExprReads(g, text, number, begin, end, i, depth);
    NameReads(g, text, EXPR, "expr", i, depth, r);
    if r.Read? {
      ExprsRead(g, text, number, begin, end, r.end, depth);
      var (es, m) := ReadExprs(text, r.end);
      MoreExprs(g, text, x, depth, i, Named(r.tree, "expr", At(text, i)), r.end, es, m);
    } else {
      NoExprs(g, text, x, depth, i);
    }
  }

  // ----- parsers without names -----

  predicate Nameless(p: Parser) {
    && !p.Ref?
    && (Wraps(p) ==> Nameless(p.x))
    && (Lists(p) ==> forall i | 0 <= i < |p.xs| :: Nameless(p.xs[i]))
  }

  lemma {:induction false} PlainIsNameless(p: Parser)
    requires Plain({}, p)
    ensures Nameless(p)
    decreases p
  {
    if Wraps(p) {
      PlainIsNameless(p.x);
    } else if Lists(p) {
      forall i | 0 <= i < |p.xs| ensures Nameless(p.xs[i]) { PlainIsNameless(p.xs[i]); }
    }
  }

  /** The grammar does not matter to a parser without names. */
  lemma {:induction false} NamelessRuns(g: Grammar, text: string, p: Parser, c: Cursor, depth: int, fuel: nat)
    requires Nameless(p)
    ensures Run(g, text, p, c, depth, fuel) == Run([], text, p, c, depth, fuel)
    decreases fuel, p, 1
  {
    if p.Many? {
      NamelessRepeats(g, text, p.f, p.x, false, c, depth, [], fuel);
    } else if p.Many1? {
      NamelessRepeats(g, text, p.f, p.x, true, c, depth, [], fuel);
    } else if p.Count? {
      NamelessCounts(g, text, p.n, p.f, p.x, c, depth, [], fuel);
    } else if p.Or? {
      if p.xs != [] { NamelessChoices(g, text, p.xs, c, depth, fuel); }
    } else if p.And? {
      if p.xs != [] { NamelessSequences(g, text, p.f, p.xs, c, c, depth, [], fuel); }
    } else if Wraps(p) {
      NamelessRuns(g, text, p.x, c, if p.Predict? then depth - 1 else depth, fuel);
    }
  }

  lemma {:induction false} NamelessRepeats(g: Grammar, text: string, f: Fold, x: Parser, once: bool, c: Cursor,
      depth: int, vs: seq<Val>, fuel: nat)
    requires Nameless(x)
    ensures RunMany(g, text, f, x, once, c, depth, vs, fuel) == RunMany([], text, f, x, once, c, depth, vs, fuel)
    decreases fuel, x, 2
  {
    NamelessRuns(g, text, x, c, depth, fuel);
    ManyUnfolds(g, text, f, x, once, c, depth, vs, fuel);
    ManyUnfolds([], text, f, x, once, c, depth, vs, fuel);
    hide *;
    var o := Run([], text, x, c, depth, fuel);
    if o.Ok? && fuel > 0 { NamelessRepeats(g, text, f, x, once, o.to, depth, vs + [o.v], fuel - 1); }
  }

  lemma {:induction false} NamelessCounts(g: Grammar, text: string, n: int, f: Fold, x: Parser, c: Cursor,
      depth: int, vs: seq<Val>, fuel: nat)
    requires Nameless(x)
    ensures RunCount(g, text, n, f, x, c, depth, vs, fuel) == RunCount([], text, n, f, x, c, depth, vs, fuel)
    decreases fuel, x, 2, 4 - |vs| + (if n > 4 then n else 4)
  {
    hide Run, Folded;
    if !(n <= |vs| && 4 <= |vs|) {
      NamelessRuns(g, text, x, c, depth, fuel);
      CountUnfolds(g, text, n, f, x, c, depth, vs, fuel);
      CountUnfolds([], text, n, f, x, c, depth, vs, fuel);
      hide *;
      var o := Run([], text, x, c, depth, fuel);
      if o.Ok? && |vs| + 1 != n { NamelessCounts(g, text, n, f, x, o.to, depth, vs + [o.v], fuel); }
    }
  }

  lemma {:induction false} NamelessChoices(g: Grammar, text: string, xs: seq<Parser>, c: Cursor, depth: int,
      fuel: nat)
    requires forall i | 0 <= i < |xs| :: Nameless(xs[i])
    ensures RunOr(g, text, xs, c, depth, fuel) == RunOr([], text, xs, c, depth, fuel)
    decreases fuel, xs, 0
  {
    hide Run, Nameless;
    if xs != [] {
      NamelessRuns(g, text, xs[0], c, depth, fuel);
      var o := Run([], text, xs[0], c, depth, fuel);
      if o.Bad? { NamelessChoices(g, text, xs[1..], o.to, depth, fuel); }
    }
  }

  lemma {:induction false} NamelessSequences(g: Grammar, text: string, f: Fold, xs: seq<Parser>, from: Cursor,
      c: Cursor, depth: int, vs: seq<Val>, fuel: nat)
    requires forall i | 0 <= i < |xs| :: Nameless(xs[i])
    ensures RunAnd(g, text, f, xs, from, c, depth, vs, fuel) == RunAnd([], text, f, xs, from, c, depth, vs, fuel)
    decreases fuel, xs, 0
  {
    hide Run, Nameless, Folded;
    if xs != [] {
      NamelessRuns(g, text, xs[0], c, depth, fuel);
      var o := Run([], text, xs[0], c, depth, fuel);
      if o.Ok? { NamelessSequences(g, text, f, xs[1..], from, o.to, depth, vs + [o.v], fuel); }
    }
  }

  /** What a regular expression becomes matches as it does, whatever the grammar. */
  lemma RegexMatches(g: Grammar, text: string, r: Regex, depth: int, i: nat)
    requires NoTimes(r) && i <= |text| && depth >= 1
    ensures MatchesAs(g, text, Optimise(Compile(r)), depth, i, Match(r, text, i))
  {
    var p, q, c, fuel := Compile(r), Optimise(Compile(r)), Standing(text, i), |text|;
    StandPosition(text, i);
    CompiledIsFine(r);
    hide Run, Compile, Optimise, Match, NoTimes, Standing, Plain, Slicing, Succeeds, Fails;
    CompiledMatches(r, text, i, depth, fuel);
    RegexSlices(r, text, c, depth, fuel);
    OptimiseKeepsPlain({}, p);
    PlainIsNameless(q);
    NamelessRuns(g, text, q, c, depth, fuel);
    var m := Match(r, text, i);
    assert Run(g, text, q, c, depth, fuel) == MatchOutcome(text, i, i, m);
    assert Reaches(g, text, q, depth, i, MatchOutcome(text, i, i, m));
    if m.Upto? {
      SucceedsExactly(g, text, q, depth, i, Str(text[i..m.end]), m.end);
    } else if m.NoMatch? {
      FailsExactly(g, text, q, depth, i, i);
    }
  }

  // ----- programs -----

  lemma AnchorsMatch(text: string, i: nat)
    requires i <= |text| && NoTimes(Ends.BeginExpr()) && NoTimes(Ends.EndExpr())
    ensures Match(Ends.BeginExpr(), text, i) == if MpcMatching.AtStart(text, i) then Upto(i) else NoMatch
    ensures Match(Ends.EndExpr(), text, i) == if AtEnd(text, i) then Upto(i) else NoMatch
  {
    assert [LineStart][1..] == [] && [LineEnd][1..] == [];
    assert MatchInTurn([LineStart], text, i) == Match(LineStart, text, i);
    assert MatchInTurn([LineEnd], text, i) == Match(LineEnd, text, i);
  }

  /** The three expressions of the grammar, as they become parsers. */
  function LispyGrammar(): Grammar {
    GrammarOf(LispyRules(Optimise(Compile(Ends.NumberExpr())), Optimise(Compile(Ends.BeginExpr())),
        Optimise(Compile(Ends.EndExpr()))))
  }

  lemma ExpressionsCount()
    ensures NoTimes(Ends.NumberExpr()) && NoTimes(Ends.BeginExpr()) && NoTimes(Ends.EndExpr())
  {
    Ends.ExpressionsEnd();
  }

  lemma GrammarIsLispy(text: string, depth: int)
    requires depth >= 1
    ensures IsLispy(LispyGrammar(), text, Optimise(Compile(Ends.NumberExpr())), Optimise(Compile(Ends.BeginExpr())),
        Optimise(Compile(Ends.EndExpr())), depth)
  {
    ExpressionsCount();
    hide Compile, Optimise, LispyRules, GrammarOf, MatchesAs, Match, NoTimes, Ends.NumberExpr;
    var g, number := LispyGrammar(), Optimise(Compile(Ends.NumberExpr()));
    forall i | 0 <= i <= |text| ensures MatchesAs(g, text, number, depth, i, MatchNumber(text, i)) {
      RegexMatches(g, text, Ends.NumberExpr(), depth, i);
      NumberMatches(text, i);
    }
  }

  /** Every text and every place in it: the grammar reads an expression there just when the reader does,
      with the same tree and the same end, and otherwise fails where it began. */
  lemma ExpressionsAreRead(text: string, i: nat, depth: int)
    requires i <= |text| && depth >= 1
    ensures ReadsAs(LispyGrammar(), text, Ref(EXPR), depth, i, ReadExpr(text, i))
  {
    hide ReadsAs, ReadExpr, LispyGrammar, Optimise, Compile;
    GrammarIsLispy(text, depth);
    ExprReads(LispyGrammar(), text, Optimise(Compile(Ends.NumberExpr())), Optimise(Compile(Ends.BeginExpr())),
      Optimise(Compile(Ends.EndExpr())), i, depth);
  }

  /** A whole text is a program of the grammar just when it is one for the reader. */
  lemma ProgramsAreRead(text: string, depth: int)
    requires depth >= 1
    ensures ReadsAs(LispyGrammar(), text, Ref(LISPY), depth, 0, ReadProgram(text))
  {
    hide ReadsAs, ReadExprs, LispyRules, GrammarOf, Optimise, Compile, Token, Exprs, Chain, MatchesAs, SkipBlanks,
        Match,
      NoTimes, Standing;
    var number, begin, end :=
      Optimise(Compile(Ends.NumberExpr())), Optimise(Compile(Ends.BeginExpr())), Optimise(Compile(Ends.EndExpr()));
    var g := LispyGrammar();
    GrammarIsLispy(text, depth);
    ExpressionsCount();
    RegexMatches(g, text, Ends.BeginExpr(), depth, 0);
    AnchorsMatch(text, 0);
    AnchorReads(g, text, begin, 0, depth, true);
    var start := SkipBlanks(text, 0);
    var (es, m) := ReadExprs(text, start);
    ExprsRead(g, text, number, begin, end, start, depth);
    RegexMatches(g, text, Ends.EndExpr(), depth, m);
    AnchorsMatch(text, m);
    AnchorReads(g, text, end, m, depth, AtEnd(text, m));
    BracketsRead(g, text, Token(begin, "regex"), Token(end, "regex"), 0, depth, Leaf(text, 0, "regex", ""), start, es,
        m,
      AnchorReading(text, m, AtEnd(text, m)));
    ProgramRule(number, begin, end);
    RulesCount(number, begin, end);
    RefReads(g, text, LISPY, 0, depth, ReadProgram(text));
  }

  function AnchorReading(text: string, i: nat, holds: bool): Reading
    requires i <= |text|
  {
    if holds then Read(Leaf(text, i, "regex", ""), SkipBlanks(text, i)) else Nothing
  }

  lemma AnchorReads(g: Grammar, text: string, x: Parser, i: nat, depth: int, holds: bool)
    requires i <= |text| && depth >= 1 && MatchesAs(g, text, x, depth, i, if holds then Upto(i) else NoMatch)
    ensures ReadsAs(g, text, Token(x, "regex"), depth, i, AnchorReading(text, i, holds))
  {
    hide Token, Standing, SkipBlanks;
    if holds {
      assert text[i..i] == "";
      TokenReads(g, text, x, "regex", i, i, depth);
    } else {
      TokenFails(g, text, x, "regex", i, depth);
    }
  }

  lemma ProgramRule(number: Parser, begin: Parser, end: Parser)
    ensures GrammarOf(LispyRules(number, begin, end))[LISPY] ==
        Chain([Token(begin, "regex"), Exprs(), Token(end, "regex")])
  {
    hide Chain, Token, Char, Exprs, SymbolRule, ExprRule;
  }

  /** A reading is the only outcome. */
  lemma OnlyReading(g: Grammar, text: string, p: Parser, depth: int, i: nat, r: Reading, v: Val, j: nat)
    requires i <= |text| && ReadsAs(g, text, p, depth, i, r)
    ensures Succeeds(g, text, p, depth, i, v, j) <==> r.Read? && v == Tree(r.tree) && j == r.end
    ensures Fails(g, text, p, depth, i, j) <==> r.Nothing? && j == i
  {
    hide Succeeds, Fails;
    if r.Read? {
      OneSuccess(g, text, p, depth, i, Tree(r.tree), r.end, v, j);
    } else {
      if Succeeds(g, text, p, depth, i, v, j) { OneSuccess(g, text, p, depth, i, v, j, v, i); }
      if Fails(g, text, p, depth, i, j) { OneFailure(g, text, p, depth, i, i, j); }
    }
  }

  /** Optimising all rules changes nothing that is read. */
  lemma OptimisedReads(text: string, id: nat, depth: int, i: nat, r: Reading)
    requires i <= |text| && depth >= 1 && ReadsAs(LispyGrammar(), text, Ref(id), depth, i, r)
    ensures ReadsAs(OptimiseAll(LispyGrammar()), text, Ref(id), depth, i, r)
  {
    var g := LispyGrammar();
    hide Succeeds, Fails, Standing, LispyGrammar, Reaches;
    if r.Read? {
      SucceedsExactly(g, text, Ref(id), depth, i, Tree(r.tree), r.end);
      OptimisedReaches(text, id, depth, i, Ok(Tree(r.tree), Standing(text, r.end)));
      SucceedsExactly(OptimiseAll(g), text, Ref(id), depth, i, Tree(r.tree), r.end);
    } else {
      FailsExactly(g, text, Ref(id), depth, i, i);
      OptimisedReaches(text, id, depth, i, Bad(Standing(text, i)));
      FailsExactly(OptimiseAll(g), text, Ref(id), depth, i, i);
    }
  }

  lemma OptimisedReaches(text: string, id: nat, depth: int, i: nat, o: Outcome)
    requires i <= |text| && Reaches(LispyGrammar(), text, Ref(id), depth, i, o) && !o.Wild?
    ensures Reaches(OptimiseAll(LispyGrammar()), text, Ref(id), depth, i, o)
  {
    var g, c := LispyGrammar(), Standing(text, i);
    ExpressionsCount();
    hide Run, Optimise, OptimiseAll, Compile, LispyRules, GrammarOf, Standing, NoTimes;
    var fuel: nat :| Run(g, text, Ref(id), c, depth, fuel) == o;
    LispySound(Ends.NumberExpr(), Ends.BeginExpr(), Ends.EndExpr(), text, id, c, depth, fuel);
    assert Run(OptimiseAll(g), text, Ref(id), c, depth, fuel) == o;
  }

  /** What the Lispy grammar accepts, once optimised: a text is parsed from its beginning with a result just
      when the reader reads a program, and the result is its tree. */
  lemma ProgramsExactly(text: string, v: Val, j: nat)
    ensures Succeeds(OptimiseAll(LispyGrammar()), text, Ref(LISPY), 1, 0, v, j) <==>
        ReadProgram(text).Read? && v == Tree(ReadProgram(text).tree) && j == ReadProgram(text).end
    ensures Fails(OptimiseAll(LispyGrammar()), text, Ref(LISPY), 1, 0, j) <==> ReadProgram(text).Nothing? && j == 0
  {
    hide ReadsAs, Succeeds, Fails, LispyGrammar, OptimiseAll, ReadProgram;
    ProgramsAreRead(text, 1);
    OptimisedReads(text, LISPY, 1, 0, ReadProgram(text));
    OnlyReading(OptimiseAll(LispyGrammar()), text, Ref(LISPY), 1, 0, ReadProgram(text), v, j);
  }
}
