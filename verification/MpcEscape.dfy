/** The table-driven escaping of mpc and the round trip through it. */
module MpcEscape {
  import opened Slices

  const NUL: char := '\0'

  /** Character inputs[i] is written as the two characters of outputs[i]. */
  datatype Table = Table(inputs: seq<char>, outputs: seq<string>)

  const BELL: char := 7 as char
  const BACKSPACE: char := 8 as char
  const VTAB: char := 11 as char
  const FORMFEED: char := 12 as char

  const C_TABLE: Table := Table(
    [BELL, BACKSPACE, FORMFEED, '\n', '\r', '\t', VTAB, '\\', '\'', '\"', NUL],
    ["\\a", "\\b", "\\f", "\\n", "\\r", "\\t", "\\v", "\\\\", "\\'", "\\\"", "\\0"])

  const RAW_REGEX: Table := Table(['/'], ["\\/"])

  const RAW_STRING: Table := Table(['\"'], ["\\\""])

  const RAW_CHAR: Table := Table(['\''], ["\\'"])

  predicate IsTable(t: Table) {
    |t.inputs| == |t.outputs| && forall i | 0 <= i < |t.outputs| :: |t.outputs[i]| == 2
  }

  /** The first row from i on whose character is c, or the number of rows. */
  function RowOf(t: Table, c: char, i: nat): (k: nat)
    requires IsTable(t) && i <= |t.inputs|
    ensures i <= k <= |t.inputs|
    ensures k < |t.inputs| ==> t.inputs[k] == c
    ensures forall j :: i <= j < k ==> t.inputs[j] != c
    decreases |t.inputs| - i
  {
    if i == |t.inputs| || t.inputs[i] == c then i else RowOf(t, c, i + 1)
  }

  /** The first row from i on whose two characters s begins with, or the number of rows. */
  function RowAt(t: Table, s: string, i: nat): (k: nat)
    requires IsTable(t) && i <= |t.outputs|
    ensures i <= k <= |t.outputs|
    ensures k < |t.outputs| ==> t.outputs[k] <= s
    ensures forall j :: i <= j < k ==> !(t.outputs[j] <= s)
    decreases |t.outputs| - i
  {
    if i == |t.outputs| || t.outputs[i] <= s then i else RowAt(t, s, i + 1)
  }

  function EscapeChar(t: Table, c: char): string
    requires IsTable(t)
  {
    var k := RowOf(t, c, 0);
    if k < |t.outputs| then t.outputs[k] else [c]
  }

  function Escape(t: Table, s: string): string
    requires IsTable(t)
  {
    if s == "" then "" else EscapeChar(t, s[0]) + Escape(t, s[1..])
  }

  /** A terminator appended to a string adds nothing. */
  function Piece(c: char): string {
    if c == NUL then "" else [c]
  }

  function Unescape(t: Table, s: string): string
    requires IsTable(t)
    decreases |s|
  {
    if s == "" then ""
    else
      var k := RowAt(t, s, 0);
      if k < |t.outputs| then Piece(t.inputs[k]) + Unescape(t, s[2..]) else [s[0]] + Unescape(t, s[1..])
  }

  lemma Regroup(a: string, b: string, c: string)
    ensures a + b + c == a + (b + c)
  {}

  lemma EscapeStep(t: Table, s: string, at: nat)
    requires IsTable(t) && at < |s|
    ensures Escape(t, s[at..]) == EscapeChar(t, s[at]) + Escape(t, s[at + 1..])
  {
    assert s[at..][1..] == s[at + 1..];
  }

  method EscapeNew(t: Table, s: string) returns (y: string)
    requires IsTable(t)
    ensures y == Escape(t, s)
    ensures forall style :: t == TableOf(style) ==> Written(style, s, y)
  {
    forall style | t == TableOf(style) ensures Written(style, s, Escape(t, s)) { EscapeWrites(style, s, Escape(t, s)); }
    hide Written, TableOf;
    y := "";
    var at := 0;
    while at < |s|
      invariant 0 <= at <= |s|
      invariant y + Escape(t, s[at..]) == Escape(t, s)
    {
      hide Escape;
      EscapeStep(t, s, at);
      ghost var before := y;
      var i := 0;
      while i < |t.outputs| && s[at] != t.inputs[i]
        invariant 0 <= i <= |t.outputs| && RowOf(t, s[at], i) == RowOf(t, s[at], 0)
      {
        i := i + 1;
      }
      y := y + if i < |t.outputs| then t.outputs[i] else [s[at]];
      Regroup(before, EscapeChar(t, s[at]), Escape(t, s[at + 1..]));
      at := at + 1;
    }
  }

  /** The two characters of a row stand at position at. */
  predicate StandsAt(s: string, at: nat, row: string)
    requires |row| == 2
  {
    at + 1 < |s| && s[at] == row[0] && s[at + 1] == row[1]
  }

  lemma StandsAtIsPrefix(s: string, at: nat, row: string)
    requires |row| == 2 && at <= |s|
    ensures StandsAt(s, at, row) <==> row <= s[at..]
  {}

  lemma UnescapeStep(t: Table, s: string, at: nat)
    requires IsTable(t) && at < |s|
    ensures var k := RowAt(t, s[at..], 0);
      if k < |t.outputs| then
        at + 2 <= |s| && Unescape(t, s[at..]) == Piece(t.inputs[k]) + Unescape(t, s[at + 2..])
      else Unescape(t, s[at..]) == [s[at]] + Unescape(t, s[at + 1..])
  {
    var k := RowAt(t, s[at..], 0);
    if k < |t.outputs| {
      assert |t.outputs[k]| == 2 && s[at..][2..] == s[at + 2..];
    } else {
      assert s[at..][1..] == s[at + 1..];
    }
  }

  method UnescapeNew(t: Table, s: string) returns (y: string)
    requires IsTable(t)
    ensures y == Unescape(t, s)
    ensures forall style :: t == TableOf(style) ==> ReadBack(style, s, y)
  {
    forall style | t == TableOf(style) ensures ReadBack(style, s, Unescape(t, s)) {
      UnescapeReads(style, s, Unescape(t, s));
    }
    hide ReadBack, TableOf;
    y := "";
    var at := 0;
    while at < |s|
      invariant 0 <= at <= |s|
      invariant y + Unescape(t, s[at..]) == Unescape(t, s)
    {
      hide Unescape, RowAt, Piece;
      var i := FindRow(t, s, at);
      UnescapeStep(t, s, at);
      if i < |t.outputs| {
        Regroup(y, Piece(t.inputs[i]), Unescape(t, s[at + 2..]));
        y := y + Piece(t.inputs[i]);
        at := at + 2;
      } else {
        Regroup(y, [s[at]], Unescape(t, s[at + 1..]));
        y := y + [s[at]];
        at := at + 1;
      }
    }
  }

  method FindRow(t: Table, s: string, at: nat) returns (i: nat)
    requires IsTable(t) && at <= |s|
    ensures i == RowAt(t, s[at..], 0)
  {
    i := 0;
    while i < |t.outputs| && !StandsAt(s, at, t.outputs[i])
      invariant 0 <= i <= |t.outputs| && RowAt(t, s[at..], i) == RowAt(t, s[at..], 0)
    {
      StandsAtIsPrefix(s, at, t.outputs[i]);
      i := i + 1;
    }
    if i < |t.outputs| { StandsAtIsPrefix(s, at, t.outputs[i]); }
  }

  /** Every row is a backslash and a character of its own. Either the backslash is escaped
      too, or the rows repeat the character they stand for. */
  predicate Reversible(t: Table) {
    && IsTable(t)
    && (forall i | 0 <= i < |t.outputs| :: t.outputs[i][0] == '\\')
    && (forall i, j | 0 <= i < j < |t.outputs| :: t.outputs[i][1] != t.outputs[j][1])
    && ('\\' in t.inputs || forall i | 0 <= i < |t.outputs| :: t.outputs[i][1] == t.inputs[i])
  }

  /** No row can begin in front of an escaped string, unless with its first character. */
  lemma NoRowAcross(t: Table, c: char, rest: string)
    requires Reversible(t) && RowOf(t, c, 0) == |t.inputs|
    ensures RowAt(t, [c] + Escape(t, rest), 0) == |t.outputs|
  {}

  /** No other row begins where the row k is written. */
  lemma RowWritten(t: Table, k: nat, rest: string)
    requires Reversible(t) && k < |t.outputs|
    ensures var e := t.outputs[k] + rest; RowAt(t, e, 0) == k && e[2..] == rest
  {
    var e := t.outputs[k] + rest;
    assert t.outputs[k] <= e && e[1] == t.outputs[k][1];
    assert forall j | 0 <= j < k :: t.outputs[j][1] != e[1];
  }

  /** Unescaping an escaped string gives it back, for every string without a terminator. */
  lemma {:induction false} RoundTrip(t: Table, s: string)
    requires Reversible(t) && NUL !in s
    ensures Unescape(t, Escape(t, s)) == s
  {
    if s != "" {
      var rest := Escape(t, s[1..]);
      RoundTrip(t, s[1..]);
      var k := RowOf(t, s[0], 0);
      if k < |t.outputs| {
        RowWritten(t, k, rest);
      } else {
        NoRowAcross(t, s[0], s[1..]);
        assert ([s[0]] + rest)[1..] == rest;
      }
      hide RowOf, RowAt, Reversible;
    }
  }

  /** All four tables of mpc are of this kind. */
  lemma TablesAreReversible()
    ensures Reversible(C_TABLE) && Reversible(RAW_REGEX) && Reversible(RAW_STRING) && Reversible(RAW_CHAR)
  {}

  // ----- what the tables say -----

  /** The four pairs of functions that escape and read back. */
  datatype Style = InC | InRegex | InString | InChar

  function TableOf(style: Style): (t: Table)
    ensures IsTable(t)
  {
    match style
    case InC => C_TABLE
    case InRegex => RAW_REGEX
    case InString => RAW_STRING
    case InChar => RAW_CHAR
  }

  /** A letter that stands for a character behind a backslash: by their codes in C, and for the others
      the one character that would end the text. */
  predicate Denotes(style: Style, letter: char, c: char) {
    match style
    case InC =>
      || (letter == 'a' && c as int == 7) || (letter == 'b' && c as int == 8) || (letter == 't' && c as int == 9)
      || (letter == 'n' && c as int == 10) || (letter == 'v' && c as int == 11) || (letter == 'f' && c as int == 12)
      || (letter == 'r' && c as int == 13) || (letter == '0' && c as int == 0)
      || (letter == c && c as int in {34, 39, 92})
    case InRegex => letter == c && c as int == 47
    case InString => letter == c && c as int == 34
    case InChar => letter == c && c as int == 39
  }

  ghost function Denoted(style: Style, letter: char): (c: char)
    requires exists c :: Denotes(style, letter, c)
    ensures Denotes(style, letter, c)
  {
    var c :| Denotes(style, letter, c); c
  }

  ghost predicate Special(style: Style, c: char) {
    exists letter :: Denotes(style, letter, c)
  }

  /** What is written for a character: a backslash and its letter, or the character. */
  ghost predicate Writes(style: Style, c: char, image: string) {
    if Special(style, c) then |image| == 2 && image[0] == '\\' && Denotes(style, image[1], c) else image == [c]
  }

  /** Where the image of the character k begins. */
  ghost function ImageAt(style: Style, s: string, k: nat): nat
    requires k <= |s|
  {
    if k == 0 then 0 else ImageAt(style, s, k - 1) + if Special(style, s[k - 1]) then 2 else 1
  }

  /** The text y has, for every character of s, its image in its place. */
  ghost predicate Written(style: Style, s: string, y: string) {
    |y| == ImageAt(style, s, |s|) && FirstImages(style, s, |s|, y)
  }

  ghost predicate FirstImages(style: Style, s: string, n: nat, y: string)
    requires n <= |s|
  {
    forall k | 0 <= k < n :: ImageStands(style, s, k, y)
  }

  ghost predicate ImageStands(style: Style, s: string, k: nat, y: string)
    requires k < |s|
  {
    var at, next := ImageAt(style, s, k), ImageAt(style, s, k + 1);
    next <= |y| && Writes(style, s[k], y[at..next])
  }

  /** The text y is s read from the left: a backslash and a letter are the character it stands for, where
      a terminator is left out; every other character is read as it is, a backslash before any other
      character too. */
  ghost predicate ReadBack(style: Style, s: string, y: string)
    decreases |s|
  {
    if s == "" then y == ""
    else if |s| >= 2 && s[0] == '\\' && exists c :: Denotes(style, s[1], c) then
      var piece := Piece(Denoted(style, s[1]));
      piece <= y && ReadBack(style, s[2..], y[|piece|..])
    else y != "" && y[0] == s[0] && ReadBack(style, s[1..], y[1..])
  }

  lemma OneLetter(style: Style, a: char, b: char, c: char, d: char)
    requires Denotes(style, a, c) && Denotes(style, b, d)
    ensures a == b <==> c == d
  {}

  lemma RowDenotes(style: Style, k: nat)
    requires k < |TableOf(style).inputs|
    ensures var t := TableOf(style); t.outputs[k][0] == '\\' && Denotes(style, t.outputs[k][1], t.inputs[k])
  {}

  lemma RowsAreAll(style: Style, letter: char, c: char)
    requires Denotes(style, letter, c)
    ensures var t := TableOf(style); exists k | 0 <= k < |t.inputs| :: t.inputs[k] == c
  {
    var t := TableOf(style);
    if style.InC? {
      assert t.inputs[0] as int == 7 && t.inputs[1] as int == 8 && t.inputs[2] as int == 12 && t.inputs[3] as int == 10;
      assert t.inputs[4] as int == 13 && t.inputs[5] as int == 9 && t.inputs[6] as int == 11
          && t.inputs[7] as int == 92;
      assert t.inputs[8] as int == 39 && t.inputs[9] as int == 34 && t.inputs[10] as int == 0;
    } else {
      assert t.inputs[0] == c;
    }
  }

  lemma CharWritten(style: Style, c: char, image: string)
    ensures Writes(style, c, image) <==> image == EscapeChar(TableOf(style), c)
  {
    var t := TableOf(style);
    var k := RowOf(t, c, 0);
    if k < |t.inputs| {
      RowDenotes(style, k);
      if Writes(style, c, image) { OneLetter(style, image[1], t.outputs[k][1], c, c); }
    } else if letter :| Denotes(style, letter, c) {
      RowsAreAll(style, letter, c);
      assert false;
    }
  }

  lemma {:induction false} EscapeAppend(t: Table, a: string, b: string)
    requires IsTable(t)
    ensures Escape(t, a + b) == Escape(t, a) + Escape(t, b)
  {
    if a == "" {
      assert a + b == b;
    } else {
      assert (a + b)[1..] == a[1..] + b;
      EscapeAppend(t, a[1..], b);
    }
  }

  lemma EscapeNext(t: Table, s: string, k: nat)
    requires IsTable(t) && k < |s|
    ensures Escape(t, s[..k + 1]) == Escape(t, s[..k]) + EscapeChar(t, s[k])
  {
    assert s[..k + 1] == s[..k] + [s[k]];
    EscapeAppend(t, s[..k], [s[k]]);
    assert Escape(t, [s[k]]) == EscapeChar(t, s[k]) + Escape(t, [s[k]][1..]);
  }

  lemma {:induction false} ImagesStand(style: Style, s: string, n: nat, y: string)
    requires n <= |s| && ImageAt(style, s, n) <= |y|
    ensures var t := TableOf(style);
      && |Escape(t, s[..n])| == ImageAt(style, s, n)
      && (FirstImages(style, s, n, y) <==> y[..ImageAt(style, s, n)] == Escape(t, s[..n]))
    decreases n
  {
    var t := TableOf(style);
    if n > 0 {
      var m := n - 1;
      var at, next := ImageAt(style, s, m), ImageAt(style, s, n);
      ImagesStand(style, s, m, y);
      EscapeNext(t, s, m);
      ImageLength(style, s[m]);
      CharWritten(style, s[m], y[at..next]);
      OneMoreImage(style, s, n, y);
      hide Escape, EscapeChar, TableOf, Writes, ImageAt, FirstImages;
      SameHalves(y, at, next, Escape(t, s[..m]), EscapeChar(t, s[m]));
    }
  }

  lemma OneMoreImage(style: Style, s: string, n: nat, y: string)
    requires 0 < n <= |s| && ImageAt(style, s, n) <= |y|
    ensures FirstImages(style, s, n, y) <==>
        FirstImages(style, s, n - 1, y) && Writes(style, s[n - 1], y[ImageAt(style, s, n - 1)..ImageAt(style, s, n)])
  {
    hide Writes;
    assert ImageStands(style, s, n - 1, y) <==>
           Writes(style, s[n - 1], y[ImageAt(style, s, n - 1)..ImageAt(style, s, n)]);
    hide ImageStands;
  }

  lemma ImageLength(style: Style, c: char)
    ensures |EscapeChar(TableOf(style), c)| == if Special(style, c) then 2 else 1
  {
    CharWritten(style, c, EscapeChar(TableOf(style), c));
  }

  /** Escaping writes every image in its place, and nothing else. */
  lemma EscapeWrites(style: Style, s: string, y: string)
    ensures Written(style, s, y) <==> y == Escape(TableOf(style), s)
  {
    var n, t := |s|, TableOf(style);
    assert s[..n] == s;
    ImagesStand(style, s, n, seq(ImageAt(style, s, n), _ => NUL));
    if |y| == ImageAt(style, s, n) {
      ImagesStand(style, s, n, y);
      assert y[..|y|] == y;
    }
  }

  lemma RowMeans(style: Style, s: string)
    requires s != ""
    ensures var t := TableOf(style);
      var k := RowAt(t, s, 0);
      && (k < |t.outputs| <==> |s| >= 2 && s[0] == '\\' && exists c :: Denotes(style, s[1], c))
      && (k < |t.outputs| ==> Denotes(style, s[1], t.inputs[k]))
  {
    hide TableOf, RowAt, Denotes;
    var t := TableOf(style);
    var k := RowAt(t, s, 0);
    if k < |t.outputs| {
      RowDenotes(style, k);
      assert s[0] == t.outputs[k][0] && s[1] == t.outputs[k][1];
    } else if |s| >= 2 && s[0] == '\\' {
      forall c ensures !Denotes(style, s[1], c) {
        if Denotes(style, s[1], c) { RowFound(style, s, c); }
      }
    }
  }

  lemma RowFound(style: Style, s: string, c: char)
    requires |s| >= 2 && s[0] == '\\' && Denotes(style, s[1], c)
    ensures exists j | 0 <= j < |TableOf(style).outputs| :: TableOf(style).outputs[j] <= s
  {
    var t := TableOf(style);
    RowsAreAll(style, s[1], c);
    assert IsTable(t);
    var j :| 0 <= j < |t.inputs| && t.inputs[j] == c;
    RowDenotes(style, j);
    OneLetter(style, s[1], t.outputs[j][1], c, c);
    hide *;
    PairIsPrefix(t.outputs[j], s);
  }

  lemma PairIsPrefix(pair: string, s: string)
    requires |pair| == 2 && |s| >= 2 && pair[0] == s[0] && pair[1] == s[1]
    ensures pair <= s
  {}

  /** Reading back takes each pair for what it denotes and everything else as it is. */
  lemma {:induction false} UnescapeReads(style: Style, s: string, y: string)
    ensures ReadBack(style, s, y) <==> y == Unescape(TableOf(style), s)
    decreases |s|
  {
    if s != "" {
      var t := TableOf(style);
      var k := RowAt(t, s, 0);
      RowMeans(style, s);
      hide TableOf, RowAt, Denotes;
      if k < |t.outputs| {
        PairRead(style, s, y, t.inputs[k], Unescape(t, s[2..]));
      } else {
        if y != "" { UnescapeReads(style, s[1..], y[1..]); }
        assert y != "" && y[0] == s[0] && y[1..] == Unescape(t, s[1..]) <==> y == [s[0]] + Unescape(t, s[1..]);
      }
    }
  }

  lemma PairRead(style: Style, s: string, y: string, c: char, rest: string)
    requires |s| >= 2 && s[0] == '\\' && Denotes(style, s[1], c) && rest == Unescape(TableOf(style), s[2..])
    ensures ReadBack(style, s, y) <==> y == Piece(c) + rest
    decreases |s|, 0
  {
    OneLetter(style, s[1], s[1], c, Denoted(style, s[1]));
    var piece := Piece(c);
    hide Denotes, Denoted, Unescape, TableOf, Piece;
    if piece <= y {
      UnescapeReads(style, s[2..], y[|piece|..]);
      assert y == piece + y[|piece|..];
      assert ReadBack(style, s, y) <==> ReadBack(style, s[2..], y[|piece|..]);
    } else {
      assert !ReadBack(style, s, y);
    }
  }
}
