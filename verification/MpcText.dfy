/** Where an input stands after so many characters of its text. */
module MpcText {
  import opened MpcAst
  import opened MpcParser

  /** The ends of lines before the character i. */
  function LineEnds(text: string, i: nat): set<nat>
    requires i <= |text|
  {
    set k | 0 <= k < i && text[k] == '\n'
  }

  /** The character with which the line of the character i begins. */
  function LineBegin(text: string, i: nat): (m: nat)
    requires i <= |text|
    ensures m <= i && (m == 0 || text[m - 1] == '\n') && forall k | m <= k < i :: text[k] != '\n'
  {
    if i == 0 || text[i - 1] == '\n' then i else LineBegin(text, i - 1)
  }

  /** The character before i, or a terminator at the beginning. */
  function Before(text: string, i: nat): char
    requires i <= |text|
  {
    if i == 0 then NUL else text[i - 1]
  }

  /** The character i, or the terminator at the end. */
  function After(text: string, i: nat): char {
    if i < |text| then text[i] else NUL
  }

  /** The state and the last character after i characters: row and column count from the last end of a line. */
  function Standing(text: string, i: nat): Cursor
    requires i <= |text|
  {
    Cursor(Position(i, |LineEnds(text, i)|, i - LineBegin(text, i)), Before(text, i))
  }

  lemma StandingBegins(text: string)
    ensures Standing(text, 0) == BEGIN
  {
    assert LineEnds(text, 0) == {};
  }

  lemma StandingSteps(text: string, i: nat)
    requires i < |text|
    ensures Step(Standing(text, i), text[i]) == Standing(text, i + 1)
  {
    assert LineEnds(text, i + 1) == if text[i] == '\n' then LineEnds(text, i) + {i} else LineEnds(text, i);
  }

  /** Reading a word moves the input over it, or as far as the text agrees with it. */
  lemma {:induction false} SpellStands(text: string, i: nat, s: string) returns (n: nat)
    requires i <= |text|
    ensures n <= |s| && i + n <= |text| && text[i..i + n] == s[..n]
    ensures n < |s| ==> i + n == |text| || text[i + n] != s[n]
    ensures Spell(text, Standing(text, i), s) == (Standing(text, i + n), n == |s|)
    decreases |s|
  {
    hide Standing;
    if s != "" && i < |text| && text[i] == s[0] {
      StandingSteps(text, i);
      StandPosition(text, i);
      var m := SpellStands(text, i + 1, s[1..]);
      n := m + 1;
      assert text[i..i + n] == [text[i]] + text[i + 1..i + 1 + m] && s[..n] == [s[0]] + s[1..][..m];
    } else {
      StandPosition(text, i);
      n := 0;
    }
  }

  lemma StandPosition(text: string, i: nat)
    requires i <= |text|
    ensures Standing(text, i).state.pos == i && Standing(text, i).last == Before(text, i)
    ensures Peek(text, Standing(text, i)) == After(text, i)
  {}
}
