/** The character classes the scanners' regular expressions name, and `startsWith` at a place. */
module Chars {

  predicate IsDigit(c: char) {
    '0' <= c <= '9'
  }

  /** Past the digits that start here. */
  function DigitsEnd(text: string, at: nat): (end: nat)
    requires at <= |text|
    ensures at <= end <= |text|
    ensures forall i :: at <= i < end ==> IsDigit(text[i])
    ensures end < |text| ==> !IsDigit(text[end])
    decreases |text| - at
  {
    if at < |text| && IsDigit(text[at]) then DigitsEnd(text, at + 1) else at
  }

  predicate IsNameStart(c: char) {
    'A' <= c <= 'Z' || 'a' <= c <= 'z' || c == '_'
  }

  /** `[A-Za-z0-9_]` */
  predicate IsNameChar(c: char) {
    IsNameStart(c) || IsDigit(c)
  }

  /** `[A-Za-z0-9_$]` */
  predicate IsWordChar(c: char) {
    IsNameChar(c) || c == '$'
  }

  /** What `.` matches all of: a regular expression's line terminators are not in it. */
  predicate OneLine(text: string) {
    forall c <- text :: c !in {'\n', '\r', '\U{2028}', '\U{2029}'}
  }

  /** `text.startsWith(part, at)` */
  predicate StartsWith(text: string, part: string, at: nat) {
    at + |part| <= |text| && text[at..at + |part|] == part
  }

  /** `text.replaceAll(c, by)` for a pattern of one character. */
  function ReplaceAll(text: string, c: char, written: string): string {
    if text == "" then "" else
    (if text[0] == c then written else [text[0]]) + ReplaceAll(text[1..], c, written)
  }

  lemma {:induction false} ReplaceAllConcat(a: string, b: string, c: char, written: string)
    ensures ReplaceAll(a + b, c, written) == ReplaceAll(a, c, written) + ReplaceAll(b, c, written)
  {
    if a == "" {
      assert a + b == b;
    } else {
      assert (a + b)[1..] == a[1..] + b;
      ReplaceAllConcat(a[1..], b, c, written);
    }
  }

  /** What stands at a place, and then the rest. */
  lemma Ahead(sql: string, at: nat, piece: string, rest: string)
    requires at <= |sql| && sql[at..] == piece + rest
    ensures at + |piece| <= |sql| && sql[at..at + |piece|] == piece && sql[at + |piece|..] == rest
    ensures at + |piece| < |sql| <==> rest != ""
    ensures rest != "" ==> sql[at + |piece|] == rest[0]
    ensures forall i :: 0 <= i < |piece| ==> sql[at + i] == piece[i]
  {
    assert |sql| == at + |sql[at..]|;
    assert sql[at..at + |piece|] == sql[at..][..|piece|];
    assert sql[at + |piece|..] == sql[at..][|piece|..];
    assert forall i :: 0 <= i < |piece| ==> sql[at + i] == sql[at..][i];
  }

  /** The rest, past a piece. */
  lemma Behead(sql: string, at: nat, piece: string, rest: string)
    requires at <= |sql| && sql[at..] == piece + rest
    ensures at + |piece| <= |sql| && sql[at + |piece|..] == rest
  {
    assert |sql| == at + |sql[at..]|;
    assert sql[at + |piece|..] == sql[at..][|piece|..];
  }

  lemma FirstAhead(sql: string, at: nat, piece: string, rest: string)
    requires at <= |sql| && sql[at..] == piece + rest
    ensures at + |piece| <= |sql| && (at + |piece| < |sql| <==> rest != "")
    ensures piece != "" ==> sql[at] == piece[0]
    ensures rest != "" ==> sql[at + |piece|] == rest[0]
  {
    assert |sql| == at + |sql[at..]|;
    assert piece != "" ==> sql[at] == sql[at..][0];
    assert rest != "" ==> sql[at + |piece|] == sql[at..][|piece|];
  }
}
