/**
 * The string functions of PHP that the keyword code relies on:
 * `strtolower` (ASCII), `explode(' ', ...)`, `implode(' ', ...)` and `empty()` on a string.
 */
module Text {

  /** ASCII lower-casing of one character. */
  function LowerChar(c: char): (r: char)
    ensures 'A' <= c <= 'Z' ==> r == (c as int - 'A' as int + 'a' as int) as char
    ensures !('A' <= c <= 'Z') ==> r == c
    ensures !('A' <= r <= 'Z')
  {
    if 'A' <= c <= 'Z' then (c as int - 'A' as int + 'a' as int) as char else c
  }

  /** `strtolower`: every ASCII capital replaced by its small letter, nothing else touched. */
  function Lower(s: string): (r: string)
    ensures |r| == |s|
    ensures forall i :: 0 <= i < |s| ==> r[i] == LowerChar(s[i])
  {
    seq(|s|, i requires 0 <= i < |s| => LowerChar(s[i]))
  }

  lemma LowerIdempotent(s: string)
    ensures Lower(Lower(s)) == Lower(s)
  {
  }

  /** Text without capitals is left alone. */
  lemma LowerOfLowercase(s: string)
    requires forall i :: 0 <= i < |s| ==> !('A' <= s[i] <= 'Z')
    ensures Lower(s) == s
  {
  }

  /** PHP's `empty()` on a string: true for "" and for "0". */
  predicate PhpEmpty(s: string) {
    s == "" || s == "0"
  }

  /** Index of the first space of `s`. */
  function FirstSpace(s: string): (r: nat)
    requires ' ' in s
    ensures r < |s| && s[r] == ' ' && ' ' !in s[..r]
  {
    if s[0] == ' ' then 0
    else
      assert ' ' in s[1..] by {
        var k :| 0 <= k < |s| && s[k] == ' ';
        assert s[1..][k - 1] == ' ';
      }
      var r := 1 + FirstSpace(s[1..]);
      assert s[..r] == [s[0]] + s[1..][..r - 1];
      r
  }

  /**
   * `explode(' ', s)`: the pieces of `s` between single spaces. Empty pieces are kept,
   * so "a  b" gives ["a", "", "b"] and "" gives [""].
   */
  function Explode(s: string): (r: seq<string>)
    ensures |r| >= 1
    ensures forall w :: w in r ==> ' ' !in w
    decreases |s|
  {
    if ' ' in s then
      var i := FirstSpace(s);
      [s[..i]] + Explode(s[i + 1..])
    else
      [s]
  }

  /** `implode(' ', ws)`: the pieces joined with one space between neighbours. */
  function Implode(ws: seq<string>): (r: string)
    ensures |ws| == 1 ==> r == ws[0]
  {
    if |ws| == 0 then ""
    else if |ws| == 1 then ws[0]
    else ws[0] + " " + Implode(ws[1..])
  }

  /** Joining the pieces of `explode` gives back the original string. */
  lemma {:induction false} ImplodeExplode(s: string)
    ensures Implode(Explode(s)) == s
    decreases |s|
  {
    if ' ' in s {
      var i := FirstSpace(s);
      ImplodeExplode(s[i + 1..]);
      var rest := Explode(s[i + 1..]);
      assert Explode(s) == [s[..i]] + rest;
      assert ([s[..i]] + rest)[1..] == rest;
      assert s == s[..i] + " " + s[i + 1..];
    }
  }

  /** A space-free piece in front of a space splits off as the first piece. */
  lemma ExplodeAfterPiece(w: string, t: string)
    requires ' ' !in w
    ensures Explode(w + " " + t) == [w] + Explode(t)
  {
    var s := w + " " + t;
    assert s[|w|] == ' ';
    var i := FirstSpace(s);
    assert i == |w|;
    assert s[..i] == w;
    assert s[i + 1..] == t;
  }

  /** A non-empty list of space-free pieces survives a join followed by a split. */
  lemma {:induction false} ExplodeImplode(ws: seq<string>)
    requires |ws| >= 1
    requires forall w :: w in ws ==> ' ' !in w
    ensures Explode(Implode(ws)) == ws
  {
    if |ws| == 1 {
      assert ' ' !in ws[0];
    } else {
      assert ' ' !in ws[0];
      assert forall w :: w in ws[1..] ==> w in ws;
      ExplodeImplode(ws[1..]);
      ExplodeAfterPiece(ws[0], Implode(ws[1..]));
      assert ws == [ws[0]] + ws[1..];
    }
  }
}
