/**
 * `String.prototype.trim` as used by the task form and the inline editor.
 * Characters are Unicode scalar values; the whitespace set is the one the
 * ECMAScript standard strips: WhiteSpace (TAB, VT, FF, SP, NBSP, ZWNBSP and
 * every other Zs character) and LineTerminator (LF, CR, LS, PS).
 */
module Text {

  predicate IsWhitespace(c: char)
  {
    var n := c as int;
    || n == 0x09 || n == 0x0A || n == 0x0B || n == 0x0C || n == 0x0D
    || n == 0x20 || n == 0xA0 || n == 0x1680
    || (0x2000 <= n <= 0x200A)
    || n == 0x2028 || n == 0x2029 || n == 0x202F || n == 0x205F
    || n == 0x3000 || n == 0xFEFF
  }

  /** The characters at positions `lo` up to (not including) `hi` are all whitespace. */
  predicate BlankRange(s: string, lo: int, hi: int)
    requires 0 <= lo <= hi <= |s|
  {
    forall x :: lo <= x < hi ==> IsWhitespace(s[x])
  }

  /** Every character is whitespace; JavaScript's `!s.trim()` holds exactly for these. */
  predicate Blank(s: string)
  {
    BlankRange(s, 0, |s|)
  }

  /** Neither end of `s` is whitespace (the empty string qualifies). */
  predicate Tight(s: string)
  {
    s == [] || (!IsWhitespace(s[0]) && !IsWhitespace(s[|s| - 1]))
  }

  /** The number of whitespace characters `s` starts with. */
  function LeadingBlanks(s: string): (n: nat)
    ensures n <= |s| && BlankRange(s, 0, n)
    ensures n < |s| ==> !IsWhitespace(s[n])
    decreases |s|
  {
    if |s| > 0 && IsWhitespace(s[0]) then
      var n := 1 + LeadingBlanks(s[1..]);
      assert forall x :: 1 <= x < n ==> s[x] == s[1..][x - 1];
      n
    else
      0
  }

  /** The number of whitespace characters `s` ends with. */
  function TrailingBlanks(s: string): (n: nat)
    ensures n <= |s| && BlankRange(s, |s| - n, |s|)
    ensures n < |s| ==> !IsWhitespace(s[|s| - n - 1])
    decreases |s|
  {
    if |s| > 0 && IsWhitespace(s[|s| - 1]) then
      var n := 1 + TrailingBlanks(s[..|s| - 1]);
      assert forall x :: |s| - n <= x < |s| - 1 ==> s[x] == s[..|s| - 1][x];
      n
    else
      0
  }

  /**
   * `s.trim()`: the slice of `s` between a blank prefix and a blank suffix
   * that has no whitespace at either end. It is empty exactly when `s` is blank.
   */
  function Trim(s: string): (r: string)
    ensures Blank(s) <==> r == []
    ensures Tight(r)
    ensures exists i :: 0 <= i <= |s| - |r| && r == s[i..i + |r|]
                        && BlankRange(s, 0, i) && BlankRange(s, i + |r|, |s|)
  {
    var a := LeadingBlanks(s);
    if a == |s| then
      assert BlankRange(s, 0, 0) && BlankRange(s, |s|, |s|);
      []
    else
      var b := |s| - TrailingBlanks(s);
      assert a < b;
      s[a..b]
  }

  /** Trimming a string with no whitespace at its ends leaves it as it is. */
  lemma TrimTight(s: string)
    requires Tight(s)
    ensures Trim(s) == s
  {
    if s != [] {
      assert LeadingBlanks(s) == 0;
      assert TrailingBlanks(s) == 0;
    }
  }

  /** Trimming twice is trimming once. */
  lemma TrimIdempotent(s: string)
    ensures Trim(Trim(s)) == Trim(s)
  {
    TrimTight(Trim(s));
  }

  /** Whatever blank margins are cut off, the non-blank middle that remains is `s.trim()`. */
  lemma TrimUnique(s: string, i: int, j: int)
    requires 0 <= i < j <= |s|
    requires BlankRange(s, 0, i) && BlankRange(s, j, |s|) && Tight(s[i..j])
    ensures Trim(s) == s[i..j]
  {
  }
}
