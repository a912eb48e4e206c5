/** The string operations the validators rely on: JavaScript's trim, ASCII case mapping, character classes. */
module Text {

  /** JavaScript's WhiteSpace and LineTerminator characters: what String.prototype.trim strips and what \s matches. */
  predicate IsWhitespace(c: char) {
    var n := c as int;
    (9 <= n <= 13) || n == 0x20 || n == 0xA0 || n == 0x1680 || (0x2000 <= n <= 0x200A)
    || n == 0x2028 || n == 0x2029 || n == 0x202F || n == 0x205F || n == 0x3000 || n == 0xFEFF
  }

  /** Nothing but whitespace, e.g. the padding a client may put around a field. */
  predicate Blank(s: string) { forall i | 0 <= i < |s| :: IsWhitespace(s[i]) }

  predicate IsUpper(c: char) { 'A' <= c <= 'Z' }
  predicate IsLower(c: char) { 'a' <= c <= 'z' }
  predicate IsLetter(c: char) { IsUpper(c) || IsLower(c) }
  predicate IsDigit(c: char) { '0' <= c <= '9' }

  /** Number of whitespace characters at the start of s. */
  function LeadingSpace(s: string): (n: nat)
    ensures n <= |s|
    ensures n < |s| ==> !IsWhitespace(s[n])
  {
    if |s| > 0 && IsWhitespace(s[0]) then 1 + LeadingSpace(s[1..]) else 0
  }

  /** Number of whitespace characters at the end of s. */
  function TrailingSpace(s: string): (n: nat)
    ensures n <= |s|
    ensures n < |s| ==> !IsWhitespace(s[|s| - 1 - n])
  {
    if |s| > 0 && IsWhitespace(s[|s| - 1]) then 1 + TrailingSpace(s[..|s| - 1]) else 0
  }

  /** String.prototype.trim, which zod's .trim() applies before any length check. */
  function Trim(s: string): (r: string)
    ensures |r| <= |s|
    ensures r == [] || (!IsWhitespace(r[0]) && !IsWhitespace(r[|r| - 1]))
  {
    var t := s[LeadingSpace(s)..];
    t[..|t| - TrailingSpace(t)]
  }

  /**
   * The trim is the input with a blank prefix and a blank suffix cut off; with the trim's own ends
   * being non-blank, this pins it down as the longest such infix.
   */
  lemma TrimStripsBlankEnds(s: string)
    ensures exists a, b | 0 <= a <= b <= |s| :: Trim(s) == s[a..b] && Blank(s[..a]) && Blank(s[b..])
  {
    var a := LeadingSpace(s);
    var t := s[a..];
    var b := a + |t| - TrailingSpace(t);
    LeadingIsBlank(s);
    TrailingIsBlank(t);
    assert Trim(s) == s[a..b];
    assert Blank(s[..a]);
    assert Blank(s[b..]) by {
      forall i | 0 <= i < |s[b..]| ensures IsWhitespace(s[b..][i]) {
        assert s[b..][i] == t[|t| - TrailingSpace(t) + i];
      }
    }
  }

  /** The trim is empty exactly when every character is whitespace. */
  lemma TrimEmptyIff(s: string)
    ensures Trim(s) == [] <==> forall i | 0 <= i < |s| :: IsWhitespace(s[i])
  {
    var t := s[LeadingSpace(s)..];
    LeadingIsBlank(s);
    TrailingIsBlank(t);
  }

  lemma {:induction false} LeadingIsBlank(s: string)
    ensures forall i | 0 <= i < LeadingSpace(s) :: IsWhitespace(s[i])
  {
    if |s| > 0 && IsWhitespace(s[0]) {
      LeadingIsBlank(s[1..]);
      forall i | 1 <= i < LeadingSpace(s) ensures IsWhitespace(s[i]) {
        assert s[i] == s[1..][i - 1];
      }
    }
  }

  lemma {:induction false} TrailingIsBlank(s: string)
    ensures forall i | |s| - TrailingSpace(s) <= i < |s| :: IsWhitespace(s[i])
  {
    if |s| > 0 && IsWhitespace(s[|s| - 1]) {
      var p := s[..|s| - 1];
      TrailingIsBlank(p);
      forall i | |s| - TrailingSpace(s) <= i < |s| - 1 ensures IsWhitespace(s[i]) {
        assert s[i] == p[i];
      }
    }
  }

  /** Trimming twice is trimming once: a stored, already trimmed field passes the same check again. */
  lemma TrimIdempotent(s: string)
    ensures Trim(Trim(s)) == Trim(s)
  {
    var r := Trim(s);
    if r != [] {
      assert LeadingSpace(r) == 0;
      assert TrailingSpace(r) == 0;
    }
  }

  /** String.prototype.toLowerCase restricted to ASCII letters. */
  function LowerChar(c: char): (d: char)
    ensures !IsUpper(d)
    ensures IsLetter(d) <==> IsLetter(c)
    ensures IsUpper(c) ==> IsLower(d) && d as int == c as int + 32
    ensures !IsUpper(c) ==> d == c
  {
    if IsUpper(c) then (c as int + 32) as char else c
  }

  function ToLower(s: string): (r: string)
    ensures |r| == |s|
    ensures forall i | 0 <= i < |r| :: !IsUpper(r[i])
    ensures forall i | 0 <= i < |r| :: r[i] == LowerChar(s[i])
  {
    seq(|s|, i requires 0 <= i < |s| => LowerChar(s[i]))
  }

  predicate HasNoUpper(s: string) { forall i | 0 <= i < |s| :: !IsUpper(s[i]) }

  /** Lowercasing leaves a string without upper-case letters unchanged, so it is idempotent. */
  lemma ToLowerFixesLowercase(s: string)
    requires HasNoUpper(s)
    ensures ToLower(s) == s
  {
    assert forall i | 0 <= i < |s| :: ToLower(s)[i] == s[i];
  }

  /** A string holding an upper-case letter differs from every string holding none. */
  lemma UpperDistinguishes(s: string, t: string)
    requires exists i | 0 <= i < |s| :: IsUpper(s[i])
    requires HasNoUpper(t)
    ensures s != t
  {
  }
}
