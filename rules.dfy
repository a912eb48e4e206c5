/**
 * The request-body rules the controllers apply with zod: trimmed length bounds for
 * comments, posts, titles, descriptions and playlist fields, and the registration rules.
 */
module Rules {
  import opened Text

  /** content: z.string().trim().min(1).max(300). */
  predicate ValidCommentContent(s: string) { 1 <= |Trim(s)| <= 300 }

  /** content: z.string().trim().min(1).max(1000). */
  predicate ValidPostContent(s: string) { 1 <= |Trim(s)| <= 1000 }

  /** title: z.string().trim().min(2).max(80). */
  predicate ValidTitle(s: string) { 2 <= |Trim(s)| <= 80 }

  /** description: z.string().trim().min(4).max(300). */
  predicate ValidDescription(s: string) { 4 <= |Trim(s)| <= 300 }

  /** The stored text is the trimmed input, and it passes the same rule again, so an edit that resubmits it is accepted. */
  lemma StoredTextRevalidates(s: string)
    ensures ValidCommentContent(s) ==> ValidCommentContent(Trim(s))
    ensures ValidPostContent(s) ==> ValidPostContent(Trim(s))
    ensures ValidTitle(s) ==> ValidTitle(Trim(s))
    ensures ValidDescription(s) ==> ValidDescription(Trim(s))
  {
    TrimIdempotent(s);
  }

  /** Padding never makes a text valid or invalid: only the trimmed characters count. */
  lemma {:induction false} PaddingIsIgnored(s: string, pad: string)
    requires Blank(pad)
    requires Trim(s) != []
    ensures Trim(pad + s + pad) == Trim(s)
  {
    var t, n := pad + s + pad, LeadingSpace(s);
    var v := s[n..];
    PaddedLeading(s, pad);
    DropPaddedPrefix(s, pad, n);
    PaddedTrailing(v, pad);
    TrimIs(t, v + pad);
    TrimIs(s, v);
  }

  lemma TrimIs(x: string, v: string)
    requires v == x[LeadingSpace(x)..]
    ensures Trim(x) == v[..|v| - TrailingSpace(v)]
  {
  }

  lemma DropPaddedPrefix(s: string, pad: string, n: nat)
    requires n <= |s|
    ensures (pad + s + pad)[|pad| + n..] == s[n..] + pad
  {
  }

  lemma {:induction false} PaddedLeading(s: string, pad: string)
    requires Blank(pad)
    requires Trim(s) != []
    ensures LeadingSpace(pad + s + pad) == |pad| + LeadingSpace(s)
    ensures LeadingSpace(s) < |s|
  {
    LeadingBelowLength(s);
    SkipLeading(pad, s + pad);
    assert pad + s + pad == pad + (s + pad);
    LeadingOfPrefix(s, pad);
  }

  lemma {:induction false} LeadingBelowLength(s: string)
    requires Trim(s) != []
    ensures LeadingSpace(s) < |s|
    ensures !IsWhitespace(s[LeadingSpace(s)])
  {
    var i :| 0 <= i < |s| && !IsWhitespace(s[i]);
    LeadingStopsAt(s, i);
  }

  lemma {:induction false} LeadingStopsAt(s: string, i: nat)
    requires i < |s| && !IsWhitespace(s[i])
    ensures LeadingSpace(s) <= i
    ensures !IsWhitespace(s[LeadingSpace(s)])
  {
    if IsWhitespace(s[0]) {
      LeadingStopsAt(s[1..], i - 1);
    }
  }

  lemma {:induction false} SkipLeading(pad: string, rest: string)
    requires Blank(pad)
    ensures LeadingSpace(pad + rest) == |pad| + LeadingSpace(rest)
  {
    if pad != [] {
      assert (pad + rest)[0] == pad[0] && IsWhitespace(pad[0]);
      assert LeadingSpace(pad + rest) == 1 + LeadingSpace((pad + rest)[1..]);
      assert (pad + rest)[1..] == pad[1..] + rest;
      SkipLeading(pad[1..], rest);
    } else {
      assert pad + rest == rest;
    }
  }

  lemma {:induction false} LeadingOfPrefix(s: string, tail: string)
    requires LeadingSpace(s) < |s|
    ensures LeadingSpace(s + tail) == LeadingSpace(s)
  {
    if IsWhitespace(s[0]) {
      assert (s + tail)[1..] == s[1..] + tail;
      LeadingOfPrefix(s[1..], tail);
    }
  }

  lemma {:induction false} PaddedTrailing(u: string, pad: string)
    requires Blank(pad)
    requires u != [] && !IsWhitespace(u[0])
    ensures var t := u + pad; t[..|t| - TrailingSpace(t)] == u[..|u| - TrailingSpace(u)]
  {
    SkipTrailing(u, pad);
    var t := u + pad;
    assert t[..|t| - TrailingSpace(t)] == t[..|u| - TrailingSpace(u)];
  }

  lemma {:induction false} SkipTrailing(u: string, pad: string)
    requires Blank(pad)
    ensures TrailingSpace(u + pad) == |pad| + TrailingSpace(u)
  {
    if pad != [] {
      var t := u + pad;
      assert t[..|t| - 1] == u + pad[..|pad| - 1];
      SkipTrailing(u, pad[..|pad| - 1]);
    } else {
      assert u + pad == u;
    }
  }

  // ----- registration -----

  predicate IsUsernameChar(c: char) { IsLetter(c) || c == '_' }

  /** username: trimmed, 3 to 20 characters, only letters and underscores. */
  predicate ValidUsername(s: string) {
    var t := Trim(s);
    3 <= |t| <= 20 && forall i | 0 <= i < |t| :: IsUsernameChar(t[i])
  }

  predicate IsEmailChar(c: char) { !IsWhitespace(c) && c != '@' }

  /**
   * The pattern ^[^\s@]+@[^\s@]+\.[^\s@]+$ : one '@' with something before it, and after it
   * a '.' that has at least one character on each side; nothing is whitespace.
   */
  predicate EmailShape(s: string) {
    exists at, dot | 0 < at && at + 1 < dot && dot + 1 < |s| ::
      && s[at] == '@' && s[dot] == '.'
      && (forall k | 0 <= k < |s| && k != at :: IsEmailChar(s[k]))
  }

  /** email: trimmed, lowercased, then 8 to 70 characters of the email pattern. */
  predicate ValidEmail(s: string) {
    var t := ToLower(Trim(s));
    8 <= |t| <= 70 && EmailShape(t)
  }

  /** fullName: trimmed, 4 to 30 characters, only letters and whitespace. */
  predicate ValidFullName(s: string) {
    var t := Trim(s);
    4 <= |t| <= 30 && forall i | 0 <= i < |t| :: IsLetter(t[i]) || IsWhitespace(t[i])
  }

  const Specials: string := "$&+,:;=?@#|'<>.^*()%!-"

  /** password: untrimmed, 6 to 100 characters, with a digit, an upper-case letter and a listed special. */
  predicate ValidPassword(s: string) {
    && 6 <= |s| <= 100
    && (exists i | 0 <= i < |s| :: IsDigit(s[i]))
    && (exists i | 0 <= i < |s| :: IsUpper(s[i]))
    && (exists i | 0 <= i < |s| :: s[i] in Specials)
  }

  /** An email's '@' is unique, so the part before it is determined. */
  lemma EmailHasOneAt(s: string, i: nat, j: nat)
    requires EmailShape(s)
    requires i < |s| && j < |s| && s[i] == '@' && s[j] == '@'
    ensures i == j
  {
  }

  /** A text with no whitespace at either end is its own trim. */
  lemma TrimKeepsUnpadded(s: string)
    requires s != [] && !IsWhitespace(s[0]) && !IsWhitespace(s[|s| - 1])
    ensures Trim(s) == s
  {
    assert LeadingSpace(s) == 0;
    assert TrailingSpace(s) == 0;
  }

  /** Sample usernames: underscores pass, a short name and a digit do not. */
  lemma UsernameSamples()
    ensures ValidUsername("alice_b")
    ensures !ValidUsername("al")
    ensures !ValidUsername("alice1")
  {
    UsernameAccepted();
    ShortUsernameRejected();
    DigitUsernameRejected();
  }

  lemma UsernameAccepted()
    ensures ValidUsername("alice_b")
  {
    TrimKeepsUnpadded("alice_b");
  }

  lemma ShortUsernameRejected()
    ensures !ValidUsername("al")
  {
    TrimKeepsUnpadded("al");
  }

  lemma DigitUsernameRejected()
    ensures !ValidUsername("alice1")
  {
    TrimKeepsUnpadded("alice1");
    assert "alice1"[5] == '1';
  }

  /** Sample email: upper case is lowered before the pattern applies (padding is covered by PaddingIsIgnored). */
  lemma EmailSampleAccepted()
    ensures ValidEmail("Alice@example.com")
  {
    TrimKeepsUnpadded("Alice@example.com");
    LowersToSample();
    SampleHasEmailShape();
  }

  lemma LowersToSample()
    ensures ToLower("Alice@example.com") == "alice@example.com"
  {
  }

  lemma SampleHasEmailShape()
    ensures EmailShape("alice@example.com")
  {
    var e := "alice@example.com";
    assert e[5] == '@' && e[13] == '.';
    assert forall k | 0 <= k < |e| && k != 5 :: IsEmailChar(e[k]);
  }

  /** Sample email: without a dot after the '@' the pattern fails. */
  lemma EmailSampleRejected()
    ensures !ValidEmail("alice@examplecom")
  {
    var f := "alice@examplecom";
    TrimKeepsUnpadded(f);
    LowerSampleUnchanged();
    SampleHasNoDot();
    NoDotNoShape(f);
  }

  lemma SampleHasNoDot()
    ensures forall k | 0 <= k < |"alice@examplecom"| :: "alice@examplecom"[k] != '.'
  {
  }

  lemma LowerSampleUnchanged()
    ensures ToLower("alice@examplecom") == "alice@examplecom"
  {
  }

  lemma NoDotNoShape(f: string)
    requires forall k | 0 <= k < |f| :: f[k] != '.'
    ensures !EmailShape(f)
  {
  }

  /** Sample passwords: an upper-case letter is required. */
  lemma PasswordSamples()
    ensures ValidPassword("Secret1!")
    ensures !ValidPassword("secret1!")
  {
    assert "Secret1!"[6] == '1' && "Secret1!"[0] == 'S' && "Secret1!"[7] == '!';
    assert forall i | 0 <= i < |"secret1!"| :: !IsUpper("secret1!"[i]);
  }
}
