/**
  The two regular expressions of the sign-up handler, written as predicates
  over strings rather than run by a regex engine:

    email     ^\w+([\.-]?\w+)*@\w+([\.-]?\w+)*(\.\w{2,3})+$
    password  ^.*(?=.{8,})(?=.*\d)(?=.*[a-z])(?=.*[A-Z]).*$

  Both are applied with `re.search` and no flags, so `^` matches only at the
  start, `.` matches anything but a newline, and `$` matches at the end of
  the subject or just before a newline that ends it. `\w` and `\d` are taken
  as their ASCII classes.

  Each pattern is stated the way a backtracking matcher finds a match (there
  exist positions where the pieces fit) and is then related to a plain
  description of the strings it accepts.
*/
module Patterns {

  // ---------------------------------------------------------------------
  // Character classes and anchors

  /** ASCII `\w`: letters, digits and underscore. */
  predicate IsWordChar(c: char) {
    ('a' <= c <= 'z') || ('A' <= c <= 'Z') || ('0' <= c <= '9') || c == '_'
  }

  /** The character classes the password lookaheads search for. */
  datatype CharClass = Digit | Lower | Upper

  predicate InClass(c: char, k: CharClass) {
    match k
    case Digit => '0' <= c <= '9'
    case Lower => 'a' <= c <= 'z'
    case Upper => 'A' <= c <= 'Z'
  }

  predicate NoNewline(s: string) {
    forall i | 0 <= i < |s| :: s[i] != '\n'
  }

  /** Where `$` (without MULTILINE) matches in `s`: at the very end, or at
      the position of a newline that is the last character. */
  predicate DollarAt(s: string, e: int) {
    e == |s| || (0 <= e == |s| - 1 && s[e] == '\n')
  }

  /** The subject with one trailing newline removed, if it has one: the part
      of the subject a `^...$` match must cover. */
  function StripFinalNewline(s: string): (t: string)
    ensures t == s || t + "\n" == s
    ensures |s| > 0 && s[|s| - 1] == '\n' ==> |t| == |s| - 1
  {
    if |s| > 0 && s[|s| - 1] == '\n' then s[..|s| - 1] else s
  }

  // ---------------------------------------------------------------------
  // Password: ^.*(?=.{8,})(?=.*\d)(?=.*[a-z])(?=.*[A-Z]).*$

  /** `(?=.{8,})` tried at position `p`. */
  predicate LongEnoughAt(s: string, p: int)
    requires 0 <= p <= |s|
  {
    p + 8 <= |s| && NoNewline(s[p..p + 8])
  }

  /** `(?=.*X)` tried at position `p`, for the class X: a character of the
      class is reachable from `p` without crossing a newline. */
  predicate ClassAheadAt(s: string, p: int, k: CharClass)
    requires 0 <= p <= |s|
  {
    exists j | p <= j < |s| :: NoNewline(s[p..j]) && InClass(s[j], k)
  }

  /** A match in which the leading `.*` stops at `p`, where all four
      lookaheads succeed, and the trailing `.*` stops at `e`, where `$`
      matches. */
  predicate PasswordMatchAt(s: string, p: int, e: int)
    requires 0 <= p <= e <= |s|
  {
    && NoNewline(s[..e])
    && DollarAt(s, e)
    && LongEnoughAt(s, p)
    && ClassAheadAt(s, p, Digit)
    && ClassAheadAt(s, p, Lower)
    && ClassAheadAt(s, p, Upper)
  }

  /** `re.search(preg, s)` finds a match. */
  predicate PasswordPatternMatches(s: string) {
    exists p, e | 0 <= p <= e <= |s| :: PasswordMatchAt(s, p, e)
  }

  predicate HasClass(t: string, k: CharClass) {
    exists i | 0 <= i < |t| :: InClass(t[i], k)
  }

  /** The plain reading of the password rule: one line (a single trailing
      newline is tolerated) of at least 8 characters holding a digit, a
      lower-case and an upper-case letter. */
  predicate IsSecurePassword(s: string) {
    var t := StripFinalNewline(s);
    && NoNewline(t)
    && |t| >= 8
    && HasClass(t, Digit)
    && HasClass(t, Lower)
    && HasClass(t, Upper)
  }

  /** A lookahead that succeeds at `p` before the end of the line `s[..e]`
      finds its character inside that line. */
  lemma ClassAheadWithinLine(s: string, p: int, e: int, k: CharClass)
    requires 0 <= p <= e <= |s| && DollarAt(s, e) && NoNewline(s[..e])
    requires ClassAheadAt(s, p, k)
    ensures HasClass(s[..e], k)
  {
    var j :| p <= j < |s| && NoNewline(s[p..j]) && InClass(s[j], k);
    assert s[..e][j] == s[j];
  }

  /** Every password the pattern matches is secure. */
  lemma PasswordMatchIsSecure(s: string, p: int, e: int)
    requires 0 <= p <= e <= |s| && PasswordMatchAt(s, p, e)
    ensures IsSecurePassword(s)
  {
    var t := s[..e];
    assert StripFinalNewline(s) == t by {
      if e == |s| && |s| > 0 {
        assert s[|s| - 1] == t[|s| - 1];
      }
    }
    ClassAheadWithinLine(s, p, e, Digit);
    ClassAheadWithinLine(s, p, e, Lower);
    ClassAheadWithinLine(s, p, e, Upper);
  }

  /** Every secure password is matched with the leading `.*` empty. */
  lemma SecurePasswordMatches(s: string)
    requires IsSecurePassword(s)
    ensures PasswordMatchAt(s, 0, |StripFinalNewline(s)|)
  {
    var t := StripFinalNewline(s);
    var e := |t|;
    assert t == s[..e];
    assert LongEnoughAt(s, 0) by {
      assert s[0..8] == t[0..8];
    }
    forall k: CharClass
      ensures ClassAheadAt(s, 0, k)
    {
      assert HasClass(t, k);
      var i :| 0 <= i < |t| && InClass(t[i], k);
      assert s[i] == t[i];
      assert NoNewline(s[0..i]) by {
        assert s[0..i] == t[..i];
      }
    }
  }

  /** The password pattern accepts exactly the secure passwords. */
  lemma PasswordPatternCharacterised(s: string)
    ensures PasswordPatternMatches(s) <==> IsSecurePassword(s)
  {
    if PasswordPatternMatches(s) {
      var p, e :| 0 <= p <= e <= |s| && PasswordMatchAt(s, p, e);
      PasswordMatchIsSecure(s, p, e);
    }
    if IsSecurePassword(s) {
      SecurePasswordMatches(s);
    }
  }

  // ---------------------------------------------------------------------
  // Email: ^\w+([\.-]?\w+)*@\w+([\.-]?\w+)*(\.\w{2,3})+$

  predicate IsSep(c: char) {
    c == '.' || c == '-'
  }

  predicate AllWord(s: string) {
    forall i | 0 <= i < |s| :: IsWordChar(s[i])
  }

  /** `\w+([\.-]?\w+)*`: runs of word characters joined by at most one '.'
      or '-' at a time; a separator never starts or ends the run and is
      always followed by a word character. */
  predicate IsDottedWords(s: string) {
    && |s| > 0
    && IsWordChar(s[0])
    && IsWordChar(s[|s| - 1])
    && (forall i | 0 <= i < |s| :: IsWordChar(s[i]) || IsSep(s[i]))
    && (forall i | 0 <= i < |s| - 1 :: IsSep(s[i]) ==> IsWordChar(s[i + 1]))
  }

  /** `(\.\w{2,3})+`: one or more groups of a dot and two or three word
      characters. */
  predicate IsSuffixChain(s: string)
    decreases |s|
  {
    && |s| >= 3
    && s[0] == '.'
    && ( (AllWord(s[1..3]) && (|s| == 3 || IsSuffixChain(s[3..])))
      || (|s| >= 4 && AllWord(s[1..4]) && (|s| == 4 || IsSuffixChain(s[4..]))))
  }

  /** A match in which the local part is `s[..i]`, `s[i]` is the '@', the
      domain words are `s[i+1..j]`, the suffix groups are `s[j..e]`, and `$`
      matches at `e`. */
  predicate EmailMatchAt(s: string, i: int, j: int, e: int)
    requires 0 <= i < j <= e <= |s|
  {
    && IsDottedWords(s[..i])
    && s[i] == '@'
    && IsDottedWords(s[i + 1..j])
    && IsSuffixChain(s[j..e])
    && DollarAt(s, e)
  }

  /** `re.search(ereg, s)` finds a match. */
  predicate EmailPatternMatches(s: string) {
    exists i, j, e | 0 <= i < j <= e <= |s| :: EmailMatchAt(s, i, j, e)
  }

  /** Every character of a suffix chain is a dot or a word character. */
  lemma {:induction false} SuffixChainChars(s: string)
    requires IsSuffixChain(s)
    ensures forall k | 0 <= k < |s| :: s[k] == '.' || IsWordChar(s[k])
    decreases |s|
  {
    if AllWord(s[1..3]) && (|s| == 3 || IsSuffixChain(s[3..])) {
      if |s| > 3 {
        SuffixChainChars(s[3..]);
        assert forall k | 3 <= k < |s| :: s[k] == s[3..][k - 3];
      }
      assert forall k | 1 <= k < 3 :: s[k] == s[1..3][k - 1];
    } else {
      if |s| > 4 {
        SuffixChainChars(s[4..]);
        assert forall k | 4 <= k < |s| :: s[k] == s[4..][k - 4];
      }
      assert forall k | 1 <= k < 4 :: s[k] == s[1..4][k - 1];
    }
  }

  /** `s` ends in a dot followed by `n` word characters. */
  predicate EndsWithGroup(s: string, n: int) {
    0 <= n < |s| && s[|s| - n - 1] == '.' && AllWord(s[|s| - n..])
  }

  /** A string ends the way any of its suffixes ends. */
  lemma EndsWithGroupOfSuffix(t: string, j: int, n: int)
    requires 0 <= j <= |t| && EndsWithGroup(t[j..], n)
    ensures EndsWithGroup(t, n)
  {
    var c := t[j..];
    assert c[|c| - n..] == t[|t| - n..];
    assert t[|t| - n - 1] == c[|c| - n - 1];
  }

  /** A suffix chain ends in a dot followed by two or three word characters. */
  lemma {:induction false} SuffixChainEnding(s: string)
    requires IsSuffixChain(s)
    ensures exists n | 2 <= n <= 3 :: EndsWithGroup(s, n)
    decreases |s|
  {
    // the first group is `s[..k]`
    var k := if AllWord(s[1..3]) && (|s| == 3 || IsSuffixChain(s[3..])) then 3 else 4;
    assert k < |s| ==> IsSuffixChain(s[k..]);
    if |s| == k {
      assert s[|s| - (k - 1)..] == s[1..k];
      assert EndsWithGroup(s, k - 1);
    } else {
      SuffixChainEnding(s[k..]);
      var n :| 2 <= n <= 3 && EndsWithGroup(s[k..], n);
      EndsWithGroupOfSuffix(s, k, n);
    }
  }

  /** What every accepted address looks like, once a single trailing newline
      (which `$` lets through) is removed: one line, exactly one '@', and
      after the last '.' exactly two or three word characters. */
  predicate HasEmailShape(t: string) {
    && NoNewline(t)
    && (exists a | 0 <= a < |t| :: t[a] == '@' && forall b | 0 <= b < |t| && t[b] == '@' :: b == a)
    && (exists n | 2 <= n <= 3 :: EndsWithGroup(t, n))
  }

  /** The pieces of a match cover the line `s[..e]` with exactly one '@'. */
  lemma MatchHasOneAt(s: string, i: int, j: int, e: int)
    requires 0 <= i < j <= e <= |s| && EmailMatchAt(s, i, j, e)
    ensures NoNewline(s[..e])
    ensures forall b | 0 <= b < e :: s[b] == '@' <==> b == i
  {
    var chain := s[j..e];
    SuffixChainChars(chain);
    forall b | 0 <= b < e
      ensures s[b] == '@' <==> b == i
      ensures s[b] != '\n'
    {
      if b < i {
        assert s[b] == s[..i][b];
      } else if i < b < j {
        assert s[b] == s[i + 1..j][b - i - 1];
      } else if j <= b {
        assert s[b] == chain[b - j];
      }
    }
  }

  /** Every address the email pattern accepts has the shape above. */
  lemma AcceptedEmailShape(s: string)
    requires EmailPatternMatches(s)
    ensures HasEmailShape(StripFinalNewline(s))
  {
    var i, j, e :| 0 <= i < j <= e <= |s| && EmailMatchAt(s, i, j, e);
    var t := s[..e];
    var chain := s[j..e];
    MatchHasOneAt(s, i, j, e);
    SuffixChainChars(chain);
    SuffixChainEnding(chain);
    assert StripFinalNewline(s) == t by {
      assert t[|t| - 1] == chain[|chain| - 1];
    }
    assert t[i] == '@' && forall b | 0 <= b < |t| && t[b] == '@' :: b == i;
    var n :| 2 <= n <= 3 && EndsWithGroup(chain, n);
    assert chain == t[j..];
    EndsWithGroupOfSuffix(t, j, n);
  }

  /** A typical address and password, "a@b.com" and "Abcdef12", are accepted. */
  lemma ExampleCredentialsAccepted()
    ensures EmailPatternMatches("a@b.com")
    ensures PasswordPatternMatches("Abcdef12")
  {
    var s := "a@b.com";
    assert s[..1] == "a";
    assert s[2..3] == "b";
    assert s[3..7] == ".com";
    assert ".com"[1..4] == "com";
    assert EmailMatchAt(s, 1, 3, 7);
    assert IsSecurePassword("Abcdef12") by {
      assert InClass("Abcdef12"[7], Digit);
      assert InClass("Abcdef12"[1], Lower);
      assert InClass("Abcdef12"[0], Upper);
    }
    PasswordPatternCharacterised("Abcdef12");
  }
}
