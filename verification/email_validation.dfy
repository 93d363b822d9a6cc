/** The client-side syntactic email check `isValidEmail`, which tests a string
    against the regular expression `^[^\s@]+@[^\s@]+\.[^\s@]+$`. */
module EmailValidation {

  /** The class `\s` of ECMAScript regular expressions: the WhiteSpace and
      LineTerminator code points (tab, line feed, vertical tab, form feed,
      carriage return, space, no-break space, ogham space mark, the spaces
      U+2000 to U+200A, line and paragraph separators, narrow no-break space,
      medium mathematical space, ideographic space and the byte order mark). */
  predicate IsWhitespace(c: char) {
    c == '\t' || c == '\n' || c == '\U{000B}' || c == '\U{000C}' || c == '\r' ||
    c == ' ' || c == '\U{00A0}' || c == '\U{1680}' ||
    ('\U{2000}' <= c <= '\U{200A}') ||
    c == '\U{2028}' || c == '\U{2029}' || c == '\U{202F}' || c == '\U{205F}' ||
    c == '\U{3000}' || c == '\U{FEFF}'
  }

  /** A character the class `[^\s@]` accepts. */
  predicate IsSegmentChar(c: char) {
    !IsWhitespace(c) && c != '@'
  }

  /** A string that `[^\s@]+` matches in full. */
  predicate IsSegment(x: string) {
    |x| > 0 && forall i :: 0 <= i < |x| ==> IsSegmentChar(x[i])
  }

  /** The language of the anchored pattern `^[^\s@]+@[^\s@]+\.[^\s@]+$`:
      a local part, `@`, a first domain part, `.`, and a last domain part.
      The domain parts may themselves contain dots. */
  ghost predicate MatchesPattern(s: string) {
    exists l, a, b :: IsSegment(l) && IsSegment(a) && IsSegment(b) && s == l + "@" + a + "." + b
  }

  /** The position of the first occurrence of `c` in `s`. */
  function IndexOf(s: string, c: char): (k: nat)
    requires c in s
    ensures k < |s| && s[k] == c && c !in s[..k]
    ensures forall i :: 0 <= i < k ==> s[i] != c
  {
    if s[0] == c then 0
    else
      var k' := IndexOf(s[1..], c);
      assert s[..k' + 1] == [s[0]] + s[1..][..k'];
      k' + 1
  }

  predicate NoWhitespace(s: string) {
    forall i :: 0 <= i < |s| ==> !IsWhitespace(s[i])
  }

  /** `d` holds a `.` with at least one character before it and one after it. */
  predicate HasInnerDot(d: string) {
    |d| >= 3 && '.' in d[1..|d| - 1]
  }

  /** The check as a decision procedure: no whitespace anywhere, exactly one `@`,
      a non-empty local part before it, and a `.` in the domain after it that has
      at least one character on each side. */
  function IsValidEmail(s: string): (r: bool)
    ensures r ==> '@' in s && 5 <= |s|
  {
    && NoWhitespace(s)
    && multiset(s)['@'] == 1
    && var k := IndexOf(s, '@');
       0 < k && HasInnerDot(s[k + 1..])
  }

  /** The decision procedure accepts exactly the strings the pattern matches. */
  lemma ValidIffMatchesPattern(s: string)
    ensures IsValidEmail(s) <==> MatchesPattern(s)
  {
    if IsValidEmail(s) {
      ValidDecomposes(s);
    }
    if MatchesPattern(s) {
      var l, a, b :| IsSegment(l) && IsSegment(a) && IsSegment(b) && s == l + "@" + a + "." + b;
      DecomposedIsValid(l, a, b);
    }
  }

  /** A non-empty stretch of a whitespace-free string that holds no `@` is a segment. */
  lemma SliceIsSegment(s: string, lo: nat, hi: nat)
    requires lo < hi <= |s|
    requires NoWhitespace(s)
    requires '@' !in s[lo..hi]
    ensures IsSegment(s[lo..hi])
  {
  }

  /** When `s` holds exactly one `@`, at position `k`, nothing after `k` is an `@`. */
  lemma NoAtAfterSingleAt(s: string, k: nat)
    requires k < |s| && s[k] == '@' && multiset(s)['@'] == 1
    ensures '@' !in s[k + 1..]
  {
    assert s == s[..k + 1] + s[k + 1..];
    assert multiset(s) == multiset(s[..k + 1]) + multiset(s[k + 1..]);
    assert s[k] in s[..k + 1];
  }

  lemma ValidDecomposes(s: string)
    requires IsValidEmail(s)
    ensures MatchesPattern(s)
  {
    var k := IndexOf(s, '@');
    var dot :| k + 1 < dot < |s| - 1 && s[dot] == '.' by {
      var d := s[k + 1..];
      var j' :| 0 <= j' < |d| - 2 && d[1..|d| - 1][j'] == '.';
      assert s[k + 2 + j'] == '.';
    }
    assert '@' !in s[k + 1..dot] && '@' !in s[dot + 1..] by {
      NoAtAfterSingleAt(s, k);
      assert s[k + 1..dot] == s[k + 1..][..dot - k - 1];
      assert s[dot + 1..] == s[k + 1..][dot - k..];
    }
    SplitMatches(s, k, dot);
  }

  /** Cutting a whitespace-free string at an `@` and a later `.`, with no other `@`
      and non-empty pieces, exhibits a match. */
  lemma SplitMatches(s: string, at: nat, dot: nat)
    requires 0 < at && at + 1 < dot && dot + 1 < |s|
    requires s[at] == '@' && s[dot] == '.'
    requires NoWhitespace(s)
    requires '@' !in s[..at] && '@' !in s[at + 1..dot] && '@' !in s[dot + 1..]
    ensures MatchesPattern(s)
  {
    SliceIsSegment(s, 0, at);
    SliceIsSegment(s, at + 1, dot);
    SliceIsSegment(s, dot + 1, |s|);
    assert s == s[..at] + "@" + s[at + 1..dot] + "." + s[dot + 1..];
  }

  lemma DecomposedIsValid(l: string, a: string, b: string)
    requires IsSegment(l) && IsSegment(a) && IsSegment(b)
    ensures IsValidEmail(l + "@" + a + "." + b)
  {
    var s := l + "@" + a + "." + b;
    JoinedHasNoWhitespace(l, a, b);
    assert multiset(s)['@'] == 1 by {
      assert '@' !in l && '@' !in a && '@' !in b;
      assert multiset(s) == multiset(l) + multiset{'@'} + multiset(a) + multiset{'.'} + multiset(b);
    }
    var k := IndexOf(s, '@');
    assert k == |l| by {
      assert s[|l|] == '@';
      assert forall i :: 0 <= i < |l| ==> s[i] == l[i];
    }
    assert HasInnerDot(s[k + 1..]) by {
      var d := s[k + 1..];
      assert d == a + "." + b;
      assert d[1..|d| - 1][|a| - 1] == '.';
    }
  }

  lemma JoinedHasNoWhitespace(l: string, a: string, b: string)
    requires IsSegment(l) && IsSegment(a) && IsSegment(b)
    ensures NoWhitespace(l + "@" + a + "." + b)
  {
  }

  /** No string containing a whitespace character is accepted. */
  lemma WhitespaceRejected(s: string, i: nat)
    requires i < |s| && IsWhitespace(s[i])
    ensures !IsValidEmail(s)
  {
  }

  /** A string without `@` is rejected. */
  lemma MissingAtRejected(s: string)
    requires '@' !in s
    ensures !IsValidEmail(s)
  {
  }

  /** A string with two or more `@` is rejected. */
  lemma SecondAtRejected(s: string, i: nat, j: nat)
    requires i < j < |s| && s[i] == '@' && s[j] == '@'
    ensures !IsValidEmail(s)
  {
    assert s == s[..j] + s[j..];
    assert s[i] in s[..j];
    assert s[j] in s[j..];
    assert multiset(s) == multiset(s[..j]) + multiset(s[j..]);
  }

  /** A non-empty run of lower-case ASCII letters is a segment. */
  lemma LowercaseIsSegment(x: string)
    requires |x| > 0 && forall i :: 0 <= i < |x| ==> 'a' <= x[i] <= 'z'
    ensures IsSegment(x)
  {
  }

  /** The literal equalities below are kept in lemmas of their own: checked in the
      context of the examples they cost the solver far more. */
  lemma PlainAddressSplits()
    ensures "user" + "@" + "example" + "." + "com" == "user@example.com"
  {
  }

  lemma DottedAddressSplits()
    ensures "a" + "@" + "b." + "." + "c" == "a@b..c"
  {
  }

  /** A plain address is accepted. */
  lemma AcceptsPlainAddress()
    ensures IsValidEmail("user@example.com")
  {
    LowercaseIsSegment("user");
    LowercaseIsSegment("example");
    LowercaseIsSegment("com");
    DecomposedIsValid("user", "example", "com");
    PlainAddressSplits();
  }

  /** The domain parts may themselves contain dots, so `a@b..c` is accepted. */
  lemma AcceptsDotInDomainPart()
    ensures IsValidEmail("a@b..c")
  {
    DecomposedIsValid("a", "b.", "c");
    DottedAddressSplits();
  }

  /** A domain whose only dots are its first or last character has no inner dot. */
  lemma DotOnlyAtEnds(d: string)
    requires forall i :: 0 < i < |d| - 1 ==> d[i] != '.'
    ensures !HasInnerDot(d)
  {
    if |d| >= 3 {
      var inner := d[1..|d| - 1];
      forall j | 0 <= j < |inner|
        ensures inner[j] != '.'
      {
        assert inner[j] == d[j + 1];
      }
    }
  }

  /** An empty first domain part is rejected. */
  lemma RejectsEmptyFirstDomainPart()
    ensures !IsValidEmail("user@.com")
  {
    var s := "user@.com";
    assert s[4] == '@' && forall i :: 0 <= i < 4 ==> s[i] != '@';
    assert IndexOf(s, '@') == 4;
    DotOnlyAtEnds(".com");
  }

  /** An empty last domain part is rejected. */
  lemma RejectsEmptyLastDomainPart()
    ensures !IsValidEmail("user@com.")
  {
    var s := "user@com.";
    assert s[4] == '@' && forall i :: 0 <= i < 4 ==> s[i] != '@';
    assert IndexOf(s, '@') == 4;
    DotOnlyAtEnds("com.");
  }

  /** An empty local part is rejected, and so is the empty string. */
  lemma RejectsEmptyLocalPart()
    ensures !IsValidEmail("@b.c")
    ensures !IsValidEmail("")
  {
    assert IndexOf("@b.c", '@') == 0;
  }
}
