/** The e-mail check shared by the contact form and the newsletter form:
    the regular expression `^[^\s@]+@[^\s@]+\.[^\s@]+$`, applied to the
    input as typed (not trimmed). */
module EmailRegex {
  import opened Wrappers
  import opened JsText

  /** `[^\s@]` */
  predicate Plain(c: char) {
    !IsWhitespace(c) && c != '@'
  }

  predicate AllPlain(s: string) {
    forall i :: 0 <= i < |s| ==> Plain(s[i])
  }

  /** The pattern read as its concatenation: a non-empty run of plain
      characters, `@`, a non-empty run, a literal dot, a non-empty run. */
  ghost predicate MatchesPattern(s: string) {
    exists i, j :: 0 < i && i + 1 < j && j + 1 < |s| && s[i] == '@' && s[j] == '.'
      && AllPlain(s[..i]) && AllPlain(s[i + 1..j]) && AllPlain(s[j + 1..])
  }

  /** A dot with at least one character on each side. */
  predicate HasInnerDot(d: string) {
    exists k | 0 < k < |d| - 1 :: d[k] == '.'
  }

  /** `emailRegex.test(s)`, decided by splitting at the first `@`. */
  function IsValidEmail(s: string): (r: bool)
    ensures r ==> NoWhitespace(s) && |s| >= 5
  {
    match IndexOf(s, '@')
    case None => false
    case Some(i) =>
      var domain := s[i + 1..];
      assert s == s[..i] + [s[i]] + domain;
      i > 0 && AllPlain(s[..i]) && AllPlain(domain) && HasInnerDot(domain)
  }

  lemma AllPlainSlice(d: string, a: int, b: int)
    requires AllPlain(d) && 0 <= a <= b <= |d|
    ensures AllPlain(d[a..b])
  {
    assert forall m :: 0 <= m < b - a ==> d[a..b][m] == d[a + m];
  }

  lemma AllPlainJoin(a: string, b: string)
    requires AllPlain(a) && AllPlain(b)
    ensures AllPlain(a + ['.'] + b)
  {
    var s := a + ['.'] + b;
    forall m | 0 <= m < |s|
      ensures Plain(s[m])
    {
      if m < |a| {
        assert s[m] == a[m];
      } else if m > |a| {
        assert s[m] == b[m - |a| - 1];
      }
    }
  }

  lemma ValidImpliesPattern(s: string)
    requires IsValidEmail(s)
    ensures MatchesPattern(s)
  {
    var i := IndexOf(s, '@').value;
    var d := s[i + 1..];
    var k :| 0 < k < |d| - 1 && d[k] == '.';
    var j := i + 1 + k;
    AllPlainSlice(d, 0, k);
    AllPlainSlice(d, k + 1, |d|);
    assert s[i + 1..j] == d[..k];
    assert s[j + 1..] == d[k + 1..];
    assert s[j] == '.';
  }

  lemma PatternImpliesValid(s: string, i: int, j: int)
    requires 0 < i && i + 1 < j && j + 1 < |s| && s[i] == '@' && s[j] == '.'
    requires AllPlain(s[..i]) && AllPlain(s[i + 1..j]) && AllPlain(s[j + 1..])
    ensures IsValidEmail(s)
  {
    assert '@' !in s[..i] by {
      forall m | 0 <= m < i
        ensures s[..i][m] != '@'
      {
        assert Plain(s[..i][m]);
      }
    }
    assert IndexOf(s, '@') == Some(i);
    var d := s[i + 1..];
    assert d == s[i + 1..j] + ['.'] + s[j + 1..];
    AllPlainJoin(s[i + 1..j], s[j + 1..]);
    assert d[j - i - 1] == '.';
  }

  /** The check accepts exactly the strings the pattern matches. */
  lemma IsValidEmailIffPattern(s: string)
    ensures IsValidEmail(s) <==> MatchesPattern(s)
  {
    if IsValidEmail(s) {
      ValidImpliesPattern(s);
    }
    if MatchesPattern(s) {
      var i, j :| 0 < i && i + 1 < j && j + 1 < |s| && s[i] == '@' && s[j] == '.'
        && AllPlain(s[..i]) && AllPlain(s[i + 1..j]) && AllPlain(s[j + 1..]);
      PatternImpliesValid(s, i, j);
    }
  }

  lemma NoAtInPlain(a: string)
    requires AllPlain(a)
    ensures multiset(a)['@'] == 0
  {
    assert '@' !in a by {
      forall m | 0 <= m < |a|
        ensures a[m] != '@'
      {
        assert Plain(a[m]);
      }
    }
  }

  /** An accepted address has exactly one `@`, no whitespace, and so is its
      own trimmed form. */
  lemma ValidEmailShape(s: string)
    requires IsValidEmail(s)
    ensures Trim(s) == s
    ensures multiset(s)['@'] == 1
  {
    TrimNoWhitespace(s);
    OneAt(s);
  }

  lemma OneAt(s: string)
    requires IsValidEmail(s)
    ensures multiset(s)['@'] == 1
  {
    var i := IndexOf(s, '@').value;
    var a, b := s[..i], s[i + 1..];
    assert AllPlain(a) && AllPlain(b);
    assert s == a + ['@'] + b;
    NoAtInPlain(a);
    NoAtInPlain(b);
    assert multiset(s) == multiset(a) + multiset{'@'} + multiset(b);
  }

  /** Because the untrimmed input is tested, an address with a leading or a
      trailing space is rejected. */
  lemma SurroundingWhitespaceRejected(s: string)
    requires |s| > 0 && (IsWhitespace(s[0]) || IsWhitespace(s[|s| - 1]))
    ensures !IsValidEmail(s)
  {
  }

  lemma LettersArePlain(t: string)
    requires forall m :: 0 <= m < |t| ==> IsAsciiLower(t[m])
    ensures AllPlain(t)
  {
  }

  lemma AcceptsPlainAddress()
    ensures IsValidEmail("user@example.com")
  {
    var s := "user@example.com";
    assert s[..4] == "user" && s[5..12] == "example" && s[13..] == "com";
    LettersArePlain("user");
    LettersArePlain("example");
    LettersArePlain("com");
    PatternImpliesValid(s, 4, 12);
  }

  /** An accepted address contains a dot. */
  lemma ValidHasDot(s: string)
    requires IsValidEmail(s)
    ensures '.' in s
  {
    var i := IndexOf(s, '@').value;
    var k :| 0 < k < |s[i + 1..]| - 1 && s[i + 1..][k] == '.';
    assert s[i + 1 + k] == '.';
  }

  lemma RejectsMissingDot()
    ensures !IsValidEmail("user@example")
  {
    assert '.' !in "user@example";
    if IsValidEmail("user@example") {
      ValidHasDot("user@example");
    }
  }

  lemma RejectsSecondAt()
    ensures !IsValidEmail("a@b@c.de")
  {
    assert IndexOf("a@b@c.de", '@') == Some(1);
    assert "a@b@c.de"[2..][1] == '@';
  }
}
