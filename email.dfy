/** The loose e-mail shape check `isValidEmail` of js/main.js. The source tests
    the pattern `^[^\s@]+@[^\s@]+\.[^\s@]+$`; here it is written as a
    character-level predicate, and `MatchesEmailPattern` restates the pattern
    part by part so that the two can be proved to agree. */
module Email {
  import opened Text

  /** One character of the class `[^\s@]`. */
  predicate IsPlain(c: char) {
    !IsWhitespace(c) && c != '@'
  }

  /** A run of the class `[^\s@]` (possibly empty). */
  predicate AllPlain(s: string) {
    forall k | 0 <= k < |s| :: IsPlain(s[k])
  }

  /** How many times `c` occurs in `s`. */
  function CountOf(s: string, c: char): (n: nat)
    ensures n <= |s|
    ensures n == 0 <==> forall k | 0 <= k < |s| :: s[k] != c
  {
    if s == [] then 0
    else (if s[0] == c then 1 else 0) + CountOf(s[1..], c)
  }

  /** The first index of `c` in `s`, or `|s|` when `c` does not occur. */
  function IndexOf(s: string, c: char): (i: nat)
    ensures i <= |s|
    ensures i < |s| ==> s[i] == c
    ensures forall k | 0 <= k < i :: s[k] != c
  {
    if s == [] then 0
    else if s[0] == c then 0
    else 1 + IndexOf(s[1..], c)
  }

  /** `d` has a '.' that is neither its first nor its last character. */
  predicate HasInnerDot(d: string) {
    exists k | 0 < k < |d| - 1 :: d[k] == '.'
  }

  /** `isValidEmail`: no white space, exactly one '@', something before it,
      and a '.' strictly inside the part after it. */
  predicate IsValidEmail(s: string)
    ensures IsValidEmail(s) ==> |s| >= 5 && '@' in s && '.' in s
  {
    HasNoWhitespace(s) && CountOf(s, '@') == 1 &&
    var at := IndexOf(s, '@');
    0 < at < |s| && HasInnerDot(s[at + 1..])
  }

  /** The source's regular expression, part by part: a non-empty run of
      `[^\s@]`, an '@', a non-empty run, a '.', and a non-empty run, with
      `i` the position of the '@' and `j` that of the '.'. */
  ghost predicate MatchesEmailPattern(s: string) {
    exists i, j | 0 < i && i + 1 < j && j + 1 < |s| ::
      s[i] == '@' && s[j] == '.' &&
      AllPlain(s[..i]) && AllPlain(s[i + 1..j]) && AllPlain(s[j + 1..])
  }

  /** Counting splits at any cut point. */
  lemma {:induction false} CountOfSplit(s: string, c: char, i: nat)
    requires i <= |s|
    ensures CountOf(s, c) == CountOf(s[..i], c) + CountOf(s[i..], c)
  {
    if i > 0 {
      assert s[..i][1..] == s[1..][..i - 1];
      assert s[i..] == s[1..][i - 1..];
      CountOfSplit(s[1..], c, i - 1);
    }
  }

  /** Every string the character-level predicate accepts matches the pattern. */
  lemma ValidEmailMatchesPattern(s: string)
    requires IsValidEmail(s)
    ensures MatchesEmailPattern(s)
  {
    var at := IndexOf(s, '@');
    var d := s[at + 1..];
    var k :| 0 < k < |d| - 1 && d[k] == '.';
    var j := at + 1 + k;
    CountOfSplit(s, '@', at);
    CountOfSplit(s[at..], '@', 1);
    assert s[at..][1..] == d;
    assert CountOf(d, '@') == 0;
    var local, host, top := s[..at], s[at + 1..j], s[j + 1..];
    assert AllPlain(local);
    assert AllPlain(host) by {
      forall m | 0 <= m < |host| ensures IsPlain(host[m]) {
        assert host[m] == d[m];
      }
    }
    assert AllPlain(top) by {
      forall m | 0 <= m < |top| ensures IsPlain(top[m]) {
        assert top[m] == d[k + 1 + m];
      }
    }
    assert s[j] == '.';
  }

  /** Every string the pattern matches is accepted by the character-level predicate. */
  lemma PatternMatchIsValidEmail(s: string)
    requires MatchesEmailPattern(s)
    ensures IsValidEmail(s)
  {
    var i, j :| 0 < i && i + 1 < j && j + 1 < |s| &&
      s[i] == '@' && s[j] == '.' &&
      AllPlain(s[..i]) && AllPlain(s[i + 1..j]) && AllPlain(s[j + 1..]);
    var local, host, top := s[..i], s[i + 1..j], s[j + 1..];
    forall m | 0 <= m < |s| ensures !IsWhitespace(s[m]) && (m != i ==> s[m] != '@') {
      if m < i {
        assert local[m] == s[m];
      } else if i < m < j {
        assert host[m - i - 1] == s[m];
      } else if j < m {
        assert top[m - j - 1] == s[m];
      }
    }
    var rest := s[i + 1..];
    assert CountOf(s[..i], '@') == 0;
    assert CountOf(rest, '@') == 0;
    CountOfSplit(s, '@', i);
    CountOfSplit(s[i..], '@', 1);
    assert s[i..][1..] == rest;
    assert IndexOf(s, '@') == i;
    assert rest[j - i - 1] == '.';
  }

  /** The character-level predicate accepts exactly the strings the source's
      pattern matches. */
  lemma EmailIffPattern(s: string)
    ensures IsValidEmail(s) <==> MatchesEmailPattern(s)
  {
    if IsValidEmail(s) {
      ValidEmailMatchesPattern(s);
    }
    if MatchesEmailPattern(s) {
      PatternMatchIsValidEmail(s);
    }
  }

  /** The examples `a@b.no` (accepted), `a@b` and `a b@c.no` (rejected). */
  lemma EmailExamples()
    ensures IsValidEmail("a@b.no")
    ensures !IsValidEmail("a@b")
    ensures !IsValidEmail("a b@c.no")
  {
    assert "a@b.no"[2..][1] == '.';
    assert IsWhitespace("a b@c.no"[1]);
  }
}
