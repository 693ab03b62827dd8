/** The Norwegian phone-number check `isValidPhone` of js/main.js: separators
    are stripped (`/[\s\-\(\)]/g` replaced by nothing), then the rest must be
    an optional "+47" followed by a digit 2-9 and seven more digits. */
module Phone {
  import opened Text

  /** The characters the source strips before matching: white space, '-', '(' and ')'. */
  predicate IsSeparator(c: char)
    ensures IsDigit(c) || c == '+' ==> !IsSeparator(c)
  {
    IsWhitespace(c) || c == '-' || c == '(' || c == ')'
  }

  /** `s` contains no separator. */
  predicate SeparatorFree(s: string) {
    forall k | 0 <= k < |s| :: !IsSeparator(s[k])
  }

  /** `s` with every separator removed and every other character kept in order. */
  function Clean(s: string): (r: string)
    ensures |r| <= |s|
    ensures forall k | 0 <= k < |r| :: !IsSeparator(r[k])
  {
    if s == [] then []
    else (if IsSeparator(s[0]) then [] else [s[0]]) + Clean(s[1..])
  }

  /** Eight significant digits: the first in 2-9, the other seven any digit. */
  predicate IsNationalNumber(d: string) {
    |d| == 8 && '2' <= d[0] <= '9' && forall k | 1 <= k < 8 :: IsDigit(d[k])
  }

  /** `isValidPhone`: the cleaned string is a national number, with or without "+47". */
  predicate IsValidPhone(p: string)
    ensures IsValidPhone(p) ==> forall k | 1 <= k < |Clean(p)| :: IsDigit(Clean(p)[k])
  {
    var c := Clean(p);
    IsNationalNumber(c) || (|c| == 11 && c[..3] == "+47" && IsNationalNumber(c[3..]))
  }

  /** The source's pattern `^(\+47)?[2-9]\d{7}$` as a statement about the cleaned string. */
  ghost predicate MatchesPhonePattern(c: string) {
    exists d | IsNationalNumber(d) :: c == d || c == "+47" + d
  }

  /** Cleaning works character by character: it distributes over concatenation. */
  lemma {:induction false} CleanAppend(a: string, b: string)
    ensures Clean(a + b) == Clean(a) + Clean(b)
  {
    if a == [] {
      assert a + b == b;
    } else {
      assert (a + b)[0] == a[0];
      assert (a + b)[1..] == a[1..] + b;
      CleanAppend(a[1..], b);
    }
  }

  /** Cleaning removes a character exactly when it is a separator, so with
      `CleanAppend` it keeps every other character in its original order. */
  lemma CleanSingle(c: char)
    ensures Clean([c]) == if IsSeparator(c) then [] else [c]
  {
    assert [c][1..] == [];
  }

  /** A string without separators is left as it is. */
  lemma {:induction false} CleanSeparatorFree(s: string)
    requires SeparatorFree(s)
    ensures Clean(s) == s
  {
    if s != [] {
      CleanSeparatorFree(s[1..]);
    }
  }

  /** Cleaning twice gives the same as cleaning once. */
  lemma CleanIdempotent(s: string)
    ensures Clean(Clean(s)) == Clean(s)
  {
    CleanSeparatorFree(Clean(s));
  }

  /** The character-level predicate agrees with the source's pattern. */
  lemma PhoneIffPattern(p: string)
    ensures IsValidPhone(p) <==> MatchesPhonePattern(Clean(p))
  {
    var c := Clean(p);
    if IsValidPhone(p) {
      if !IsNationalNumber(c) {
        assert c == "+47" + c[3..];
      }
    }
    if MatchesPhonePattern(c) {
      var d :| IsNationalNumber(d) && (c == d || c == "+47" + d);
      if c != d {
        assert c[..3] == "+47" && c[3..] == d;
        assert !IsNationalNumber(c) by {
          assert c[0] == '+';
        }
      }
    }
  }

  /** An accepted number has 8 significant characters, or 11 with the country code. */
  lemma AcceptedPhoneLength(p: string)
    requires IsValidPhone(p)
    ensures |Clean(p)| == 8 || |Clean(p)| == 11
    ensures Clean(p)[0] == '+' || '2' <= Clean(p)[0] <= '9'
  {
  }

  /** Significant digits that start with 0 or 1 are rejected, with or without "+47". */
  lemma LeadingZeroOrOneRejected(p: string, d: string)
    requires Clean(p) == d || Clean(p) == "+47" + d
    requires d != [] && (d[0] == '0' || d[0] == '1')
    ensures !IsValidPhone(p)
  {
    var c := Clean(p);
    if c == "+47" + d {
      assert c[0] == '+';
      assert c[3..] == d;
    }
  }

  /** A separator between two parts is dropped and the parts are cleaned on their own. */
  lemma CleanDropsSeparator(a: string, b: string, sep: char)
    requires IsSeparator(sep)
    ensures Clean(a + [sep] + b) == Clean(a) + Clean(b)
  {
    CleanAppend(a + [sep], b);
    CleanAppend(a, [sep]);
    CleanSingle(sep);
    assert Clean(a) + [] == Clean(a);
  }

  /** Inserting a separator anywhere never changes the verdict. */
  lemma SeparatorInsertionInvariant(a: string, b: string, sep: char)
    requires IsSeparator(sep)
    ensures IsValidPhone(a + [sep] + b) == IsValidPhone(a + b)
  {
    CleanDropsSeparator(a, b, sep);
    CleanAppend(a, b);
  }

  /** A space in front of a separator-free group is dropped. */
  lemma CleanSpacedGroup(g: string)
    requires SeparatorFree(g)
    ensures Clean(" " + g) == g
  {
    CleanAppend(" ", g);
    CleanSingle(' ');
    CleanSeparatorFree(g);
  }

  /** Four separator-free groups written with single spaces between them
      clean to the groups run together. */
  lemma SpacedGroupsClean(a: string, b: string, c: string, d: string)
    requires SeparatorFree(a) && SeparatorFree(b) && SeparatorFree(c) && SeparatorFree(d)
    ensures Clean(a + " " + b + " " + c + " " + d) == a + b + c + d
  {
    CleanSeparatorFree(a);
    CleanSpacedGroup(b);
    CleanSpacedGroup(c);
    CleanSpacedGroup(d);
    assert a + " " + b == a + (" " + b);
    CleanAppend(a, " " + b);
    assert a + " " + b + " " + c == (a + " " + b) + (" " + c);
    CleanAppend(a + " " + b, " " + c);
    assert a + " " + b + " " + c + " " + d == (a + " " + b + " " + c) + (" " + d);
    CleanAppend(a + " " + b + " " + c, " " + d);
  }

  /** Example: "+47 912 34 567" cleans to "+4791234567". */
  lemma SpacedPhoneCleans()
    ensures Clean("+47 912 34 567") == "+4791234567"
  {
    SpacedGroupsClean("+47", "912", "34", "567");
    assert "+47" + " " + "912" + " " + "34" + " " + "567" == "+47 912 34 567";
    assert "+47" + "912" + "34" + "567" == "+4791234567";
  }

  /** Any input that cleans to "+4791234567" is accepted. */
  lemma CleansToCountryCodeNumber(p: string)
    requires Clean(p) == "+4791234567"
    ensures IsValidPhone(p)
  {
    var r := "+4791234567";
    assert r[..3] == "+47" && r[3..] == "91234567";
  }

  /** Example: the number "+47 912 34 567" is accepted. */
  lemma SpacedPhoneAccepted()
    ensures IsValidPhone("+47 912 34 567")
  {
    SpacedPhoneCleans();
    CleansToCountryCodeNumber("+47 912 34 567");
  }

  /** Three separator-free groups joined by a separator clean to the groups
      run together. */
  lemma SeparatedGroupsClean(a: string, b: string, c: string, sep: char)
    requires SeparatorFree(a) && SeparatorFree(b) && SeparatorFree(c) && IsSeparator(sep)
    ensures Clean(a + [sep] + b + [sep] + c) == a + b + c
  {
    var tail := b + [sep] + c;
    assert Clean(tail) == b + c by {
      CleanSeparatorFree(b);
      CleanSeparatorFree(c);
      CleanDropsSeparator(b, c, sep);
    }
    assert Clean(a + [sep] + tail) == a + (b + c) by {
      CleanSeparatorFree(a);
      CleanDropsSeparator(a, tail, sep);
    }
    assert a + [sep] + b + [sep] + c == a + [sep] + tail;
  }

  /** Example: "123-456-78" cleans to "12345678". */
  lemma HyphenatedPhoneCleans()
    ensures Clean("123-456-78") == "12345678"
  {
    SeparatedGroupsClean("123", "456", "78", '-');
    assert "123" + ['-'] + "456" + ['-'] + "78" == "123-456-78";
    assert "123" + "456" + "78" == "12345678";
  }

  /** Example: "123-456-78" is rejected; its significant digits start with 1. */
  lemma HyphenatedLeadingOneRejected()
    ensures !IsValidPhone("123-456-78")
  {
    HyphenatedPhoneCleans();
    LeadingZeroOrOneRejected("123-456-78", "12345678");
  }

  /** Example: too few digits are rejected. */
  lemma ShortPhoneRejected()
    ensures !IsValidPhone("12345")
  {
  }
}
