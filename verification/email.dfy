/** The front-end script's e-mail check, `isValidEmail`, which tests the
    regular expression `^[^\s@]+@[^\s@]+\.[^\s@]+$`. */
module Email {
  import opened Text

  /** `[^\s@]+`: a non-empty run free of whitespace and `@`. */
  ghost predicate Run(t: string) {
    |t| > 0 && forall k :: 0 <= k < |t| ==> !JsSpace(t[k]) && t[k] != '@'
  }

  /** What the regular expression accepts: the string splits as
      run `@` run `.` run. */
  ghost predicate MatchesPattern(s: string) {
    exists i, j :: 0 <= i < j < |s| && s[i] == '@' && s[j] == '.'
      && Run(s[..i]) && Run(s[i + 1..j]) && Run(s[j + 1..])
  }

  /** A `.` with at least one character on each side. */
  predicate HasInnerDot(d: string) {
    exists j :: 0 < j < |d| - 1 && d[j] == '.'
  }

  /** `isValidEmail`, read as a scan: no whitespace anywhere, exactly one
      `@`, something before it, and an inner `.` after it. */
  predicate IsValidEmail(s: string)
    ensures IsValidEmail(s) ==> '@' in s && |s| >= 5
  {
    && (forall k :: 0 <= k < |s| ==> !JsSpace(s[k]))
    && CountOf(s, '@') == 1
    && var i := IndexOf(s, '@');
       0 < i && HasInnerDot(s[i + 1..])
  }

  /** A character occurs once exactly when no index but the known one
      holds it. */
  lemma {:induction false} CountOne(s: string, c: char, i: nat)
    requires i < |s| && s[i] == c
    ensures CountOf(s, c) == 1 <==> forall k :: 0 <= k < |s| && k != i ==> s[k] != c
  {
    if i == 0 {
      assert CountOf(s[1..], c) == 0 <==> c !in s[1..];
      assert (forall k :: 0 <= k < |s| && k != 0 ==> s[k] != c) <==> c !in s[1..] by {
        if c in s[1..] {
          var m :| 0 <= m < |s[1..]| && s[1..][m] == c;
          assert s[m + 1] == c;
        }
      }
    } else {
      CountOne(s[1..], c, i - 1);
      if s[0] == c {
        assert CountOf(s, c) >= 1 + CountOf(s[1..], c);
        assert CountOf(s[1..], c) >= 1;
      } else {
        assert forall k :: 1 <= k < |s| ==> s[k] == s[1..][k - 1];
      }
    }
  }

  lemma ScanImpliesPattern(s: string)
    requires IsValidEmail(s)
    ensures MatchesPattern(s)
  {
    var i := IndexOf(s, '@');
    var d := s[i + 1..];
    var j :| 0 < j < |d| - 1 && d[j] == '.';
    var jj := i + 1 + j;
    CountOne(s, '@', i);
    assert s[jj] == '.';
    assert Run(s[..i]);
    assert Run(s[i + 1..jj]);
    assert Run(s[jj + 1..]);
  }

  /** The characters outside the `@` and the `.` all come from the runs. */
  lemma RunsCover(s: string, i: nat, j: nat)
    requires i < j < |s| && s[i] == '@' && s[j] == '.'
    requires Run(s[..i]) && Run(s[i + 1..j]) && Run(s[j + 1..])
    ensures forall k :: 0 <= k < |s| ==> !JsSpace(s[k])
    ensures forall k :: 0 <= k < |s| && k != i ==> s[k] != '@'
  {
    forall k | 0 <= k < |s|
      ensures !JsSpace(s[k]) && (k != i ==> s[k] != '@')
    {
      if k < i {
        assert s[k] == s[..i][k];
      } else if i < k < j {
        assert s[k] == s[i + 1..j][k - i - 1];
      } else if j < k {
        assert s[k] == s[j + 1..][k - j - 1];
      }
    }
  }

  lemma PatternImpliesScan(s: string)
    requires MatchesPattern(s)
    ensures IsValidEmail(s)
  {
    var i, j :| 0 <= i < j < |s| && s[i] == '@' && s[j] == '.'
      && Run(s[..i]) && Run(s[i + 1..j]) && Run(s[j + 1..]);
    RunsCover(s, i, j);
    CountOne(s, '@', i);
    assert IndexOf(s, '@') == i;
    assert s[i + 1..][j - i - 1] == '.';
  }

  /** The scan accepts exactly the strings the regular expression matches. */
  lemma IsValidEmailMatchesPattern(s: string)
    ensures IsValidEmail(s) <==> MatchesPattern(s)
  {
    if IsValidEmail(s) {
      ScanImpliesPattern(s);
    }
    if MatchesPattern(s) {
      PatternImpliesScan(s);
    }
  }

  /** An address with whitespace anywhere in it is rejected. */
  lemma WhitespaceRejected(s: string, k: nat)
    requires k < |s| && JsSpace(s[k])
    ensures !IsValidEmail(s)
  {
  }

  /** An address with two `@` signs is rejected. */
  lemma TwoAtSignsRejected(s: string, i: nat, j: nat)
    requires i < j < |s| && s[i] == '@' && s[j] == '@'
    ensures !IsValidEmail(s)
  {
    CountOne(s, '@', i);
  }
}
