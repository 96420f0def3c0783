/**
 * The e-mail check shared by invite creation and registration: the regular
 * expression `^[^\s@]+@[^\s@]+\.[^\s@]+$`, with `\s` being JavaScript's
 * whitespace class. `MatchesPattern` reads the expression as a decomposition
 * of the string; `ValidEmail` is the direct check; `PatternIffValid` shows
 * the two agree on every string.
 */
module Email {

  /** JavaScript's `\s`: the ASCII blanks, NBSP, the Unicode space separators, the line and paragraph separators and BOM. */
  predicate IsSpace(c: char)
  {
    || c == '\t' || c == '\n' || c == '\U{B}' || c == '\U{C}' || c == '\r' || c == ' '
    || c == '\U{A0}' || c == '\U{1680}' || ('\U{2000}' <= c <= '\U{200A}')
    || c == '\U{2028}' || c == '\U{2029}' || c == '\U{202F}' || c == '\U{205F}'
    || c == '\U{3000}' || c == '\U{FEFF}'
  }

  /** A character of the class `[^\s@]`. */
  predicate Plain(c: char)
  {
    !IsSpace(c) && c != '@'
  }

  /** A run matched by `[^\s@]+`. */
  predicate Atom(x: string)
  {
    |x| > 0 && forall i :: 0 <= i < |x| ==> Plain(x[i])
  }

  /** The regular expression read as a decomposition `a@b.c` into three atoms. */
  ghost predicate MatchesPattern(s: string)
  {
    exists a, b, c :: Atom(a) && Atom(b) && Atom(c) && s == a + "@" + b + "." + c
  }

  predicate NoSpace(s: string)
  {
    forall i :: 0 <= i < |s| ==> !IsSpace(s[i])
  }

  predicate NoAt(s: string)
  {
    forall i :: 0 <= i < |s| ==> s[i] != '@'
  }

  /** The domain holds a '.' with at least one character on each side. */
  predicate HasInnerDot(d: string)
  {
    exists j :: 0 < j < |d| - 1 && d[j] == '.'
  }

  /**
   * The direct check: no whitespace anywhere, a single '@' that is not the
   * first character, and a domain with an inner '.'.
   */
  predicate ValidEmail(s: string)
  {
    && NoSpace(s)
    && exists i :: 0 < i < |s| && s[i] == '@' && NoAt(s[..i]) && NoAt(s[i + 1..]) && HasInnerDot(s[i + 1..])
  }

  lemma PatternImpliesValid(s: string)
    requires MatchesPattern(s)
    ensures ValidEmail(s)
  {
    var a, b, c :| Atom(a) && Atom(b) && Atom(c) && s == a + "@" + b + "." + c;
    var i := |a|;
    var d := b + "." + c;
    assert s[..i] == a;
    assert s[i + 1..] == d;
    assert s[i] == '@';
    forall k | 0 <= k < |s| ensures !IsSpace(s[k])
    {
      if k < i {
        assert s[k] == a[k];
      } else if k > i {
        assert s[k] == d[k - i - 1];
        if k - i - 1 < |b| {
          assert d[k - i - 1] == b[k - i - 1];
        } else if k - i - 1 > |b| {
          assert d[k - i - 1] == c[k - i - 1 - |b| - 1];
        }
      }
    }
    forall k | 0 <= k < |d| ensures d[k] != '@'
    {
      if k < |b| {
        assert d[k] == b[k];
      } else if k > |b| {
        assert d[k] == c[k - |b| - 1];
      }
    }
    assert d[|b|] == '.';
    assert HasInnerDot(d);
  }

  /** Cutting a string at its '@' (index i) and at a '.' of the domain (index i + 1 + j). */
  lemma Rejoin(s: string, i: nat, j: nat)
    requires i < |s| && i + 1 + j < |s|
    requires s[i] == '@' && s[i + 1 + j] == '.'
    ensures s == s[..i] + "@" + s[i + 1..][..j] + "." + s[i + 1..][j + 1..]
  {
    var d := s[i + 1..];
    assert d == d[..j] + "." + d[j + 1..];
    assert s == s[..i] + "@" + d;
  }

  lemma ValidImpliesPattern(s: string)
    requires ValidEmail(s)
    ensures MatchesPattern(s)
  {
    var i :| 0 < i < |s| && s[i] == '@' && NoAt(s[..i]) && NoAt(s[i + 1..]) && HasInnerDot(s[i + 1..]);
    var d := s[i + 1..];
    var j :| 0 < j < |d| - 1 && d[j] == '.';
    var a, b, c := s[..i], d[..j], d[j + 1..];
    assert Atom(a) by {
      forall k | 0 <= k < |a| ensures Plain(a[k])
      {
        assert a[k] == s[k];
      }
    }
    assert Atom(b) by {
      forall k | 0 <= k < |b| ensures Plain(b[k])
      {
        assert b[k] == d[k] == s[i + 1 + k];
      }
    }
    assert Atom(c) by {
      forall k | 0 <= k < |c| ensures Plain(c[k])
      {
        assert c[k] == d[j + 1 + k] == s[i + 1 + j + 1 + k];
      }
    }
    Rejoin(s, i, j);
  }

  /** The direct check accepts exactly the strings the regular expression matches. */
  lemma PatternIffValid(s: string)
    ensures MatchesPattern(s) <==> ValidEmail(s)
  {
    if MatchesPattern(s) {
      PatternImpliesValid(s);
    }
    if ValidEmail(s) {
      ValidImpliesPattern(s);
    }
  }

  /** A valid address holds exactly one '@'. */
  lemma ValidHasOneAt(s: string, i: int, k: int)
    requires ValidEmail(s)
    requires 0 <= i < |s| && 0 <= k < |s| && s[i] == '@' && s[k] == '@'
    ensures i == k && i > 0
  {
    var p :| 0 < p < |s| && s[p] == '@' && NoAt(s[..p]) && NoAt(s[p + 1..]) && HasInnerDot(s[p + 1..]);
    assert forall q :: 0 <= q < p ==> s[q] == s[..p][q];
    assert forall q :: p < q < |s| ==> s[q] == s[p + 1..][q - p - 1];
  }
}
