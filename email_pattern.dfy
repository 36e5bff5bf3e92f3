/**
  The email pattern both forms test, `/^[^\s@]+@[^\s@]+\.[^\s@]+$/`, with
  JavaScript's meaning of `\s`.
 */
module EmailPattern {
  /** JavaScript's `\s`: the white-space and line-terminator characters. */
  predicate IsSpace(c: char) {
    var n := c as int;
    || 0x09 <= n <= 0x0D
    || n == 0x20 || n == 0xA0 || n == 0x1680
    || 0x2000 <= n <= 0x200A
    || n == 0x2028 || n == 0x2029 || n == 0x202F || n == 0x205F
    || n == 0x3000 || n == 0xFEFF
  }

  /** `[^\s@]` */
  predicate Plain(c: char) {
    !IsSpace(c) && c != '@'
  }

  /** `[^\s@]+` */
  predicate PlainRun(t: string) {
    |t| > 0 && forall k :: 0 <= k < |t| ==> Plain(t[k])
  }

  /**
    The pattern, anchored at both ends: `s` splits as `x @ y . z` with each of
    `x`, `y`, `z` a `[^\s@]+` run; `a` is the position of the `@`, `d` that
    of the `.`.
   */
  predicate EmailRegexTest(s: string) {
    exists a, d | 0 < a < d < |s| ::
      && a + 1 < d && d + 1 < |s|
      && s[a] == '@' && s[d] == '.'
      && PlainRun(s[..a]) && PlainRun(s[a + 1..d]) && PlainRun(s[d + 1..])
  }

  /**
    The same set of strings described directly: no white space, exactly one
    `@`, not first, and after it a `.` that is neither right after the `@` nor
    the last character.
   */
  predicate WellFormedEmail(s: string) {
    && (forall k :: 0 <= k < |s| ==> !IsSpace(s[k]))
    && exists a :: 0 < a < |s| && s[a] == '@' &&
         (forall k :: 0 <= k < |s| && k != a ==> s[k] != '@') &&
         (exists d :: a + 1 < d < |s| - 1 && s[d] == '.')
  }

  lemma RegexIsWellFormed(s: string)
    requires EmailRegexTest(s)
    ensures WellFormedEmail(s)
  {
    var a, d :| 0 < a < d < |s| && a + 1 < d && d + 1 < |s| && s[a] == '@' && s[d] == '.' &&
                PlainRun(s[..a]) && PlainRun(s[a + 1..d]) && PlainRun(s[d + 1..]);
    forall k | 0 <= k < |s| && k != a
      ensures Plain(s[k]) || k == d
    {
      if k < a {
        assert s[..a][k] == s[k];
      } else if k < d {
        assert s[a + 1..d][k - a - 1] == s[k];
      } else if k > d {
        assert s[d + 1..][k - d - 1] == s[k];
      }
    }
    assert forall k :: 0 <= k < |s| ==> !IsSpace(s[k]);
  }

  lemma WellFormedIsRegex(s: string)
    requires WellFormedEmail(s)
    ensures EmailRegexTest(s)
  {
    var a :| 0 < a < |s| && s[a] == '@' &&
             (forall k :: 0 <= k < |s| && k != a ==> s[k] != '@') &&
             (exists d :: a + 1 < d < |s| - 1 && s[d] == '.');
    var d :| a + 1 < d < |s| - 1 && s[d] == '.';
    assert forall k :: 0 <= k < |s| && k != a ==> Plain(s[k]);
    assert PlainRun(s[..a]) by {
      assert forall k :: 0 <= k < a ==> s[..a][k] == s[k];
    }
    assert PlainRun(s[a + 1..d]);
    assert PlainRun(s[d + 1..]);
  }

  /** The pattern accepts exactly the well-formed addresses. */
  lemma EmailRegexCharacterised(s: string)
    ensures EmailRegexTest(s) <==> WellFormedEmail(s)
  {
    if EmailRegexTest(s) { RegexIsWellFormed(s); }
    if WellFormedEmail(s) { WellFormedIsRegex(s); }
  }

  /** The empty string, and any string with a space, has no match. */
  lemma RegexRejects(s: string)
    ensures s == [] ==> !EmailRegexTest(s)
    ensures (exists k :: 0 <= k < |s| && IsSpace(s[k])) ==> !EmailRegexTest(s)
  {
    EmailRegexCharacterised(s);
  }
}
