/**
 * The e-mail check of the signup route, `/^[^\s@]+@[^\s@]+\.[^\s@]+$/`
 * (src/app/api/auth/signup/route.ts), stated over strings of code points.
 *
 * `MatchesEmailRegex` is what the pattern means: the whole string splits as
 * A "@" B "." C with A, B and C non-empty runs of characters that are
 * neither `@` nor JavaScript whitespace. `EmailShape` states the same set
 * of strings differently: no whitespace, exactly one `@`, something before
 * it, and a dot in the domain with a character on each side.
 */
module EmailFormat {

  /** ECMAScript `\s`: the WhiteSpace and LineTerminator code points. */
  predicate IsWhitespace(c: char) {
    || c == '\t' || c == '\n' || c == '\U{000B}' || c == '\U{000C}' || c == '\r' || c == ' '
    || c == '\U{00A0}' || c == '\U{1680}' || ('\U{2000}' <= c <= '\U{200A}')
    || c == '\U{2028}' || c == '\U{2029}' || c == '\U{202F}' || c == '\U{205F}'
    || c == '\U{3000}' || c == '\U{FEFF}'
  }

  /** The class `[^\s@]`. */
  predicate Plain(c: char) {
    c != '@' && !IsWhitespace(c)
  }

  /** `[^\s@]+` matches all of `s`. */
  predicate PlainRun(s: string) {
    |s| > 0 && forall i :: 0 <= i < |s| ==> Plain(s[i])
  }

  /** `emailRegex.test(s)` for the anchored pattern above. */
  predicate MatchesEmailRegex(s: string) {
    exists k, m | 0 < k < m < |s| ::
      && s[k] == '@' && s[m] == '.'
      && PlainRun(s[..k]) && PlainRun(s[k + 1..m]) && PlainRun(s[m + 1..])
  }

  predicate NoWhitespace(s: string) {
    forall i :: 0 <= i < |s| ==> !IsWhitespace(s[i])
  }

  /** The index of the first `c` in `s`, or `|s|` when there is none. */
  function FirstIndex(s: string, c: char): (k: nat)
    ensures k <= |s|
    ensures k < |s| ==> s[k] == c
    ensures forall i :: 0 <= i < k ==> s[i] != c
  {
    if s == [] then 0
    else if s[0] == c then 0
    else 1 + FirstIndex(s[1..], c)
  }

  /** A well-formed address: one `@` after a non-empty local part, and an inner dot in the domain. */
  ghost predicate EmailShape(s: string) {
    && NoWhitespace(s)
    && multiset(s)['@'] == 1
    && var k := FirstIndex(s, '@');
       0 < k && k + 2 < |s| && '.' in s[k + 2..|s| - 1]
  }

  /** Splitting a string at `k` splits its multiset. */
  lemma MultisetSplit(s: string, k: nat)
    requires k <= |s|
    ensures multiset(s) == multiset(s[..k]) + multiset(s[k..])
  {
    assert s == s[..k] + s[k..];
  }

  lemma PlainRunFacts(t: string)
    requires PlainRun(t)
    ensures '@' !in t && NoWhitespace(t)
  {
  }

  lemma NoWhitespaceConcat(a: string, b: string)
    requires NoWhitespace(a) && NoWhitespace(b)
    ensures NoWhitespace(a + b)
  {
    forall i | 0 <= i < |a + b| ensures !IsWhitespace((a + b)[i]) {
      if i >= |a| { assert (a + b)[i] == b[i - |a|]; }
    }
  }

  /** With no `c` in `a`, the first `c` of `a + [c] + b` is the one right after `a`. */
  lemma {:induction false} FirstIndexAfter(a: string, c: char, b: string)
    requires c !in a
    ensures FirstIndex(a + [c] + b, c) == |a|
  {
    if a != [] {
      assert (a + [c] + b)[1..] == a[1..] + [c] + b;
      FirstIndexAfter(a[1..], c, b);
    }
  }

  lemma SplitHasShape(a: string, b: string, c: string)
    requires PlainRun(a) && PlainRun(b) && PlainRun(c)
    ensures EmailShape(a + ['@'] + b + ['.'] + c)
  {
    PlainRunFacts(a);
    PlainRunFacts(b);
    PlainRunFacts(c);
    var tail := b + ['.'] + c;
    var s := a + ['@'] + tail;
    assert s == a + ['@'] + b + ['.'] + c;
    assert multiset(s) == multiset(a) + multiset{'@'} + multiset(b) + multiset{'.'} + multiset(c);
    assert !IsWhitespace('@') && !IsWhitespace('.');
    NoWhitespaceConcat(b, ['.']);
    NoWhitespaceConcat(b + ['.'], c);
    NoWhitespaceConcat(a, ['@']);
    NoWhitespaceConcat(a + ['@'], tail);
    FirstIndexAfter(a, '@', tail);
    var k := |a|;
    assert s[k + 2..|s| - 1][|b| - 1] == '.';
  }

  /** A string is its three parts around an `@` at `k` and a `.` at `m`. */
  lemma SplitAt(s: string, k: nat, m: nat)
    requires k < m < |s| && s[k] == '@' && s[m] == '.'
    ensures s == s[..k] + ['@'] + s[k + 1..m] + ['.'] + s[m + 1..]
  {
    assert s[m..] == ['.'] + s[m + 1..];
    assert s[k + 1..] == s[k + 1..m] + s[m..];
    assert s[k..] == ['@'] + s[k + 1..];
    assert s == s[..k] + s[k..];
  }

  lemma EmailRegexImpliesShape(s: string)
    requires MatchesEmailRegex(s)
    ensures EmailShape(s)
  {
    var k, m :| 0 < k < m < |s| && s[k] == '@' && s[m] == '.'
      && PlainRun(s[..k]) && PlainRun(s[k + 1..m]) && PlainRun(s[m + 1..]);
    SplitAt(s, k, m);
    SplitHasShape(s[..k], s[k + 1..m], s[m + 1..]);
  }

  lemma EmailShapeImpliesRegex(s: string)
    requires EmailShape(s)
    ensures MatchesEmailRegex(s)
  {
    var k := FirstIndex(s, '@');
    assert '@' in multiset(s);
    assert '@' in s;
    assert k < |s|;
    var rest := s[k + 1..];
    MultisetSplit(s, k + 1);
    assert s[..k + 1][k] == '@';
    assert '@' !in rest;
    var d := s[k + 2..|s| - 1];
    var j :| 0 <= j < |d| && d[j] == '.';
    var m := k + 2 + j;
    assert s[m] == '.';
    var a, b, c := s[..k], s[k + 1..m], s[m + 1..];
    assert PlainRun(a) by {
      forall i | 0 <= i < |a| ensures Plain(a[i]) { assert a[i] == s[i]; }
    }
    assert PlainRun(b) by {
      forall i | 0 <= i < |b| ensures Plain(b[i]) { assert b[i] == rest[i] == s[k + 1 + i]; }
    }
    assert PlainRun(c) by {
      forall i | 0 <= i < |c| ensures Plain(c[i]) { assert c[i] == rest[m - k + i] == s[m + 1 + i]; }
    }
  }

  /** The pattern accepts exactly the well-formed addresses. */
  lemma EmailRegexIffShape(s: string)
    ensures MatchesEmailRegex(s) <==> EmailShape(s)
  {
    if MatchesEmailRegex(s) { EmailRegexImpliesShape(s); }
    if EmailShape(s) { EmailShapeImpliesRegex(s); }
  }
}
