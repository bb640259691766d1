/**
 * The two format checks of main.js, each written as a predicate that
 * follows its regular expression piece by piece, with lemmas that say in
 * plain terms which strings they accept.
 *
 *   isValidEmail:  /^[^\s@]+@[^\s@]+\.[^\s@]+$/
 *   isValidPhone:  /^[\+]?[1-9][\d]{0,15}$/ applied after removing every
 *                  match of /[\s\-\(\)]/g
 */
module Formats {
  import opened Text

  // ---------------------------------------------------------------- email

  /** A character of the class `[^\s@]`. */
  predicate EmailChar(c: char) { !IsSpace(c) && c != '@' }

  /** A match of `[^\s@]+`. */
  predicate EmailRun(t: string) {
    |t| > 0 && forall k :: 0 <= k < |t| ==> EmailChar(t[k])
  }

  /** The email pattern: a run, `@`, a run, `.`, a run, covering all of `s`
      (the anchors `^` and `$`). The two runs after `@` may themselves hold
      dots, so any dot of the domain may be the one the pattern uses. The
      shortest address has five characters, and an address starts and ends
      with a `[^\s@]` character. */
  predicate IsValidEmail(s: string)
    ensures IsValidEmail(s) ==> 5 <= |s| && EmailChar(s[0]) && EmailChar(s[|s| - 1])
  {
    exists i, j | 0 < i < j < |s| ::
      && s[i] == '@' && s[j] == '.'
      && EmailRun(s[..i]) && EmailRun(s[i + 1..j]) && EmailRun(s[j + 1..])
  }

  /** Number of occurrences of `c` in `s`. */
  function Occurrences(s: string, c: char): nat {
    if s == [] then 0 else (if s[0] == c then 1 else 0) + Occurrences(s[1..], c)
  }

  lemma {:induction false} OccurrencesNone(s: string, c: char)
    ensures Occurrences(s, c) == 0 <==> forall k :: 0 <= k < |s| ==> s[k] != c
  {
    if s != [] {
      OccurrencesNone(s[1..], c);
      assert forall k :: 1 <= k < |s| ==> s[k] == s[1..][k - 1];
    }
  }

  lemma {:induction false} OccurrencesConcat(a: string, b: string, c: char)
    ensures Occurrences(a + b, c) == Occurrences(a, c) + Occurrences(b, c)
  {
    if a == [] {
      assert a + b == b;
    } else {
      assert (a + b)[1..] == a[1..] + b;
      OccurrencesConcat(a[1..], b, c);
    }
  }

  lemma OccurrencesAround(s: string, i: nat, c: char)
    requires i < |s| && s[i] == c
    ensures Occurrences(s, c) == Occurrences(s[..i], c) + 1 + Occurrences(s[i + 1..], c)
  {
    assert s == s[..i] + [s[i]] + s[i + 1..];
    OccurrencesConcat(s[..i] + [s[i]], s[i + 1..], c);
    OccurrencesConcat(s[..i], [s[i]], c);
  }

  /** The domain `d` holds a dot with at least one character on each side. */
  predicate HasInnerDot(d: string) {
    exists j :: 0 < j < |d| - 1 && d[j] == '.'
  }

  /** The accepted addresses, described without the pattern: no whitespace,
      exactly one `@`, something before it, and a dot after it that is
      neither the first nor the last character of the domain. */
  predicate EmailShape(s: string) {
    && (forall k :: 0 <= k < |s| ==> !IsSpace(s[k]))
    && Occurrences(s, '@') == 1
    && exists i :: 0 < i < |s| && s[i] == '@' && HasInnerDot(s[i + 1..])
  }

  lemma EmailPatternIffShape(s: string)
    ensures IsValidEmail(s) <==> EmailShape(s)
  {
    if IsValidEmail(s) { PatternGivesShape(s); }
    if EmailShape(s) { ShapeGivesPattern(s); }
  }

  lemma PatternGivesShape(s: string)
    requires IsValidEmail(s)
    ensures EmailShape(s)
  {
    var i, j :| 0 < i < j < |s| && s[i] == '@' && s[j] == '.'
                && EmailRun(s[..i]) && EmailRun(s[i + 1..j]) && EmailRun(s[j + 1..]);
    EmailRunsCover(s, i, j);
    var d := s[i + 1..];
    OccurrencesAround(s, i, '@');
    OccurrencesNone(s[..i], '@');
    OccurrencesNone(d, '@');
    assert d[j - i - 1] == '.';
    assert HasInnerDot(d);
  }

  lemma ShapeGivesPattern(s: string)
    requires EmailShape(s)
    ensures IsValidEmail(s)
  {
    var i :| 0 < i < |s| && s[i] == '@' && HasInnerDot(s[i + 1..]);
    var d := s[i + 1..];
    var j' :| 0 < j' < |d| - 1 && d[j'] == '.';
    var j := i + 1 + j';
    OccurrencesAround(s, i, '@');
    OccurrencesNone(s[..i], '@');
    OccurrencesNone(d, '@');
    assert s[j] == '.';
    forall k | 0 <= k < |s| && k != i
      ensures EmailChar(s[k])
    {
      if k < i { assert s[k] == s[..i][k]; } else { assert s[k] == d[k - i - 1]; }
    }
    EmailRunOfSlice(s, 0, i);
    EmailRunOfSlice(s, i + 1, j);
    EmailRunOfSlice(s, j + 1, |s|);
  }

  lemma EmailRunOfSlice(s: string, lo: int, hi: int)
    requires 0 <= lo < hi <= |s|
    requires forall k :: lo <= k < hi ==> EmailChar(s[k])
    ensures EmailRun(s[lo..hi])
  {
  }

  /** In a match, every character but the `@` is a `[^\s@]` character. */
  lemma EmailRunsCover(s: string, i: int, j: int)
    requires 0 < i < j < |s| && s[i] == '@' && s[j] == '.'
    requires EmailRun(s[..i]) && EmailRun(s[i + 1..j]) && EmailRun(s[j + 1..])
    ensures forall k :: 0 <= k < |s| && k != i ==> EmailChar(s[k])
    ensures forall k :: 0 <= k < |s| ==> !IsSpace(s[k])
  {
  }

  // ---------------------------------------------------------------- phone

  /** A character of the class `[\s\-\(\)]` that `isValidPhone` removes. */
  predicate IsSeparator(c: char) { IsSpace(c) || c == '-' || c == '(' || c == ')' }

  /** `s` with every separator removed and every other character kept in
      order: the ensures give its shape, and `StripChar` with `StripConcat`
      fix its value. */
  function Strip(s: string): (r: string)
    ensures |r| <= |s|
    ensures forall k :: 0 <= k < |r| ==> !IsSeparator(r[k])
    ensures (forall k :: 0 <= k < |s| ==> !IsSeparator(s[k])) ==> r == s
  {
    if s == [] then []
    else if IsSeparator(s[0]) then Strip(s[1..])
    else [s[0]] + Strip(s[1..])
  }

  /** `[1-9][\d]{0,15}` matching all of `b`. */
  predicate PhoneDigits(b: string) {
    && 1 <= |b| <= 16
    && '1' <= b[0] <= '9'
    && forall k :: 1 <= k < |b| ==> IsDigit(b[k])
  }

  /** `^[\+]?[1-9][\d]{0,15}$`: either the digits alone or a `+` before them. */
  predicate MatchesPhonePattern(t: string) {
    PhoneDigits(t) || (|t| > 0 && t[0] == '+' && PhoneDigits(t[1..]))
  }

  /** An accepted number keeps between one and seventeen characters once
      stripped: up to sixteen digits and an optional `+`. */
  predicate IsValidPhone(s: string)
    ensures IsValidPhone(s) ==> 1 <= |Strip(s)| <= 17
  {
    MatchesPhonePattern(Strip(s))
  }

  /** On a single character, stripping drops a separator and keeps anything
      else. */
  lemma StripChar(c: char)
    ensures Strip([c]) == (if IsSeparator(c) then [] else [c])
  {
    assert [c][1..] == [];
  }

  /** Stripping twice is stripping once. */
  lemma StripIdempotent(s: string)
    ensures Strip(Strip(s)) == Strip(s)
  {
  }

  lemma {:induction false} StripConcat(a: string, b: string)
    ensures Strip(a + b) == Strip(a) + Strip(b)
  {
    if a == [] {
      assert a + b == b;
    } else {
      assert (a + b)[0] == a[0];
      assert (a + b)[1..] == a[1..] + b;
      StripConcat(a[1..], b);
    }
  }

  /** A character other than a separator survives stripping, in place
      between what the stripping of its two sides leaves. */
  lemma KeepsOthers(a: string, c: char, b: string)
    requires !IsSeparator(c)
    ensures Strip(a + [c] + b) == Strip(a) + [c] + Strip(b)
  {
    StripConcat(a + [c], b);
    StripConcat(a, [c]);
    StripChar(c);
  }

  /** Inserting a space, hyphen or parenthesis anywhere never changes the
      verdict. */
  lemma SeparatorInsensitive(a: string, c: char, b: string)
    requires IsSeparator(c)
    ensures IsValidPhone(a + [c] + b) == IsValidPhone(a + b)
  {
    StripConcat(a + [c], b);
    StripConcat(a, [c]);
    StripConcat(a, b);
    StripChar(c);
    assert Strip(a) + [] == Strip(a);
  }

  /** What follows the optional leading `+`. */
  function DigitsPart(t: string): string {
    if |t| > 0 && t[0] == '+' then t[1..] else t
  }

  /** The accepted numbers: after stripping, an optional leading `+`, then 1
      to 16 decimal digits of which the first is not `0`. */
  lemma PhoneAcceptedIff(s: string)
    ensures var d := DigitsPart(Strip(s));
      IsValidPhone(s) <==>
        && 1 <= |d| <= 16
        && (forall k :: 0 <= k < |d| ==> IsDigit(d[k]))
        && d[0] != '0'
  {
  }
}
