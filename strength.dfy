/**
 * The password-strength meter of the registration form: the scorer
 * `calculatePasswordStrength`, which counts five independent criteria and
 * maps the count onto three steps, and the way `updatePasswordStrength`
 * paints that result into the meter's bar and caption.
 */
module Strength {
  import opened Text
  import opened Options

  /** The object `calculatePasswordStrength` returns. */
  datatype Rating = Rating(score: nat, percentage: nat, cls: string, text: string)

  /** What `updatePasswordStrength` leaves on the page: the bar's width in
      percent, the level class added to the bar (if any) and the caption. */
  datatype Meter = Meter(width: nat, level: Option<string>, text: string)

  /** `p` holds a character of `[a-z]`. */
  predicate HasLower(p: string) { exists i :: 0 <= i < |p| && IsLower(p[i]) }

  /** `p` holds a character of `[A-Z]`. */
  predicate HasUpper(p: string) { exists i :: 0 <= i < |p| && IsUpper(p[i]) }

  /** `p` holds a character of `[0-9]`. */
  predicate HasDigit(p: string) { exists i :: 0 <= i < |p| && IsDigit(p[i]) }

  /** `p` holds a character outside `[A-Za-z0-9]`. */
  predicate HasSpecial(p: string) { exists i :: 0 <= i < |p| && IsSpecial(p[i]) }

  /** The five criteria, in the order the scorer tests them. */
  function Criteria(p: string): seq<bool> {
    [|p| >= 8, HasLower(p), HasUpper(p), HasDigit(p), HasSpecial(p)]
  }

  /** Number of `true` entries of `bs`. */
  function Count(bs: seq<bool>): (n: nat)
    ensures n <= |bs|
    ensures n == 0 <==> forall k :: 0 <= k < |bs| ==> !bs[k]
  {
    if bs == [] then 0 else (if bs[0] then 1 else 0) + Count(bs[1..])
  }

  /** The strength score: how many of the five criteria `p` satisfies. */
  function Score(p: string): (n: nat)
    ensures n <= 5
  {
    Count(Criteria(p))
  }

  /** The stepped map from a score to the scorer's result. */
  function RatingOf(score: nat): (r: Rating)
    ensures r.score == score && 33 <= r.percentage <= 100
  {
    if score <= 2 then Rating(score, 33, "weak", "Weak password")
    else if score <= 3 then Rating(score, 66, "medium", "Medium strength")
    else Rating(score, 100, "strong", "Strong password")
  }

  /** `calculatePasswordStrength`: awards one point per satisfied criterion,
      then picks the step for the total. */
  method CalculatePasswordStrength(password: string) returns (strength: Rating)
    ensures strength == RatingOf(Score(password))
  {
    var score := 0;
    if |password| >= 8 { score := score + 1; }
    if HasLower(password) { score := score + 1; }
    if HasUpper(password) { score := score + 1; }
    if HasDigit(password) { score := score + 1; }
    if HasSpecial(password) { score := score + 1; }
    CountFive(Criteria(password));
    strength := RatingOf(score);
  }

  lemma CountFive(bs: seq<bool>)
    requires |bs| == 5
    ensures Count(bs) == (if bs[0] then 1 else 0) + (if bs[1] then 1 else 0)
                         + (if bs[2] then 1 else 0) + (if bs[3] then 1 else 0)
                         + (if bs[4] then 1 else 0)
  {
    var t1, t2, t3, t4 := bs[1..], bs[2..], bs[3..], bs[4..];
    assert t1[1..] == t2 && t2[1..] == t3 && t3[1..] == t4 && t4[1..] == [];
    assert t1[0] == bs[1] && t2[0] == bs[2] && t3[0] == bs[3] && t4[0] == bs[4];
  }

  /** `updatePasswordStrength`: the bar always takes the rating's percentage;
      the level class and the rating's caption are shown only for a
      positive score, otherwise the caption is the neutral placeholder. */
  function ShowMeter(strength: Rating): (m: Meter)
    ensures m.width == strength.percentage
    ensures m.level.Some? <==> strength.score > 0
  {
    if strength.score > 0 then Meter(strength.percentage, Some(strength.cls), strength.text)
    else Meter(strength.percentage, None, "Password strength")
  }

  /** The score is zero exactly for the empty password, since every
      character falls in one of the four character classes tested. */
  lemma ScoreZeroIffEmpty(p: string)
    ensures Score(p) == 0 <==> p == []
  {
    if p != [] {
      EveryCharHasAClass(p[0]);
      assert HasLower(p) || HasUpper(p) || HasDigit(p) || HasSpecial(p);
      assert Criteria(p)[1] || Criteria(p)[2] || Criteria(p)[3] || Criteria(p)[4];
    }
  }

  /** The three steps: a score of at most two is weak, three is medium, four
      or five is strong, and the percentage alone tells the step. */
  lemma RatingSteps(score: nat)
    ensures var r := RatingOf(score);
      && r.score == score
      && (r.cls == "weak" <==> score <= 2) && (r.percentage == 33 <==> score <= 2)
      && (r.cls == "medium" <==> score == 3) && (r.percentage == 66 <==> score == 3)
      && (r.cls == "strong" <==> score >= 4) && (r.percentage == 100 <==> score >= 4)
  {
  }

  /** A higher score never shortens the bar. */
  lemma PercentageMonotone(a: nat, b: nat)
    requires a <= b
    ensures RatingOf(a).percentage <= RatingOf(b).percentage
  {
  }

  /** What the meter shows while typing: the bar is never narrower than 33%;
      an empty password (and only an empty one) gets no level class and the
      neutral caption; any other password gets its step's class and caption. */
  lemma MeterForPassword(p: string)
    ensures var r := RatingOf(Score(p)); var m := ShowMeter(r);
      && m.width == r.percentage && m.width >= 33
      && (p == [] <==> m.level == None)
      && (p == [] <==> m.text == "Password strength")
      && (p != [] ==> m.level == Some(r.cls) && m.text == r.text)
  {
    ScoreZeroIffEmpty(p);
  }

  /** Worked ratings: the empty password, a lower-case-only password of
      length eight, and two passwords meeting four and five criteria. */
  lemma RatingExamples()
    ensures Score("") == 0 && RatingOf(Score("")).percentage == 33
    ensures Score("abcdefgh") == 2 && RatingOf(2).text == "Weak password"
    ensures Score("Abcdefg1") == 4 && RatingOf(4).text == "Strong password"
    ensures Score("Ab1!efgh") == 5 && RatingOf(5).text == "Strong password"
  {
    ScoreZeroIffEmpty("");
    var p1 := "abcdefgh";
    assert IsLower(p1[0]) && !HasUpper(p1) && !HasDigit(p1) && !HasSpecial(p1);
    CountFive(Criteria(p1));
    var p2 := "Abcdefg1";
    assert IsUpper(p2[0]) && IsLower(p2[1]) && IsDigit(p2[7]) && !HasSpecial(p2);
    CountFive(Criteria(p2));
    var p3 := "Ab1!efgh";
    assert IsUpper(p3[0]) && IsLower(p3[1]) && IsDigit(p3[2]) && IsSpecial(p3[3]);
    CountFive(Criteria(p3));
  }

  /** Length is only one criterion of five: a four-character password still
      rates strong. */
  lemma ShortPasswordCanRateStrong()
    ensures |"Ab1!"| < 8 && RatingOf(Score("Ab1!")).cls == "strong"
  {
    var p := "Ab1!";
    assert IsUpper(p[0]) && IsLower(p[1]) && IsDigit(p[2]) && IsSpecial(p[3]);
    CountFive(Criteria(p));
  }
}
