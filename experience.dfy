/**
 * `extract_years_of_experience` (utils/nlp_processor.py): the resume text is
 * lower-cased and searched for the leftmost occurrence of
 *
 *     (\d+)\s*\+?\s*years? of experience|(\d+)\s*\+?\s*years? experience
 *
 * and the integer written by the digit group is returned, or 0 without a match.
 *
 * The search is modelled twice: `MatchAt` is a deterministic scanner (skip the
 * digit run, the spacer, the phrase), and `InPattern` is the language of the
 * pattern stated as a decomposition of the matched text. `MatchAtIff` proves
 * the two agree at every position, so what is proved about the scanner holds
 * of the regular expression.
 */
module Experience {

  import opened Wrappers
  import opened TextUtil

  /** The four phrases `years? of experience | years? experience` can match. */
  const Phrases: set<string> :=
    {"year of experience", "years of experience", "year experience", "years experience"}

  // ---------------------------------------------------------------------------
  // The pattern as a language

  predicate AllDigits(w: string) {
    forall k :: 0 <= k < |w| ==> IsDigit(w[k])
  }

  predicate AllSpaces(w: string) {
    forall k :: 0 <= k < |w| ==> IsSpace(w[k])
  }

  /** `\s*\+?\s*`: whitespace, at most one `+`, whitespace. */
  ghost predicate Spacer(w: string) {
    AllSpaces(w) || exists k :: 0 <= k < |w| && w[k] == '+' && AllSpaces(w[..k]) && AllSpaces(w[k + 1..])
  }

  /** `w` as a whole is matched by the pattern (either alternative). */
  ghost predicate InPattern(w: string) {
    exists d, s :: 0 < d <= s <= |w| && AllDigits(w[..d]) && Spacer(w[d..s]) && w[s..] in Phrases
  }

  /** A match of the pattern starts at position `i` of `t`. */
  ghost predicate PatternAt(t: string, i: nat) {
    exists e :: i <= e <= |t| && InPattern(t[i..e])
  }

  // ---------------------------------------------------------------------------
  // The scanner

  /** End of the maximal run of digits that starts at `i`. */
  function DigitsEnd(t: string, i: nat): (j: nat)
    requires i <= |t|
    ensures i <= j <= |t|
    ensures j == |t| || !IsDigit(t[j])
    decreases |t| - i
  {
    if i < |t| && IsDigit(t[i]) then DigitsEnd(t, i + 1) else i
  }

  /** End of the maximal run of whitespace that starts at `i`. */
  function SpacesEnd(t: string, i: nat): (j: nat)
    requires i <= |t|
    ensures i <= j <= |t|
    ensures j == |t| || !IsSpace(t[j])
    decreases |t| - i
  {
    if i < |t| && IsSpace(t[i]) then SpacesEnd(t, i + 1) else i
  }

  /** End of `\s*\+?\s*` read from `i`. */
  function SpacerEnd(t: string, i: nat): (j: nat)
    requires i <= |t|
    ensures i <= j <= |t|
  {
    var a := SpacesEnd(t, i);
    if a < |t| && t[a] == '+' then SpacesEnd(t, a + 1) else a
  }

  /** `years? of experience|years? experience` read from `k`. */
  predicate PhraseAt(t: string, k: nat) {
    && StartsAt(t, k, "year")
    && var m := if k + 4 < |t| && t[k + 4] == 's' then k + 5 else k + 4;
       StartsAt(t, m, " of experience") || StartsAt(t, m, " experience")
  }

  /** The scanner's verdict on a match starting at `i`. */
  predicate MatchAt(t: string, i: nat)
    requires i <= |t|
  {
    i < |t| && IsDigit(t[i]) && PhraseAt(t, SpacerEnd(t, DigitsEnd(t, i)))
  }

  /** `re.search`: the leftmost position at or after `i` where a match starts. */
  function FirstMatch(t: string, i: nat): (r: Option<nat>)
    requires i <= |t|
    ensures r.Some? ==> i <= r.value < |t| && MatchAt(t, r.value)
    decreases |t| - i
  {
    if i == |t| then None
    else if MatchAt(t, i) then Some(i)
    else FirstMatch(t, i + 1)
  }

  /** `int(...)` of a run of decimal digits. */
  function DecimalValue(w: string): nat
    requires AllDigits(w)
  {
    if |w| == 0 then 0 else 10 * DecimalValue(w[..|w| - 1]) + DigitValue(w[|w| - 1])
  }

  /** `extract_years_of_experience(text)`. */
  function ExtractYearsOfExperience(text: string): nat {
    var t := Lower(text);
    match FirstMatch(t, 0)
    case None => 0
    case Some(i) =>
      DigitsEndRun(t, i);
      DecimalValue(t[i..DigitsEnd(t, i)])
  }

  /** The search from `s` returns the match no other match after `s` precedes. */
  lemma {:induction false} FirstMatchIs(t: string, s: nat, i: nat)
    requires s <= i <= |t| && MatchAt(t, i)
    requires forall k :: s <= k < i ==> !MatchAt(t, k)
    ensures FirstMatch(t, s) == Some(i)
    decreases i - s
  {
    if s < i {
      assert !MatchAt(t, s);
      FirstMatchIs(t, s + 1, i);
    }
  }

  /** Everything the digit reader passes over is a digit. */
  lemma {:induction false} DigitsEndRun(t: string, i: nat)
    requires i <= |t|
    ensures AllDigits(t[i..DigitsEnd(t, i)])
    decreases |t| - i
  {
    if i < |t| && IsDigit(t[i]) {
      DigitsEndRun(t, i + 1);
      assert t[i..DigitsEnd(t, i)] == [t[i]] + t[i + 1..DigitsEnd(t, i + 1)];
    }
  }

  /** Everything the whitespace reader passes over is whitespace. */
  lemma {:induction false} SpacesEndRun(t: string, i: nat)
    requires i <= |t|
    ensures AllSpaces(t[i..SpacesEnd(t, i)])
    decreases |t| - i
  {
    if i < |t| && IsSpace(t[i]) {
      SpacesEndRun(t, i + 1);
      assert t[i..SpacesEnd(t, i)] == [t[i]] + t[i + 1..SpacesEnd(t, i + 1)];
    }
  }

  /** The search returns the leftmost match, and finds none only when there is none. */
  lemma {:induction false} FirstMatchLeftmost(t: string, i: nat)
    requires i <= |t|
    ensures FirstMatch(t, i).None? ==> forall k :: i <= k <= |t| ==> !MatchAt(t, k)
    ensures FirstMatch(t, i).Some? ==> forall k :: i <= k < FirstMatch(t, i).value ==> !MatchAt(t, k)
    decreases |t| - i
  {
    if i < |t| && !MatchAt(t, i) {
      FirstMatchLeftmost(t, i + 1);
      var r := FirstMatch(t, i + 1);
      assert FirstMatch(t, i) == r;
      var stop := if r.None? then |t| + 1 else r.value;
      forall k | i <= k < stop
        ensures !MatchAt(t, k)
      {
        if k == i {
          assert !MatchAt(t, i);
        }
      }
    }
  }

  // ---------------------------------------------------------------------------
  // The scanner agrees with the pattern

  lemma {:induction false} DigitsEndIs(t: string, i: nat, j: nat)
    requires i <= j <= |t|
    requires forall k :: i <= k < j ==> IsDigit(t[k])
    requires j == |t| || !IsDigit(t[j])
    ensures DigitsEnd(t, i) == j
    decreases j - i
  {
    if i < j {
      DigitsEndIs(t, i + 1, j);
    }
  }

  lemma {:induction false} SpacesEndIs(t: string, i: nat, j: nat)
    requires i <= j <= |t|
    requires forall k :: i <= k < j ==> IsSpace(t[k])
    requires j == |t| || !IsSpace(t[j])
    ensures SpacesEnd(t, i) == j
    decreases j - i
  {
    if i < j {
      SpacesEndIs(t, i + 1, j);
    }
  }

  /** The phrase reader accepts exactly the texts that begin with one of the four phrases. */
  lemma PhraseAtIff(t: string, k: nat)
    requires k <= |t|
    ensures PhraseAt(t, k) <==> exists e :: k <= e <= |t| && t[k..e] in Phrases
  {
    if PhraseAt(t, k) {
      PhraseAtGivesPhrase(t, k);
    }
    if e :| k <= e <= |t| && t[k..e] in Phrases {
      PhraseGivesPhraseAt(t, k, e);
    }
  }

  lemma PhraseGivesPhraseAt(t: string, k: nat, e: nat)
    requires k <= e <= |t| && t[k..e] in Phrases
    ensures PhraseAt(t, k)
  {
    PhraseSpellings();
    assert StartsAt(t, k, t[k..e]);
    if t[k..e] == "year" + ['s'] + " of experience" {
      Split(t, k, "year" + ['s'], " of experience");
      Split(t, k, "year", ['s']);
    } else if t[k..e] == "year" + ['s'] + " experience" {
      Split(t, k, "year" + ['s'], " experience");
      Split(t, k, "year", ['s']);
    } else if t[k..e] == "year" + " of experience" {
      Split(t, k, "year", " of experience");
    } else {
      Split(t, k, "year", " experience");
    }
  }

  lemma PhraseAtGivesPhrase(t: string, k: nat)
    requires k <= |t| && PhraseAt(t, k)
    ensures exists e :: k <= e <= |t| && t[k..e] in Phrases
  {
    PhraseSpellings();
    if k + 4 < |t| && t[k + 4] == 's' {
      Joined(t, k, "year", ['s']);
      if StartsAt(t, k + 5, " of experience") {
        Joined(t, k, "year" + ['s'], " of experience");
        assert t[k..k + 19] in Phrases;
      } else {
        Joined(t, k, "year" + ['s'], " experience");
        assert t[k..k + 16] in Phrases;
      }
    } else if StartsAt(t, k + 4, " of experience") {
      Joined(t, k, "year", " of experience");
      assert t[k..k + 18] in Phrases;
    } else {
      Joined(t, k, "year", " experience");
      assert t[k..k + 15] in Phrases;
    }
  }

  /** The four phrases, spelled as the phrase reader reads them. */
  lemma PhraseSpellings()
    ensures "year" + ['s'] + " of experience" == "years of experience"
    ensures "year" + ['s'] + " experience" == "years experience"
    ensures "year" + " of experience" == "year of experience"
    ensures "year" + " experience" == "year experience"
  {
  }

  /** `u + v` at `k` is `u` at `k` followed by `v`. */
  lemma Split(t: string, k: nat, u: string, v: string)
    requires StartsAt(t, k, u + v)
    ensures StartsAt(t, k, u) && StartsAt(t, k + |u|, v)
    ensures |v| > 0 ==> t[k + |u|] == v[0]
  {
    assert t[k..k + |u|] == (u + v)[..|u|];
    assert t[k + |u|..k + |u| + |v|] == (u + v)[|u|..];
  }

  /** `u` at `k` followed by `v` is `u + v` at `k`. */
  lemma Joined(t: string, k: nat, u: string, v: string)
    requires StartsAt(t, k, u) && StartsAt(t, k + |u|, v)
    ensures StartsAt(t, k, u + v)
  {
    assert t[k..k + |u| + |v|] == t[k..k + |u|] + t[k + |u|..k + |u| + |v|];
  }

  /** Every phrase begins with `y`, which is neither a digit, a space nor `+`. */
  lemma PhraseStart(w: string)
    requires w in Phrases
    ensures |w| > 0 && w[0] == 'y'
  {
  }

  /** The scanner finds a match at `i` exactly when the pattern matches a text starting at `i`. */
  lemma MatchAtIff(t: string, i: nat)
    requires i <= |t|
    ensures MatchAt(t, i) <==> PatternAt(t, i)
  {
    if MatchAt(t, i) {
      ScannerMatchIsPatternMatch(t, i);
    }
    if PatternAt(t, i) {
      PatternMatchIsScannerMatch(t, i);
    }
  }

  lemma ScannerMatchIsPatternMatch(t: string, i: nat)
    requires i <= |t| && MatchAt(t, i)
    ensures PatternAt(t, i)
  {
    var j := DigitsEnd(t, i);
    var b := SpacerEnd(t, j);
    PhraseAtIff(t, b);
    var e :| b <= e <= |t| && t[b..e] in Phrases;
    ScannedSpacer(t, j);
    DigitsEndRun(t, i);
    PatternIntro(t, i, j, b, e);
  }

  /** The text read by `SpacerEnd` is a spacer. */
  lemma ScannedSpacer(t: string, j: nat)
    requires j <= |t|
    ensures Spacer(t[j..SpacerEnd(t, j)])
  {
    var a := SpacesEnd(t, j);
    var b := SpacerEnd(t, j);
    var sp := t[j..b];
    SpacesEndRun(t, j);
    if a < |t| && t[a] == '+' {
      SpacesEndRun(t, a + 1);
      var k := a - j;
      assert sp[..k] == t[j..a];
      assert sp[k + 1..] == t[a + 1..b];
      assert sp[k] == '+';
    } else {
      assert AllSpaces(sp);
    }
  }

  /** Digits, a spacer and a phrase, one after the other, form a match. */
  lemma PatternIntro(t: string, i: nat, j: nat, b: nat, e: nat)
    requires i < j <= b <= e <= |t|
    requires AllDigits(t[i..j])
    requires Spacer(t[j..b]) && t[b..e] in Phrases
    ensures PatternAt(t, i)
  {
    Cuts(t, i, e, j - i, b - i);
    assert InPattern(t[i..e]);
  }

  lemma PatternMatchIsScannerMatch(t: string, i: nat)
    requires i <= |t| && PatternAt(t, i)
    ensures MatchAt(t, i)
  {
    var j, b := PatternParts(t, i);
    SpacerEndOn(t, j, b, t[j..b]);
    DigitsOn(t, i, j);
    PhraseAtIff(t, b);
  }

  /** The parts of a match starting at `i`: digits up to `j`, a spacer up to `b`, then a phrase. */
  lemma PatternParts(t: string, i: nat) returns (j: nat, b: nat)
    requires i <= |t| && PatternAt(t, i)
    ensures i < j <= b < |t|
    ensures AllDigits(t[i..j]) && Spacer(t[j..b])
    ensures t[b] == 'y' && exists e :: b <= e <= |t| && t[b..e] in Phrases
  {
    var e :| i <= e <= |t| && InPattern(t[i..e]);
    var d, s := SplitMatch(t[i..e]);
    Cuts(t, i, e, d, s);
    j, b := i + d, i + s;
    assert t[b..e] in Phrases;
  }

  /** The three pieces of `t[i..e]` cut at `d` and `s` are the slices of `t` they cover. */
  lemma Cuts(t: string, i: nat, e: nat, d: nat, s: nat)
    requires i <= e <= |t| && d <= s <= e - i
    ensures t[i..e][..d] == t[i..i + d]
    ensures t[i..e][d..s] == t[i + d..i + s]
    ensures t[i..e][s..] == t[i + s..e]
    ensures s < e - i ==> t[i..e][s] == t[i + s]
  {
    Slice(t, i, e, 0, d);
    Slice(t, i, e, d, s);
    Slice(t, i, e, s, e - i);
    var w := t[i..e];
    assert w[..d] == w[0..d] && w[s..] == w[s..e - i];
  }

  /** A text of the pattern, cut into its digits `w[..d]`, spacer `w[d..s]` and phrase `w[s..]`. */
  lemma SplitMatch(w: string) returns (d: nat, s: nat)
    requires InPattern(w)
    ensures 0 < d <= s < |w|
    ensures AllDigits(w[..d]) && Spacer(w[d..s]) && w[s..] in Phrases && w[s] == 'y'
  {
    d, s :| 0 < d <= s <= |w| && AllDigits(w[..d]) && Spacer(w[d..s]) && w[s..] in Phrases;
    PhraseStart(w[s..]);
  }

  lemma Slice(t: string, i: nat, e: nat, d: nat, s: nat)
    requires i <= e <= |t| && d <= s <= e - i
    ensures t[i..e][d..s] == t[i + d..i + s]
  {
    assert |t[i..e][d..s]| == s - d == |t[i + d..i + s]|;
    forall k | 0 <= k < s - d
      ensures t[i..e][d..s][k] == t[i + d..i + s][k]
    {
    }
  }

  /** Reading `\s*\+?\s*` from `j` stops where a spacer text `sp` followed by `y` ends. */
  lemma SpacerEndOn(t: string, j: nat, b: nat, sp: string)
    requires j <= b < |t| && t[j..b] == sp && Spacer(sp) && t[b] == 'y'
    ensures SpacerEnd(t, j) == b
    ensures !IsDigit(t[j])
  {
    if AllSpaces(sp) {
      SpacesOn(t, j, b);
    } else {
      var k :| 0 <= k < |sp| && sp[k] == '+' && AllSpaces(sp[..k]) && AllSpaces(sp[k + 1..]);
      PlusSpacerOn(t, j, b, sp, k);
    }
  }

  lemma PlusSpacerOn(t: string, j: nat, b: nat, sp: string, k: nat)
    requires j <= b < |t| && t[j..b] == sp && t[b] == 'y'
    requires k < |sp| && sp[k] == '+' && AllSpaces(sp[..k]) && AllSpaces(sp[k + 1..])
    ensures SpacerEnd(t, j) == b
    ensures !IsDigit(t[j])
  {
    assert t[j..j + k] == sp[..k];
    assert t[j + k + 1..b] == sp[k + 1..];
    assert t[j + k] == sp[k];
    SpacesOn(t, j, j + k);
    SpacesOn(t, j + k + 1, b);
  }

  /** Digits from `i` up to `j`, where no digit stands, are what the digit reader skips. */
  lemma DigitsOn(t: string, i: nat, j: nat)
    requires i <= j <= |t| && AllDigits(t[i..j]) && (j == |t| || !IsDigit(t[j]))
    ensures DigitsEnd(t, i) == j
  {
    forall k | i <= k < j
      ensures IsDigit(t[k])
    {
      assert t[k] == t[i..j][k - i];
    }
    DigitsEndIs(t, i, j);
  }

  /** Whitespace from `j` up to `b`, where a non-space stands, is what the whitespace reader skips. */
  lemma SpacesOn(t: string, j: nat, b: nat)
    requires j <= b < |t| && AllSpaces(t[j..b]) && !IsSpace(t[b])
    ensures SpacesEnd(t, j) == b
    ensures j < b ==> IsSpace(t[j])
  {
    forall m | j <= m < b
      ensures IsSpace(t[m])
    {
      assert t[m] == t[j..b][m - j];
    }
    SpacesEndIs(t, j, b);
  }

  // ---------------------------------------------------------------------------
  // What extract_years_of_experience promises

  /** Without a match anywhere in the lower-cased text the result is 0. */
  lemma NoMatchGivesZero(text: string)
    requires forall i :: 0 <= i <= |text| ==> !PatternAt(Lower(text), i)
    ensures ExtractYearsOfExperience(text) == 0
  {
    var t := Lower(text);
    var r := FirstMatch(t, 0);
    if r.Some? {
      MatchAtIff(t, r.value);
    }
  }

  /**
   * With a match, the result is the number written by the leftmost match's
   * digits, and those digits are a whole run: it extends to `j`, where the
   * digits stop, and no digit precedes it.
   */
  lemma LeftmostMatchGivesItsNumber(text: string, i: nat, j: nat)
    requires i < j <= |text|
    requires PatternAt(Lower(text), i)
    requires forall k :: 0 <= k < i ==> !PatternAt(Lower(text), k)
    requires AllDigits(Lower(text)[i..j]) && (j == |text| || !IsDigit(Lower(text)[j]))
    ensures ExtractYearsOfExperience(text) == DecimalValue(Lower(text)[i..j])
    ensures i == 0 || !IsDigit(Lower(text)[i - 1])
  {
    var t := Lower(text);
    MatchAtIff(t, i);
    forall k | 0 <= k < i
      ensures !MatchAt(t, k)
    {
      MatchAtIff(t, k);
    }
    FirstMatchIs(t, 0, i);
    DigitsOn(t, i, j);
    if i > 0 {
      DigitBeforeMatch(t, i);
      MatchAtIff(t, i - 1);
    }
  }

  /** A digit just before a match starts a match too. */
  lemma DigitBeforeMatch(t: string, i: nat)
    requires 0 < i <= |t|
    ensures MatchAt(t, i) && IsDigit(t[i - 1]) ==> MatchAt(t, i - 1)
  {
    if MatchAt(t, i) && IsDigit(t[i - 1]) {
      assert DigitsEnd(t, i - 1) == DigitsEnd(t, i);
    }
  }

  /** Matching ignores case: a text and its lower-cased form give the same result. */
  lemma CaseInsensitive(text: string)
    ensures ExtractYearsOfExperience(text) == ExtractYearsOfExperience(Lower(text))
  {
    LowerIdempotent(text);
  }

  predicate NoDigitIn(t: string, i: nat, j: nat)
    requires i <= j <= |t|
  {
    forall k :: i <= k < j ==> !IsDigit(t[k])
  }

  /** A position without a digit cannot start a match, so the search passes over it. */
  lemma SkipNonDigit(t: string, i: nat)
    requires i < |t| && !IsDigit(t[i])
    ensures FirstMatch(t, i) == FirstMatch(t, i + 1)
  {
  }

  /** "5 years of experience" reads as 5 years. */
  lemma FiveYearsOfExperience(text: string)
    requires Lower(text) == "5 years of experience"
    ensures ExtractYearsOfExperience(text) == 5
  {
    var t := Lower(text);
    FiveYearsShape(t);
    FiveYearsWord(t);
    FiveYearsTail(t);
    DigitsEndIs(t, 0, 1);
    SpacesEndIs(t, 1, 2);
    assert PhraseAt(t, 2);
    assert MatchAt(t, 0);
    assert FirstMatch(t, 0) == Some(0);
    assert DecimalValue([t[0]]) == 10 * DecimalValue([]) + DigitValue(t[0]);
  }

  lemma FiveYearsShape(t: string)
    requires t == "5 years of experience"
    ensures |t| == 21 && t[0] == '5' && t[1] == ' ' && t[2] == 'y' && t[6] == 's'
  {
  }

  lemma FiveYearsWord(t: string)
    requires t == "5 years of experience"
    ensures StartsAt(t, 2, "year")
  {
  }

  lemma FiveYearsTail(t: string)
    requires t == "5 years of experience"
    ensures StartsAt(t, 7, " of experience")
  {
  }

  /** The capitalised phrase gives the same 5 years as the lower-case one. */
  lemma CapitalisedPhrase()
    ensures ExtractYearsOfExperience("5 Years Of Experience") == 5
    ensures ExtractYearsOfExperience("5 years of experience") == 5
  {
    LowerCapitalised();
    LowerFive();
    FiveYearsOfExperience("5 Years Of Experience");
    FiveYearsOfExperience("5 years of experience");
  }

  lemma LowerCapitalised()
    ensures Lower("5 Years Of Experience") == "5 years of experience"
  {
  }

  lemma LowerFive()
    ensures Lower("5 years of experience") == "5 years of experience"
  {
  }

  /** A match is a digit followed by at least "year experience": it needs 16 characters. */
  lemma MatchNeedsRoom(t: string, i: nat)
    requires i <= |t|
    ensures MatchAt(t, i) ==> i + 16 <= |t|
  {
    if MatchAt(t, i) {
      assert i < DigitsEnd(t, i);
    }
  }

  /** Fewer than 16 characters from `i` on hold no match. */
  lemma {:induction false} NoRoomNoMatch(t: string, i: nat)
    requires i <= |t| < i + 16
    ensures FirstMatch(t, i) == None
    decreases |t| - i
  {
    if i < |t| {
      MatchNeedsRoom(t, i);
      NoRoomNoMatch(t, i + 1);
    }
  }

  /** The number must come before "year": the reversed phrasing finds nothing. */
  lemma ReversedPhrasing()
    ensures ExtractYearsOfExperience("experience of 5 years") == 0
  {
    var t := "experience of 5 years";
    LowerReversed();
    ReversedFacts();
    SkipNonDigit(t, 0);
    SkipNonDigit(t, 1);
    SkipNonDigit(t, 2);
    SkipNonDigit(t, 3);
    SkipNonDigit(t, 4);
    SkipNonDigit(t, 5);
    NoRoomNoMatch(t, 6);
  }

  lemma LowerReversed()
    ensures Lower("experience of 5 years") == "experience of 5 years"
  {
  }

  lemma ReversedFacts()
    ensures |"experience of 5 years"| == 21
    ensures NoDigitIn("experience of 5 years", 0, 6)
  {
  }

  /** The words of the phrase are separated by exactly one space. */
  lemma TwoSpacesBeforeOf()
    ensures ExtractYearsOfExperience("5 years  of experience") == 0
  {
    var t := "5 years  of experience";
    LowerTwoSpaces();
    TwoSpacesFacts();
    DigitsEndIs(t, 0, 1);
    SpacesEndIs(t, 1, 2);
    Mismatch(t, 7, " of experience", 1);
    Mismatch(t, 7, " experience", 1);
    assert !MatchAt(t, 0);
    SkipNonDigit(t, 1);
    SkipNonDigit(t, 2);
    SkipNonDigit(t, 3);
    SkipNonDigit(t, 4);
    SkipNonDigit(t, 5);
    SkipNonDigit(t, 6);
    NoRoomNoMatch(t, 7);
  }

  /** A text that differs from `w` at offset `x` does not begin with `w`. */
  lemma Mismatch(t: string, k: nat, w: string, x: nat)
    requires x < |w| && k + x < |t| && t[k + x] != w[x]
    ensures !StartsAt(t, k, w)
  {
  }

  lemma LowerTwoSpaces()
    ensures Lower("5 years  of experience") == "5 years  of experience"
  {
  }

  lemma TwoSpacesFacts()
    ensures |"5 years  of experience"| == 22
    ensures NoDigitIn("5 years  of experience", 1, 7)
    ensures "5 years  of experience"[2..6] == "year"
    ensures "5 years  of experience"[6] == 's'
    ensures "5 years  of experience"[8] == ' '
  {
  }

  /** `+` after a two-digit number and a missing "of" are accepted. */
  lemma PlusWithoutOf()
    ensures ExtractYearsOfExperience("10+ years experience") == 10
  {
    var t := "10+ years experience";
    LowerPlus();
    PlusShape();
    PlusWord();
    PlusTail();
    DigitsEndIs(t, 0, 2);
    SpacesEndIs(t, 2, 2);
    SpacesEndIs(t, 3, 4);
    assert SpacerEnd(t, 2) == 4;
    assert MatchAt(t, 0);
    assert FirstMatch(t, 0) == Some(0);
    assert DecimalValue("10") == 10 * DecimalValue("1") + 0;
  }

  lemma LowerPlus()
    ensures Lower("10+ years experience") == "10+ years experience"
  {
  }

  lemma PlusShape()
    ensures "10+ years experience"[0..2] == "10"
    ensures "10+ years experience"[8] == 's'
  {
  }

  lemma PlusWord()
    ensures "10+ years experience"[4..8] == "year"
  {
  }

  lemma PlusTail()
    ensures "10+ years experience"[9..20] == " experience"
  {
  }
}
