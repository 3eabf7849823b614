/** The three counters of `TextAnalyzerCore`: `count_words`, `count_numbers` and
    `count_sentences`. Each is stated as the regex reads it and proved equal to a count of
    maximal runs. */
module Counting {
  import opened CharClasses
  import opened Tokens
  import opened Sentences

  // ---------------------------------------------------------------- count_words

  /** `\b[a-zA-Z]+\b` matches at position `k`: a word boundary before `k` (nothing or a
      non-word character precedes the letter at `k`), and the longest run of letters from
      `k` is followed by a boundary (the end of the text or a non-word character).
      Backtracking to a shorter run never helps: it would end between two letters. */
  predicate WordMatchAt(s: string, k: nat)
    requires k < |s|
  {
    IsLetter(s[k]) && (k == 0 || !IsWordChar(s[k - 1])) &&
    var n := RunLen(s[k..], IsLetter);
    k + n == |s| || !IsWordChar(s[k + n])
  }

  /** The number of matches starting at `i` or later. */
  function WordMatchesFrom(s: string, i: nat): (n: nat)
    requires i <= |s|
    ensures n <= |s| - i
    decreases |s| - i
  {
    if i == |s| then 0
    else (if WordMatchAt(s, i) then 1 else 0) + WordMatchesFrom(s, i + 1)
  }

  /** A word-character run consisting of letters only. */
  predicate IsLetterWord(w: string) {
    All(w, IsLetter)
  }

  /** A match starts exactly where a run of word characters starts that holds only
      letters. */
  lemma {:induction false} MatchIffLetterRun(s: string, i: nat)
    requires i < |s| && IsWordChar(s[i])
    requires i == 0 || !IsWordChar(s[i - 1])
    ensures WordMatchAt(s, i) <==> IsLetterWord(s[i..][..RunLen(s[i..], IsWordChar)])
  {
    var t := s[i..];
    var n := RunLen(t, IsWordChar);
    var m := RunLen(t, IsLetter);
    var w := t[..n];
    assert i + m < |s| ==> s[i + m] == t[m];
    if WordMatchAt(s, i) {
      RunLenUnique(t, IsWordChar, m);
    }
    if IsLetterWord(w) {
      RunLenUnique(t, IsLetter, n);
    }
  }

  /** A non-word character neither starts a match nor belongs to a run. */
  lemma SkipNonWord(s: string, i: nat)
    requires i < |s| && !IsWordChar(s[i])
    ensures WordMatchesFrom(s, i) == WordMatchesFrom(s, i + 1)
    ensures Runs(s[i..], IsWordChar) == Runs(s[i + 1..], IsWordChar)
  {
    assert s[i..][1..] == s[i + 1..];
  }

  /** Inside a run of word characters no match starts. */
  lemma {:induction false} NoMatchInsideRun(s: string, i: nat, j: nat)
    requires i < j <= |s|
    requires All(s[i..j], IsWordChar)
    ensures WordMatchesFrom(s, i + 1) == WordMatchesFrom(s, j)
    decreases j - i
  {
    if i + 1 < j {
      assert s[i..j][0] == s[i];
      assert s[i + 1..j] == s[i..j][1..];
      NoMatchInsideRun(s, i + 1, j);
    }
  }

  /** A run of word characters from `i` to `j`: it is the first run of `s[i..]`, and it
      holds a match exactly when it is made of letters. */
  lemma WordRunStep(s: string, i: nat) returns (j: nat)
    requires i < |s| && IsWordChar(s[i])
    requires i == 0 || !IsWordChar(s[i - 1])
    ensures i < j <= |s| && (j == |s| || !IsWordChar(s[j]))
    ensures Runs(s[i..], IsWordChar) == [s[i..j]] + Runs(s[j..], IsWordChar)
    ensures WordMatchesFrom(s, i) == (if IsLetterWord(s[i..j]) then 1 else 0) + WordMatchesFrom(s, j)
  {
    var t := s[i..];
    var n := RunLen(t, IsWordChar);
    j := i + n;
    assert t[..n] == s[i..j];
    assert t[n..] == s[j..];
    assert j < |s| ==> s[j] == t[n];
    MatchIffLetterRun(s, i);
    NoMatchInsideRun(s, i, j);
  }

  /** Counting the matches is counting the letter-only runs of word characters. */
  lemma {:induction false} MatchesAreLetterRuns(s: string, i: nat)
    requires i <= |s|
    requires i == 0 || !IsWordChar(s[i - 1])
    ensures WordMatchesFrom(s, i) == |Keep(Runs(s[i..], IsWordChar), IsLetterWord)|
    decreases |s| - i
  {
    if i < |s| {
      if !IsWordChar(s[i]) {
        SkipNonWord(s, i);
        MatchesAreLetterRuns(s, i + 1);
      } else {
        var j := WordRunStep(s, i);
        KeepCons(s[i..j], Runs(s[j..], IsWordChar), IsLetterWord);
        if j < |s| {
          SkipNonWord(s, j);
          MatchesAreLetterRuns(s, j + 1);
        }
      }
    }
  }

  /** `count_words`: the number of matches of `\b[a-zA-Z]+\b`, which is the number of
      maximal runs of word characters made of letters only ("abc" counts, "abc1", "a_b"
      and "42" do not). */
  function CountWords(s: string): (n: nat)
    ensures n == |Keep(Runs(s, IsWordChar), IsLetterWord)|
  {
    assert s[0..] == s;
    MatchesAreLetterRuns(s, 0);
    WordMatchesFrom(s, 0)
  }

  // -------------------------------------------------------------- count_numbers

  /** `count_numbers`: `re.findall(r'\d+', s)` returns the maximal runs of digits, and the
      count is their number. Each run begins at a digit that does not follow a digit, so the
      count is the number of such positions; it is zero exactly when the text has no digit. */
  function CountNumbers(s: string): (n: nat)
    ensures n == CountRunStarts(s, IsDigit, 0)
    ensures n == 0 <==> NoneOf(s, IsDigit)
  {
    RunsEmptyIff(s, IsDigit);
    assert s[0..] == s;
    RunsCountStarts(s, IsDigit, 0);
    |Runs(s, IsDigit)|
  }

  // ------------------------------------------------------------ count_sentences

  /** `re.split(r'[.!?]+', s)`: the pieces between maximal runs of stop characters, so one
      more piece than there are runs; a leading or trailing run gives an empty piece. */
  function SplitOnStops(s: string): (ps: seq<string>)
    ensures |ps| >= 1
    decreases |s|
  {
    var n := RunLen(s, IsNotStop);
    if n == |s| then [s]
    else
      var t := s[n..];
      assert t[0] == s[n];
      var m := RunLen(t, IsStop);
      [s[..n]] + SplitOnStops(t[m..])
  }

  /** Text without stop characters is a single piece. */
  lemma SplitWhole(s: string)
    requires NoneOf(s, IsStop)
    ensures SplitOnStops(s) == [s]
  {
    RunLenUnique(s, IsNotStop, |s|);
  }

  /** The run of non-stop characters at the front ends before the first stop character. */
  lemma FirstStop(s: string)
    requires !NoneOf(s, IsStop)
    ensures RunLen(s, IsNotStop) < |s|
  {
    var k :| 0 <= k < |s| && IsStop(s[k]);
    assert !IsNotStop(s[k]);
  }

  /** Text with a stop character splits into the piece before the first run of stops,
      that run, and the rest, which the split continues on. */
  lemma {:induction false} SplitShape(s: string) returns (a: string, b: string, c: string)
    requires !NoneOf(s, IsStop)
    ensures SplitOnStops(s) == [a] + SplitOnStops(c)
    ensures s == a + (b + c) && |c| < |s|
    ensures NoneOf(a, IsStop) && |b| > 0 && All(b, IsStop)
    ensures |c| == 0 || !IsStop(c[0])
  {
    var n := RunLen(s, IsNotStop);
    FirstStop(s);
    var t := s[n..];
    assert t[0] == s[n];
    var m := RunLen(t, IsStop);
    a, b, c := s[..n], t[..m], t[m..];
    assert t == b + c;
    assert s == a + t;
    assert |c| > 0 ==> c[0] == t[m];
  }

  /** There is one more piece than there are runs of stop characters. */
  lemma {:induction false} SplitCount(s: string)
    ensures |SplitOnStops(s)| == |Runs(s, IsStop)| + 1
    decreases |s|
  {
    if NoneOf(s, IsStop) {
      SplitWhole(s);
      RunsNoneOf(s, IsStop);
    } else {
      var a, b, c := SplitShape(s);
      SplitCount(c);
      RunsNoneOf(a, IsStop);
      RunsOfRun(b, IsStop);
      RunsAppend(b, c, IsStop);
      RunsAppend(a, b + c, IsStop);
    }
  }

  predicate NonEmpty(p: string) {
    |p| > 0
  }

  /** Text free of stops, a run of stops, then text starting with a non-stop: the runs of
      non-stop characters are the first part, when non-empty, followed by those of the
      last. */
  lemma StopRunBetween(a: string, b: string, c: string)
    requires NoneOf(a, IsStop) && |b| > 0 && All(b, IsStop)
    requires |c| == 0 || !IsStop(c[0])
    ensures Runs(a + (b + c), IsNotStop) == (if |a| > 0 then [a] else []) + Runs(c, IsNotStop)
  {
    if |a| > 0 {
      RunsOfRun(a, IsNotStop);
    }
    RunsNoneOf(b, IsNotStop);
    RunsAppend(b, c, IsNotStop);
    RunsAppend(a, b + c, IsNotStop);
  }

  /** The non-empty pieces are the maximal runs of non-stop characters. */
  lemma {:induction false} SplitPieces(s: string)
    ensures Keep(SplitOnStops(s), NonEmpty) == Runs(s, IsNotStop)
    decreases |s|
  {
    if NoneOf(s, IsStop) {
      SplitWhole(s);
      if |s| > 0 {
        RunsOfRun(s, IsNotStop);
      }
      KeepCons(s, [], NonEmpty);
    } else {
      var a, b, c := SplitShape(s);
      SplitPieces(c);
      KeepCons(a, SplitOnStops(c), NonEmpty);
      StopRunBetween(a, b, c);
    }
  }

  /** A piece that survives `if s.strip()`. */
  predicate HasText(p: string) {
    |Strip(p)| > 0
  }

  /** `count_sentences`: the number of pieces of `re.split(r'[.!?]+', s)` that are not
      blank, which is the number of maximal runs of non-stop characters that hold a
      non-whitespace character. */
  function CountSentences(s: string): (n: nat)
    ensures n == |Keep(Runs(s, IsNotStop), HasText)|
  {
    var ps := SplitOnStops(s);
    SplitPieces(s);
    forall i | 0 <= i < |ps| && HasText(ps[i])
      ensures NonEmpty(ps[i])
    {
    }
    KeepKeep(ps, NonEmpty, HasText);
    |Keep(ps, HasText)|
  }

  /** A sentence count never exceeds the pieces the split produces. */
  lemma {:induction false} CountSentencesBound(s: string)
    ensures CountSentences(s) <= |Runs(s, IsStop)| + 1
    ensures CountSentences(s) <= |Runs(s, IsNotStop)|
  {
    SplitCount(s);
    SplitPieces(s);
    var ps := SplitOnStops(s);
    KeepKeep(ps, NonEmpty, HasText);
  }

  /** Blank text has no sentence. */
  lemma CountSentencesBlank(s: string)
    requires IsBlank(s)
    ensures CountSentences(s) == 0
  {
    if |s| > 0 {
      assert s[0] !in ".!?" by { assert IsSpace(s[0]); }
      forall k | 0 <= k < |s| ensures IsNotStop(s[k]) {
        assert IsSpace(s[k]);
      }
      RunsOfRun(s, IsNotStop);
      KeepCons(s, [], HasText);
    }
  }

  /** Text that is not blank and has no stop character is one sentence. */
  lemma CountSentencesOne(s: string)
    requires !IsBlank(s) && NoneOf(s, IsStop)
    ensures CountSentences(s) == 1
  {
    RunsOfRun(s, IsNotStop);
    KeepCons(s, [], HasText);
  }
}
