/** Sentence formatting: `cap_sentence` and `form_sentence` of prompt_analyzer.py. */
module Sentences {
  import opened CharClasses
  import opened Tokens
  import opened Wrappers

  /** `str.split()` with no argument: the maximal runs of non-whitespace. */
  function Words(s: string): seq<string> {
    Runs(s, IsNotSpace)
  }

  /** Every character of `s` is whitespace, so that `s.strip()` is empty. */
  predicate IsBlank(s: string) {
    All(s, IsSpace)
  }

  /** The only whitespace in `s` is single spaces strictly between non-whitespace
      characters: no leading, trailing or repeated whitespace. */
  predicate Collapsed(s: string) {
    forall i :: 0 <= i < |s| && IsSpace(s[i]) ==> s[i] == ' ' && 0 < i < |s| - 1 && !IsSpace(s[i + 1])
  }

  /** Like `Collapsed`, but a single trailing space is allowed. */
  predicate CollapsedButEnd(s: string) {
    forall i :: 0 <= i < |s| && IsSpace(s[i]) ==> s[i] == ' ' && 0 < i && !IsSpace(s[i - 1])
  }

  /** The words with the first one capitalized, as `words[0] = words[0].capitalize()`. */
  function CapFirst(ws: seq<string>): seq<string> {
    if |ws| == 0 then [] else [Capitalize(ws[0])] + ws[1..]
  }

  lemma WordsAppend(a: string, b: string)
    requires |a| == 0 || |b| == 0 || IsSpace(a[|a| - 1]) || IsSpace(b[0])
    ensures Words(a + b) == Words(a) + Words(b)
  {
    RunsAppend(a, b, IsNotSpace);
  }

  lemma WordsOfBlank(s: string)
    requires IsBlank(s)
    ensures Words(s) == []
  {
    RunsNoneOf(s, IsNotSpace);
  }

  lemma CollapsedJoin(a: string, b: string)
    requires |a| > 0 && |b| > 0 && Collapsed(a) && Collapsed(b)
    ensures Collapsed(a + " " + b)
  {
    var r := a + " " + b;
    forall i | 0 <= i < |r| && IsSpace(r[i])
      ensures r[i] == ' ' && 0 < i < |r| - 1 && !IsSpace(r[i + 1])
    {
      if i < |a| {
        assert r[i] == a[i];
        if i + 1 < |a| {
          assert r[i + 1] == a[i + 1];
        }
      } else if i > |a| {
        assert r[i] == b[i - |a| - 1];
        if i + 1 < |r| {
          assert r[i + 1] == b[i - |a|];
        }
      } else {
        assert r[i + 1] == b[0];
      }
    }
  }

  /** Joining non-empty whitespace-free words with single spaces gives collapsed text. */
  lemma {:induction false} JoinCollapsed(ws: seq<string>)
    requires forall w :: w in ws ==> |w| > 0 && All(w, IsNotSpace)
    ensures Collapsed(Join(ws, " "))
    decreases |ws|
  {
    if |ws| == 1 {
      assert ws[0] in ws;
    } else if |ws| > 1 {
      assert ws[0] in ws;
      JoinCollapsed(ws[1..]);
      CollapsedJoin(ws[0], Join(ws[1..], " "));
    }
  }

  /** `cap_sentence`: split on whitespace, capitalize the first word, rejoin with single
      spaces. The result is collapsed, it is empty exactly when the input is blank, and its
      words are the input's words with the first one capitalized. */
  function CapSentence(sentence: string): (r: string)
    ensures Words(r) == CapFirst(Words(sentence))
    ensures Collapsed(r)
    ensures |r| == 0 <==> IsBlank(sentence)
  {
    var ws := Words(sentence);
    RunsEmptyIff(sentence, IsNotSpace);
    RunsAreRuns(sentence, IsNotSpace);
    if |ws| == 0 then
      []
    else
      var cs := CapFirst(ws);
      assert ws[0] in ws;
      assert forall w :: w in cs ==> w == cs[0] || w in ws;
      JoinCollapsed(cs);
      RunsOfJoin(cs, " ", IsNotSpace);
      Join(cs, " ")
  }

  /** The number of whitespace characters at the end of `s`. */
  function TrailLen(s: string): (n: nat)
    ensures n <= |s|
    ensures forall k :: |s| - n <= k < |s| ==> IsSpace(s[k])
    ensures n < |s| ==> !IsSpace(s[|s| - 1 - n])
    decreases |s|
  {
    if |s| > 0 && IsSpace(s[|s| - 1]) then 1 + TrailLen(s[..|s| - 1]) else 0
  }

  /** `str.strip()`: the text without leading and trailing whitespace. It keeps the words,
      and it is empty exactly when the input is blank. */
  function Strip(s: string): (r: string)
    ensures Words(r) == Words(s)
    ensures |r| == 0 || (!IsSpace(r[0]) && !IsSpace(r[|r| - 1]))
    ensures |r| == 0 <==> IsBlank(s)
  {
    var a := RunLen(s, IsSpace);
    var t := s[a..];
    StripWords(s, a, t, TrailLen(t));
    StripBlank(s, a, t, TrailLen(t));
    t[..|t| - TrailLen(t)]
  }

  /** `strip` removes only leading and trailing whitespace: the result is a contiguous
      piece of the input with nothing but whitespace before and after it. */
  lemma StripTrims(s: string)
    ensures var r := Strip(s);
      exists a :: 0 <= a <= |s| - |r| && s[a..a + |r|] == r
        && IsBlank(s[..a]) && IsBlank(s[a + |r|..])
  {
    var a := RunLen(s, IsSpace);
    var t := s[a..];
    var b := TrailLen(t);
    BlankAround(s, a, t, b);
    assert Strip(s) == t[..|t| - b];
  }

  /** Cutting whitespace off both ends leaves a contiguous piece between two blanks. */
  lemma BlankAround(s: string, a: nat, t: string, b: nat)
    requires a <= |s| && t == s[a..] && b <= |t|
    requires forall k :: 0 <= k < a ==> IsSpace(s[k])
    requires forall k :: |t| - b <= k < |t| ==> IsSpace(t[k])
    ensures s[a..a + (|t| - b)] == t[..|t| - b]
    ensures IsBlank(s[..a]) && IsBlank(s[a + (|t| - b)..])
  {
    var lead := s[..a];
    forall k | 0 <= k < |lead|
      ensures IsSpace(lead[k])
    {
      assert lead[k] == s[k];
    }
    var e := s[a + (|t| - b)..];
    assert e == t[|t| - b..];
    forall k | 0 <= k < |e|
      ensures IsSpace(e[k])
    {
      assert e[k] == t[|t| - b + k];
    }
  }

  lemma StripWords(s: string, a: nat, t: string, b: nat)
    requires a <= |s| && t == s[a..] && b <= |t|
    requires forall k :: 0 <= k < a ==> IsSpace(s[k])
    requires forall k :: |t| - b <= k < |t| ==> IsSpace(t[k])
    ensures Words(t[..|t| - b]) == Words(s)
  {
    var lead := s[..a];
    assert IsBlank(lead) by {
      forall k | 0 <= k < |lead| ensures IsSpace(lead[k]) {
        assert lead[k] == s[k];
      }
    }
    assert s == lead + t;
    WordsAppend(lead, t);
    WordsOfBlank(lead);
    TrailWords(t, b);
  }

  lemma {:induction false} TrailWords(t: string, b: nat)
    requires b <= |t|
    requires forall k :: |t| - b <= k < |t| ==> IsSpace(t[k])
    ensures Words(t[..|t| - b]) == Words(t)
  {
    var r := t[..|t| - b];
    var trail := t[|t| - b..];
    assert IsBlank(trail) by {
      forall k | 0 <= k < |trail| ensures IsSpace(trail[k]) {
        assert trail[k] == t[|t| - b + k];
      }
    }
    assert t == r + trail;
    WordsAppend(r, trail);
    WordsOfBlank(trail);
  }

  lemma StripBlank(s: string, a: nat, t: string, b: nat)
    requires a == RunLen(s, IsSpace) && t == s[a..] && b == TrailLen(t)
    ensures |t| - b == 0 <==> IsBlank(s)
  {
  }

  /** Position `i` is a split point of `re.split(r'(?<=[.!?])\s+', ...)`: whitespace
      directly after sentence punctuation. */
  predicate IsBoundary(s: string, i: nat)
    requires i < |s|
  {
    i > 0 && IsStop(s[i - 1]) && IsSpace(s[i])
  }

  predicate NoBoundary(f: string) {
    forall i :: 0 <= i < |f| ==> !IsBoundary(f, i)
  }

  /** The first split point at or after `i`, or `|s|` if there is none. */
  function FirstBoundaryFrom(s: string, i: nat): (b: nat)
    requires i <= |s|
    ensures i <= b <= |s|
    ensures b < |s| ==> IsBoundary(s, b)
    ensures forall k :: i <= k < b ==> !IsBoundary(s, k)
    decreases |s| - i
  {
    if i == |s| || IsBoundary(s, i) then i else FirstBoundaryFrom(s, i + 1)
  }

  /** One step of the split: the text before the first split point, the whitespace run
      matched there, and the text after it. */
  datatype Cut = Cut(head: string, gap: string, rest: string)

  /** The shape of a cut of `s`: `head` holds no split point and ends with sentence
      punctuation, `gap` is the maximal whitespace run after it. */
  predicate IsCutOf(c: Cut, s: string) {
    && s == c.head + c.gap + c.rest
    && NoBoundary(c.head) && |c.head| > 0 && IsStop(c.head[|c.head| - 1])
    && |c.gap| > 0 && All(c.gap, IsSpace)
    && (|c.rest| == 0 || !IsSpace(c.rest[0]))
  }

  /** The first match of the split pattern in `s`, if any. */
  function FirstCut(s: string): (r: Option<Cut>)
    ensures r.None? ==> NoBoundary(s)
    ensures r.Some? ==> IsCutOf(r.value, s)
  {
    var b := FirstBoundaryFrom(s, 0);
    if b == |s| then
      assert s[..b] == s;
      NoBoundaryBefore(s, b);
      None
    else
      var n := RunLen(s[b..], IsSpace);
      NoBoundaryBefore(s, b);
      var c := Cut(s[..b], s[b..b + n], s[b + n..]);
      assert c.head[b - 1] == s[b - 1];
      assert All(c.gap, IsSpace) by {
        forall k | 0 <= k < |c.gap|
          ensures IsSpace(c.gap[k])
        {
          assert c.gap[k] == s[b..][k];
        }
      }
      assert |c.rest| > 0 ==> c.rest[0] == s[b..][n];
      assert s == c.head + c.gap + c.rest;
      Some(c)
  }

  lemma NoBoundaryBefore(s: string, b: nat)
    requires b <= |s|
    requires forall k :: 0 <= k < b ==> !IsBoundary(s, k)
    ensures NoBoundary(s[..b])
  {
    var head := s[..b];
    forall i | 0 <= i < |head|
      ensures !IsBoundary(head, i)
    {
      assert !IsBoundary(s, i);
      assert head[i] == s[i];
      if i > 0 {
        assert head[i - 1] == s[i - 1];
      }
    }
  }

  /** A text has at most one cut: the split point it marks is the first one. */
  lemma CutUnique(c: Cut, d: Cut, s: string)
    requires IsCutOf(c, s) && IsCutOf(d, s)
    ensures c == d
  {
    var h := |c.head|;
    assert IsBoundary(s, h) by {
      assert s[h - 1] == c.head[h - 1] && s[h] == c.gap[0];
    }
    assert IsBoundary(s, |d.head|) by {
      assert s[|d.head| - 1] == d.head[|d.head| - 1] && s[|d.head|] == d.gap[0];
    }
    if |d.head| < h {
      assert IsBoundary(c.head, |d.head|) by {
        assert c.head[|d.head|] == s[|d.head|] && c.head[|d.head| - 1] == s[|d.head| - 1];
      }
    } else if h < |d.head| {
      assert IsBoundary(d.head, h) by {
        assert d.head[h] == s[h] && d.head[h - 1] == s[h - 1];
      }
    }
    assert c.head == s[..h] == d.head;
    var t := s[h..];
    assert t == c.gap + c.rest == d.gap + d.rest;
    GapRun(c.gap, c.rest);
    GapRun(d.gap, d.rest);
    assert c.gap == t[..|c.gap|] == d.gap;
  }

  /** The whitespace run at the start of `g + rest` is `g`. */
  lemma {:induction false} GapRun(g: string, rest: string)
    requires All(g, IsSpace)
    requires |rest| == 0 || !IsSpace(rest[0])
    ensures RunLen(g + rest, IsSpace) == |g|
  {
    var t := g + rest;
    assert forall k :: 0 <= k < |g| ==> t[k] == g[k];
    assert |g| < |t| ==> t[|g|] == rest[0];
    RunLenUnique(t, IsSpace, |g|);
  }

  /** `re.split(r'(?<=[.!?])\s+', s)`: the pieces between the whitespace runs that follow
      sentence punctuation. The punctuation stays in the piece before the run. */
  function Fragments(s: string): (fs: seq<string>)
    ensures |fs| >= 1
    decreases |s|
  {
    match FirstCut(s)
    case None => [s]
    case Some(c) => [c.head] + Fragments(c.rest)
  }

  /** The whitespace runs `Fragments` splits at. */
  ghost function Gaps(s: string): seq<string>
    decreases |s|
  {
    match FirstCut(s)
    case None => []
    case Some(c) => [c.gap] + Gaps(c.rest)
  }

  /** The piece ends with sentence punctuation. */
  predicate EndsWithStop(f: string) {
    |f| > 0 && IsStop(f[|f| - 1])
  }

  /** The piece is empty or does not start with whitespace. */
  predicate StartsSolid(f: string) {
    |f| == 0 || !IsSpace(f[0])
  }

  /** The shape of a split: no piece holds a split point, every piece but the last ends
      with sentence punctuation, and no piece but the first starts with whitespace. */
  predicate WellSplit(fs: seq<string>)
    decreases |fs|
  {
    && |fs| >= 1
    && NoBoundary(fs[0])
    && (|fs| == 1 || (EndsWithStop(fs[0]) && StartsSolid(fs[1]) && WellSplit(fs[1..])))
  }

  /** A non-empty whitespace run. */
  predicate IsGap(g: string) {
    |g| > 0 && All(g, IsSpace)
  }

  /** Every separator is a non-empty whitespace run. */
  predicate AreGaps(gs: seq<string>)
    decreases |gs|
  {
    |gs| == 0 || (IsGap(gs[0]) && AreGaps(gs[1..]))
  }

  /** The pieces with the separators put back between them. */
  function Interleave(fs: seq<string>, gs: seq<string>): string
    requires |fs| == |gs| + 1
    decreases |gs|
  {
    if |gs| == 0 then fs[0] else fs[0] + gs[0] + Interleave(fs[1..], gs[1..])
  }

  lemma InterleaveCons(f: string, fs: seq<string>, g: string, gs: seq<string>)
    requires |fs| == |gs| + 1
    ensures Interleave([f] + fs, [g] + gs) == f + g + Interleave(fs, gs)
  {
    assert ([f] + fs)[1..] == fs;
    assert ([g] + gs)[1..] == gs;
  }

  /** A well-split text whose first piece starts solid starts solid. */
  lemma InterleaveSolid(fs: seq<string>, gs: seq<string>)
    requires |fs| == |gs| + 1
    requires WellSplit(fs) && StartsSolid(fs[0])
    ensures StartsSolid(Interleave(fs, gs))
  {
  }

  /** `re.split` cuts exactly at the split points: the pieces are well split and the text
      is the pieces with non-empty whitespace runs between them. */
  lemma {:induction false} FragmentsSplit(s: string)
    ensures WellSplit(Fragments(s))
    ensures |Gaps(s)| + 1 == |Fragments(s)|
    ensures AreGaps(Gaps(s))
    ensures Interleave(Fragments(s), Gaps(s)) == s
    decreases |s|
  {
    var fc := FirstCut(s);
    if fc.Some? {
      var c := fc.value;
      FragmentsSplit(c.rest);
      var tail := Fragments(c.rest);
      assert Fragments(s) == [c.head] + tail;
      assert Gaps(s) == [c.gap] + Gaps(c.rest);
      InterleaveStartsWith(tail, Gaps(c.rest));
      InterleaveCons(c.head, tail, c.gap, Gaps(c.rest));
    }
  }

  /** The text's first character is the first piece's, when that piece is not empty. */
  lemma InterleaveStartsWith(fs: seq<string>, gs: seq<string>)
    requires |fs| == |gs| + 1
    ensures |fs[0]| > 0 ==> Interleave(fs, gs)[0] == fs[0][0]
  {
  }

  lemma FragmentsStep(s: string, c: Cut)
    requires FirstCut(s) == Some(c)
    ensures Fragments(s) == [c.head] + Fragments(c.rest)
  {
  }

  /** Without a split point the text is a single piece. */
  lemma FirstCutOfPiece(s: string)
    requires NoBoundary(s)
    ensures FirstCut(s).None?
  {
  }

  /** The first cut of a well-split text is at its first gap. */
  lemma FirstCutOfInterleave(fs: seq<string>, gs: seq<string>)
    requires |fs| == |gs| + 1 && |gs| > 0
    requires WellSplit(fs) && AreGaps(gs)
    ensures FirstCut(Interleave(fs, gs)) == Some(Cut(fs[0], gs[0], Interleave(fs[1..], gs[1..])))
  {
    var s := Interleave(fs, gs);
    var rest := Interleave(fs[1..], gs[1..]);
    var c := Cut(fs[0], gs[0], rest);
    InterleaveSolid(fs[1..], gs[1..]);
    assert IsCutOf(c, s);
    assert IsBoundary(s, |fs[0]|) by {
      assert s[|fs[0]| - 1] == fs[0][|fs[0]| - 1] && s[|fs[0]|] == gs[0][0];
    }
    assert FirstCut(s).Some?;
    CutUnique(FirstCut(s).value, c, s);
  }

  /** Round trip: splitting well-split pieces joined by whitespace runs gives the pieces
      back, so the split points are exactly the gaps. */
  lemma {:induction false} FragmentsOfInterleave(fs: seq<string>, gs: seq<string>)
    requires |fs| == |gs| + 1
    requires WellSplit(fs)
    requires AreGaps(gs)
    ensures Fragments(Interleave(fs, gs)) == fs
    decreases |gs|
  {
    if |gs| == 0 {
      FirstCutOfPiece(fs[0]);
    } else {
      var rest := Interleave(fs[1..], gs[1..]);
      FirstCutOfInterleave(fs, gs);
      FragmentsStep(Interleave(fs, gs), Cut(fs[0], gs[0], rest));
      FragmentsOfInterleave(fs[1..], gs[1..]);
      assert fs == [fs[0]] + fs[1..];
    }
  }

  /** The words of each piece, in order. */
  function FlatWords(fs: seq<string>): seq<string> {
    if |fs| == 0 then [] else Words(fs[0]) + FlatWords(fs[1..])
  }

  /** The words of each piece with the first word of every piece capitalized. */
  function CapWords(fs: seq<string>): seq<string> {
    if |fs| == 0 then [] else CapFirst(Words(fs[0])) + CapWords(fs[1..])
  }

  /** Whitespace between pieces never joins or splits words. */
  lemma {:induction false} WordsOfInterleave(fs: seq<string>, gs: seq<string>)
    requires |fs| == |gs| + 1
    requires AreGaps(gs)
    ensures Words(Interleave(fs, gs)) == FlatWords(fs)
    decreases |gs|
  {
    if |gs| == 0 {
      assert FlatWords(fs) == Words(fs[0]) + [];
    } else {
      var f, g := fs[0], gs[0];
      var rest := Interleave(fs[1..], gs[1..]);
      assert g in gs;
      assert Interleave(fs, gs) == (f + g) + rest;
      WordsAppend(f + g, rest);
      WordsAppend(f, g);
      WordsOfBlank(g);
      WordsOfInterleave(fs[1..], gs[1..]);
    }
  }

  /** A single space between two texts separates their words. */
  lemma WordsAroundSpace(a: string, b: string)
    ensures Words(a + " " + b) == Words(a) + Words(b)
  {
    var sp := " ";
    assert IsBlank(sp);
    WordsAppend(a + sp, b);
    WordsAppend(a, sp);
    WordsOfBlank(sp);
  }

  lemma {:induction false} WordsOfJoin(ps: seq<string>)
    ensures Words(Join(ps, " ")) == FlatWords(ps)
    decreases |ps|
  {
    if |ps| == 1 {
      assert FlatWords(ps) == Words(ps[0]) + [];
    } else if |ps| > 1 {
      WordsAroundSpace(ps[0], Join(ps[1..], " "));
      WordsOfJoin(ps[1..]);
    }
  }

  /** The list comprehension `[cap_sentence(s.strip()) for s in sentences]`. */
  function CapAll(fs: seq<string>): (cs: seq<string>)
    ensures |cs| == |fs|
  {
    if |fs| == 0 then [] else [CapSentence(Strip(fs[0]))] + CapAll(fs[1..])
  }

  lemma {:induction false} FlatWordsCapAll(fs: seq<string>)
    ensures FlatWords(CapAll(fs)) == CapWords(fs)
    decreases |fs|
  {
    if |fs| > 0 {
      assert CapAll(fs)[1..] == CapAll(fs[1..]);
      FlatWordsCapAll(fs[1..]);
    }
  }

  lemma CollapsedLoose(r: string)
    requires Collapsed(r)
    ensures CollapsedButEnd(r)
  {
    forall i | 0 <= i < |r| && IsSpace(r[i])
      ensures r[i] == ' ' && 0 < i && !IsSpace(r[i - 1])
    {
    }
  }

  lemma LooseJoin(a: string, j: string)
    requires |a| > 0 && Collapsed(a) && CollapsedButEnd(j)
    ensures CollapsedButEnd(a + " " + j)
  {
    var r := a + " " + j;
    assert !IsSpace(a[|a| - 1]);
    forall i | 0 <= i < |r| && IsSpace(r[i])
      ensures r[i] == ' ' && 0 < i && !IsSpace(r[i - 1])
    {
      if i < |a| {
        assert r[i] == a[i] && r[i - 1] == a[i - 1];
      } else if i == |a| {
        assert r[i - 1] == a[|a| - 1];
      } else if i > |a| + 1 {
        assert r[i] == j[i - |a| - 1] && r[i - 1] == j[i - |a| - 2];
      }
    }
  }

  /** Capitalizing the pieces of a split and joining them with single spaces leaves only
      single spaces, never at the start and never two in a row. */
  lemma {:induction false} CapAllShape(fs: seq<string>)
    requires WellSplit(fs)
    ensures CollapsedButEnd(Join(CapAll(fs), " "))
    decreases |fs|
  {
    if |fs| == 1 {
      CollapsedLoose(CapSentence(Strip(fs[0])));
    } else {
      CapAllShape(fs[1..]);
      JoinCapAllCons(fs);
      CapSentenceOfPiece(fs[0]);
      LooseJoin(CapSentence(Strip(fs[0])), Join(CapAll(fs[1..]), " "));
    }
  }

  /** A piece that ends with sentence punctuation is never blank. */
  lemma CapSentenceOfPiece(f: string)
    requires EndsWithStop(f)
    ensures |CapSentence(Strip(f))| > 0 && Collapsed(CapSentence(Strip(f)))
  {
    assert !IsSpace(f[|f| - 1]);
  }

  lemma JoinCapAllCons(fs: seq<string>)
    requires |fs| >= 2
    ensures Join(CapAll(fs), " ") == CapSentence(Strip(fs[0])) + " " + Join(CapAll(fs[1..]), " ")
  {
    assert CapAll(fs)[1..] == CapAll(fs[1..]);
  }

  /** The last character is whitespace. */
  predicate EndsInSpace(s: string) {
    |s| > 0 && IsSpace(s[|s| - 1])
  }

  /** The text ends with whitespace that follows sentence punctuation. */
  predicate EndsAfterStop(s: string) {
    var k := TrailLen(s);
    0 < k < |s| && IsStop(s[|s| - 1 - k])
  }

  /** The trailing whitespace is the maximal whitespace suffix. */
  lemma TrailLenUnique(s: string, m: nat)
    requires m <= |s|
    requires forall k :: |s| - m <= k < |s| ==> IsSpace(s[k])
    requires m < |s| ==> !IsSpace(s[|s| - 1 - m])
    ensures TrailLen(s) == m
  {
  }

  /** Text in front does not change the trailing whitespace of a text that is not all
      whitespace. */
  lemma TrailLenAppend(x: string, y: string)
    requires TrailLen(y) < |y|
    ensures TrailLen(x + y) == TrailLen(y)
  {
    var m := TrailLen(y);
    var s := x + y;
    forall k | |s| - m <= k < |s|
      ensures IsSpace(s[k])
    {
      assert s[k] == y[k - |x|];
    }
    assert s[|s| - 1 - m] == y[|y| - 1 - m];
    TrailLenUnique(s, m);
  }

  /** The trailing whitespace of a piece followed by its gap is the gap. */
  lemma TrailLenOfGap(h: string, g: string)
    requires |h| > 0 && !IsSpace(h[|h| - 1]) && All(g, IsSpace)
    ensures TrailLen(h + g) == |g|
  {
    var s := h + g;
    forall k | |s| - |g| <= k < |s|
      ensures IsSpace(s[k])
    {
      assert s[k] == g[k - |h|];
    }
    assert s[|s| - 1 - |g|] == h[|h| - 1];
    TrailLenUnique(s, |g|);
  }

  /** A text without a split point does not end with whitespace after punctuation. */
  lemma NoBoundaryNotAfterStop(s: string)
    requires NoBoundary(s)
    ensures !EndsAfterStop(s)
  {
    var k := TrailLen(s);
    if 0 < k < |s| {
      assert !IsBoundary(s, |s| - k);
    }
  }

  /** A text that ends at a split point ends with whitespace after punctuation. */
  lemma CutAtEnd(s: string, c: Cut)
    requires IsCutOf(c, s) && |c.rest| == 0
    ensures EndsAfterStop(s)
  {
    assert s == c.head + c.gap;
    TrailLenOfGap(c.head, c.gap);
  }

  /** Past a split point with text after it, the text ends as the rest does. */
  lemma CutBeforeText(s: string, c: Cut)
    requires IsCutOf(c, s) && |c.rest| > 0
    ensures EndsAfterStop(s) <==> EndsAfterStop(c.rest)
  {
    var k := TrailLen(c.rest);
    assert k < |c.rest|;
    assert s == (c.head + c.gap) + c.rest;
    TrailLenAppend(c.head + c.gap, c.rest);
    if 0 < k {
      assert s[|s| - 1 - k] == c.rest[|c.rest| - 1 - k];
    }
  }

  /** Whitespace after punctuation at the end of a text is decided past its first split
      point. */
  lemma CutEndsAfterStop(s: string, c: Cut)
    requires IsCutOf(c, s)
    ensures EndsAfterStop(s) <==> (|c.rest| == 0 || EndsAfterStop(c.rest))
  {
    if |c.rest| == 0 {
      CutAtEnd(s, c);
    } else {
      CutBeforeText(s, c);
    }
  }

  /** There are at least two pieces and the last one is empty. */
  predicate LastEmpty(fs: seq<string>) {
    |fs| > 1 && fs[|fs| - 1] == []
  }

  /** The text splits at least once and its last piece is empty. */
  predicate LastPieceEmpty(s: string) {
    LastEmpty(Fragments(s))
  }

  /** A text that is its own only piece. */
  lemma SingleFragment(s: string)
    ensures |Fragments(s)| == 1 ==> Fragments(s) == [s]
  {
    match FirstCut(s)
    case None =>
    case Some(c) =>
      FragmentsStep(s, c);
  }

  /** Without a split point there is no empty last piece. */
  lemma LastPieceOfWhole(s: string)
    requires FirstCut(s).None?
    ensures !LastPieceEmpty(s) && !EndsAfterStop(s)
  {
    NoBoundaryNotAfterStop(s);
  }

  /** Past the first split point, the last piece is the last piece of the rest. */
  lemma LastPieceStep(s: string, c: Cut)
    requires FirstCut(s) == Some(c)
    ensures LastPieceEmpty(s) <==> (|c.rest| == 0 || LastPieceEmpty(c.rest))
  {
    var fr := Fragments(c.rest);
    assert LastPieceEmpty(s) <==> fr[|fr| - 1] == [] by {
      FragmentsStep(s, c);
      LastEmptyCons(Fragments(s), c.head, fr);
    }
    RestLastPiece(c.rest);
  }

  /** The last piece of a text is empty when the text is, and otherwise exactly when it
      splits with an empty last piece. */
  lemma RestLastPiece(r: string)
    ensures var fr := Fragments(r);
      fr[|fr| - 1] == [] <==> (|r| == 0 || LastPieceEmpty(r))
  {
    if |r| == 0 {
      FragmentsOfEmpty();
    } else {
      SingleFragment(r);
    }
  }

  /** Empty text is one empty piece. */
  lemma FragmentsOfEmpty()
    ensures Fragments([]) == [[]]
  {
    var e: string := [];
    assert FirstCut(e).None?;
  }

  /** A piece in front of a non-empty list leaves its last element in place. */
  lemma LastEmptyCons(fs: seq<string>, h: string, fr: seq<string>)
    requires fs == [h] + fr && |fr| >= 1
    ensures LastEmpty(fs) <==> fr[|fr| - 1] == []
  {
    assert fs[|fs| - 1] == fr[|fr| - 1];
  }

  /** The last piece is empty, after at least one split, exactly when the text ends with
      whitespace after sentence punctuation. */
  lemma {:induction false} TrailingEmptyPiece(s: string)
    ensures LastPieceEmpty(s) <==> EndsAfterStop(s)
    decreases |s|
  {
    match FirstCut(s)
    case None =>
      LastPieceOfWhole(s);
    case Some(c) =>
      LastPieceStep(s, c);
      CutEndsAfterStop(s, c);
      if |c.rest| > 0 {
        TrailingEmptyPiece(c.rest);
      }
  }

  /** A formatted piece never ends in whitespace, and it is empty exactly when the piece is
      blank. */
  lemma FormattedPiece(f: string)
    ensures !EndsInSpace(CapSentence(Strip(f)))
    ensures CapSentence(Strip(f)) == [] <==> IsBlank(f)
  {
    var t := Strip(f);
    if |t| > 0 {
      assert !IsSpace(t[0]);
    }
    var r := CapSentence(t);
    if |r| > 0 {
      assert !IsSpace(r[|r| - 1]);
    }
  }

  /** Text joined after a space ends in whitespace when the second part is empty or does. */
  lemma EndsInSpaceAfter(a: string, x: string)
    ensures EndsInSpace(a + " " + x) <==> (|x| == 0 || EndsInSpace(x))
  {
    var r := a + " " + x;
    if |x| > 0 {
      assert r[|r| - 1] == x[|x| - 1];
    }
  }

  /** The formatted pieces end in whitespace exactly when the last piece is empty. */
  lemma {:induction false} JoinCapAllTrailing(fs: seq<string>)
    requires WellSplit(fs)
    ensures EndsInSpace(Join(CapAll(fs), " ")) <==> LastEmpty(fs)
    decreases |fs|
  {
    if |fs| == 1 {
      FormattedPiece(fs[0]);
    } else {
      var j := Join(CapAll(fs[1..]), " ");
      JoinCapAllCons(fs);
      EndsInSpaceAfter(CapSentence(Strip(fs[0])), j);
      if |fs| == 2 {
        var f := fs[1];
        FormattedPiece(f);
        assert IsBlank(f) <==> f == [] by {
          if |f| > 0 {
            assert !IsSpace(f[0]);
          }
        }
      } else {
        JoinCapAllTrailing(fs[1..]);
        JoinCapAllCons(fs[1..]);
      }
    }
  }

  /** The pieces of a text, formatted and joined, keep only single spaces between words and
      end in a space exactly when the text ends with whitespace after punctuation. */
  lemma FormattedShape(text: string)
    ensures CollapsedButEnd(Join(CapAll(Fragments(text)), " "))
    ensures EndsInSpace(Join(CapAll(Fragments(text)), " ")) <==> EndsAfterStop(text)
  {
    FragmentsWellSplit(text);
    JoinedShape(Fragments(text));
    TrailingEmptyPiece(text);
  }

  /** Formatted and joined, the pieces of a split keep only single spaces between words and
      end in a space exactly when the last piece is empty. */
  lemma JoinedShape(fs: seq<string>)
    requires WellSplit(fs)
    ensures CollapsedButEnd(Join(CapAll(fs), " "))
    ensures EndsInSpace(Join(CapAll(fs), " ")) <==> LastEmpty(fs)
  {
    CapAllShape(fs);
    JoinCapAllTrailing(fs);
  }

  lemma FragmentsWellSplit(s: string)
    ensures WellSplit(Fragments(s))
  {
    FragmentsSplit(s);
  }

  /** `form_sentence`: split after sentence punctuation, strip and capitalize every piece,
      rejoin with single spaces. The only whitespace left is single spaces, never at the
      start and never two in a row; a trailing space remains only when the text ends with
      whitespace after sentence punctuation. */
  function FormSentence(text: string): (r: string)
    ensures CollapsedButEnd(r)
    ensures EndsInSpace(r) <==> EndsAfterStop(text)
  {
    var fs := Fragments(text);
    FormattedShape(text);
    Join(CapAll(fs), " ")
  }

  /** The words of the formatted text are the words of the input, in order, with the first
      word of every sentence piece capitalized. */
  lemma {:induction false} FormSentenceWords(text: string)
    ensures Words(text) == FlatWords(Fragments(text))
    ensures Words(FormSentence(text)) == CapWords(Fragments(text))
  {
    FragmentsSplit(text);
    WordsOfInterleave(Fragments(text), Gaps(text));
    WordsOfJoin(CapAll(Fragments(text)));
    FlatWordsCapAll(Fragments(text));
  }
}
