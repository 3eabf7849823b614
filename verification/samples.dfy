/** Worked examples: the three counters and `most_common_word` on concrete texts. Each
    proof walks the text position by position, or splits it into pieces that the general
    lemmas handle. */
module Samples {
  import opened Wrappers
  import opened CharClasses
  import opened Tokens
  import opened Sentences
  import opened Counting
  import opened MostCommon

  const Hello := "Hello world 2024!"

  /** `count_words("Hello world 2024!")` is 2: the digits form no word. */
  lemma CountWordsSample()
    ensures CountWords(Hello) == 2
  {
    HelloMatchAt0();
    HelloMid(1);
  }

  /** No match starts right after a word character or at a non-letter. */
  lemma NoMatchInside(s: string, k: nat)
    requires 0 < k < |s| && (IsWordChar(s[k - 1]) || !IsLetter(s[k]))
    ensures !WordMatchAt(s, k)
  {
  }

  /** `\b[a-zA-Z]+\b` matches at the start: `Hello`. */
  lemma HelloMatchAt0()
    ensures WordMatchAt(Hello, 0)
  {
    RunLenUnique(Hello[0..], IsLetter, 5);
  }

  /** `\b[a-zA-Z]+\b` matches at position 6: `world`. */
  lemma HelloMatchAt6()
    ensures WordMatchAt(Hello, 6)
  {
    RunLenUnique(Hello[6..], IsLetter, 5);
  }

  /** No match starts inside `world` or in `2024!`. */
  lemma {:induction false} HelloTail(i: nat)
    requires 7 <= i <= |Hello|
    ensures WordMatchesFrom(Hello, i) == 0
    decreases |Hello| - i
  {
    if i < |Hello| {
      NoMatchInside(Hello, i);
      HelloTail(i + 1);
    }
  }

  /** From position 1 on, only `world` matches. */
  lemma {:induction false} HelloMid(i: nat)
    requires 1 <= i <= 6
    ensures WordMatchesFrom(Hello, i) == 1
    decreases 6 - i
  {
    if i < 6 {
      if i == 5 {
        assert !IsLetter(Hello[5]);
      } else {
        assert Hello[..5] == "Hello" && IsWordChar(Hello[..5][i - 1]);
      }
      NoMatchInside(Hello, i);
      HelloMid(i + 1);
    } else {
      HelloFrom6();
    }
  }

  /** From position 6 on, `world` is the one match. */
  lemma HelloFrom6()
    ensures WordMatchesFrom(Hello, 6) == 1
  {
    HelloMatchAt6();
    HelloTail(7);
  }

  /** `count_numbers("Room 42 has 3 exits")` is 2: the runs `42` and `3`. */
  lemma CountNumbersSample()
    ensures CountNumbers("Room 42 has 3 exits") == 2
  {
    var s := "Room 42 has 3 exits";
    var i := |s|;
    while i > 0
      invariant 0 <= i <= |s|
      invariant CountRunStarts(s, IsDigit, i) == (if i <= 5 then 2 else if i <= 12 then 1 else 0)
    {
      i := i - 1;
    }
  }

  /** `count_sentences("Hi. How are you? Fine!")` is 3: one sentence before each stop. */
  lemma CountSentencesSample()
    ensures CountSentences("Hi. How are you? Fine!") == 3
  {
    var a, b, c := "Hi", " How are you", " Fine";
    assert "Hi. How are you? Fine!" == a + (['.'] + (b + (['?'] + (c + ['!']))));
    assert !IsSpace(a[0]) && !IsSpace(b[1]) && !IsSpace(c[1]);
    ThreeSentences(a, b, c, '.', '?', '!');
  }

  /** Three non-blank pieces, each closed by one stop character, are three sentences. */
  lemma ThreeSentences(a: string, b: string, c: string, x: char, y: char, z: char)
    requires NoneOf(a, IsStop) && NoneOf(b, IsStop) && NoneOf(c, IsStop)
    requires IsStop(x) && IsStop(y) && IsStop(z)
    requires !IsBlank(a) && !IsBlank(b) && !IsBlank(c)
    ensures CountSentences(a + ([x] + (b + ([y] + (c + [z]))))) == 3
  {
    var t := a + ([x] + (b + ([y] + (c + [z]))));
    assert Runs(t, IsNotStop) == [a, b, c] by {
      ThreePieces(a, b, c, x, y, z);
    }
    assert Keep([a, b, c], HasText) == [a, b, c] by {
      assert HasText(a) && HasText(b) && HasText(c) by {
        assert |Strip(a)| > 0 && |Strip(b)| > 0 && |Strip(c)| > 0;
      }
      KeepCons(a, [b, c], HasText);
      KeepCons(b, [c], HasText);
      KeepCons(c, [], HasText);
    }
  }

  /** The runs of non-stop characters of three stop-free pieces each closed by a stop. */
  lemma ThreePieces(a: string, b: string, c: string, x: char, y: char, z: char)
    requires NoneOf(a, IsStop) && NoneOf(b, IsStop) && NoneOf(c, IsStop)
    requires IsStop(x) && IsStop(y) && IsStop(z)
    requires |a| > 0 && |b| > 0 && |c| > 0
    ensures Runs(a + ([x] + (b + ([y] + (c + [z])))), IsNotStop) == [a, b, c]
  {
    var e: string := [];
    assert c + [z] == c + ([z] + e);
    RunsNoneOf(e, IsNotStop);
    StopRunBetween(c, [z], e);
    StopRunBetween(b, [y], c + [z]);
    StopRunBetween(a, [x], b + ([y] + (c + [z])));
  }

  /** `count_sentences("No punctuation here")` is 1. */
  lemma CountSentencesSampleOne()
    ensures CountSentences("No punctuation here") == 1
  {
    var s := "No punctuation here";
    assert !IsSpace(s[0]);
    CountSentencesOne(s);
  }

  /** `count_sentences("   ")` is 0. */
  lemma CountSentencesSampleBlank()
    ensures CountSentences("   ") == 0
  {
    CountSentencesBlank("   ");
  }

  const Pets := "cat dog cat dog bird"

  /** `most_common_word("cat dog cat dog bird")` reports the tie `cat, dog`, in the order
      the words are first seen. */
  lemma MostCommonWordSample()
    ensures MostCommonWord(Pets) == Success("cat, dog")
  {
    var ts := ["cat", "dog", "cat", "dog", "bird"];
    PetsLowerWords(ts);
    PetsTop(ts);
    PetsReport();
    ReportOf(Pets, ts, ["cat", "dog"]);
  }

  /** The tokens of the sample: it has no capital letter, so lower-casing keeps it. */
  lemma PetsLowerWords(ts: seq<string>)
    requires ts == ["cat", "dog", "cat", "dog", "bird"]
    ensures LowerWords(Pets) == ts
  {
    assert LowerStr(Pets) == Pets by {
      LowerOfLower(Pets);
    }
    PetsTokens(ts);
  }

  /** `", ".join(["cat", "dog"])`. */
  lemma PetsReport()
    ensures Join(["cat", "dog"], ", ") == "cat, dog"
  {
  }

  /** The report is the joined top words of the tokens. */
  lemma ReportOf(s: string, ts: seq<string>, top: seq<string>)
    requires LowerWords(s) == ts && |ts| > 0 && TopWords(ts) == top
    ensures MostCommonWord(s) == Success(Join(top, ", "))
  {
  }

  /** Text without upper-case letters is its own lower-case form. */
  lemma LowerOfLower(s: string)
    requires forall i :: 0 <= i < |s| ==> !IsUpper(s[i])
    ensures LowerStr(s) == s
  {
  }

  /** The word runs of the sample text are its five space-separated words. */
  lemma PetsTokens(ts: seq<string>)
    requires ts == ["cat", "dog", "cat", "dog", "bird"]
    ensures Runs(Pets, IsWordChar) == ts
  {
    PetsJoin(ts);
    PetsWords(ts);
    SpaceSplitsWords(ts);
  }

  /** The sample text is its words joined with single spaces. */
  lemma PetsJoin(ts: seq<string>)
    requires ts == ["cat", "dog", "cat", "dog", "bird"]
    ensures Join(ts, " ") == Pets
  {
    assert Join(ts[4..], " ") == "bird";
    assert Join(ts[3..], " ") == "dog bird";
    assert Join(ts[2..], " ") == "cat dog bird";
    assert Join(ts[1..], " ") == "dog cat dog bird";
  }

  /** Each sample word is a non-empty run of word characters. */
  lemma PetsWords(ts: seq<string>)
    requires ts == ["cat", "dog", "cat", "dog", "bird"]
    ensures forall w :: w in ts ==> |w| > 0 && All(w, IsWordChar)
  {
  }

  /** Word runs joined with single spaces split back into those runs. */
  lemma SpaceSplitsWords(ts: seq<string>)
    requires forall w :: w in ts ==> |w| > 0 && All(w, IsWordChar)
    ensures Runs(Join(ts, " "), IsWordChar) == ts
  {
    assert NoneOf(" ", IsWordChar);
    RunsOfJoin(ts, " ", IsWordChar);
  }

  /** `cat` and `dog` each occur twice and `bird` once, so the first two are reported. */
  lemma PetsTop(ts: seq<string>)
    requires ts == ["cat", "dog", "cat", "dog", "bird"]
    ensures TopWords(ts) == ["cat", "dog"]
  {
    var ds := ["cat", "dog", "bird"];
    PetsDedup(ts);
    PetsCounts(ts);
    PetsMax(ds, ts);
    PetsTops(ds, ts);
  }

  /** The dictionary's keys, in insertion order. */
  lemma PetsDedup(ts: seq<string>)
    requires ts == ["cat", "dog", "cat", "dog", "bird"]
    ensures Dedup(ts) == ["cat", "dog", "bird"]
  {
    assert ts[..4][..3] == ts[..3] && ts[..3][..2] == ts[..2] && ts[..2][..1] == ts[..1];
    assert Dedup(ts[..1]) == ["cat"];
    assert Dedup(ts[..2]) == ["cat", "dog"];
    assert Dedup(ts[..3]) == ["cat", "dog"];
    assert Dedup(ts[..4]) == ["cat", "dog"];
    assert ts[..5] == ts;
  }

  /** The dictionary's values. */
  lemma PetsCounts(ts: seq<string>)
    requires ts == ["cat", "dog", "cat", "dog", "bird"]
    ensures Occ(ts, "cat") == 2 && Occ(ts, "dog") == 2 && Occ(ts, "bird") == 1
  {
    assert multiset(ts) == multiset{"cat", "cat", "dog", "dog", "bird"};
  }

  /** `max(word_counts.values())` is 2. */
  lemma PetsMax(ds: seq<string>, ts: seq<string>)
    requires ds == ["cat", "dog", "bird"]
    requires Occ(ts, "cat") == 2 && Occ(ts, "dog") == 2 && Occ(ts, "bird") == 1
    ensures MaxOver(ds, ts) == 2
  {
    assert ds[..2][..1] == ds[..1] && ds[..3] == ds;
    assert MaxOver(ds[..1], ts) == 2;
    assert MaxOver(ds[..2], ts) == 2;
  }

  /** The keys with count 2 are `cat` and `dog`. */
  lemma PetsTops(ds: seq<string>, ts: seq<string>)
    requires ds == ["cat", "dog", "bird"]
    requires Occ(ts, "cat") == 2 && Occ(ts, "dog") == 2 && Occ(ts, "bird") == 1
    ensures Tops(ds, ts, 2) == ["cat", "dog"]
  {
    assert ds[..2][..1] == ds[..1] && ds[..3] == ds;
    assert Tops(ds[..1], ts, 2) == ["cat"];
    assert Tops(ds[..2], ts, 2) == ["cat", "dog"];
  }
}
