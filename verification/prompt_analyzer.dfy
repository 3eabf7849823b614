/** `TextAnalyzerCore`: an analyzer holds one text and derives everything from it on
    demand; nothing is cached. */
module PromptAnalyzer {
  import opened Wrappers
  import opened CharClasses
  import opened Tokens
  import opened Sentences
  import opened CommaSpacing
  import opened Counting
  import opened MostCommon

  datatype Analyzer = Analyzer(text: string)

  /** `TextAnalyzerStorage`, the record `analyze` returns. */
  datatype Storage = Storage(
    usersText: string,
    fixedText: string,
    numOfWords: nat,
    numOfSentences: nat,
    countOfNum: nat,
    mostComWord: string)

  /** `fixed_text`: comma spacing, then sentence formatting. The result has only single
      spaces as whitespace, and its words are those of the comma-spaced text with the first
      word of every sentence piece capitalized. */
  function FixedText(a: Analyzer): (r: string)
    ensures CollapsedButEnd(r)
    ensures EndsInSpace(r) <==> EndsAfterStop(SpaceCommas(a.text))
    ensures Words(r) == CapWords(Fragments(SpaceCommas(a.text)))
  {
    FormSentenceWords(SpaceCommas(a.text));
    FormSentence(SpaceCommas(a.text))
  }

  /** `update_text`: the analyzer now holds the new text and nothing else. */
  function UpdateText(a: Analyzer, newText: string): (b: Analyzer)
    ensures b.text == newText
  {
    a.(text := newText)
  }

  /** `__len__`: the word count, the number of letter-only runs of word characters. */
  function Len(a: Analyzer): (n: nat)
    ensures n == |Keep(Runs(a.text, IsWordChar), IsLetterWord)|
  {
    CountWords(a.text)
  }

  /** `analyze`: the five results bundled with the text. It fails exactly when
      `most_common_word` does, on text without a word character. */
  function Analyze(a: Analyzer): (r: Result<Storage, Error>)
    ensures r.Failure? <==> NoneOf(a.text, IsWordChar)
    ensures r.Success? ==>
      && r.value.usersText == a.text
      && r.value.fixedText == FixedText(a)
      && r.value.numOfWords == Len(a)
      && r.value.numOfSentences == |Keep(Runs(a.text, IsNotStop), HasText)|
      && r.value.countOfNum == CountRunStarts(a.text, IsDigit, 0)
      && MostCommonWord(a.text) == Success(r.value.mostComWord)
  {
    MostCommonWordsSpec(a.text);
    match MostCommonWord(a.text)
    case Failure(e) => Failure(e)
    case Success(m) =>
      Success(Storage(
        a.text,
        FixedText(a),
        CountWords(a.text),
        CountSentences(a.text),
        CountNumbers(a.text),
        m))
  }

  // ---------------------------------------------------- fixed_text keeps the text

  /** Each word lower-cased. */
  function Lowered(ws: seq<string>): (ls: seq<string>)
    ensures |ls| == |ws|
  {
    if |ws| == 0 then [] else [LowerStr(ws[0])] + Lowered(ws[1..])
  }

  lemma {:induction false} LoweredAppend(a: seq<string>, b: seq<string>)
    ensures Lowered(a + b) == Lowered(a) + Lowered(b)
    decreases |a|
  {
    if |a| == 0 {
      assert a + b == b;
    } else {
      assert (a + b)[0] == a[0];
      assert (a + b)[1..] == a[1..] + b;
      LoweredAppend(a[1..], b);
    }
  }

  lemma {:induction false} LowerFlatten(ws: seq<string>)
    ensures LowerStr(Flatten(ws)) == Flatten(Lowered(ws))
    decreases |ws|
  {
    if |ws| > 0 {
      LowerStrAppend(ws[0], Flatten(ws[1..]));
      LowerFlatten(ws[1..]);
    }
  }

  /** Capitalizing a word changes only the case of its letters. */
  lemma LoweredCapFirst(ws: seq<string>)
    ensures Lowered(CapFirst(ws)) == Lowered(ws)
  {
    if |ws| > 0 {
      assert CapFirst(ws)[1..] == ws[1..];
    }
  }

  lemma {:induction false} LoweredCapWords(fs: seq<string>)
    ensures Lowered(CapWords(fs)) == Lowered(FlatWords(fs))
    decreases |fs|
  {
    if |fs| > 0 {
      LoweredAppend(CapFirst(Words(fs[0])), CapWords(fs[1..]));
      LoweredAppend(Words(fs[0]), FlatWords(fs[1..]));
      LoweredCapFirst(Words(fs[0]));
      LoweredCapWords(fs[1..]);
    }
  }

  /** `fixed_text` changes only whitespace and the case of letters: lower-cased, its
      non-whitespace characters are those of the input, in order. */
  lemma FixedTextKeepsText(a: Analyzer)
    ensures LowerStr(Keep(FixedText(a), IsNotSpace)) == LowerStr(Keep(a.text, IsNotSpace))
  {
    var t := SpaceCommas(a.text);
    var fs := Fragments(t);
    FormSentenceWords(t);
    RunsFlatten(FixedText(a), IsNotSpace);
    RunsFlatten(t, IsNotSpace);
    LowerFlatten(CapWords(fs));
    LowerFlatten(FlatWords(fs));
    LoweredCapWords(fs);
    SpaceCommasKeepsText(a.text);
  }

  /** Neither whitespace nor a letter. */
  predicate IsMark(c: char) {
    !IsSpace(c) && !IsLetter(c)
  }

  lemma {:induction false} FilterMarksOfNonSpace(s: string)
    ensures Keep(Keep(s, IsNotSpace), IsMark) == Keep(s, IsMark)
    decreases |s|
  {
    if |s| > 0 {
      FilterMarksOfNonSpace(s[1..]);
      KeepAppend(if IsNotSpace(s[0]) then [s[0]] else [], Keep(s[1..], IsNotSpace), IsMark);
    }
  }

  lemma {:induction false} FilterMarksOfLower(s: string)
    ensures Keep(LowerStr(s), IsMark) == Keep(s, IsMark)
    decreases |s|
  {
    if |s| > 0 {
      assert LowerStr(s)[1..] == LowerStr(s[1..]);
      FilterMarksOfLower(s[1..]);
    }
  }

  /** Punctuation, digits and every other non-letter, non-whitespace character survive
      `fixed_text` unchanged and in order: none is added or removed. */
  lemma {:induction false} FixedTextKeepsMarks(a: Analyzer)
    ensures Keep(FixedText(a), IsMark) == Keep(a.text, IsMark)
  {
    FixedTextKeepsText(a);
    FilterMarksOfNonSpace(FixedText(a));
    FilterMarksOfNonSpace(a.text);
    FilterMarksOfLower(Keep(FixedText(a), IsNotSpace));
    FilterMarksOfLower(Keep(a.text, IsNotSpace));
  }
}
