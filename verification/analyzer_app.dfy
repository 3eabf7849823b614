/** `TextAnalyzerApp`: a session holding at most one analyzer, with a report and four
    single-value accessors that answer with a fixed message while no text is set. */
module AnalyzerApp {
  import opened Wrappers
  import opened CharClasses
  import opened Tokens
  import opened Counting
  import opened MostCommon
  import opened PromptAnalyzer

  /** `enter_text` rejects texts shorter than this, measured before any trimming. */
  const MinTextLength: nat := 15

  const NoTextMessage: string := "No text available. Please enter text first."

  datatype App = App(analyzer: Option<Analyzer>)

  /** The `ValueError` raised for a short text. */
  datatype EnterError = TooShort

  /** The dictionary `get_report` returns: the single-key error record, or the five
      results. */
  datatype Report =
    | NoText(error: string)
    | Full(fixedText: string, numberOfWords: nat, numberOfSentences: nat,
           countOfNumbers: nat, mostCommon: string)

  /** What a count accessor returns: the count, or the message when no text is set. */
  datatype Shown = Count(n: nat) | Message(msg: string)

  /** A fresh session has no analyzer. */
  function NewApp(): (app: App)
    ensures app.analyzer.None?
  {
    App(None)
  }

  /** `enter_text`: a text shorter than `MinTextLength` raises and leaves the session as it
      was; any other text replaces the analyzer with one holding exactly that text. */
  function EnterText(app: App, text: string): (res: (App, Outcome<EnterError>))
    ensures res.1.Fail? <==> |text| < MinTextLength
    ensures res.1.Fail? ==> res.0 == app
    ensures res.1.Pass? ==> res.0.analyzer == Some(Analyzer(text))
  {
    if |text| < MinTextLength then (app, Fail(TooShort))
    else (App(Some(Analyzer(text))), Pass)
  }

  /** `get_report`: the error record without an analyzer; otherwise the five results of the
      current text, failing as `most_common_word` fails. */
  function GetReport(app: App): (r: Result<Report, Error>)
    ensures app.analyzer.None? ==> r == Success(NoText(NoTextMessage))
    ensures app.analyzer.Some? ==>
      (r.Failure? <==> NoneOf(app.analyzer.value.text, IsWordChar))
  {
    match app.analyzer
    case None => Success(NoText(NoTextMessage))
    case Some(a) =>
      MostCommonWordsSpec(a.text);
      match MostCommonWord(a.text)
      case Failure(e) => Failure(e)
      case Success(m) =>
        Success(Full(FixedText(a), CountWords(a.text), CountSentences(a.text),
                     CountNumbers(a.text), m))
  }

  /** `show_num_of_words`. */
  function ShowNumOfWords(app: App): (r: Shown)
    ensures app.analyzer.None? <==> r == Message(NoTextMessage)
    ensures app.analyzer.Some? ==> r == Count(Len(app.analyzer.value))
  {
    match app.analyzer
    case None => Message(NoTextMessage)
    case Some(a) => Count(CountWords(a.text))
  }

  /** `show_num_of_sentences`. */
  function ShowNumOfSentences(app: App): (r: Shown)
    ensures app.analyzer.None? <==> r == Message(NoTextMessage)
    ensures app.analyzer.Some? ==>
      r == Count(|Keep(Runs(app.analyzer.value.text, IsNotStop), HasText)|)
  {
    match app.analyzer
    case None => Message(NoTextMessage)
    case Some(a) => Count(CountSentences(a.text))
  }

  /** `show_count_of_num`. */
  function ShowCountOfNum(app: App): (r: Shown)
    ensures app.analyzer.None? <==> r == Message(NoTextMessage)
    ensures app.analyzer.Some? ==> r == Count(CountRunStarts(app.analyzer.value.text, IsDigit, 0))
    ensures app.analyzer.Some? ==> r.Count? && (r.n == 0 <==> NoneOf(app.analyzer.value.text, IsDigit))
  {
    match app.analyzer
    case None => Message(NoTextMessage)
    case Some(a) => Count(CountNumbers(a.text))
  }

  /** `show_most_common_words`: the message without an analyzer, otherwise
      `most_common_word` of the text, with its failure. */
  function ShowMostCommonWords(app: App): (r: Result<string, Error>)
    ensures app.analyzer.None? ==> r == Success(NoTextMessage)
    ensures app.analyzer.Some? ==> r == MostCommonWord(app.analyzer.value.text)
  {
    match app.analyzer
    case None => Success(NoTextMessage)
    case Some(a) => MostCommonWord(a.text)
  }

  // ------------------------------------------------------------------- lemmas

  /** With an analyzer, the report's fields are what the analyzer and the accessors give. */
  lemma ReportAgreesWithAccessors(app: App)
    requires app.analyzer.Some?
    ensures var r := GetReport(app);
      r.Success? ==>
        r.value.Full? &&
        r.value.fixedText == FixedText(app.analyzer.value) &&
        Count(r.value.numberOfWords) == ShowNumOfWords(app) &&
        Count(r.value.numberOfSentences) == ShowNumOfSentences(app) &&
        Count(r.value.countOfNumbers) == ShowCountOfNum(app) &&
        Success(r.value.mostCommon) == ShowMostCommonWords(app)
  {
  }

  /** The report agrees with `analyze` on the analyzer's text. */
  lemma ReportAgreesWithAnalyze(app: App)
    requires app.analyzer.Some?
    ensures var a := app.analyzer.value;
      match (GetReport(app), Analyze(a))
      case (Success(r), Success(st)) =>
        r == Full(st.fixedText, st.numOfWords, st.numOfSentences, st.countOfNum, st.mostComWord)
      case (Failure(e), Failure(f)) => e == f
      case _ => false
  {
  }

  /** After a successful `enter_text` the session reflects only the new text: whatever
      was there before makes no difference. */
  lemma EnterTextForgets(app1: App, app2: App, text: string)
    requires |text| >= MinTextLength
    ensures EnterText(app1, text).0 == EnterText(app2, text).0
    ensures GetReport(EnterText(app1, text).0) == GetReport(App(Some(Analyzer(text))))
  {
  }

  /** A rejected text changes nothing the session reports. */
  lemma RejectedTextKeepsReport(app: App, text: string)
    requires |text| < MinTextLength
    ensures GetReport(EnterText(app, text).0) == GetReport(app)
    ensures ShowNumOfWords(EnterText(app, text).0) == ShowNumOfWords(app)
    ensures ShowNumOfSentences(EnterText(app, text).0) == ShowNumOfSentences(app)
    ensures ShowCountOfNum(EnterText(app, text).0) == ShowCountOfNum(app)
    ensures ShowMostCommonWords(EnterText(app, text).0) == ShowMostCommonWords(app)
  {
  }
}
