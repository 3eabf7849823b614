/** `TextAnalyzerCore.most_common_word`: the lower-cased word-character tokens are counted
    in a dictionary, and every token whose count equals the largest count is reported, in
    the order the dictionary first saw it, joined with ", ". */
module MostCommon {
  import opened Wrappers
  import opened CharClasses
  import opened Tokens

  /** `max(word_counts.values())` on an empty dictionary raises `ValueError`. */
  datatype Error = NoWords

  /** `re.findall(r'\b\w+\b', s.lower())`: the maximal runs of word characters of the
      lower-cased text. */
  function LowerWords(s: string): seq<string> {
    Runs(LowerStr(s), IsWordChar)
  }

  /** How often `w` occurs among the tokens. */
  function Occ(ts: seq<string>, w: string): nat {
    multiset(ts)[w]
  }

  /** The position of the first occurrence of `w` among the tokens. */
  function FirstIndex(ts: seq<string>, w: string): (k: nat)
    requires w in ts
    ensures k < |ts| && ts[k] == w && w !in ts[..k]
  {
    var p := ts[..|ts| - 1];
    if w in p then
      var k := FirstIndex(p, w);
      assert p[..k] == ts[..k];
      k
    else
      assert ts == p + [ts[|ts| - 1]];
      |ts| - 1
  }

  /** The words of `ds` occur among the tokens and appear in the order of their first
      occurrence (so no word appears twice). */
  predicate Ordered(ds: seq<string>, ts: seq<string>) {
    (forall i :: 0 <= i < |ds| ==> ds[i] in ts) &&
    forall i, j :: 0 <= i < j < |ds| && ds[i] in ts && ds[j] in ts ==>
      FirstIndex(ts, ds[i]) < FirstIndex(ts, ds[j])
  }

  predicate NoDup(ds: seq<string>) {
    forall i, j :: 0 <= i < j < |ds| ==> ds[i] != ds[j]
  }

  /** The keys of the dictionary after counting `ts`: a token is added when it is not yet a
      key. */
  function Dedup(ts: seq<string>): seq<string> {
    if |ts| == 0 then []
    else
      var d := Dedup(ts[..|ts| - 1]);
      var x := ts[|ts| - 1];
      if x in d then d else d + [x]
  }

  /** The largest count among the keys `ds` (0 when there is none), taken left to right. */
  function MaxOver(ds: seq<string>, ts: seq<string>): nat {
    if |ds| == 0 then 0
    else
      var m := MaxOver(ds[..|ds| - 1], ts);
      var c := Occ(ts, ds[|ds| - 1]);
      if c > m then c else m
  }

  /** The keys among `ds` whose count is `m`, in order. */
  function Tops(ds: seq<string>, ts: seq<string>, m: nat): seq<string> {
    if |ds| == 0 then []
    else Tops(ds[..|ds| - 1], ts, m) + (if Occ(ts, ds[|ds| - 1]) == m then [ds[|ds| - 1]] else [])
  }

  function TopWords(ts: seq<string>): seq<string> {
    var ds := Dedup(ts);
    Tops(ds, ts, MaxOver(ds, ts))
  }

  /** The words with the largest count, or the error `max()` raises when the text has no
      word character. */
  function MostCommonWords(s: string): Result<seq<string>, Error> {
    var ts := LowerWords(s);
    if |ts| == 0 then Failure(NoWords) else Success(TopWords(ts))
  }

  /** `most_common_word`: the words with the largest count joined with ", ". It raises,
      on the empty `Counter`, exactly when the text has no word character. */
  function MostCommonWord(s: string): (r: Result<string, Error>)
    ensures r.Failure? <==> NoneOf(s, IsWordChar)
    ensures r.Failure? ==> r.error == NoWords
  {
    MostCommonWordsSpec(s);
    match MostCommonWords(s)
    case Success(ws) => Success(Join(ws, ", "))
    case Failure(e) => Failure(e)
  }

  // ------------------------------------------------------------------- lemmas

  lemma FirstIndexSnoc(p: seq<string>, x: string, w: string)
    requires w in p
    ensures FirstIndex(p + [x], w) == FirstIndex(p, w)
  {
    assert (p + [x])[..|p|] == p;
  }

  lemma FirstIndexLast(p: seq<string>, x: string)
    requires x !in p
    ensures FirstIndex(p + [x], x) == |p|
  {
    assert (p + [x])[..|p|] == p;
  }

  /** Extending the tokens keeps an order of words already seen. */
  lemma OrderedExtend(ds: seq<string>, p: seq<string>, x: string)
    requires Ordered(ds, p)
    ensures Ordered(ds, p + [x])
  {
    forall i | 0 <= i < |ds|
      ensures ds[i] in p + [x] && FirstIndex(p + [x], ds[i]) == FirstIndex(p, ds[i])
    {
      FirstIndexSnoc(p, x, ds[i]);
    }
  }

  /** A word seen after all the words of an ordered list extends it. */
  lemma OrderedSnoc(ds: seq<string>, ts: seq<string>, y: string)
    requires Ordered(ds, ts) && y in ts
    requires forall i :: 0 <= i < |ds| ==> FirstIndex(ts, ds[i]) < FirstIndex(ts, y)
    ensures Ordered(ds + [y], ts)
  {
    var e := ds + [y];
    forall i, j | 0 <= i < j < |e|
      ensures FirstIndex(ts, e[i]) < FirstIndex(ts, e[j])
    {
      if j < |ds| {
        assert e[i] == ds[i] && e[j] == ds[j];
      }
    }
  }

  lemma OrderedPrefix(ds: seq<string>, ts: seq<string>)
    requires |ds| > 0 && Ordered(ds, ts)
    ensures Ordered(ds[..|ds| - 1], ts)
    ensures forall i :: 0 <= i < |ds| - 1 ==> FirstIndex(ts, ds[i]) < FirstIndex(ts, ds[|ds| - 1])
  {
  }

  lemma OrderedNoDup(ds: seq<string>, ts: seq<string>)
    requires Ordered(ds, ts)
    ensures NoDup(ds)
  {
  }

  /** The dictionary keys are the distinct tokens, in order of first occurrence. */
  lemma {:induction false} DedupSpec(ts: seq<string>)
    ensures forall w :: w in Dedup(ts) <==> w in ts
    ensures Ordered(Dedup(ts), ts)
  {
    if |ts| > 0 {
      var p, x := ts[..|ts| - 1], ts[|ts| - 1];
      assert ts == p + [x];
      DedupSpec(p);
      var d := Dedup(p);
      OrderedExtend(d, p, x);
      if x !in d {
        forall i | 0 <= i < |d|
          ensures FirstIndex(ts, d[i]) < FirstIndex(ts, x)
        {
          FirstIndexSnoc(p, x, d[i]);
        }
        FirstIndexLast(p, x);
        OrderedSnoc(d, ts, x);
      }
    }
  }

  /** `MaxOver` is the largest count among the keys and, when there are keys, the count of
      one of them. */
  lemma {:induction false} MaxOverSpec(ds: seq<string>, ts: seq<string>)
    ensures forall i :: 0 <= i < |ds| ==> Occ(ts, ds[i]) <= MaxOver(ds, ts)
    ensures |ds| > 0 ==> exists i :: 0 <= i < |ds| && Occ(ts, ds[i]) == MaxOver(ds, ts)
  {
    if |ds| > 0 {
      var q := ds[..|ds| - 1];
      MaxOverSpec(q, ts);
      if Occ(ts, ds[|ds| - 1]) <= MaxOver(q, ts) && |q| > 0 {
        var i :| 0 <= i < |q| && Occ(ts, q[i]) == MaxOver(q, ts);
        assert ds[i] == q[i];
      }
    }
  }

  /** `Tops` keeps exactly the keys with count `m`, in their order. */
  lemma {:induction false} TopsSpec(ds: seq<string>, ts: seq<string>, m: nat)
    requires Ordered(ds, ts)
    ensures forall w :: w in Tops(ds, ts, m) <==> w in ds && Occ(ts, w) == m
    ensures Ordered(Tops(ds, ts, m), ts)
  {
    if |ds| > 0 {
      var q, y := ds[..|ds| - 1], ds[|ds| - 1];
      assert ds == q + [y];
      OrderedPrefix(ds, ts);
      TopsSpec(q, ts, m);
      var r := Tops(q, ts, m);
      if Occ(ts, y) == m {
        forall i | 0 <= i < |r|
          ensures FirstIndex(ts, r[i]) < FirstIndex(ts, y)
        {
          assert r[i] in q;
        }
        OrderedSnoc(r, ts, y);
      }
    }
  }

  /** The reported words occur in the text, have the largest count, include every word
      with that count, and come in the order of their first occurrence, each once. */
  lemma TopWordsSpec(ts: seq<string>)
    requires |ts| > 0
    ensures var r := TopWords(ts);
      |r| > 0 && Ordered(r, ts) && NoDup(r) &&
      (forall w :: w in ts ==> Occ(ts, w) <= Occ(ts, r[0])) &&
      (forall w :: w in ts ==> (w in r <==> Occ(ts, w) == Occ(ts, r[0])))
  {
    var ds := Dedup(ts);
    DedupSpec(ts);
    var m := MaxOver(ds, ts);
    MaxOverSpec(ds, ts);
    TopsSpec(ds, ts, m);
    var r := TopWords(ts);
    assert ts[0] in ds;
    var i :| 0 <= i < |ds| && Occ(ts, ds[i]) == m;
    assert ds[i] in r;
    assert r[0] in r;
    forall w | w in ts
      ensures Occ(ts, w) <= m
    {
      var k :| 0 <= k < |ds| && ds[k] == w;
    }
    OrderedNoDup(r, ts);
  }

  /** `most_common_word` fails exactly on text without a word character; otherwise it
      reports the words of `TopWordsSpec`. */
  lemma MostCommonWordsSpec(s: string)
    ensures MostCommonWords(s).Failure? <==> NoneOf(s, IsWordChar)
    ensures MostCommonWords(s).Success? ==>
      var ts, r := LowerWords(s), MostCommonWords(s).value;
      |r| > 0 && Ordered(r, ts) && NoDup(r) &&
      (forall w :: w in ts ==> Occ(ts, w) <= Occ(ts, r[0])) &&
      (forall w :: w in ts ==> (w in r <==> Occ(ts, w) == Occ(ts, r[0])))
  {
    LowerWordsSpec(s);
    if |LowerWords(s)| > 0 {
      TopWordsSpec(LowerWords(s));
    }
  }

  /** The tokens of `re.findall(r'\b\w+\b', s.lower())` are non-empty runs of word
      characters, together they hold every word character of the lower-cased text in
      order, and there are none exactly when the text has no word character. */
  lemma LowerWordsSpec(s: string)
    ensures forall w :: w in LowerWords(s) ==> |w| > 0 && All(w, IsWordChar)
    ensures Flatten(LowerWords(s)) == Keep(LowerStr(s), IsWordChar)
    ensures LowerWords(s) == [] <==> NoneOf(s, IsWordChar)
  {
    var l := LowerStr(s);
    RunsAreRuns(l, IsWordChar);
    RunsFlatten(l, IsWordChar);
    RunsEmptyIff(l, IsWordChar);
    assert NoneOf(l, IsWordChar) <==> NoneOf(s, IsWordChar) by {
      if !NoneOf(s, IsWordChar) {
        var k :| 0 <= k < |s| && IsWordChar(s[k]);
        assert IsWordChar(l[k]);
      }
      if !NoneOf(l, IsWordChar) {
        var k :| 0 <= k < |l| && IsWordChar(l[k]);
        assert IsWordChar(s[k]);
      }
    }
  }

  /** Round trip for the final `", ".join`: reading the word runs of the reported string
      gives back the reported words. */
  lemma MostCommonWordSplits(s: string)
    ensures MostCommonWord(s).Success? ==>
      MostCommonWords(s).Success? && Runs(MostCommonWord(s).value, IsWordChar) == MostCommonWords(s).value
  {
    if MostCommonWord(s).Success? {
      var ts := LowerWords(s);
      var r := MostCommonWords(s).value;
      LowerWordsSpec(s);
      MostCommonWordsSpec(s);
      assert forall w :: w in r ==> w in ts by {
        forall w | w in r
          ensures w in ts
        {
          var i :| 0 <= i < |r| && r[i] == w;
          assert r[i] in ts;
        }
      }
      assert NoneOf(", ", IsWordChar);
      RunsOfJoin(r, ", ", IsWordChar);
    }
  }

  /** One more token counts once more for its own word and for no other. */
  lemma OccSnoc(xs: seq<string>, w: string)
    ensures forall v :: Occ(xs + [w], v) == Occ(xs, v) + (if v == w then 1 else 0)
  {
    assert multiset(xs + [w]) == multiset(xs) + multiset{w};
  }

  /** `keys` lists the distinct tokens of `xs` in first-occurrence order and `counts` maps
      each of them, and nothing else, to its number of occurrences. */
  ghost predicate Tallied(xs: seq<string>, keys: seq<string>, counts: map<string, nat>) {
    && keys == Dedup(xs)
    && (forall v :: v in counts <==> v in keys)
    && (forall v :: v in counts ==> counts[v] == Occ(xs, v))
  }

  /** Counting one more token keeps the keys in first-occurrence order and the counts
      exact. */
  lemma TallyStep(xs: seq<string>, w: string, keys: seq<string>, counts: map<string, nat>,
                  keys2: seq<string>, counts2: map<string, nat>)
    requires Tallied(xs, keys, counts)
    requires w in counts ==> keys2 == keys && counts2 == counts[w := counts[w] + 1]
    requires w !in counts ==> keys2 == keys + [w] && counts2 == counts[w := 1]
    ensures Tallied(xs + [w], keys2, counts2)
  {
    OccSnoc(xs, w);
    assert (xs + [w])[..|xs|] == xs;
    if w !in counts {
      DedupSpec(xs);
    }
  }

  /** The counting loop: a dictionary from each token to its number of occurrences, and
      its keys in insertion order. */
  method CountTokens(ts: seq<string>) returns (keys: seq<string>, counts: map<string, nat>)
    ensures keys == Dedup(ts)
    ensures forall w :: w in counts <==> w in keys
    ensures forall w :: w in counts ==> counts[w] == Occ(ts, w)
  {
    keys, counts := [], map[];
    var i := 0;
    while i < |ts|
      invariant 0 <= i <= |ts|
      invariant Tallied(ts[..i], keys, counts)
    {
      var w := ts[i];
      ghost var keys0, counts0 := keys, counts;
      if w in counts {
        counts := counts[w := counts[w] + 1];
      } else {
        keys := keys + [w];
        counts := counts[w := 1];
      }
      TallyStep(ts[..i], w, keys0, counts0, keys, counts);
      assert ts[..i + 1] == ts[..i] + [w];
      i := i + 1;
    }
    assert ts[..i] == ts;
  }

  /** The loop behind `max(word_counts.values())` on a non-empty dictionary. */
  method LargestCount(keys: seq<string>, counts: map<string, nat>, ts: seq<string>) returns (m: nat)
    requires forall w :: w in keys ==> w in counts && counts[w] == Occ(ts, w)
    ensures m == MaxOver(keys, ts)
  {
    m := 0;
    var j := 0;
    while j < |keys|
      invariant 0 <= j <= |keys|
      invariant m == MaxOver(keys[..j], ts)
    {
      assert keys[..j + 1][..j] == keys[..j];
      var c := counts[keys[j]];
      if c > m {
        m := c;
      }
      j := j + 1;
    }
    assert keys[..j] == keys;
  }

  /** The comprehension that keeps the keys whose count is `m`. */
  method KeysWithCount(keys: seq<string>, counts: map<string, nat>, ts: seq<string>, m: nat)
    returns (top: seq<string>)
    requires forall w :: w in keys ==> w in counts && counts[w] == Occ(ts, w)
    ensures top == Tops(keys, ts, m)
  {
    top := [];
    var j := 0;
    while j < |keys|
      invariant 0 <= j <= |keys|
      invariant top == Tops(keys[..j], ts, m)
    {
      assert keys[..j + 1][..j] == keys[..j];
      if counts[keys[j]] == m {
        top := top + [keys[j]];
      }
      j := j + 1;
    }
    assert keys[..j] == keys;
  }

  /** `most_common_word` as the source computes it, with its dictionary and loops. */
  method MostCommonWordLoop(text: string) returns (r: Result<string, Error>)
    ensures r == MostCommonWord(text)
  {
    var ts := LowerWords(text);
    var keys, counts := CountTokens(ts);
    if |keys| == 0 {
      DedupSpec(ts);
      return Failure(NoWords);
    }
    assert |ts| > 0;
    var m := LargestCount(keys, counts, ts);
    var top := KeysWithCount(keys, counts, ts, m);
    r := Success(Join(top, ", "));
  }
}
