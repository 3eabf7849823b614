/** Maximal runs of characters from one class. Every tokenizer of the analyzer is an
    instance: `str.split()` takes the runs of non-whitespace, `re.findall(r'\d+', ...)`
    the runs of digits and `re.findall(r'\b\w+\b', ...)` the runs of word characters. */
module Tokens {

  /** Every character of `s` satisfies `p`. */
  predicate All(s: string, p: char -> bool) {
    forall k :: 0 <= k < |s| ==> p(s[k])
  }

  /** No character of `s` satisfies `p`. */
  predicate NoneOf(s: string, p: char -> bool) {
    forall k :: 0 <= k < |s| ==> !p(s[k])
  }

  /** The length of the longest prefix of `s` whose characters satisfy `p`. */
  function RunLen(s: string, p: char -> bool): (n: nat)
    ensures n <= |s|
    ensures forall k :: 0 <= k < n ==> p(s[k])
    ensures n < |s| ==> !p(s[n])
    decreases |s|
  {
    if |s| > 0 && p(s[0]) then 1 + RunLen(s[1..], p) else 0
  }

  /** A prefix of `p`-characters that is not followed by one is the run `RunLen` finds. */
  lemma RunLenUnique(s: string, p: char -> bool, n: nat)
    requires n <= |s|
    requires forall k :: 0 <= k < n ==> p(s[k])
    requires n < |s| ==> !p(s[n])
    ensures RunLen(s, p) == n
  {
  }

  /** The maximal runs of `p`-characters of `s`, left to right. */
  function Runs(s: string, p: char -> bool): (rs: seq<string>)
    decreases |s|
  {
    if |s| == 0 then []
    else if !p(s[0]) then Runs(s[1..], p)
    else
      var n := RunLen(s, p);
      [s[..n]] + Runs(s[n..], p)
  }

  /** Every run is non-empty and made of `p`-characters. */
  lemma {:induction false} RunsAreRuns(s: string, p: char -> bool)
    ensures forall r :: r in Runs(s, p) ==> |r| > 0 && All(r, p)
    decreases |s|
  {
    if |s| > 0 {
      if !p(s[0]) {
        RunsAreRuns(s[1..], p);
      } else {
        var n := RunLen(s, p);
        RunsAreRuns(s[n..], p);
      }
    }
  }

  /** The elements of `xs` that satisfy `p`, in order: a list comprehension with a guard, or,
      on a string, the characters of a class. */
  function Keep<T>(xs: seq<T>, p: T -> bool): (r: seq<T>)
    ensures |r| <= |xs|
    decreases |xs|
  {
    if |xs| == 0 then [] else (if p(xs[0]) then [xs[0]] else []) + Keep(xs[1..], p)
  }

  /** The comprehension keeps exactly the elements that satisfy the guard. */
  lemma {:induction false} KeepSpec<T>(xs: seq<T>, p: T -> bool)
    ensures forall x :: x in Keep(xs, p) <==> x in xs && p(x)
    decreases |xs|
  {
    if |xs| > 0 {
      KeepSpec(xs[1..], p);
      assert xs == [xs[0]] + xs[1..];
    }
  }

  /** The comprehension keeps every copy of an element that satisfies the guard and no
      copy of any other, so the length of the result counts the elements that pass. */
  lemma {:induction false} KeepCounts<T>(xs: seq<T>, p: T -> bool)
    ensures forall x :: multiset(Keep(xs, p))[x] == if p(x) then multiset(xs)[x] else 0
    decreases |xs|
  {
    if |xs| > 0 {
      KeepCounts(xs[1..], p);
      assert xs == [xs[0]] + xs[1..];
      assert multiset(xs) == multiset{xs[0]} + multiset(xs[1..]);
    }
  }

  lemma KeepCons<T>(x: T, xs: seq<T>, p: T -> bool)
    ensures Keep([x] + xs, p) == (if p(x) then [x] else []) + Keep(xs, p)
  {
    assert ([x] + xs)[1..] == xs;
  }

  /** Filtering by a weaker condition first changes nothing. */
  lemma {:induction false} KeepKeep<T>(xs: seq<T>, p: T -> bool, q: T -> bool)
    requires forall i :: 0 <= i < |xs| && q(xs[i]) ==> p(xs[i])
    ensures Keep(Keep(xs, p), q) == Keep(xs, q)
    decreases |xs|
  {
    if |xs| > 0 {
      KeepKeep(xs[1..], p, q);
      var rest := Keep(xs[1..], p);
      if p(xs[0]) {
        KeepCons(xs[0], rest, q);
      } else {
        assert !q(xs[0]);
        assert Keep(xs, p) == rest;
      }
    }
  }

  function Flatten<T>(xss: seq<seq<T>>): seq<T> {
    if |xss| == 0 then [] else xss[0] + Flatten(xss[1..])
  }

  /** Python's `sep.join(ws)`: the words in order with `sep` between neighbours. */
  function Join(ws: seq<string>, sep: string): string {
    if |ws| == 0 then []
    else if |ws| == 1 then ws[0]
    else ws[0] + sep + Join(ws[1..], sep)
  }

  /** The joined text is the words' characters plus one separator between each pair of
      neighbours. */
  lemma {:induction false} JoinLength(ws: seq<string>, sep: string)
    requires |ws| > 0
    ensures |Join(ws, sep)| == |Flatten(ws)| + (|ws| - 1) * |sep|
    decreases |ws|
  {
    if |ws| > 1 {
      JoinLength(ws[1..], sep);
      assert (|ws| - 1) * |sep| == (|ws| - 2) * |sep| + |sep|;
    }
  }

  lemma {:induction false} FlattenAppend<T>(a: seq<seq<T>>, b: seq<seq<T>>)
    ensures Flatten(a + b) == Flatten(a) + Flatten(b)
    decreases |a|
  {
    if |a| == 0 {
      assert a + b == b;
    } else {
      assert (a + b)[1..] == a[1..] + b;
      FlattenAppend(a[1..], b);
    }
  }

  lemma {:induction false} KeepAppend<T>(a: seq<T>, b: seq<T>, p: T -> bool)
    ensures Keep(a + b, p) == Keep(a, p) + Keep(b, p)
    decreases |a|
  {
    if |a| == 0 {
      assert a + b == b;
    } else {
      var h: seq<T> := if p(a[0]) then [a[0]] else [];
      assert (a + b)[0] == a[0];
      assert (a + b)[1..] == a[1..] + b;
      assert Keep(a + b, p) == h + Keep(a[1..] + b, p);
      KeepAppend(a[1..], b, p);
    }
  }

  lemma {:induction false} KeepAll(s: string, p: char -> bool)
    requires All(s, p)
    ensures Keep(s, p) == s
    decreases |s|
  {
    if |s| > 0 {
      KeepAll(s[1..], p);
    }
  }

  /** A string without `p`-characters has no runs. */
  lemma {:induction false} RunsNoneOf(s: string, p: char -> bool)
    requires NoneOf(s, p)
    ensures Runs(s, p) == []
    decreases |s|
  {
    if |s| > 0 {
      RunsNoneOf(s[1..], p);
    }
  }

  /** A string has runs exactly when it has a `p`-character. */
  lemma {:induction false} RunsEmptyIff(s: string, p: char -> bool)
    ensures Runs(s, p) == [] <==> NoneOf(s, p)
    decreases |s|
  {
    if |s| > 0 && !p(s[0]) {
      RunsEmptyIff(s[1..], p);
      assert NoneOf(s[1..], p) ==> NoneOf(s, p);
    }
  }

  /** A non-empty string of `p`-characters is a single run. */
  lemma RunsOfRun(s: string, p: char -> bool)
    requires |s| > 0 && All(s, p)
    ensures Runs(s, p) == [s]
  {
    RunLenUnique(s, p, |s|);
    assert s[..|s|] == s;
    assert s[|s|..] == [];
  }

  /** Splitting distributes over a concatenation whose seam is not inside a run. */
  lemma {:induction false} RunsAppend(a: string, b: string, p: char -> bool)
    requires |a| == 0 || |b| == 0 || !p(a[|a| - 1]) || !p(b[0])
    ensures Runs(a + b, p) == Runs(a, p) + Runs(b, p)
    decreases |a|
  {
    if |a| == 0 {
      assert a + b == b;
    } else if !p(a[0]) {
      assert (a + b)[1..] == a[1..] + b;
      RunsAppend(a[1..], b, p);
    } else {
      var n := RunLen(a, p);
      assert a[..n] == (a + b)[..n];
      if n < |a| {
        assert (a + b)[n] == a[n];
      } else {
        assert a[..n] == a;
      }
      RunLenUnique(a + b, p, n);
      assert (a + b)[n..] == a[n..] + b;
      RunsAppend(a[n..], b, p);
    }
  }

  /** Round trip: splitting a join of runs at a separator without `p`-characters gives
      the runs back. */
  lemma {:induction false} RunsOfJoin(ws: seq<string>, sep: string, p: char -> bool)
    requires forall w :: w in ws ==> |w| > 0 && All(w, p)
    requires |sep| > 0 && NoneOf(sep, p)
    ensures Runs(Join(ws, sep), p) == ws
    decreases |ws|
  {
    if |ws| == 0 {
    } else if |ws| == 1 {
      RunsOfRun(ws[0], p);
    } else {
      var rest := Join(ws[1..], sep);
      assert Join(ws, sep) == ws[0] + (sep + rest);
      RunsAppend(ws[0], sep + rest, p);
      RunsAppend(sep, rest, p);
      RunsOfRun(ws[0], p);
      RunsNoneOf(sep, p);
      RunsOfJoin(ws[1..], sep, p);
    }
  }

  /** The runs hold exactly the `p`-characters of the input, in order. */
  lemma {:induction false} RunsFlatten(s: string, p: char -> bool)
    ensures Flatten(Runs(s, p)) == Keep(s, p)
    decreases |s|
  {
    if |s| > 0 {
      if !p(s[0]) {
        RunsFlatten(s[1..], p);
      } else {
        var n := RunLen(s, p);
        RunsFlatten(s[n..], p);
        assert s == s[..n] + s[n..];
        KeepAppend(s[..n], s[n..], p);
        KeepAll(s[..n], p);
      }
    }
  }

  /** Position `k` starts a maximal run of `p`-characters. */
  predicate IsRunStart(s: string, p: char -> bool, k: nat)
    requires k < |s|
  {
    p(s[k]) && (k == 0 || !p(s[k - 1]))
  }

  /** The number of run starts at positions `i` and later. */
  function CountRunStarts(s: string, p: char -> bool, i: nat): nat
    requires i <= |s|
    decreases |s| - i
  {
    if i == |s| then 0
    else (if IsRunStart(s, p, i) then 1 else 0) + CountRunStarts(s, p, i + 1)
  }

  lemma {:induction false} NoStartsInsideRun(s: string, p: char -> bool, i: nat, j: nat)
    requires i < j <= |s|
    requires All(s[i..j], p)
    ensures CountRunStarts(s, p, i + 1) == CountRunStarts(s, p, j)
    decreases j - i
  {
    if i + 1 < j {
      assert s[i..j][0] == s[i] && s[i..j][1] == s[i + 1];
      assert s[i + 1..j] == s[i..j][1..];
      NoStartsInsideRun(s, p, i + 1, j);
    }
  }

  /** The number of runs is the number of positions where a run starts. */
  lemma {:induction false} RunsCountStarts(s: string, p: char -> bool, i: nat)
    requires i <= |s|
    requires i == 0 || !p(s[i - 1])
    ensures |Runs(s[i..], p)| == CountRunStarts(s, p, i)
    decreases |s| - i
  {
    if i < |s| {
      var t := s[i..];
      if !p(s[i]) {
        assert t[1..] == s[i + 1..];
        RunsCountStarts(s, p, i + 1);
      } else {
        var n := RunLen(t, p);
        assert t[..n] == s[i..i + n];
        NoStartsInsideRun(s, p, i, i + n);
        assert t[n..] == s[i + n..];
        if i + n < |s| {
          assert s[i + n..][1..] == s[i + n + 1..];
          RunsCountStarts(s, p, i + n + 1);
        }
      }
    }
  }
}
