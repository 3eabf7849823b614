/** Comma spacing, the first step of `TextAnalyzerCore.fixed_text`. */
module CommaSpacing {
  import opened CharClasses
  import opened Tokens

  /** No comma is directly followed by a non-whitespace character. */
  predicate NoTightComma(s: string) {
    forall i :: 0 <= i < |s| - 1 && s[i] == ',' ==> IsSpace(s[i + 1])
  }

  /** `re.sub(r',(\S)', r', \1', s)`. The regex scans left to right without overlap: a
      comma followed by a non-whitespace character becomes comma, space, that character,
      and that character is consumed, so it cannot be the comma of the next match. */
  function SpaceCommas(s: string): (r: string)
    ensures |s| <= |r| <= |s| + |s| / 2
    decreases |s|
  {
    if |s| >= 2 && s[0] == ',' && !IsSpace(s[1]) then [',', ' ', s[1]] + SpaceCommas(s[2..])
    else if |s| == 0 then []
    else [s[0]] + SpaceCommas(s[1..])
  }

  /** The text comes back unchanged exactly when no comma is directly followed by a
      non-whitespace character. */
  lemma {:induction false} SpaceCommasUnchanged(s: string)
    ensures SpaceCommas(s) == s <==> NoTightComma(s)
    decreases |s|
  {
    if |s| >= 2 && s[0] == ',' && !IsSpace(s[1]) {
      assert SpaceCommas(s)[1] == ' ';
    } else if |s| > 0 {
      SpaceCommasUnchanged(s[1..]);
      assert s == [s[0]] + s[1..];
      assert NoTightComma(s) <==> NoTightComma(s[1..]) by {
        if NoTightComma(s[1..]) {
          forall i | 0 <= i < |s| - 1 && s[i] == ','
            ensures IsSpace(s[i + 1])
          {
            if i > 0 {
              assert s[1..][i - 1] == s[i];
            }
          }
        }
        if NoTightComma(s) {
          forall i | 0 <= i < |s[1..]| - 1 && s[1..][i] == ','
            ensures IsSpace(s[1..][i + 1])
          {
            assert s[1..][i] == s[i + 1];
          }
        }
      }
    }
  }

  /** The number of commas immediately before position `i`. */
  function CommasBefore(s: string, i: nat): nat
    requires i <= |s|
  {
    if i == 0 || s[i - 1] != ',' then 0 else 1 + CommasBefore(s, i - 1)
  }

  /** Position `i` receives a space: it holds a comma, the next character exists and is not
      whitespace, and an even number of commas precede it (in a run of commas the matches
      take the first, third, fifth, ... comma, because each match consumes the next one). */
  predicate GetsSpace(s: string, i: nat)
    requires i < |s|
  {
    s[i] == ',' && i + 1 < |s| && !IsSpace(s[i + 1]) && CommasBefore(s, i) % 2 == 0
  }

  /** The input from position `i` on, every character copied and a single space inserted
      after each position that `GetsSpace`. */
  function SpacedFrom(s: string, i: nat): string
    requires i <= |s|
    decreases |s| - i
  {
    if i == |s| then []
    else (if GetsSpace(s, i) then [s[i], ' '] else [s[i]]) + SpacedFrom(s, i + 1)
  }

  /** The scan from position `i`, when the scan can be there, is `SpacedFrom`. */
  lemma {:induction false} SpaceCommasFrom(s: string, i: nat)
    requires i <= |s|
    requires i < |s| && s[i] == ',' ==> CommasBefore(s, i) % 2 == 0
    ensures SpaceCommas(s[i..]) == SpacedFrom(s, i)
    decreases |s| - i
  {
    if i < |s| {
      var t := s[i..];
      if |t| >= 2 && t[0] == ',' && !IsSpace(t[1]) {
        assert GetsSpace(s, i);
        assert !GetsSpace(s, i + 1) by {
          if s[i + 1] == ',' {
            assert CommasBefore(s, i + 1) == 1 + CommasBefore(s, i);
          }
        }
        if i + 2 < |s| && s[i + 2] == ',' {
          if s[i + 1] == ',' {
            assert CommasBefore(s, i + 2) == 2 + CommasBefore(s, i);
          } else {
            assert CommasBefore(s, i + 2) == 0;
          }
        }
        assert t[2..] == s[i + 2..];
        SpaceCommasFrom(s, i + 2);
        assert SpacedFrom(s, i) == [s[i], ' '] + ([s[i + 1]] + SpacedFrom(s, i + 2));
      } else {
        assert !GetsSpace(s, i);
        if i + 1 < |s| && s[i + 1] == ',' {
          assert s[i] != ',';
          assert CommasBefore(s, i + 1) == 0;
        }
        assert t[1..] == s[i + 1..];
        SpaceCommasFrom(s, i + 1);
      }
    }
  }

  /** The regex substitution inserts exactly one space after each comma that `GetsSpace`
      and changes nothing else: deleting those spaces gives the input back, and a comma
      followed by whitespace or ending the text is left as it is. */
  lemma SpaceCommasSpec(s: string)
    ensures SpaceCommas(s) == SpacedFrom(s, 0)
  {
    assert s[0..] == s;
    SpaceCommasFrom(s, 0);
  }

  /** Deletes the character after position `k` of the original text wherever `ms[k]`
      marks an inserted space. */
  function Unspace(t: string, ms: seq<bool>): string
    decreases |ms|
  {
    if |ms| == 0 || |t| == 0 then []
    else if ms[0] && |t| >= 2 then [t[0]] + Unspace(t[2..], ms[1..])
    else [t[0]] + Unspace(t[1..], ms[1..])
  }

  /** The positions of the text that receive a space. */
  function Inserted(s: string): (ms: seq<bool>)
    ensures |ms| == |s|
  {
    seq(|s|, i requires 0 <= i < |s| => GetsSpace(s, i))
  }

  lemma {:induction false} UnspaceFrom(s: string, i: nat)
    requires i <= |s|
    ensures Unspace(SpacedFrom(s, i), Inserted(s)[i..]) == s[i..]
    decreases |s| - i
  {
    if i < |s| {
      var ms := Inserted(s)[i..];
      assert ms[0] == GetsSpace(s, i);
      assert ms[1..] == Inserted(s)[i + 1..];
      UnspaceFrom(s, i + 1);
      var rest := SpacedFrom(s, i + 1);
      if GetsSpace(s, i) {
        var t := [s[i], ' '] + rest;
        assert t[2..] == rest;
      } else {
        var t := [s[i]] + rest;
        assert t[1..] == rest;
      }
      assert s[i..] == [s[i]] + s[i + 1..];
    }
  }

  /** Deleting the inserted spaces gives the input back. */
  lemma SpaceCommasRoundTrip(s: string)
    ensures Unspace(SpaceCommas(s), Inserted(s)) == s
  {
    SpaceCommasSpec(s);
    UnspaceFrom(s, 0);
    assert Inserted(s)[0..] == Inserted(s);
    assert s[0..] == s;
  }

  /** Only whitespace is added: the non-whitespace characters are those of the input, in
      order. */
  lemma {:induction false} SpaceCommasKeepsText(s: string)
    ensures Keep(SpaceCommas(s), IsNotSpace) == Keep(s, IsNotSpace)
    decreases |s|
  {
    if |s| >= 2 && s[0] == ',' && !IsSpace(s[1]) {
      SpaceCommasKeepsText(s[2..]);
      KeepAppend([',', ' ', s[1]], SpaceCommas(s[2..]), IsNotSpace);
      assert s == [s[0], s[1]] + s[2..];
      KeepAppend([s[0], s[1]], s[2..], IsNotSpace);
    } else if |s| > 0 {
      SpaceCommasKeepsText(s[1..]);
      KeepAppend([s[0]], SpaceCommas(s[1..]), IsNotSpace);
    }
  }
}
