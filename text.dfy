/** Line handling shared by training and scoring: whitespace normalisation and
    fixed-width sliding windows. A Go string is seen here as its sequence of
    runes (Unicode code points), which is how the model slices it. */
module Text {

  /** Whitespace as `\s` matches it in Go's regular expressions:
      tab, newline, form feed, carriage return and space. */
  predicate IsSpace(c: char) {
    c == '\t' || c == '\n' || c == '\U{000C}' || c == '\r' || c == ' '
  }

  /** The windows of width `k` over `s`, left to right with stride 1. */
  function Windows(s: string, k: nat): (ws: seq<string>)
    ensures |ws| == if k <= |s| then |s| - k + 1 else 0
    ensures forall i :: 0 <= i < |ws| ==> ws[i] == s[i..i + k]
    decreases |s|
  {
    if |s| < k then []
    else if |s| == k then [s]
    else [s[..k]] + Windows(s[1..], k)
  }

  /** Collects the windows of width `length` over `s` with a loop, as the
      source's `sliding` does; a width of 0 yields |s| + 1 empty windows. */
  method Sliding(s: string, length: nat) returns (windows: seq<string>)
    ensures windows == Windows(s, length)
  {
    windows := [];
    var i := 0;
    while i + length <= |s|
      invariant i == 0 || i + length <= |s| + 1
      invariant |windows| == i
      invariant forall j :: 0 <= j < i ==> windows[j] == s[j..j + length]
      decreases |s| + 1 - i
    {
      windows := windows + [s[i..i + length]];
      i := i + 1;
    }
  }

  /** No whitespace other than ' ' and no two spaces side by side. */
  predicate Normalised(s: string) {
    && (forall i :: 0 <= i < |s| && IsSpace(s[i]) ==> s[i] == ' ')
    && (forall i :: 0 <= i < |s| - 1 ==> s[i] != ' ' || s[i + 1] != ' ')
  }

  /** Replaces each run of whitespace by one space; `afterSpace` says that the
      character just before `s` was whitespace, so a run is already open. */
  function Squeeze(s: string, afterSpace: bool): (r: string)
    ensures |r| <= |s|
    ensures Normalised(r)
    ensures afterSpace ==> r == [] || r[0] != ' '
    ensures !afterSpace && s != [] ==> r != []
  {
    if s == [] then []
    else if IsSpace(s[0]) then
      if afterSpace then Squeeze(s[1..], true) else [' '] + Squeeze(s[1..], true)
    else [s[0]] + Squeeze(s[1..], false)
  }

  /** The source's `processLine`: every maximal run of `\s` becomes one space. */
  function ProcessLine(s: string): (r: string)
    ensures |r| <= |s|
    ensures Normalised(r)
    ensures r == [] <==> s == []
  {
    Squeeze(s, false)
  }

  /** The characters of `s` that are not whitespace, in order. */
  function NonSpace(s: string): string {
    if s == [] then []
    else (if IsSpace(s[0]) then [] else [s[0]]) + NonSpace(s[1..])
  }

  lemma {:induction false} SqueezeKeepsNormalised(s: string, afterSpace: bool)
    requires Normalised(s)
    requires afterSpace ==> s == [] || s[0] != ' '
    ensures Squeeze(s, afterSpace) == s
    decreases |s|
  {
    if s != [] {
      assert Normalised(s[1..]);
      if IsSpace(s[0]) {
        SqueezeKeepsNormalised(s[1..], true);
      } else {
        SqueezeKeepsNormalised(s[1..], false);
      }
      assert s == [s[0]] + s[1..];
    }
  }

  /** Normalising twice is normalising once. */
  lemma ProcessLineIdempotent(s: string)
    ensures ProcessLine(ProcessLine(s)) == ProcessLine(s)
  {
    SqueezeKeepsNormalised(ProcessLine(s), false);
  }

  lemma {:induction false} SqueezeKeepsNonSpace(s: string, afterSpace: bool)
    ensures NonSpace(Squeeze(s, afterSpace)) == NonSpace(s)
    decreases |s|
  {
    if s != [] {
      SqueezeKeepsNonSpace(s[1..], IsSpace(s[0]));
      var r := Squeeze(s, afterSpace);
      if IsSpace(s[0]) && afterSpace {
        assert r == Squeeze(s[1..], true);
      } else {
        assert r[1..] == Squeeze(s[1..], IsSpace(s[0]));
        assert NonSpace(r) == (if IsSpace(r[0]) then [] else [r[0]]) + NonSpace(r[1..]);
      }
    }
  }

  /** Normalisation removes and rewrites whitespace only: every other
      character survives, in order. */
  lemma ProcessLineKeepsNonSpace(s: string)
    ensures NonSpace(ProcessLine(s)) == NonSpace(s)
  {
    SqueezeKeepsNonSpace(s, false);
  }

  lemma {:induction false} SqueezeSnoc(s: string, c: char, afterSpace: bool)
    ensures Squeeze(s + [c], afterSpace) ==
      if !IsSpace(c) then Squeeze(s, afterSpace) + [c]
      else if (if s == [] then afterSpace else IsSpace(s[|s| - 1])) then Squeeze(s, afterSpace)
      else Squeeze(s, afterSpace) + [' ']
    decreases |s|
  {
    if s == [] {
      assert [c][1..] == [];
    } else {
      assert (s + [c])[1..] == s[1..] + [c];
      SqueezeSnoc(s[1..], c, IsSpace(s[0]));
      if |s| > 1 {
        assert s[1..][|s[1..]| - 1] == s[|s| - 1];
      }
    }
  }

  /** Reading a line one character at a time: a non-space character is kept,
      the first whitespace character of a run is written as ' ' and the rest
      of the run is dropped. With ProcessLine([]) == [] this determines
      ProcessLine completely. */
  lemma ProcessLineAppend(s: string, c: char)
    ensures ProcessLine(s + [c]) ==
      if !IsSpace(c) then ProcessLine(s) + [c]
      else if s != [] && IsSpace(s[|s| - 1]) then ProcessLine(s)
      else ProcessLine(s) + [' ']
  {
    SqueezeSnoc(s, c, false);
  }
}
