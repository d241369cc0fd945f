/** The longest-suffix backoff estimator. A log-probability is represented by
    the pair of numbers it is computed from, so the choice the estimator
    makes is exact while `log2` itself stays out of the model. */
module Estimator {
  import opened Text
  import opened NGramTables

  /** What `LogProb` returns. */
  datatype Estimate =
    | NegInf                          // −∞, found == false: no models or an empty key
    | Found(count: int, total: int)   // log2(count) − log2(total), found == true
    | Unseen(total: int)              // log2(1) − log2(total), found == false

  /** The suffix of `key` that starts at `i` is a key of the model whose size
      is that suffix's length. */
  predicate Matches(ms: TableSet, key: string, i: int) {
    0 <= i < |key| && |key| - i in ms && key[i..] in ms[|key| - i].counts
  }

  /** The suffix loop from offset `i` on; `lastTotal` is the total of the last
      model visited without a match. */
  function Scan(ms: TableSet, key: string, i: nat, lastTotal: int): (e: Estimate)
    requires i <= |key|
    ensures !e.NegInf?
    decreases |key| - i
  {
    if i == |key| then Unseen(lastTotal)
    else
      var suffix := key[i..];
      if |suffix| in ms then
        var m := ms[|suffix|];
        if suffix in m.counts then Found(m.counts[suffix], m.total)
        else Scan(ms, key, i + 1, m.total)
      else Scan(ms, key, i + 1, lastTotal)
  }

  /** The estimate of `key` against the model set, with the model of each
      suffix chosen by the suffix's length in runes. The −∞ sentinel comes
      exactly from an empty set or an empty key. */
  function Backoff(ms: TableSet, key: string): (e: Estimate)
    ensures e.NegInf? <==> ms == map[] || key == []
  {
    if ms == map[] || key == [] then NegInf else Scan(ms, key, 0, 0)
  }

  lemma {:induction false} ScanFoundIff(ms: TableSet, key: string, i: nat, lastTotal: int)
    requires i <= |key|
    ensures Scan(ms, key, i, lastTotal).Found? <==> exists j :: i <= j && Matches(ms, key, j)
    decreases |key| - i
  {
    if i < |key| {
      var m := |key| - i;
      ScanFoundIff(ms, key, i + 1, if m in ms then ms[m].total else lastTotal);
      if !Matches(ms, key, i) && exists j :: i <= j && Matches(ms, key, j) {
        var j :| i <= j && Matches(ms, key, j);
        assert i + 1 <= j;
      }
    }
  }

  lemma {:induction false} ScanFirstMatch(ms: TableSet, key: string, i: nat, lastTotal: int, j: nat)
    requires i <= j && Matches(ms, key, j)
    requires forall j' :: i <= j' < j ==> !Matches(ms, key, j')
    ensures Scan(ms, key, i, lastTotal) == Found(ms[|key| - j].counts[key[j..]], ms[|key| - j].total)
    decreases j - i
  {
    if i < j {
      var m := |key| - i;
      assert !Matches(ms, key, i);
      ScanFirstMatch(ms, key, i + 1, if m in ms then ms[m].total else lastTotal, j);
    }
  }

  lemma {:induction false} ScanFallback(ms: TableSet, key: string, i: nat, lastTotal: int, l: int)
    requires i <= |key|
    requires forall j :: i <= j ==> !Matches(ms, key, j)
    requires 1 <= l <= |key| - i && l in ms
    requires forall l' :: 1 <= l' < l ==> l' !in ms
    ensures Scan(ms, key, i, lastTotal) == Unseen(ms[l].total)
    decreases |key| - i
  {
    var m := |key| - i;
    assert !Matches(ms, key, i);
    if m > l {
      ScanFallback(ms, key, i + 1, if m in ms then ms[m].total else lastTotal, l);
    } else {
      ScanNoModel(ms, key, i + 1, ms[m].total);
    }
  }

  lemma {:induction false} ScanNoModel(ms: TableSet, key: string, i: nat, lastTotal: int)
    requires i <= |key|
    requires forall l :: 1 <= l <= |key| - i ==> l !in ms
    ensures Scan(ms, key, i, lastTotal) == Unseen(lastTotal)
    decreases |key| - i
  {
    if i < |key| {
      assert |key| - i !in ms;
      ScanNoModel(ms, key, i + 1, lastTotal);
    }
  }

  /** `found` is true exactly when the set is non-empty and some suffix of the
      key is a key of the model of that suffix's size. */
  lemma BackoffFoundIff(ms: TableSet, key: string)
    ensures Backoff(ms, key).Found? <==> ms != map[] && exists j :: Matches(ms, key, j)
  {
    if ms != map[] && key != [] {
      ScanFoundIff(ms, key, 0, 0);
    }
  }

  /** The longest matching suffix wins: when the suffix at `j` matches and no
      longer one does, the estimate is that n-gram's count over its model's
      total. */
  lemma BackoffLongestSuffix(ms: TableSet, key: string, j: nat)
    requires ms != map[]
    requires Matches(ms, key, j)
    requires forall j' :: 0 <= j' < j ==> !Matches(ms, key, j')
    ensures Backoff(ms, key) == Found(ms[|key| - j].counts[key[j..]], ms[|key| - j].total)
  {
    ScanFirstMatch(ms, key, 0, 0, j);
  }

  /** With no matching suffix, the estimate is one count over the total of the
      smallest model visited, the model of size `l`. */
  lemma BackoffFallback(ms: TableSet, key: string, l: int)
    requires ms != map[]
    requires forall j :: !Matches(ms, key, j)
    requires 1 <= l <= |key| && l in ms
    requires forall l' :: 1 <= l' < l ==> l' !in ms
    ensures Backoff(ms, key) == Unseen(ms[l].total)
  {
    ScanFallback(ms, key, 0, 0, l);
  }

  /** With no model of any suffix length the fallback total stays 0. */
  lemma BackoffNoModel(ms: TableSet, key: string)
    requires ms != map[] && key != []
    requires forall l :: 1 <= l <= |key| ==> l !in ms
    ensures Backoff(ms, key) == Unseen(0)
  {
    ScanNoModel(ms, key, 0, 0);
  }

  /** In a set shaped like NewModels(n), an unmatched key falls back to the
      total of the size-1 model. */
  lemma BackoffFallbackContiguous(ms: TableSet, key: string, n: int)
    requires ms.Keys == Initial(n).Keys && n >= 1
    requires key != []
    requires forall j :: !Matches(ms, key, j)
    ensures Backoff(ms, key) == Unseen(ms[1].total)
  {
    assert 1 in Initial(n);
    ScanFallback(ms, key, 0, 0, 1);
  }

  lemma AbabWindows()
    ensures Windows("abab", 2) == ["ab", "ba", "ab"]
  {
    var s := "abab";
    assert s[1..] == "bab" && s[1..][1..] == "ab" && s[..2] == "ab" && s[1..][..2] == "ba";
  }

  /** Training one size-2 model on "abab" sees the windows "ab", "ba", "ab":
      "ab" is counted twice, "ba" once, and the total is 3. */
  lemma AbabTrained()
    ensures Updated(Table(2, map[], 0), "abab") == Table(2, map["ab" := 2, "ba" := 1], 3)
  {
    var ws := ["ab", "ba", "ab"];
    AbabWindows();
    assert Tally(map[], ws[..1]) == map["ab" := 1] by {
      assert ws[..1][..0] == [];
    }
    assert Tally(map[], ws[..2]) == map["ab" := 1, "ba" := 1] by {
      assert ws[..2][..1] == ws[..1];
    }
    assert Tally(map[], ws) == map["ab" := 2, "ba" := 1];
  }

  /** Against that model alone, "ab" is found with 2 out of 3, while "zz"
      finds no match and, with no size-1 model, falls back to the total 3 of
      the size-2 model it visited. */
  lemma AbabEstimates()
    ensures var ms := map[2 := Table(2, map["ab" := 2, "ba" := 1], 3)];
      && Backoff(ms, "ab") == Found(2, 3)
      && Backoff(ms, "zz") == Unseen(3)
  {
    var ms := map[2 := Table(2, map["ab" := 2, "ba" := 1], 3)];
    assert "ab"[0..] == "ab";
    assert "zz"[0..] == "zz" && "zz"[1..] == "z";
    assert Scan(ms, "zz", 0, 0) == Scan(ms, "zz", 1, 3);
  }

  // ---------------------------------------------------------------------------
  // The lookup as the source writes it

  /** The number of bytes of the UTF-8 encoding of `c`. */
  function Utf8Width(c: char): nat {
    if c as int < 0x80 then 1
    else if c as int < 0x800 then 2
    else if c as int < 0x10000 then 3
    else 4
  }

  /** `len` of a Go string: its length in UTF-8 bytes. */
  function Utf8Len(s: string): (n: nat)
    ensures n >= |s|
  {
    if s == [] then 0 else Utf8Width(s[0]) + Utf8Len(s[1..])
  }

  /** The suffix loop as written: the model of a suffix is looked up by the
      suffix's length in bytes, while the tables hold windows of runes. */
  function ScanAsWritten(ms: TableSet, key: string, i: nat, lastTotal: int): (e: Estimate)
    requires i <= |key|
    ensures !e.NegInf?
    decreases |key| - i
  {
    if i == |key| then Unseen(lastTotal)
    else
      var suffix := key[i..];
      if Utf8Len(suffix) in ms then
        var m := ms[Utf8Len(suffix)];
        if suffix in m.counts then Found(m.counts[suffix], m.total)
        else ScanAsWritten(ms, key, i + 1, m.total)
      else ScanAsWritten(ms, key, i + 1, lastTotal)
  }

  /** The source's `LogProb` as written. Its −∞ sentinel, too, comes exactly
      from an empty set or an empty key. */
  function BackoffAsWritten(ms: TableSet, key: string): (e: Estimate)
    ensures e.NegInf? <==> ms == map[] || key == []
  {
    if ms == map[] || Utf8Len(key) == 0 then NegInf else ScanAsWritten(ms, key, 0, 0)
  }

  lemma {:induction false} Utf8LenAscii(s: string)
    requires forall i :: 0 <= i < |s| ==> s[i] as int < 0x80
    ensures Utf8Len(s) == |s|
    decreases |s|
  {
    if s != [] {
      Utf8LenAscii(s[1..]);
    }
  }

  lemma {:induction false} ScanAsWrittenAscii(ms: TableSet, key: string, i: nat, lastTotal: int)
    requires i <= |key|
    requires forall k :: 0 <= k < |key| ==> key[k] as int < 0x80
    ensures ScanAsWritten(ms, key, i, lastTotal) == Scan(ms, key, i, lastTotal)
    decreases |key| - i
  {
    if i < |key| {
      Utf8LenAscii(key[i..]);
      var m := |key| - i;
      ScanAsWrittenAscii(ms, key, i + 1, if m in ms then ms[m].total else lastTotal);
    }
  }

  /** On keys made of ASCII characters the lookup as written and the rune
      lookup agree. */
  lemma AsWrittenAgreesOnAscii(ms: TableSet, key: string)
    requires forall k :: 0 <= k < |key| ==> key[k] as int < 0x80
    ensures BackoffAsWritten(ms, key) == Backoff(ms, key)
  {
    Utf8LenAscii(key);
    if ms != map[] && key != [] {
      ScanAsWrittenAscii(ms, key, 0, 0);
    }
  }

  /** A model of size 1 trained on "é" holds it with count 1, yet the lookup
      as written looks for a model of size 2 (the byte length of "é"), finds
      none and falls back to a total of 0; the rune lookup finds it. */
  lemma AsWrittenMissesMultiByteKey()
    ensures var ms := map[1 := Table(1, map["\U{00E9}" := 1], 1)];
      && BackoffAsWritten(ms, "\U{00E9}") == Unseen(0)
      && Backoff(ms, "\U{00E9}") == Found(1, 1)
  {
    var ms := map[1 := Table(1, map["\U{00E9}" := 1], 1)];
    var key := "\U{00E9}";
    assert key[0..] == key && key[1..] == [];
    assert Utf8Width(key[0]) == 2;
    assert Utf8Len(key) == 2;
    assert ScanAsWritten(ms, key, 0, 0) == ScanAsWritten(ms, key, 1, 0);
    assert Scan(ms, key, 0, 0) == Found(1, 1);
  }
}
