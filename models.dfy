/** The n-gram models as the source keeps them: each model an object whose
    counts and total are updated in place, and the model set a map from size
    to model. Every operation is specified by the value-level functions of
    NGramTables, Estimator and Scoring. */
module Models {
  import opened Text
  import opened NGramTables
  import opened Estimator
  import opened Scoring

  /** One n-gram model of a fixed width. */
  class CharacterNGramModel {
    var size: nat
    var counts: map<string, int>
    var total: int

    /** The model's current value. */
    function Value(): Table
      reads this
    {
      Table(size, counts, total)
    }

    constructor (size: nat)
      ensures Value() == Table(size, map[], 0)
    {
      this.size := size;
      counts := map[];
      total := 0;
    }

    /** Counts every window of width `size` of `line`, one at a time. */
    method Update(line: string)
      modifies this
      ensures Value() == Updated(old(Value()), line)
    {
      var windows := Sliding(line, size);
      var i := 0;
      while i < |windows|
        invariant 0 <= i <= |windows|
        invariant size == old(size)
        invariant counts == Tally(old(counts), windows[..i])
        invariant total == old(total) + i
      {
        var key := windows[i];
        counts := counts[key := Get(counts, key) + 1];
        total := total + 1;
        assert windows[..i + 1][..i] == windows[..i];
        i := i + 1;
      }
      assert windows[..i] == windows;
      assert Value() == Table(old(size), Tally(old(counts), windows), old(total) + |windows|);
    }
  }

  /** The source's `CharacterNGramModels`: size key to model. */
  type CharacterNGramModels = map<int, CharacterNGramModel>

  /** No two sizes share a model object, as NewModels guarantees. */
  ghost predicate Distinct(models: CharacterNGramModels) {
    forall i, j :: i in models && j in models && i != j ==> models[i] != models[j]
  }

  /** The value of the whole model set. */
  ghost function Abs(models: CharacterNGramModels): (ms: TableSet)
    reads models.Values
    ensures ms.Keys == models.Keys
  {
    map k | k in models :: models[k].Value()
  }

  /** Builds empty models of sizes 1 to `ngramSize`. */
  method NewModels(ngramSize: int) returns (models: CharacterNGramModels)
    ensures fresh(models.Values)
    ensures Distinct(models)
    ensures Abs(models) == Initial(ngramSize)
  {
    models := map[];
    var key := 1;
    while key <= ngramSize
      invariant ngramSize < 1 ==> key == 1
      invariant 1 <= key && (ngramSize >= 1 ==> key <= ngramSize + 1)
      invariant Distinct(models)
      invariant forall k :: k in models ==> fresh(models[k])
      invariant forall k :: k in models <==> 1 <= k < key
      invariant forall k :: k in models ==> models[k].Value() == Table(k, map[], 0)
    {
      var model := new CharacterNGramModel(key);
      models := models[key := model];
      key := key + 1;
    }
    assert Abs(models) == Initial(ngramSize);
    assert forall o :: o in models.Values ==> exists k :: k in models && models[k] == o;
  }

  /** The largest size key, or 0 when there is none. */
  method NgramSize(models: CharacterNGramModels) returns (ngramSize: nat)
    ensures forall k :: k in models ==> k <= ngramSize
    ensures ngramSize == 0 || ngramSize in models
    ensures ngramSize == MaxKey(models.Keys)
  {
    ngramSize := 0;
    var pending := models.Keys;
    while pending != {}
      invariant pending <= models.Keys
      invariant forall k :: k in models && k !in pending ==> k <= ngramSize
      invariant ngramSize == 0 || ngramSize in models
      decreases pending
    {
      SomeKey(pending);
      var sz :| sz in pending;
      if sz > ngramSize {
        ngramSize := sz;
      }
      pending := pending - {sz};
    }
    var max := MaxKey(models.Keys);
    assert max <= ngramSize && ngramSize <= max;
  }

  /** The inner loop of `Train`: one normalised line to every model. */
  method UpdateEach(models: CharacterNGramModels, text: string)
    requires Distinct(models)
    modifies models.Values
    ensures Abs(models) == map k | k in old(Abs(models)) :: Updated(old(Abs(models))[k], text)
  {
    ghost var before := Abs(models);
    var pending := models.Keys;
    while pending != {}
      invariant pending <= models.Keys
      invariant forall k :: k in models ==>
        models[k].Value() == if k in pending then before[k] else Updated(before[k], text)
      decreases pending
    {
      SomeKey(pending);
      var k :| k in pending;
      var model := models[k];
      model.Update(text);
      assert forall j :: j in models && j != k ==> models[j] != model;
      pending := pending - {k};
    }
    assert forall k :: k in models ==> models[k].Value() == Updated(before[k], text);
  }

  /** Feeds every line, normalised, to every model; returns the number of
      lines read, or 0 without reading when there are no models. */
  method Train(models: CharacterNGramModels, lines: seq<string>) returns (exampleCount: nat)
    requires Distinct(models)
    modifies models.Values
    ensures Abs(models) == Trained(old(Abs(models)), lines)
    ensures exampleCount == if |models| == 0 then 0 else |lines|
  {
    exampleCount := 0;
    if |models| == 0 {
      assert models.Keys == {};
      return;
    }
    ghost var start := Abs(models);
    TrainedPrefix(start, lines, 0);
    var n := 0;
    while n < |lines|
      invariant 0 <= n <= |lines| && exampleCount == n
      invariant Abs(models) == Trained(start, lines[..n])
    {
      var text := ProcessLine(lines[n]);
      exampleCount := exampleCount + 1;
      UpdateEach(models, text);
      TrainedPrefix(start, lines, n + 1);
      n := n + 1;
    }
    assert lines[..n] == lines;
  }

  /** The estimate of `key`: the suffix loop with its early return. */
  method LogProb(models: CharacterNGramModels, key: string) returns (e: Estimate)
    ensures e == Backoff(Abs(models), key)
  {
    if |models| == 0 || |key| == 0 {
      if |models| == 0 {
        assert models.Keys == {};
        assert Abs(models) == map[];
      }
      return NegInf;
    }
    var lastTotal := 0;
    var i := 0;
    while i < |key|
      invariant 0 <= i <= |key|
      invariant Scan(Abs(models), key, i, lastTotal) == Backoff(Abs(models), key)
    {
      var suffix := key[i..];
      if |suffix| in models {
        var model := models[|suffix|];
        if suffix in model.counts {
          return Found(model.counts[suffix], model.total);
        }
        lastTotal := model.total;
      }
      i := i + 1;
    }
    return Unseen(lastTotal);
  }

  /** Lists every (size, n-gram, count) triple once, in no particular order. */
  method Dump(models: CharacterNGramModels) returns (triples: seq<Triple>)
    ensures forall t :: t in triples <==> t in DumpSet(Abs(models))
    ensures NoRepeatedKey(triples)
  {
    triples := [];
    var sizes := models.Keys;
    while sizes != {}
      invariant sizes <= models.Keys
      invariant forall t :: t in triples <==> t in DumpSet(Abs(models)) && t.size !in sizes
      invariant NoRepeatedKey(triples)
      decreases sizes
    {
      SomeKey(sizes);
      var sz :| sz in sizes;
      var model := models[sz];
      var keys := model.counts.Keys;
      while keys != {}
        invariant keys <= model.counts.Keys
        invariant forall t :: t in triples <==>
          t in DumpSet(Abs(models)) && (t.size !in sizes || (t.size == sz && t.ngram !in keys))
        invariant NoRepeatedKey(triples)
        decreases keys
      {
        var key :| key in keys;
        var t := Triple(sz, key, model.counts[key]);
        assert t in DumpSet(Abs(models));
        triples := triples + [t];
        keys := keys - {key};
      }
      sizes := sizes - {sz};
    }
  }

  /** One model-file line: a known size overwrites the count and adds it to
      the total, an unknown size is dropped. */
  method ReadTriple(models: CharacterNGramModels, t: Triple)
    requires Distinct(models)
    modifies models.Values
    ensures Abs(models) == ReadOne(old(Abs(models)), t)
  {
    if t.size in models {
      var model := models[t.size];
      model.total := model.total + t.count;
      model.counts := model.counts[t.ngram := t.count];
      assert forall k :: k in models && k != t.size ==> models[k] != model;
      assert forall k :: k in models && k != t.size ==> models[k].Value() == old(models[k].Value());
    }
  }

  /** Loads triples, in order, into an already built model set. */
  method Read(models: CharacterNGramModels, triples: seq<Triple>)
    requires Distinct(models)
    modifies models.Values
    ensures Abs(models) == ReadTriples(old(Abs(models)), triples)
  {
    var i := 0;
    while i < |triples|
      invariant 0 <= i <= |triples|
      invariant Abs(models) == ReadTriples(old(Abs(models)), triples[..i])
    {
      ReadTriple(models, triples[i]);
      assert triples[..i + 1][..i] == triples[..i];
      i := i + 1;
    }
    assert triples[..i] == triples;
  }

  /** The estimates of every window, one `LogProb` each. */
  method LogProbs(models: CharacterNGramModels, keys: seq<string>) returns (estimates: seq<Estimate>)
    ensures |estimates| == |keys|
    ensures forall m :: 0 <= m < |keys| ==> estimates[m] == Backoff(Abs(models), keys[m])
  {
    estimates := [];
    for j := 0 to |keys|
      invariant |estimates| == j
      invariant forall m :: 0 <= m < j ==> estimates[m] == Backoff(Abs(models), keys[m])
    {
      var lp := LogProb(models, keys[j]);
      estimates := estimates + [lp];
    }
  }

  /** Scores one line: the normalised text, and either the degenerate result
      or the estimate of each window of the largest size. */
  method PredictLine(models: CharacterNGramModels, line: string) returns (score: LineScore)
    ensures score == ScoreLine(Abs(models), line)
  {
    var text := ProcessLine(line);
    var size := NgramSize(models);
    var keys := Sliding(text, size);
    if |keys| == 0 {
      score := Degenerate(text);
    } else {
      var estimates := LogProbs(models, keys);
      score := Scored(estimates, text);
    }
  }

  /** Scores every line, in order. */
  method Predict(models: CharacterNGramModels, lines: seq<string>) returns (scores: seq<LineScore>)
    ensures |scores| == |lines|
    ensures forall n :: 0 <= n < |lines| ==> scores[n] == ScoreLine(Abs(models), lines[n])
  {
    scores := [];
    for n := 0 to |lines|
      invariant |scores| == n
      invariant forall j :: 0 <= j < n ==> scores[j] == ScoreLine(Abs(models), lines[j])
    {
      var score := PredictLine(models, lines[n]);
      scores := scores + [score];
    }
  }

  /** The training run of the program: build models of sizes 1 to `n`, train
      them on the corpus and dump them. */
  method TrainRun(n: int, corpus: seq<string>) returns (triples: seq<Triple>)
    ensures forall t :: t in triples <==> t in DumpSet(Trained(Initial(n), corpus))
    ensures NoRepeatedKey(triples)
  {
    var models := NewModels(n);
    var _ := Train(models, corpus);
    triples := Dump(models);
  }

  /** The prediction run of the program: build models of sizes 1 to `n`,
      read the model file into them and score every input line. */
  method PredictRun(n: int, modelFile: seq<Triple>, lines: seq<string>) returns (scores: seq<LineScore>)
    ensures |scores| == |lines|
    ensures forall i :: 0 <= i < |lines| ==> scores[i] == ScoreLine(ReadTriples(Initial(n), modelFile), lines[i])
  {
    var models := NewModels(n);
    Read(models, modelFile);
    scores := Predict(models, lines);
  }
}
