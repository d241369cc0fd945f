/** The value of an n-gram model set: one frequency table per n-gram size,
    how training changes it, and the flat triples it is saved as. The
    imperative code in module Models is specified by these functions. */
module NGramTables {
  import opened Text

  /** One model: the n-gram width, a count per n-gram and the running total.
      Counts only ever receive `+= 1` or a value read back, so they are
      integers here. */
  datatype Table = Table(size: nat, counts: map<string, int>, total: int)

  /** The source's `CharacterNGramModels`, by value: size key to table. */
  type TableSet = map<int, Table>

  /** A map lookup that yields the zero value for a missing key, as Go's does. */
  function Get(counts: map<string, int>, w: string): int {
    if w in counts then counts[w] else 0
  }

  // ---------------------------------------------------------------------------
  // The sum of the counts

  ghost function SumOver(counts: map<string, int>, keys: set<string>): int
    requires keys <= counts.Keys
    decreases keys
  {
    if keys == {} then 0 else var w :| w in keys; counts[w] + SumOver(counts, keys - {w})
  }

  /** The sum of all values of `counts`. */
  ghost function Sum(counts: map<string, int>): int {
    SumOver(counts, counts.Keys)
  }

  /** The invariant of a trained table: the total is the sum of the counts. */
  ghost predicate Consistent(t: Table) {
    t.total == Sum(t.counts)
  }

  lemma {:induction false} SumOverRemove(counts: map<string, int>, keys: set<string>, w: string)
    requires keys <= counts.Keys && w in keys
    ensures SumOver(counts, keys) == counts[w] + SumOver(counts, keys - {w})
    decreases keys
  {
    var v :| v in keys && SumOver(counts, keys) == counts[v] + SumOver(counts, keys - {v});
    if v != w {
      SumOverRemove(counts, keys - {v}, w);
      SumOverRemove(counts, keys - {w}, v);
      assert keys - {v} - {w} == keys - {w} - {v};
    }
  }

  lemma {:induction false} SumOverAgree(a: map<string, int>, b: map<string, int>, keys: set<string>)
    requires keys <= a.Keys && keys <= b.Keys
    requires forall w :: w in keys ==> a[w] == b[w]
    ensures SumOver(a, keys) == SumOver(b, keys)
    decreases keys
  {
    if keys != {} {
      var w :| w in keys;
      SumOverRemove(a, keys, w);
      SumOverRemove(b, keys, w);
      SumOverAgree(a, b, keys - {w});
    }
  }

  /** Setting one count moves the sum by the difference. */
  lemma SumSet(counts: map<string, int>, w: string, v: int)
    ensures Sum(counts[w := v]) == Sum(counts) - Get(counts, w) + v
  {
    var after := counts[w := v];
    SumOverRemove(after, after.Keys, w);
    SumOverAgree(after, counts, after.Keys - {w});
    if w in counts {
      assert after.Keys - {w} == counts.Keys - {w};
      SumOverRemove(counts, counts.Keys, w);
    } else {
      assert after.Keys - {w} == counts.Keys;
    }
  }

  // ---------------------------------------------------------------------------
  // Training

  /** Counts each window once into `counts`, in order. */
  function Tally(counts: map<string, int>, ws: seq<string>): map<string, int>
    decreases |ws|
  {
    if ws == [] then counts
    else
      var before := Tally(counts, ws[..|ws| - 1]);
      var w := ws[|ws| - 1];
      before[w := Get(before, w) + 1]
  }

  /** Every key gains exactly the number of windows equal to it; the keys are
      the old keys plus the windows; the sum grows by the number of windows. */
  lemma {:induction false} TallyCounts(counts: map<string, int>, ws: seq<string>)
    ensures forall w :: Get(Tally(counts, ws), w) == Get(counts, w) + multiset(ws)[w]
    ensures Tally(counts, ws).Keys == counts.Keys + set w | w in ws
    ensures Sum(Tally(counts, ws)) == Sum(counts) + |ws|
    decreases |ws|
  {
    if ws != [] {
      var init, last := ws[..|ws| - 1], ws[|ws| - 1];
      assert ws == init + [last];
      TallyCounts(counts, init);
      SumSet(Tally(counts, init), last, Get(Tally(counts, init), last) + 1);
      assert (set w | w in ws) == (set w | w in init) + {last};
    }
  }

  /** The source's `Update`: counts the windows of width `size` of one line.
      The width is kept and the total grows by the number of windows. */
  function Updated(t: Table, line: string): (r: Table)
    ensures r.size == t.size
    ensures r.total == t.total + (if t.size <= |line| then |line| - t.size + 1 else 0)
  {
    var ws := Windows(line, t.size);
    Table(t.size, Tally(t.counts, ws), t.total + |ws|)
  }

  /** Update adds to each n-gram's count the number of windows equal to it,
      leaves every other count alone, adds the windows to the key set and
      keeps total == sum(counts). */
  lemma UpdatedSpec(t: Table, line: string)
    ensures forall w :: Get(Updated(t, line).counts, w) == Get(t.counts, w) + multiset(Windows(line, t.size))[w]
    ensures Updated(t, line).counts.Keys == t.counts.Keys + set w | w in Windows(line, t.size)
    ensures Consistent(t) ==> Consistent(Updated(t, line))
  {
    TallyCounts(t.counts, Windows(line, t.size));
  }

  /** The table after every line of a corpus, each normalised first. */
  function UpdatedAll(t: Table, lines: seq<string>): (r: Table)
    ensures r.size == t.size
    decreases |lines|
  {
    if lines == [] then t
    else Updated(UpdatedAll(t, lines[..|lines| - 1]), ProcessLine(lines[|lines| - 1]))
  }

  /** The source's `Train` by value: every table sees every line. The size
      keys and every table's width stay as they were. */
  function Trained(ms: TableSet, lines: seq<string>): (r: TableSet)
    ensures r.Keys == ms.Keys
    ensures forall k :: k in ms ==> r[k].size == ms[k].size
  {
    map k | k in ms :: UpdatedAll(ms[k], lines)
  }

  /** Training on one line more is one more update of every table. */
  lemma TrainedPrefix(ms: TableSet, lines: seq<string>, n: nat)
    requires n <= |lines|
    ensures n == 0 ==> Trained(ms, lines[..n]) == ms
    ensures n > 0 ==> (Trained(ms, lines[..n]) ==
      map k | k in ms :: Updated(Trained(ms, lines[..n - 1])[k], ProcessLine(lines[n - 1])))
  {
    if n == 0 {
      assert lines[..0] == [];
      assert forall k :: k in ms ==> UpdatedAll(ms[k], lines[..0]) == ms[k];
    } else {
      assert lines[..n][..n - 1] == lines[..n - 1];
      assert forall k :: k in ms ==>
        UpdatedAll(ms[k], lines[..n]) == Updated(UpdatedAll(ms[k], lines[..n - 1]), ProcessLine(lines[n - 1]));
    }
  }

  /** Training is purely additive: two corpora one after the other train the
      same tables as their concatenation. */
  lemma {:induction false} UpdatedAllAppend(t: Table, a: seq<string>, b: seq<string>)
    ensures UpdatedAll(t, a + b) == UpdatedAll(UpdatedAll(t, a), b)
    decreases |b|
  {
    if b == [] {
      assert a + b == a;
    } else {
      assert (a + b)[..|a + b| - 1] == a + b[..|b| - 1];
      UpdatedAllAppend(t, a, b[..|b| - 1]);
    }
  }

  lemma {:induction false} UpdatedAllConsistent(t: Table, lines: seq<string>)
    requires Consistent(t)
    ensures Consistent(UpdatedAll(t, lines))
    decreases |lines|
  {
    if lines != [] {
      UpdatedAllConsistent(t, lines[..|lines| - 1]);
      UpdatedSpec(UpdatedAll(t, lines[..|lines| - 1]), ProcessLine(lines[|lines| - 1]));
    }
  }

  /** Training keeps total == sum(counts) in every table. */
  lemma TrainedConsistent(ms: TableSet, lines: seq<string>)
    requires forall k :: k in ms ==> Consistent(ms[k])
    ensures forall k :: k in ms ==> Consistent(Trained(ms, lines)[k])
  {
    forall k | k in ms
      ensures Consistent(Trained(ms, lines)[k])
    {
      UpdatedAllConsistent(ms[k], lines);
    }
  }

  // ---------------------------------------------------------------------------
  // Construction and the largest size

  /** The source's `NewModels(n)` by value: empty tables of sizes 1 to n,
      each of its own key's width and consistent. */
  function Initial(n: int): (r: TableSet)
    ensures forall k :: k in r <==> 1 <= k <= n
    ensures forall k :: k in r ==> r[k].size == k && r[k].total == 0 && Consistent(r[k])
  {
    map k | 1 <= k <= n :: Table(k, map[], 0)
  }

  /** The largest key of a set, or 0 when there is no positive one. */
  ghost function MaxKey(keys: set<int>): (r: nat)
    ensures forall k :: k in keys ==> k <= r
    ensures r == 0 || r in keys
    decreases keys
  {
    if keys == {} then 0
    else
      SomeKey(keys);
      var k :| k in keys;
      var rest := MaxKey(keys - {k});
      assert forall j :: j in keys ==> j == k || j in keys - {k};
      if k > rest then k else rest
  }

  /** A non-empty set of sizes has an element to pick. */
  lemma SomeKey(keys: set<int>)
    ensures keys == {} || exists k :: k in keys
  {
    if forall k: int :: k !in keys {
      assert keys == {};
    }
  }

  /** The largest size of NewModels(n) is n (0 when n < 1), so NgramSize
      of a freshly built set is the size it was built with. */
  lemma InitialShape(n: int)
    ensures MaxKey(Initial(n).Keys) == if n >= 1 then n else 0
  {
    var r := MaxKey(Initial(n).Keys);
    if n >= 1 {
      assert n in Initial(n);
    }
  }

  // ---------------------------------------------------------------------------
  // Serialisation

  /** One line of the model file: size, n-gram, count. */
  datatype Triple = Triple(size: int, ngram: string, count: int)

  /** What `Dump` writes: one triple per size key and n-gram of that table,
      carrying that n-gram's count. No two name the same size and n-gram, so
      the dump holds one count per n-gram of each model. */
  function DumpSet(ms: TableSet): (r: set<Triple>)
    ensures forall a, b :: a in r && b in r && a.size == b.size && a.ngram == b.ngram ==> a == b
  {
    set k, w | k in ms && w in ms[k].counts :: Triple(k, w, ms[k].counts[w])
  }

  /** No two triples name the same (size, n-gram) pair. */
  predicate NoRepeatedKey(ts: seq<Triple>) {
    forall i, j :: 0 <= i < j < |ts| ==> ts[i].size != ts[j].size || ts[i].ngram != ts[j].ngram
  }

  /** How `Read` handles one triple: a known size overwrites the count and adds
      it to the total; an unknown size is dropped. The size keys stay, and every
      table of another size is left alone. */
  function ReadOne(ms: TableSet, t: Triple): (r: TableSet)
    ensures r.Keys == ms.Keys
    ensures forall k :: k in ms && k != t.size ==> r[k] == ms[k]
    ensures t.size !in ms ==> r == ms
  {
    if t.size in ms then
      var m := ms[t.size];
      ms[t.size := Table(m.size, m.counts[t.ngram := t.count], m.total + t.count)]
    else ms
  }

  /** `Read` of a sequence of triples, in order. */
  function ReadTriples(ms: TableSet, ts: seq<Triple>): TableSet
    decreases |ts|
  {
    if ts == [] then ms else ReadOne(ReadTriples(ms, ts[..|ts| - 1]), ts[|ts| - 1])
  }

  /** A triple of a known size keeps the table's width, overwrites the
      n-gram's count, adds the count to the total and leaves every other count
      alone; an n-gram already present makes the total drift from the sum of
      the counts by its old count, and a new one keeps the gap. */
  lemma ReadOneSpec(ms: TableSet, t: Triple)
    ensures t.size in ms ==>
      var before, after := ms[t.size], ReadOne(ms, t)[t.size];
      && after.size == before.size
      && after.counts[t.ngram] == t.count
      && after.counts.Keys == before.counts.Keys + {t.ngram}
      && (forall w :: w != t.ngram ==> Get(after.counts, w) == Get(before.counts, w))
      && after.total == before.total + t.count
      && after.total - Sum(after.counts) == before.total - Sum(before.counts) + Get(before.counts, t.ngram)
  {
    if t.size in ms {
      SumSet(ms[t.size].counts, t.ngram, t.count);
    }
  }

  /** The counts that the triples of size `k` assign, the last one winning. */
  function CountsOf(ts: seq<Triple>, k: int): map<string, int>
    decreases |ts|
  {
    if ts == [] then map[]
    else
      var before, t := CountsOf(ts[..|ts| - 1], k), ts[|ts| - 1];
      if t.size == k then before[t.ngram := t.count] else before
  }

  lemma {:induction false} CountsOfKeys(ts: seq<Triple>, k: int)
    ensures forall w :: w in CountsOf(ts, k) <==> exists i :: 0 <= i < |ts| && ts[i].size == k && ts[i].ngram == w
    ensures NoRepeatedKey(ts) ==>
      forall i :: 0 <= i < |ts| && ts[i].size == k ==> CountsOf(ts, k)[ts[i].ngram] == ts[i].count
    decreases |ts|
  {
    if ts != [] {
      var init := ts[..|ts| - 1];
      CountsOfKeys(init, k);
      assert forall i :: 0 <= i < |init| ==> init[i] == ts[i];
    }
  }

  /** Reading distinct triples into tables that start empty leaves in table k
      exactly the counts of the triples of size k, and their sum as total. */
  lemma {:induction false} ReadIntoEmpty(ms: TableSet, ts: seq<Triple>, k: int)
    requires k in ms && ms[k].counts == map[] && ms[k].total == 0
    requires NoRepeatedKey(ts)
    ensures k in ReadTriples(ms, ts)
    ensures ReadTriples(ms, ts)[k] == Table(ms[k].size, CountsOf(ts, k), Sum(CountsOf(ts, k)))
    decreases |ts|
  {
    ReadTriplesKeys(ms, ts);
    if ts != [] {
      var init, t := ts[..|ts| - 1], ts[|ts| - 1];
      assert NoRepeatedKey(init);
      ReadIntoEmpty(ms, init, k);
      ReadTriplesKeys(ms, init);
      if t.size == k {
        CountsOfKeys(init, k);
        assert t.ngram !in CountsOf(init, k);
        SumSet(CountsOf(init, k), t.ngram, t.count);
      }
    }
  }

  /** Reading keeps the size keys and every table's width, and leaves alone
      a table that no triple names. */
  lemma {:induction false} ReadTriplesKeys(ms: TableSet, ts: seq<Triple>)
    ensures ReadTriples(ms, ts).Keys == ms.Keys
    ensures forall k :: k in ms ==> ReadTriples(ms, ts)[k].size == ms[k].size
    ensures forall k :: k in ms && (forall i :: 0 <= i < |ts| ==> ts[i].size != k) ==> ReadTriples(ms, ts)[k] == ms[k]
    decreases |ts|
  {
    if ts != [] {
      ReadTriplesKeys(ms, ts[..|ts| - 1]);
    }
  }

  /** Table `k` after reading the dump back holds exactly the counts of the
      source table `k`. */
  lemma {:induction false} DumpReadTable(src: TableSet, ts: seq<Triple>, n: int, k: int)
    requires k in src && 1 <= k <= n
    requires forall t :: t in ts <==> t in DumpSet(src)
    requires NoRepeatedKey(ts)
    ensures k in ReadTriples(Initial(n), ts)
    ensures ReadTriples(Initial(n), ts)[k] == Table(k, src[k].counts, Sum(src[k].counts))
  {
    ReadIntoEmpty(Initial(n), ts, k);
    CountsOfKeys(ts, k);
    var counts := CountsOf(ts, k);
    forall w ensures w in counts <==> w in src[k].counts {
      if w in src[k].counts {
        assert Triple(k, w, src[k].counts[w]) in DumpSet(src);
      }
      if w in counts {
        var i :| 0 <= i < |ts| && ts[i].size == k && ts[i].ngram == w;
        assert ts[i] in DumpSet(src);
      }
    }
    forall w | w in counts ensures counts[w] == src[k].counts[w] {
      var i :| 0 <= i < |ts| && ts[i].size == k && ts[i].ngram == w;
      assert ts[i] in DumpSet(src);
    }
    assert counts == src[k].counts;
  }

  /** Dump then Read: reading the dumped triples of a consistent table set,
      each (size, n-gram) once and in any order, into freshly constructed
      tables of the same sizes reproduces every count and every total. */
  lemma DumpReadRoundTrip(src: TableSet, ts: seq<Triple>, n: int)
    requires src.Keys == Initial(n).Keys
    requires forall k :: k in src ==> src[k].size == k && Consistent(src[k])
    requires forall t :: t in ts <==> t in DumpSet(src)
    requires NoRepeatedKey(ts)
    ensures ReadTriples(Initial(n), ts) == src
  {
    var got := ReadTriples(Initial(n), ts);
    ReadTriplesKeys(Initial(n), ts);
    forall k | k in src ensures got[k] == src[k] {
      DumpReadTable(src, ts, n, k);
    }
  }

  /** The model file a training run writes, read back into NewModels(n),
      gives exactly the tables that training built. */
  lemma TrainedDumpReadBack(n: int, corpus: seq<string>, ts: seq<Triple>)
    requires forall t :: t in ts <==> t in DumpSet(Trained(Initial(n), corpus))
    requires NoRepeatedKey(ts)
    ensures ReadTriples(Initial(n), ts) == Trained(Initial(n), corpus)
  {
    TrainedConsistent(Initial(n), corpus);
    DumpReadRoundTrip(Trained(Initial(n), corpus), ts, n);
  }

  /** Reading the same n-gram twice overwrites its count but adds both values
      to the total, so total == sum(counts) no longer holds. */
  lemma RepeatedReadBreaksConsistency()
    ensures var ms := ReadTriples(Initial(1), [Triple(1, "a", 2), Triple(1, "a", 2)]);
      ms == map[1 := Table(1, map["a" := 2], 4)] && !Consistent(ms[1])
  {
    var ts := [Triple(1, "a", 2), Triple(1, "a", 2)];
    assert ts[..1][..0] == [] && ts[..|ts| - 1] == ts[..1];
    assert Initial(1) == map[1 := Table(1, map[], 0)];
    assert ReadTriples(Initial(1), ts[..1]) == map[1 := Table(1, map["a" := 2], 2)];
    assert map["a" := 2]["a" := 2] == map["a" := 2];
    assert ReadTriples(Initial(1), ts) == ReadOne(map[1 := Table(1, map["a" := 2], 2)], ts[1]);
    SumSet(map[], "a", 2);
    assert Sum(map[]) == 0;
    assert map[]["a" := 2] == map["a" := 2];
  }
}
