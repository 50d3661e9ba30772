/** `summarizeAttributes`: for each trait key, a frequency table of its observed values
    (keys in first-occurrence order, as a JavaScript object keeps them) and the primary
    value chosen from that table by the same reduce as the main result. */
module Summary {
  import opened QuizTypes
  import opened Reduce

  /** The index of the first entry for `v`, or `|fs|` when there is none. */
  function IndexOf(fs: seq<(string, nat)>, v: string): (i: nat)
    ensures i <= |fs|
    ensures i < |fs| ==> fs[i].0 == v
    ensures forall j | 0 <= j < i :: fs[j].0 != v
  {
    if fs == [] then 0
    else if fs[0].0 == v then 0
    else 1 + IndexOf(fs[1..], v)
  }

  /** `freq[val] = (freq[val] || 0) + 1`: count an existing key, or add a new key at the end. */
  function Bump(fs: seq<(string, nat)>, v: string): seq<(string, nat)> {
    var i := IndexOf(fs, v);
    if i < |fs| then fs[i := (v, fs[i].1 + 1)] else fs + [(v, 1)]
  }

  /** `values.reduce((freq, val) => ..., {})` as the object's entries. */
  function Frequencies(values: seq<string>): seq<(string, nat)> {
    if values == [] then []
    else Bump(Frequencies(values[..|values| - 1]), values[|values| - 1])
  }

  /** The position of the first occurrence of `v` in `s`. */
  function FirstIndex(s: seq<string>, v: string): (i: nat)
    requires v in s
    ensures i < |s| && s[i] == v
    ensures forall j | 0 <= j < i :: s[j] != v
  {
    if s[0] == v then 0 else 1 + FirstIndex(s[1..], v)
  }

  function SumCounts(fs: seq<(string, nat)>): nat {
    if fs == [] then 0 else fs[0].1 + SumCounts(fs[1..])
  }

  /** The entry keys are distinct. */
  predicate DistinctKeys(fs: seq<(string, nat)>) {
    forall i, j | 0 <= i < j < |fs| :: fs[i].0 != fs[j].0
  }

  /** Every entry's key occurs in `values`, and its count is how often it occurs. */
  predicate CountsOccurrences(values: seq<string>, fs: seq<(string, nat)>) {
    forall i | 0 <= i < |fs| :: fs[i].0 in values && fs[i].1 == multiset(values)[fs[i].0]
  }

  /** Every value that occurs has an entry. */
  predicate CoversValues(values: seq<string>, fs: seq<(string, nat)>) {
    forall v | v in values :: IndexOf(fs, v) < |fs|
  }

  predicate KeysIn(values: seq<string>, fs: seq<(string, nat)>) {
    forall i | 0 <= i < |fs| :: fs[i].0 in values
  }

  /** Entries are in the order in which their keys first occur. */
  predicate FirstOccurrenceOrder(values: seq<string>, fs: seq<(string, nat)>)
    requires KeysIn(values, fs)
  {
    forall i, j | 0 <= i < j < |fs| :: FirstIndex(values, fs[i].0) < FirstIndex(values, fs[j].0)
  }

  /** What the frequency table of `values` is: distinct keys; exactly the values that occur;
      each counted as often as it occurs; keys in order of first occurrence. */
  predicate FrequencyTable(values: seq<string>, fs: seq<(string, nat)>) {
    && DistinctKeys(fs)
    && CountsOccurrences(values, fs)
    && CoversValues(values, fs)
    && FirstOccurrenceOrder(values, fs)
  }

  lemma FirstIndexPrefix(s: seq<string>, t: seq<string>, v: string)
    requires v in s
    ensures FirstIndex(s + t, v) == FirstIndex(s, v)
  {
    var k := FirstIndex(s, v);
    assert (s + t)[k] == v;
    assert forall j | 0 <= j < |s| :: (s + t)[j] == s[j];
  }

  lemma FirstIndexOfNew(s: seq<string>, v: string)
    requires v !in s
    ensures FirstIndex(s + [v], v) == |s|
  {
    assert forall j | 0 <= j < |s| :: (s + [v])[j] == s[j];
  }

  /** The frequency table `values.reduce` builds is exactly the table described above. */
  lemma {:induction false} FrequenciesAreTable(values: seq<string>)
    ensures FrequencyTable(values, Frequencies(values))
  {
    if values != [] {
      var init, x := values[..|values| - 1], values[|values| - 1];
      assert values == init + [x];
      FrequenciesAreTable(init);
      var fs := Frequencies(init);
      var i := IndexOf(fs, x);
      if i < |fs| {
        var fs' := fs[i := (x, fs[i].1 + 1)];
        assert Frequencies(values) == fs';
        BumpKnownCounts(init, x, fs, i);
        BumpKnownCovers(init, x, fs, i);
        BumpKnownOrder(init, x, fs, i);
      } else {
        var fs' := fs + [(x, 1)];
        assert Frequencies(values) == fs';
        assert x !in init;
        BumpNewCounts(init, x, fs);
        BumpNewCovers(init, x, fs);
        BumpNewOrder(init, x, fs);
      }
    }
  }

  lemma BumpKnownCounts(init: seq<string>, x: string, fs: seq<(string, nat)>, i: nat)
    requires CountsOccurrences(init, fs) && i < |fs| && fs[i].0 == x
    requires forall j | 0 <= j < |fs| && j != i :: fs[j].0 != x
    ensures CountsOccurrences(init + [x], fs[i := (x, fs[i].1 + 1)])
    ensures DistinctKeys(fs) ==> DistinctKeys(fs[i := (x, fs[i].1 + 1)])
  {
    var fs' := fs[i := (x, fs[i].1 + 1)];
    assert multiset(init + [x]) == multiset(init) + multiset{x};
    assert forall j | 0 <= j < |fs| :: fs'[j].0 == fs[j].0;
  }

  lemma BumpKnownCovers(init: seq<string>, x: string, fs: seq<(string, nat)>, i: nat)
    requires CoversValues(init, fs) && i < |fs| && fs[i].0 == x
    ensures CoversValues(init + [x], fs[i := (x, fs[i].1 + 1)])
  {
    var fs' := fs[i := (x, fs[i].1 + 1)];
    forall v | v in init + [x] ensures IndexOf(fs', v) < |fs'| {
      var j := if v == x then i else IndexOf(fs, v);
      assert fs'[j].0 == v;
    }
  }

  lemma BumpKnownOrder(init: seq<string>, x: string, fs: seq<(string, nat)>, i: nat)
    requires KeysIn(init, fs)
    requires FirstOccurrenceOrder(init, fs) && i < |fs| && fs[i].0 == x
    ensures KeysIn(init + [x], fs[i := (x, fs[i].1 + 1)])
    ensures FirstOccurrenceOrder(init + [x], fs[i := (x, fs[i].1 + 1)])
  {
    var fs' := fs[i := (x, fs[i].1 + 1)];
    assert forall j | 0 <= j < |fs| :: fs'[j].0 == fs[j].0;
    forall j | 0 <= j < |fs| ensures FirstIndex(init + [x], fs'[j].0) == FirstIndex(init, fs[j].0) {
      FirstIndexPrefix(init, [x], fs[j].0);
    }
  }

  lemma BumpNewCounts(init: seq<string>, x: string, fs: seq<(string, nat)>)
    requires CountsOccurrences(init, fs) && x !in init
    ensures CountsOccurrences(init + [x], fs + [(x, 1)])
    ensures DistinctKeys(fs) ==> DistinctKeys(fs + [(x, 1)])
  {
    var fs' := fs + [(x, 1)];
    assert multiset(init + [x]) == multiset(init) + multiset{x};
    assert forall j | 0 <= j < |fs| :: fs'[j] == fs[j];
  }

  lemma BumpNewCovers(init: seq<string>, x: string, fs: seq<(string, nat)>)
    requires CoversValues(init, fs) && IndexOf(fs, x) == |fs|
    ensures CoversValues(init + [x], fs + [(x, 1)])
  {
    var fs' := fs + [(x, 1)];
    forall v | v in init + [x] ensures IndexOf(fs', v) < |fs'| {
      var j := if v == x then |fs| else IndexOf(fs, v);
      assert fs'[j].0 == v;
    }
  }

  lemma BumpNewOrder(init: seq<string>, x: string, fs: seq<(string, nat)>)
    requires KeysIn(init, fs)
    requires FirstOccurrenceOrder(init, fs) && x !in init
    ensures KeysIn(init + [x], fs + [(x, 1)])
    ensures FirstOccurrenceOrder(init + [x], fs + [(x, 1)])
  {
    var fs' := fs + [(x, 1)];
    assert forall j | 0 <= j < |fs| :: fs'[j] == fs[j];
    FirstIndexOfNew(init, x);
    forall j | 0 <= j < |fs| ensures FirstIndex(init + [x], fs'[j].0) == FirstIndex(init, fs[j].0) < |init| {
      FirstIndexPrefix(init, [x], fs[j].0);
    }
  }

  lemma SumCountsUpdate(fs: seq<(string, nat)>, i: nat, v: string)
    requires i < |fs|
    ensures SumCounts(fs[i := (v, fs[i].1 + 1)]) == SumCounts(fs) + 1
  {
    if i > 0 {
      assert fs[i := (v, fs[i].1 + 1)][1..] == fs[1..][i - 1 := (v, fs[i].1 + 1)];
      SumCountsUpdate(fs[1..], i - 1, v);
    } else {
      assert fs[i := (v, fs[i].1 + 1)][1..] == fs[1..];
    }
  }

  lemma SumCountsAppend(fs: seq<(string, nat)>, e: (string, nat))
    ensures SumCounts(fs + [e]) == SumCounts(fs) + e.1
  {
    if fs != [] {
      assert (fs + [e])[1..] == fs[1..] + [e];
      SumCountsAppend(fs[1..], e);
    }
  }

  /** The frequencies add up to the number of observed values. */
  lemma {:induction false} FrequenciesSumToLength(values: seq<string>)
    ensures SumCounts(Frequencies(values)) == |values|
  {
    if values != [] {
      var init, x := values[..|values| - 1], values[|values| - 1];
      FrequenciesSumToLength(init);
      var fs := Frequencies(init);
      var i := IndexOf(fs, x);
      if i < |fs| {
        SumCountsUpdate(fs, i, x);
      } else {
        SumCountsAppend(fs, (x, 1));
      }
    }
  }

  function Frequency(e: (string, nat)): real {
    e.1 as real
  }

  /** The summary of one key's values: the primary value and the frequency table. */
  function Summarize(values: seq<string>): AttributeSummary
    requires values != []
  {
    var fs := Frequencies(values);
    FrequenciesAreTable(values);
    assert IndexOf(fs, values[0]) < |fs|;
    AttributeSummary(ReduceBest(fs, Frequency).0, fs)
  }

  /** The primary value is a mode of the observed values, and among values that tie at the
      maximal frequency it is the one whose first occurrence comes LAST (the reduce keeps
      the later entry on a tie, and entries are in first-occurrence order). */
  lemma PrimaryIsLatestMode(values: seq<string>)
    requires values != []
    ensures Summarize(values).primary in values
    ensures forall v | v in values :: multiset(values)[v] <= multiset(values)[Summarize(values).primary]
    ensures forall v | v in values && v != Summarize(values).primary &&
      multiset(values)[v] == multiset(values)[Summarize(values).primary] ::
        FirstIndex(values, v) < FirstIndex(values, Summarize(values).primary)
  {
    var fs := Frequencies(values);
    FrequenciesAreTable(values);
    assert IndexOf(fs, values[0]) < |fs|;
    var f := Frequency;
    var k := ReduceBestIsLastMaximum(fs, f);
    var p := fs[k].0;
    assert Summarize(values).primary == p;
    forall v | v in values
      ensures multiset(values)[v] <= multiset(values)[p]
      ensures v != p && multiset(values)[v] == multiset(values)[p] ==> FirstIndex(values, v) < FirstIndex(values, p)
    {
      var i := IndexOf(fs, v);
      assert f(fs[i]) <= f(fs[k]);
      if v != p && multiset(values)[v] == multiset(values)[p] {
        assert i != k;
        assert f(fs[i]) == f(fs[k]);
      }
    }
  }

  /** `summarizeAttributes`: every key's list is summarised. */
  function SummarizeAttributes(attrs: map<string, seq<string>>): (r: map<string, AttributeSummary>)
    requires forall k | k in attrs :: attrs[k] != []
    ensures r.Keys == attrs.Keys
  {
    map k | k in attrs :: Summarize(attrs[k])
  }
}
