/** The three statistics `main` prints from the frequency table. */
module Summary {
  import opened Wrappers

  /** The printed values: `max(frequency)`, `min(frequency)` and the most common length. */
  datatype Report = Report(longest: nat, shortest: nat, mostCommon: nat)

  /** `max()` and `min()` raise `ValueError` on an empty table, as for an empty file. */
  datatype SummaryError = EmptyTable

  /** `max` over the keys: a key no other key exceeds. */
  ghost function LargestKey(keys: set<nat>): (m: nat)
    requires keys != {}
    ensures m in keys && forall k :: k in keys ==> k <= m
    decreases keys
  {
    var x :| x in keys;
    if keys == {x} then x
    else
      var rest := LargestKey(keys - {x});
      assert forall k :: k in keys ==> k == x || k in keys - {x};
      if rest < x then x else rest
  }

  /** `min` over the keys: a key that exceeds no other key. */
  ghost function SmallestKey(keys: set<nat>): (m: nat)
    requires keys != {}
    ensures m in keys && forall k :: k in keys ==> m <= k
    decreases keys
  {
    var x :| x in keys;
    if keys == {x} then x
    else
      var rest := SmallestKey(keys - {x});
      assert forall k :: k in keys ==> k == x || k in keys - {x};
      if x < rest then x else rest
  }

  /**
   * `max(frequency.keys(), key=lambda r: frequency[r])`: a key whose count no
   * other key's count exceeds. Which of several such keys Python returns depends
   * on the dictionary's iteration order, so it is left unspecified here.
   */
  ghost function MostCommon(table: map<nat, nat>, keys: set<nat>): (m: nat)
    requires keys != {} && keys <= table.Keys
    ensures m in keys && forall k :: k in keys ==> table[k] <= table[m]
    decreases keys
  {
    var x :| x in keys;
    if keys == {x} then x
    else
      var rest := MostCommon(table, keys - {x});
      if table[rest] < table[x] then x else rest
  }

  /** Lines 83-85 of `main`, failing as the script does on an empty table. */
  ghost function Summarize(table: map<nat, nat>): (r: Result<Report, SummaryError>)
    ensures r.Failure? <==> table == map[]
    ensures r.Success? ==>
      && r.value.longest in table && r.value.shortest in table && r.value.mostCommon in table
      && (forall k :: k in table ==> r.value.shortest <= k <= r.value.longest)
      && (forall k :: k in table ==> table[k] <= table[r.value.mostCommon])
    ensures r.Success? ==> r.value.shortest <= r.value.mostCommon <= r.value.longest
  {
    if table.Keys == {} then
      assert table == map[];
      Failure(EmptyTable)
    else
      Success(Report(LargestKey(table.Keys), SmallestKey(table.Keys), MostCommon(table, table.Keys)))
  }

  /** The table of lengths 1, 2, 2 and 3 reports 3 as longest, 1 as shortest and 2 as most common. */
  lemma ThreeBucketsExample()
    ensures Summarize(map[1 := 1, 2 := 2, 3 := 1]) == Success(Report(3, 1, 2))
  {
    var table: map<nat, nat> := map[1 := 1, 2 := 2, 3 := 1];
    assert 1 in table && 2 in table && 3 in table;
    var r := Summarize(table).value;
    assert r.longest in table.Keys && r.longest >= 3;
    assert r.shortest in table.Keys && r.shortest <= 1;
    assert r.mostCommon in table.Keys && table[r.mostCommon] >= table[2];
  }

  /** A table with a single key reports that key three times. */
  lemma OneBucketExample()
    ensures Summarize(map[1 := 1]) == Success(Report(1, 1, 1))
  {
    var table: map<nat, nat> := map[1 := 1];
    assert 1 in table;
    assert table.Keys == {1};
  }
}
