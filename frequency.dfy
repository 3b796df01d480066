/** The frequency table: how many distinct words there are of each length. */
module Frequency {

  /** `frequency.get(k, 0)`. */
  function Count(table: map<nat, nat>, k: nat): (c: nat)
    ensures k in table ==> c == table[k]
    ensures k !in table ==> c == 0
  {
    if k in table then table[k] else 0
  }

  /** `frequency[k] = frequency.get(k, 0) + 1`: one more in bucket `k`, every other bucket as it was. */
  function Bump(table: map<nat, nat>, k: nat): (r: map<nat, nat>)
    ensures r.Keys == table.Keys + {k}
    ensures Count(r, k) == Count(table, k) + 1
    ensures forall j :: j != k ==> Count(r, j) == Count(table, j)
  {
    table[k := Count(table, k) + 1]
  }

  /** The keys of `index` that map to `v`. */
  function Holders(index: map<string, nat>, v: nat): set<string>
  {
    set w | w in index && index[w] == v
  }

  /**
   * The table the loop over `index.values()` is meant to build: one entry per
   * value present, counting the keys that carry it.
   */
  function Tally(index: map<string, nat>): (table: map<nat, nat>)
    ensures table.Keys == index.Values
    ensures forall v :: v in table ==> table[v] >= 1
  {
    assert forall v :: v in index.Values ==> |Holders(index, v)| >= 1 by {
      forall v | v in index.Values ensures |Holders(index, v)| >= 1 {
        var w :| w in index && index[w] == v;
        assert w in Holders(index, v);
      }
    }
    map v | v in index.Values :: |Holders(index, v)|
  }

  /** The sum of all counts in a table. */
  ghost function Total(table: map<nat, nat>): nat
    decreases |table|
  {
    if table == map[] then 0
    else
      var k :| k in table;
      table[k] + Total(table - {k})
  }

  /** `Total` may be computed by taking out any key first. */
  lemma {:induction false} TotalRemove(table: map<nat, nat>, k: nat)
    requires k in table
    ensures Total(table) == table[k] + Total(table - {k})
    decreases |table|
  {
    var j :| j in table && Total(table) == table[j] + Total(table - {j});
    if j != k {
      TotalRemove(table - {j}, k);
      TotalRemove(table - {k}, j);
      assert table - {j} - {k} == table - {k} - {j};
    }
  }

  /** Each step of the loop adds one to the total. */
  lemma TotalBump(table: map<nat, nat>, k: nat)
    ensures Total(Bump(table, k)) == Total(table) + 1
  {
    var r := Bump(table, k);
    TotalRemove(r, k);
    assert r - {k} == table - {k};
    if k in table {
      TotalRemove(table, k);
    } else {
      assert table - {k} == table;
    }
  }

  /** Taking `w` out of `index` takes it out of the holders of its value only. */
  lemma HoldersStep(index: map<string, nat>, w: string, u: nat)
    requires w in index
    ensures Holders(index, u) == if u == index[w] then Holders(index - {w}, u) + {w} else Holders(index - {w}, u)
    ensures w !in Holders(index - {w}, u)
  {
  }

  /** Taking `w` out of `index` loses at most its value. */
  lemma ValuesStep(index: map<string, nat>, w: string)
    requires w in index
    ensures index.Values == (index - {w}).Values + {index[w]}
  {
    var rest := index - {w};
    forall u | u in index.Values ensures u in rest.Values + {index[w]} {
      var x :| x in index && index[x] == u;
      if x != w {
        assert x in rest && rest[x] == u;
      }
    }
  }

  /** Tallying `index` is tallying it without `w` and then counting `w`'s value. */
  lemma TallyStep(index: map<string, nat>, w: string)
    requires w in index
    ensures Tally(index) == Bump(Tally(index - {w}), index[w])
  {
    var v := index[w];
    var rest := index - {w};
    var after, bumped := Tally(index), Bump(Tally(rest), v);
    ValuesStep(index, w);
    assert after.Keys == bumped.Keys;
    forall u | u in after ensures after[u] == bumped[u] {
      HoldersStep(index, w, u);
      if u == v && u !in rest.Values {
        assert Holders(rest, u) == {};
      }
    }
  }

  /** The counts of a tally add up to the number of keys tallied. */
  lemma {:induction false} TallyTotal(index: map<string, nat>)
    ensures Total(Tally(index)) == |index|
    decreases |index|
  {
    if index == map[] {
      assert Tally(index) == map[];
    } else {
      var w :| w in index;
      TallyStep(index, w);
      TotalBump(Tally(index - {w}), index[w]);
      TallyTotal(index - {w});
      assert (index - {w}).Keys == index.Keys - {w};
    }
  }

  /**
   * The loop of `main`: for each value of `index`, in whatever order the
   * dictionary yields them, raise the count of that value by one.
   */
  method BuildFrequency(index: map<string, nat>) returns (frequency: map<nat, nat>)
    ensures frequency == Tally(index)
    ensures Total(frequency) == |index|
  {
    frequency := map[];
    var pending := index.Keys;
    while pending != {}
      invariant pending <= index.Keys
      invariant frequency == Tally(index - pending)
      decreases pending
    {
      var w :| w in pending;
      var value := index[w];
      frequency := Bump(frequency, value);
      ghost var done := index - (pending - {w});
      assert done - {w} == index - pending;
      TallyStep(done, w);
      pending := pending - {w};
    }
    assert index - pending == index;
    TallyTotal(index);
  }
}
