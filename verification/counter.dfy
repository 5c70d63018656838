/**
 * The benchmark's request counter (bench/src/bench/counter/counter.go): one
 * map from a key such as "GET|/fetch" to a count, raised by the checks and
 * summed by key prefix when the score is computed.
 */
module Counter {
  import opened Text

  /** The count of key k: 0 for a key never raised. */
  function CountOf(m: map<string, int>, k: string): int {
    if k in m then m[k] else 0
  }

  /** What key k adds to a sum over the keys that `sel` selects. */
  function Term(m: map<string, int>, k: string, sel: string -> bool): int
    requires k in m
  {
    if sel(k) then m[k] else 0
  }

  /** The sum of the counts of the keys in `keys` that `sel` selects, in no particular order. */
  ghost function SumWhere(m: map<string, int>, keys: set<string>, sel: string -> bool): int
    requires keys <= m.Keys
  {
    if keys == {} then 0
    else
      var k :| k in keys;
      SumWhere(m, keys - {k}, sel) + Term(m, k, sel)
  }

  /** The sum is the same whichever key is taken out first. */
  lemma {:induction false} SumWhereRemove(m: map<string, int>, keys: set<string>, sel: string -> bool, k: string)
    requires keys <= m.Keys && k in keys
    ensures SumWhere(m, keys, sel) == SumWhere(m, keys - {k}, sel) + Term(m, k, sel)
    decreases keys
  {
    var j :| j in keys && SumWhere(m, keys, sel) == SumWhere(m, keys - {j}, sel) + Term(m, j, sel);
    if j != k {
      SumWhereRemove(m, keys - {j}, sel, k);
      SumWhereRemove(m, keys - {k}, sel, j);
      assert keys - {j} - {k} == keys - {k} - {j};
    }
  }

  /** Only the selected keys of `keys` and their counts matter. */
  lemma {:induction false} SumWhereSame(m: map<string, int>, m': map<string, int>, keys: set<string>, sel: string -> bool, sel': string -> bool)
    requires keys <= m.Keys && keys <= m'.Keys
    requires forall k :: k in keys ==> sel(k) == sel'(k) && (sel(k) ==> m[k] == m'[k])
    ensures SumWhere(m, keys, sel) == SumWhere(m', keys, sel')
    decreases keys
  {
    if keys != {} {
      var k :| k in keys;
      SumWhereRemove(m, keys, sel, k);
      SumWhereRemove(m', keys, sel', k);
      SumWhereSame(m, m', keys - {k}, sel, sel');
    }
  }

  /** No key of `keys` is selected: the sum is 0. */
  lemma {:induction false} SumWhereNone(m: map<string, int>, keys: set<string>, sel: string -> bool)
    requires keys <= m.Keys
    requires forall k :: k in keys ==> !sel(k)
    ensures SumWhere(m, keys, sel) == 0
    decreases keys
  {
    if keys != {} {
      var k :| k in keys;
      SumWhereRemove(m, keys, sel, k);
      SumWhereNone(m, keys - {k}, sel);
    }
  }

  /**
   * Raising key k by d raises a sum that selects k by d, and leaves a sum
   * that does not select k unchanged.
   */
  lemma SumWhereAfterAdd(m: map<string, int>, k: string, d: int, sel: string -> bool)
    ensures SumWhere(m[k := CountOf(m, k) + d], m.Keys + {k}, sel) == SumWhere(m, m.Keys, sel) + (if sel(k) then d else 0)
  {
    var m' := m[k := CountOf(m, k) + d];
    var rest := m.Keys - {k};
    assert m'.Keys == m.Keys + {k} && m'.Keys - {k} == rest;
    SumWhereRemove(m', m'.Keys, sel, k);
    SumWhereSame(m, m', rest, sel, sel);
    if k in m {
      SumWhereRemove(m, m.Keys, sel, k);
    } else {
      assert m.Keys == rest;
    }
  }

  /** Selects the keys that start with p. */
  function PrefixSel(p: string): string -> bool {
    k => HasPrefix(k, p)
  }

  /** The sum over all keys of the map that start with p. */
  ghost function SumPrefixOf(m: map<string, int>, p: string): int {
    SumWhere(m, m.Keys, PrefixSel(p))
  }

  /** Raising key k by d raises the sum for p by d when k starts with p, and leaves it unchanged otherwise. */
  lemma SumPrefixAfterAdd(m: map<string, int>, k: string, d: int, p: string)
    ensures SumPrefixOf(m[k := CountOf(m, k) + d], p) == SumPrefixOf(m, p) + (if HasPrefix(k, p) then d else 0)
  {
    SumWhereAfterAdd(m, k, d, PrefixSel(p));
    assert m[k := CountOf(m, k) + d].Keys == m.Keys + {k};
  }

  /** No key starts with p: the sum is 0. */
  lemma SumPrefixNoMatch(m: map<string, int>, p: string)
    requires forall k :: k in m ==> !HasPrefix(k, p)
    ensures SumPrefixOf(m, p) == 0
  {
    SumWhereNone(m, m.Keys, PrefixSel(p));
  }

  /** The counter; the map is package state in the benchmark. */
  class Counter {
    var cntMap: map<string, int>

    constructor ()
      ensures cntMap == map[]
    {
      cntMap := map[];
    }

    /** IncKey: key k goes up by one, nothing else changes. */
    method IncKey(k: string)
      modifies this
      ensures cntMap == old(cntMap)[k := CountOf(old(cntMap), k) + 1]
      ensures forall p :: SumPrefixOf(cntMap, p) == SumPrefixOf(old(cntMap), p) + (if HasPrefix(k, p) then 1 else 0)
    {
      AddKey(k, 1);
    }

    /** AddKey: key k goes up by d, nothing else changes. */
    method AddKey(k: string, d: int)
      modifies this
      ensures cntMap == old(cntMap)[k := CountOf(old(cntMap), k) + d]
      ensures forall j :: j != k ==> CountOf(cntMap, j) == CountOf(old(cntMap), j)
      ensures forall p :: SumPrefixOf(cntMap, p) == SumPrefixOf(old(cntMap), p) + (if HasPrefix(k, p) then d else 0)
    {
      forall p {
        SumPrefixAfterAdd(cntMap, k, d, p);
      }
      cntMap := cntMap[k := CountOf(cntMap, k) + d];
    }

    /** GetKey: the count of k, 0 when k was never raised. */
    function GetKey(k: string): (v: int)
      reads this
      ensures k !in cntMap ==> v == 0
      ensures k in cntMap ==> v == cntMap[k]
    {
      CountOf(cntMap, k)
    }

    /** SumPrefix: the sum of the counts of every key starting with p. */
    method SumPrefix(p: string) returns (sum: int)
      ensures sum == SumPrefixOf(cntMap, p)
    {
      sum := 0;
      var rest := cntMap.Keys;
      while rest != {}
        invariant rest <= cntMap.Keys
        invariant sum + SumWhere(cntMap, rest, PrefixSel(p)) == SumPrefixOf(cntMap, p)
        decreases rest
      {
        var k :| k in rest;
        SumWhereRemove(cntMap, rest, PrefixSel(p), k);
        if HasPrefix(k, p) {
          sum := sum + cntMap[k];
        }
        rest := rest - {k};
      }
    }

    /** GetMap: a copy of the counts. */
    method GetMap() returns (m: map<string, int>)
      ensures m == cntMap
    {
      m := map[];
      var rest := cntMap.Keys;
      while rest != {}
        invariant rest <= cntMap.Keys
        invariant m.Keys == cntMap.Keys - rest
        invariant forall k :: k in m ==> m[k] == cntMap[k]
        decreases rest
      {
        var k :| k in rest;
        m := m[k := cntMap[k]];
        rest := rest - {k};
      }
    }
  }
}
