/**
 * Python dictionaries of counts, `d[k] = d.get(k, 0) + n`, as association
 * lists in insertion order. Updating a key keeps its position, a new key goes
 * at the end, and `max(d.items(), key=...)` returns the first pair with the
 * largest count.
 */
module Counter {

  type Tally<K> = seq<(K, nat)>

  predicate DistinctKeys<K(==)>(d: Tally<K>) {
    forall i, j :: 0 <= i < j < |d| ==> d[i].0 != d[j].0
  }

  predicate AllPositive<K(==)>(d: Tally<K>) {
    forall i :: 0 <= i < |d| ==> d[i].1 >= 1
  }

  function KeySet<K(==)>(d: Tally<K>): set<K> {
    set i | 0 <= i < |d| :: d[i].0
  }

  /** The position of key `k`, or -1 when it is absent. */
  function Find<K(==)>(d: Tally<K>, k: K): (i: int)
    ensures -1 <= i < |d|
    ensures i >= 0 ==> d[i].0 == k && forall j :: 0 <= j < i ==> d[j].0 != k
    ensures i == -1 ==> forall j :: 0 <= j < |d| ==> d[j].0 != k
    decreases |d|
  {
    if d == [] then -1
    else if d[0].0 == k then 0
    else var i := Find(d[1..], k); if i < 0 then -1 else i + 1
  }

  /** `d.get(k, 0)`. */
  function Get<K(==)>(d: Tally<K>, k: K): nat {
    var i := Find(d, k);
    if i < 0 then 0 else d[i].1
  }

  /** `d[k] = d.get(k, 0) + n`. */
  function Bump<K(==)>(d: Tally<K>, k: K, n: nat): Tally<K> {
    var i := Find(d, k);
    if i < 0 then d + [(k, n)] else d[i := (k, d[i].1 + n)]
  }

  /** `d[k] = n`: a present key keeps its position and takes the new count. */
  function Put<K(==)>(d: Tally<K>, k: K, n: nat): Tally<K> {
    var i := Find(d, k);
    if i < 0 then d + [(k, n)] else d[i := (k, n)]
  }

  /** `sum(d.values())`. */
  function Total<K(==)>(d: Tally<K>): nat
    decreases |d|
  {
    if d == [] then 0 else Total(d[..|d| - 1]) + d[|d| - 1].1
  }

  /** How often `k` occurs in `ks`. */
  function Occurrences<K(==)>(ks: seq<K>, k: K): nat
    decreases |ks|
  {
    if ks == [] then 0 else Occurrences(ks[..|ks| - 1], k) + (if ks[|ks| - 1] == k then 1 else 0)
  }

  /** The counts of a sequence of keys, built one key at a time. */
  function TallyOf<K(==)>(ks: seq<K>): Tally<K>
    decreases |ks|
  {
    if ks == [] then [] else Bump(TallyOf(ks[..|ks| - 1]), ks[|ks| - 1], 1)
  }

  /** Adds every count of `d` into `acc`, in the order of `d`. */
  function AddAll<K(==)>(acc: Tally<K>, d: Tally<K>): Tally<K>
    decreases |d|
  {
    if d == [] then acc else Bump(AddAll(acc, d[..|d| - 1]), d[|d| - 1].0, d[|d| - 1].1)
  }

  /** Python's `max(d.items(), key=lambda x: x[1])`: the first position whose
      count is not exceeded by any other. */
  function ArgMax<K(==)>(d: Tally<K>): (i: nat)
    requires |d| > 0
    ensures i < |d|
    ensures forall j :: 0 <= j < |d| ==> d[j].1 <= d[i].1
    ensures forall j :: 0 <= j < i ==> d[j].1 < d[i].1
    decreases |d|
  {
    if |d| == 1 then 0
    else
      var m := ArgMax(d[..|d| - 1]);
      if d[|d| - 1].1 > d[m].1 then |d| - 1 else m
  }

  // ---------------------------------------------------------------------

  lemma {:induction false} TotalUpdate<K>(d: Tally<K>, i: nat, p: (K, nat))
    requires i < |d|
    ensures Total(d[i := p]) + d[i].1 == Total(d) + p.1
    decreases |d|
  {
    var d' := d[i := p];
    if i < |d| - 1 {
      assert d'[..|d'| - 1] == d[..|d| - 1][i := p];
      TotalUpdate(d[..|d| - 1], i, p);
    } else {
      assert d'[..|d'| - 1] == d[..|d| - 1];
    }
  }

  /** Bumping a key by `n` adds `n` to the total. */
  lemma BumpTotal<K>(d: Tally<K>, k: K, n: nat)
    ensures Total(Bump(d, k, n)) == Total(d) + n
  {
    var i := Find(d, k);
    if i < 0 {
      assert (d + [(k, n)])[..|d|] == d;
    } else {
      TotalUpdate(d, i, (k, d[i].1 + n));
    }
  }

  /** Bumping `k` changes the count of `k` and of no other key. */
  lemma BumpGet<K>(d: Tally<K>, k: K, n: nat, k': K)
    ensures Get(Bump(d, k, n), k') == Get(d, k') + (if k == k' then n else 0)
  {
    var i := Find(d, k);
    var b := Bump(d, k, n);
    var j := Find(b, k');
    if i < 0 {
      assert forall x :: 0 <= x < |d| ==> b[x] == d[x];
      assert b[|d|] == (k, n);
      if k != k' {
        assert Find(d, k') == j;
      } else {
        assert j == |d|;
      }
    } else {
      assert forall x :: 0 <= x < |d| ==> b[x].0 == d[x].0;
      assert Find(d, k') == j;
    }
  }

  lemma BumpKeys<K>(d: Tally<K>, k: K, n: nat)
    ensures KeySet(Bump(d, k, n)) == KeySet(d) + {k}
    ensures DistinctKeys(d) ==> DistinctKeys(Bump(d, k, n))
    ensures AllPositive(d) && n >= 1 ==> AllPositive(Bump(d, k, n))
  {
    var i := Find(d, k);
    var b := Bump(d, k, n);
    if i < 0 {
      assert forall x :: 0 <= x < |d| ==> b[x] == d[x];
      assert b[|d|] == (k, n);
      forall x | x in KeySet(b) ensures x in KeySet(d) + {k} {
        var y :| 0 <= y < |b| && b[y].0 == x;
        if y < |d| { assert d[y].0 == x; }
      }
    } else {
      assert forall x :: 0 <= x < |d| ==> b[x].0 == d[x].0;
      forall x | x in KeySet(b) ensures x in KeySet(d) {
        var y :| 0 <= y < |b| && b[y].0 == x;
        assert d[y].0 == x;
      }
      forall x | x in KeySet(d) ensures x in KeySet(b) {
        var y :| 0 <= y < |d| && d[y].0 == x;
        assert b[y].0 == x;
      }
    }
  }

  lemma {:induction false} TallyOfShape<K>(ks: seq<K>)
    ensures DistinctKeys(TallyOf(ks)) && AllPositive(TallyOf(ks))
    ensures Total(TallyOf(ks)) == |ks|
    decreases |ks|
  {
    if ks != [] {
      var init := ks[..|ks| - 1];
      TallyOfShape(init);
      BumpTotal(TallyOf(init), ks[|ks| - 1], 1);
      BumpKeys(TallyOf(init), ks[|ks| - 1], 1);
    }
  }

  /** The count of every key in the tally of `ks` is its number of occurrences. */
  lemma {:induction false} TallyOfGet<K>(ks: seq<K>, k: K)
    ensures Get(TallyOf(ks), k) == Occurrences(ks, k)
    decreases |ks|
  {
    if ks != [] {
      TallyOfGet(ks[..|ks| - 1], k);
      BumpGet(TallyOf(ks[..|ks| - 1]), ks[|ks| - 1], 1, k);
    }
  }

  /** The keys of the tally of `ks` are exactly the elements of `ks`. */
  lemma {:induction false} TallyOfKeys<K>(ks: seq<K>)
    ensures KeySet(TallyOf(ks)) == set i | 0 <= i < |ks| :: ks[i]
    decreases |ks|
  {
    if ks != [] {
      var init := ks[..|ks| - 1];
      var last := ks[|ks| - 1];
      TallyOfKeys(init);
      BumpKeys(TallyOf(init), last, 1);
      var s1 := set i | 0 <= i < |init| :: init[i];
      var s2 := set i | 0 <= i < |ks| :: ks[i];
      forall x | x in s2 ensures x in s1 + {last} {
        var y :| 0 <= y < |ks| && ks[y] == x;
        if y < |init| { assert init[y] == x; }
      }
      forall x | x in s1 ensures x in s2 {
        var y :| 0 <= y < |init| && init[y] == x;
        assert ks[y] == x;
      }
      assert s2 == s1 + {last};
    }
  }

  /** Adding the counts of `d` into `acc` adds their total. */
  lemma {:induction false} AddAllTotal<K>(acc: Tally<K>, d: Tally<K>)
    ensures Total(AddAll(acc, d)) == Total(acc) + Total(d)
    decreases |d|
  {
    if d != [] {
      AddAllTotal(acc, d[..|d| - 1]);
      BumpTotal(AddAll(acc, d[..|d| - 1]), d[|d| - 1].0, d[|d| - 1].1);
    }
  }

  /** A key's first position in a longer tally is its first position in the
      prefix, or the new last entry when the prefix does not hold it. */
  lemma FindSnoc<K>(d: Tally<K>, x: (K, nat), k: K)
    ensures Find(d + [x], k) == (if Find(d, k) >= 0 then Find(d, k) else if x.0 == k then |d| else -1)
  {
    var e := d + [x];
    assert forall j :: 0 <= j < |d| ==> e[j] == d[j];
    var i := Find(d, k);
    var j := Find(e, k);
    if i >= 0 {
      assert e[i].0 == k;
    } else if x.0 == k {
      assert e[|d|].0 == k;
    }
  }

  /** With distinct keys, the count of a key lies in the last entry or in
      the entries before it. */
  lemma GetSnoc<K>(d: Tally<K>, k: K)
    requires DistinctKeys(d) && d != []
    ensures Get(d, k) == Get(d[..|d| - 1], k) + (if d[|d| - 1].0 == k then d[|d| - 1].1 else 0)
  {
    var init := d[..|d| - 1];
    assert d == init + [d[|d| - 1]];
    FindSnoc(init, d[|d| - 1], k);
  }

  /** Adding the counts of `d` into `acc` adds, key by key, the count `d` holds. */
  lemma {:induction false} AddAllGet<K>(acc: Tally<K>, d: Tally<K>, k: K)
    requires DistinctKeys(d)
    ensures Get(AddAll(acc, d), k) == Get(acc, k) + Get(d, k)
    decreases |d|
  {
    if d != [] {
      var init := d[..|d| - 1];
      AddAllGet(acc, init, k);
      BumpGet(AddAll(acc, init), d[|d| - 1].0, d[|d| - 1].1, k);
      GetSnoc(d, k);
    }
  }

  /** Adding positive counts into a tally with distinct keys keeps both. */
  lemma {:induction false} AddAllKeys<K>(acc: Tally<K>, d: Tally<K>)
    ensures DistinctKeys(acc) ==> DistinctKeys(AddAll(acc, d))
    ensures AllPositive(acc) && AllPositive(d) ==> AllPositive(AddAll(acc, d))
    decreases |d|
  {
    if d != [] {
      var init := d[..|d| - 1];
      AddAllKeys(acc, init);
      BumpKeys(AddAll(acc, init), d[|d| - 1].0, d[|d| - 1].1);
    }
  }

  lemma OccurrencesAppend<K>(ks: seq<K>, x: K, k: K)
    ensures Occurrences(ks + [x], k) == Occurrences(ks, k) + (if x == k then 1 else 0)
  {
    assert (ks + [x])[..|ks|] == ks;
  }

  lemma TallyOfAppend<K>(ks: seq<K>, x: K)
    ensures TallyOf(ks + [x]) == Bump(TallyOf(ks), x, 1)
  {
    assert (ks + [x])[..|ks|] == ks;
  }

  /** With distinct keys, the number of keys is the length of the tally. */
  lemma {:induction false} DistinctKeysCard<K>(d: Tally<K>)
    requires DistinctKeys(d)
    ensures |KeySet(d)| == |d|
    decreases |d|
  {
    if d != [] {
      var init := d[..|d| - 1];
      var last := d[|d| - 1].0;
      DistinctKeysCard(init);
      forall x | x in KeySet(d) ensures x in KeySet(init) + {last} {
        var y :| 0 <= y < |d| && d[y].0 == x;
        if y < |init| { assert init[y].0 == x; }
      }
      forall x | x in KeySet(init) + {last} ensures x in KeySet(d) {
        if x != last {
          var y :| 0 <= y < |init| && init[y].0 == x;
          assert d[y].0 == x;
        } else {
          assert d[|d| - 1].0 == x;
        }
      }
      assert KeySet(d) == KeySet(init) + {last};
    }
  }
}
