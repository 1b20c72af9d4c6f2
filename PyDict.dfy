/**
  A Python `dict` from `str` to `str`, kept as the sequence of its items in
  insertion order, which is the order `dict.items()` yields them.
 */
module PyDict {
  import opened Wrappers

  type Pair = (string, string)
  type Dict = seq<Pair>

  /** A dict never holds a key twice. */
  predicate DistinctKeys(d: Dict) {
    forall i, j :: 0 <= i < j < |d| ==> d[i].0 != d[j].0
  }

  function Keys(d: Dict): set<string> {
    set p | p in d :: p.0
  }

  /** Where key `k` sits in `d`: its first position, or `|d|` when it is absent. */
  function IndexOf(d: Dict, k: string): (i: nat)
    ensures i <= |d|
    ensures i < |d| ==> d[i].0 == k
    ensures forall j :: 0 <= j < i ==> d[j].0 != k
    ensures i == |d| <==> k !in Keys(d)
  {
    if |d| == 0 then 0
    else if d[0].0 == k then 0
    else
      assert Keys(d) == {d[0].0} + Keys(d[1..]) by { assert d == [d[0]] + d[1..]; }
      1 + IndexOf(d[1..], k)
  }

  /** The three facts `IndexOf` ensures determine it. */
  lemma IndexOfUnique(d: Dict, k: string, m: nat)
    requires m <= |d| && (m < |d| ==> d[m].0 == k) && forall j :: 0 <= j < m ==> d[j].0 != k
    ensures IndexOf(d, k) == m
  {
    var i := IndexOf(d, k);
    assert i < |d| ==> d[i].0 == k;
    assert m < |d| ==> d[m].0 == k;
  }

  /** `d.get(k)` */
  function Get(d: Dict, k: string): (r: Option<string>)
    ensures r.Some? <==> k in Keys(d)
  {
    var i := IndexOf(d, k);
    if i < |d| then Some(d[i].1) else None
  }

  /** In a dict every item is found by its key. */
  lemma GetItem(d: Dict, i: nat)
    requires DistinctKeys(d) && i < |d|
    ensures Get(d, d[i].0) == Some(d[i].1)
  {
    IndexOfUnique(d, d[i].0, i);
  }

  /**
    `d[k] = v`: an existing key keeps its position and takes the new value,
    a new key is appended at the end.
   */
  function Set(d: Dict, k: string, v: string): (r: Dict)
    ensures Keys(r) == Keys(d) + {k}
    ensures k !in Keys(d) ==> r == d + [(k, v)]
    ensures k in Keys(d) ==> r == d[IndexOf(d, k) := (k, v)]
    ensures forall p :: p in r ==> p == (k, v) || p in d
    ensures forall p :: p in d && p.0 != k ==> p in r
    ensures DistinctKeys(d) ==> DistinctKeys(r)
  {
    var i := IndexOf(d, k);
    if i == |d| then
      assert Keys(d + [(k, v)]) == Keys(d) + {k} by {
        assert forall p :: p in d + [(k, v)] <==> p in d || p == (k, v);
      }
      d + [(k, v)]
    else
      var r := d[i := (k, v)];
      assert forall p :: p in r ==> p == (k, v) || p in d by {
        forall p | p in r ensures p == (k, v) || p in d {
          var j :| 0 <= j < |r| && r[j] == p;
          if j != i { assert d[j] == p; }
        }
      }
      assert forall p :: p in d && p.0 != k ==> p in r by {
        forall p | p in d && p.0 != k ensures p in r {
          var j :| 0 <= j < |d| && d[j] == p;
          assert r[j] == p;
        }
      }
      assert Keys(r) == Keys(d) by {
        forall x | x in Keys(d) ensures x in Keys(r) {
          var p :| p in d && p.0 == x;
          if x == k { assert r[i] in r; } else { assert p in r; }
        }
        forall x | x in Keys(r) ensures x in Keys(d) {
          var p :| p in r && p.0 == x;
          if x == k { assert d[i] in d; } else { assert p in d; }
        }
      }
      r
  }

  /** After `d[k] = v` the key `k` holds `v` and every other key is looked up as before. */
  lemma GetSet(d: Dict, k: string, v: string, k': string)
    ensures Get(Set(d, k, v), k) == Some(v)
    ensures k' != k ==> Get(Set(d, k, v), k') == Get(d, k')
  {
    var r := Set(d, k, v);
    var i := IndexOf(d, k);
    IndexOfUnique(r, k, i);
    if k' != k {
      var m := IndexOf(d, k');
      if m < |d| {
        IndexOfUnique(r, k', m);
      } else {
        IndexOfUnique(r, k', |r|);
      }
    }
  }

  /** The dict without key `k` (`{x: y for x, y in d.items() if x != k}`). */
  function Remove(d: Dict, k: string): (r: Dict)
    ensures k !in Keys(r)
    ensures forall p :: p in r <==> p in d && p.0 != k
  {
    if |d| == 0 then []
    else if d[0].0 == k then Remove(d[1..], k)
    else [d[0]] + Remove(d[1..], k)
  }

  /** Removing a key that was just appended gives back the dict it was appended to. */
  lemma {:induction false} RemoveAppended(d: Dict, k: string, v: string)
    requires k !in Keys(d)
    ensures Remove(d + [(k, v)], k) == d
  {
    if |d| == 0 {
    } else {
      assert (d + [(k, v)])[1..] == d[1..] + [(k, v)];
      assert d[0] in d;
      RemoveAppended(d[1..], k, v);
      assert d == [d[0]] + d[1..];
    }
  }
}
