/**
 * Python's insertion-ordered `dict` with string keys, as a sequence of
 * key/value pairs: assigning to a present key overwrites its value in place,
 * assigning to a new key appends it at the end.
 */
module Dicts {

  type Dict<V> = seq<(string, V)>

  function Keys<V>(d: Dict<V>): (ks: seq<string>)
    ensures |ks| == |d|
    ensures forall i :: 0 <= i < |d| ==> ks[i] == d[i].0
  {
    if d == [] then [] else [d[0].0] + Keys(d[1..])
  }

  predicate Distinct(ks: seq<string>)
  {
    forall i, j :: 0 <= i < j < |ks| ==> ks[i] != ks[j]
  }

  /** No key occurs twice, as in every Python dict. */
  predicate WellFormed<V>(d: Dict<V>)
  {
    Distinct(Keys(d))
  }

  /** `d[k]` */
  function Get<V>(d: Dict<V>, k: string): V
    requires k in Keys(d)
  {
    if d[0].0 == k then d[0].1 else Get(d[1..], k)
  }

  /** The value looked up is the one stored with the key. */
  lemma {:induction false} GetIn<V>(d: Dict<V>, k: string)
    requires k in Keys(d)
    ensures (k, Get(d, k)) in d
  {
    assert Keys(d) == [d[0].0] + Keys(d[1..]);
    if d[0].0 != k {
      GetIn(d[1..], k);
    }
  }

  /** `d[k] = v`, as a new dictionary. */
  function Set<V>(d: Dict<V>, k: string, v: V): (r: Dict<V>)
    ensures Keys(r) == if k in Keys(d) then Keys(d) else Keys(d) + [k]
    ensures Get(r, k) == v
    ensures forall k' :: k' in Keys(d) && k' != k ==> Get(r, k') == Get(d, k')
  {
    if d == [] then [(k, v)]
    else if d[0].0 == k then [(k, v)] + d[1..]
    else [d[0]] + Set(d[1..], k, v)
  }

  /** The value of the last pair with key `k`: the one a sequence of assignments leaves behind. */
  function Last<V>(kvs: Dict<V>, k: string): V
    requires k in Keys(kvs)
  {
    if k in Keys(kvs[1..]) then Last(kvs[1..], k) else kvs[0].1
  }

  /** A pair appended at the end is the last one for its key. */
  lemma {:induction false} LastOfAppended<V>(kvs: Dict<V>, k: string, v: V)
    ensures k in Keys(kvs + [(k, v)]) && Last(kvs + [(k, v)], k) == v
    decreases |kvs|
  {
    var all := kvs + [(k, v)];
    assert Keys(all)[|kvs|] == k;
    if kvs != [] {
      assert all[1..] == kvs[1..] + [(k, v)];
      LastOfAppended(kvs[1..], k, v);
    }
  }

  /** In a dictionary without repeated keys the first and the last pair for a key are the same. */
  lemma {:induction false} LastIsGet<V>(d: Dict<V>, k: string)
    requires WellFormed(d) && k in Keys(d)
    ensures Last(d, k) == Get(d, k)
  {
    assert Keys(d) == [d[0].0] + Keys(d[1..]);
    if d[0].0 == k {
      assert k !in Keys(d[1..]) by {
        forall j | 0 <= j < |d| - 1 ensures Keys(d[1..])[j] != k {
          assert Keys(d)[0] != Keys(d)[j + 1];
        }
      }
    } else {
      assert WellFormed(d[1..]) by {
        forall i, j | 0 <= i < j < |d| - 1 ensures Keys(d[1..])[i] != Keys(d[1..])[j] {
          assert Keys(d)[i + 1] != Keys(d)[j + 1];
        }
      }
      LastIsGet(d[1..], k);
    }
  }

  /** `for k, v in kvs: d[k] = v` (also `d.update(kvs)`). */
  function Overlay<V>(d: Dict<V>, kvs: Dict<V>): (r: Dict<V>)
    ensures |d| <= |r| <= |d| + |kvs|
    decreases kvs
  {
    if kvs == [] then d else Overlay(Set(d, kvs[0].0, kvs[0].1), kvs[1..])
  }

  /**
   * After an overlay a key is present when either side had it; the last
   * assignment to a key wins, and keys the overlay does not mention keep
   * their value.
   */
  lemma {:induction false} OverlayLookup<V>(d: Dict<V>, kvs: Dict<V>, k: string)
    ensures k in Keys(Overlay(d, kvs)) <==> k in Keys(d) || k in Keys(kvs)
    ensures k in Keys(kvs) ==> Get(Overlay(d, kvs), k) == Last(kvs, k)
    ensures k !in Keys(kvs) && k in Keys(d) ==> Get(Overlay(d, kvs), k) == Get(d, k)
    decreases kvs
  {
    if kvs != [] {
      assert Keys(kvs) == [kvs[0].0] + Keys(kvs[1..]);
      OverlayLookup(Set(d, kvs[0].0, kvs[0].1), kvs[1..], k);
    }
  }

  /** An assignment keeps the keys in their places and appends a new key after them. */
  lemma SetKeys<V>(d: Dict<V>, k: string, v: V)
    ensures |Set(d, k, v)| >= |d|
    ensures Keys(Set(d, k, v))[..|d|] == Keys(d)
    ensures WellFormed(d) ==> WellFormed(Set(d, k, v))
  {
    var ks := Keys(Set(d, k, v));
    if k !in Keys(d) {
      assert ks == Keys(d) + [k];
      assert ks[..|d|] == Keys(d);
      if WellFormed(d) {
        forall i, j | 0 <= i < j < |ks|
          ensures ks[i] != ks[j]
        {
          if j == |d| {
            assert ks[i] == Keys(d)[i];
          }
        }
      }
    }
  }

  /**
   * An overlay keeps the keys it started from in their places and appends
   * only new, distinct keys after them.
   */
  lemma {:induction false} OverlayKeys<V>(d: Dict<V>, kvs: Dict<V>)
    ensures |Overlay(d, kvs)| >= |d|
    ensures Keys(Overlay(d, kvs))[..|d|] == Keys(d)
    ensures WellFormed(d) ==> WellFormed(Overlay(d, kvs))
  {
    OverlayPrefix(d, kvs);
    if WellFormed(d) {
      OverlayWellFormed(d, kvs);
    }
  }

  lemma {:induction false} OverlayPrefix<V>(d: Dict<V>, kvs: Dict<V>)
    ensures |Overlay(d, kvs)| >= |d|
    ensures Keys(Overlay(d, kvs))[..|d|] == Keys(d)
    decreases kvs
  {
    if kvs != [] {
      var d' := Set(d, kvs[0].0, kvs[0].1);
      SetKeys(d, kvs[0].0, kvs[0].1);
      OverlayPrefix(d', kvs[1..]);
      var ks := Keys(Overlay(d', kvs[1..]));
      assert ks[..|d|] == ks[..|d'|][..|d|];
    }
  }

  lemma {:induction false} OverlayWellFormed<V>(d: Dict<V>, kvs: Dict<V>)
    requires WellFormed(d)
    ensures WellFormed(Overlay(d, kvs))
    decreases kvs
  {
    if kvs != [] {
      SetKeys(d, kvs[0].0, kvs[0].1);
      OverlayWellFormed(Set(d, kvs[0].0, kvs[0].1), kvs[1..]);
    }
  }

}
