/**
 * A JavaScript plain object used as a dictionary, modelled as an
 * insertion-ordered association list from string keys: assigning to a
 * present key keeps its position, assigning to a new key appends it,
 * `delete` removes it, and `Object.entries`/`keys`/`values` walk the list in
 * order.
 */
module Assoc {
  import opened Common

  type Entries<V> = seq<(string, V)>

  /** `Object.keys` */
  function Keys<V>(es: Entries<V>): (ks: seq<string>)
    ensures |ks| == |es|
    ensures forall i :: 0 <= i < |es| ==> ks[i] == es[i].0
  {
    seq(|es|, i requires 0 <= i < |es| => es[i].0)
  }

  /** `Object.values` */
  function Values<V>(es: Entries<V>): (vs: seq<V>)
    ensures |vs| == |es|
    ensures forall i :: 0 <= i < |es| ==> vs[i] == es[i].1
  {
    seq(|es|, i requires 0 <= i < |es| => es[i].1)
  }

  /** No key occurs twice: what every JS object satisfies. */
  predicate Distinct<V>(es: Entries<V>) {
    forall i, j :: 0 <= i < j < |es| ==> es[i].0 != es[j].0
  }

  /** The position of key `k`, or -1 when it is absent. */
  function Find<V>(es: Entries<V>, k: string): (r: int)
    ensures -1 <= r < |es|
    ensures r == -1 <==> k !in Keys(es)
    ensures r >= 0 ==> es[r].0 == k && k !in Keys(es[..r])
  {
    if es == [] then -1
    else if es[0].0 == k then 0
    else
      var r := Find(es[1..], k);
      assert Keys(es) == [es[0].0] + Keys(es[1..]);
      assert r >= 0 ==> Keys(es[..r + 1]) == [es[0].0] + Keys(es[1..][..r]);
      if r < 0 then -1 else r + 1
  }

  /** In a list without repeated keys, entry `i` is the one found for its key. */
  lemma FindAt<V>(es: Entries<V>, i: nat)
    requires Distinct(es) && i < |es|
    ensures Find(es, es[i].0) == i
  {
  }

  /** Where a key sits depends on the keys alone. */
  /** The keys of a prefix one entry longer. */
  lemma KeysStep<V>(es: Entries<V>, i: nat)
    requires i < |es|
    ensures Keys(es[..i + 1]) == Keys(es[..i]) + [es[i].0]
  {
  }

  lemma {:induction false} FindByKeys<V, W>(a: Entries<V>, b: Entries<W>, k: string)
    requires Keys(a) == Keys(b)
    ensures Find(a, k) == Find(b, k)
  {
    if a != [] {
      assert |a| == |Keys(a)| == |Keys(b)| == |b|;
      assert a[0].0 == Keys(a)[0] == Keys(b)[0] == b[0].0;
      assert Keys(a[1..]) == Keys(a)[1..] == Keys(b)[1..] == Keys(b[1..]);
      FindByKeys(a[1..], b[1..], k);
    }
  }

  /** `obj[k]`: the value stored under `k`, or undefined. */
  function Lookup<V>(es: Entries<V>, k: string): (r: Option<V>)
    ensures r.Some? <==> k in Keys(es)
  {
    var i := Find(es, k);
    if i < 0 then None else Some(es[i].1)
  }

  /** `obj[k] = v` */
  function Put<V>(es: Entries<V>, k: string, v: V): (r: Entries<V>)
    ensures Keys(r) == if k in Keys(es) then Keys(es) else Keys(es) + [k]
  {
    var i := Find(es, k);
    var r := if i < 0 then es + [(k, v)] else es[i := (k, v)];
    assert Keys(r) == if k in Keys(es) then Keys(es) else Keys(es) + [k];
    r
  }

  /** `delete obj[k]` on an object that holds each key once. */
  function Remove<V>(es: Entries<V>, k: string): (r: Entries<V>)
    ensures k !in Keys(es) ==> r == es
    ensures k in Keys(es) ==> |r| == |es| - 1
  {
    var i := Find(es, k);
    if i < 0 then es else es[..i] + es[i + 1..]
  }

  /** Assignment stores the value under its key, leaves every other key alone and keeps keys unique. */
  lemma PutSpec<V>(es: Entries<V>, k: string, v: V)
    requires Distinct(es)
    ensures Distinct(Put(es, k, v))
    ensures Lookup(Put(es, k, v), k) == Some(v)
    ensures forall k' :: k' != k ==> Lookup(Put(es, k, v), k') == Lookup(es, k')
  {
    var r := Put(es, k, v);
    assert Distinct(r) by {
      forall a, b | 0 <= a < b < |r| ensures r[a].0 != r[b].0 {
        assert Keys(r)[a] == r[a].0 && Keys(r)[b] == r[b].0;
      }
    }
    var i := Find(es, k);
    FindAt(r, if i < 0 then |es| else i);
    forall k' | k' != k ensures Lookup(r, k') == Lookup(es, k') {
      var j := Find(es, k');
      if j >= 0 {
        FindAt(r, j);
      } else {
        assert k' !in Keys(r);
      }
    }
  }

  /** Entry `a` of the list with entry `i` cut out is entry `a` or `a + 1` of the original. */
  lemma CutAt<V>(es: Entries<V>, i: nat, a: nat)
    requires i < |es| && a < |es| - 1
    ensures (es[..i] + es[i + 1..])[a] == es[if a < i then a else a + 1]
  {
  }

  /** Deletion drops exactly the key it is given and keeps keys unique. */
  lemma RemoveSpec<V>(es: Entries<V>, k: string)
    requires Distinct(es)
    ensures Distinct(Remove(es, k))
    ensures Lookup(Remove(es, k), k) == None
    ensures forall k' :: k' != k ==> Lookup(Remove(es, k), k') == Lookup(es, k')
  {
    var i := Find(es, k);
    if i >= 0 {
      CutDistinct(es, i);
      forall k' | k' != k ensures Lookup(Remove(es, k), k') == Lookup(es, k') {
        CutLookup(es, i, k');
      }
    }
  }

  /** Cutting entry `i` out keeps keys unique and drops its key. */
  lemma CutDistinct<V>(es: Entries<V>, i: nat)
    requires Distinct(es) && i < |es|
    ensures Distinct(es[..i] + es[i + 1..]) && es[i].0 !in Keys(es[..i] + es[i + 1..])
  {
    var r := es[..i] + es[i + 1..];
    forall a, b | 0 <= a < b < |r| ensures r[a].0 != r[b].0 {
      CutAt(es, i, a);
      CutAt(es, i, b);
    }
    forall a | 0 <= a < |r| ensures r[a].0 != es[i].0 {
      CutAt(es, i, a);
    }
  }

  /** Cutting entry `i` out leaves every other key's value alone. */
  lemma CutLookup<V>(es: Entries<V>, i: nat, k: string)
    requires Distinct(es) && i < |es| && k != es[i].0
    ensures Lookup(es[..i] + es[i + 1..], k) == Lookup(es, k)
  {
    var r := es[..i] + es[i + 1..];
    CutDistinct(es, i);
    var j := Find(es, k);
    if j >= 0 {
      var a := if j < i then j else j - 1;
      CutAt(es, i, a);
      FindAt(r, a);
    } else {
      forall a | 0 <= a < |r| ensures r[a].0 != k {
        CutAt(es, i, a);
      }
    }
  }

  /** Deleting the key of entry `i` cuts out exactly that entry. */
  lemma RemoveAt<V>(es: Entries<V>, i: nat)
    requires Distinct(es) && i < |es|
    ensures Remove(es, es[i].0) == es[..i] + es[i + 1..]
  {
    FindAt(es, i);
  }

  /** The loop `for (let [k, v] of Object.entries(more)) obj[k] = v`. */
  function PutAll<V>(es: Entries<V>, more: Entries<V>): Entries<V>
  {
    if more == [] then es
    else
      var last := more[|more| - 1];
      Put(PutAll(es, more[..|more| - 1]), last.0, last.1)
  }

  /** Copying entry by entry into an object that holds none of the keys appends them all, order included. */
  lemma {:induction false} PutAllFresh<V>(es: Entries<V>, more: Entries<V>)
    requires Distinct(es + more)
    ensures PutAll(es, more) == es + more
  {
    if more != [] {
      var n := |more| - 1;
      var init := more[..n];
      assert es + more == (es + init) + [more[n]];
      assert Distinct(es + init) by {
        forall a, b | 0 <= a < b < |es + init| ensures (es + init)[a].0 != (es + init)[b].0 {
          assert (es + init)[a] == (es + more)[a] && (es + init)[b] == (es + more)[b];
        }
      }
      PutAllFresh(es, init);
      assert more[n].0 !in Keys(es + init) by {
        forall j | 0 <= j < |es + init| ensures Keys(es + init)[j] != more[n].0 {
          assert (es + init)[j] == (es + more)[j];
          assert (es + more)[|es| + n] == more[n];
        }
      }
    }
  }

  /** Searching a list with one entry added at the end. */
  lemma {:induction false} FindAppend<V>(es: Entries<V>, e: (string, V), k: string)
    ensures Find(es + [e], k) == if k in Keys(es) then Find(es, k) else if e.0 == k then |es| else -1
  {
    if es == [] {
      assert [] + [e] == [e];
    } else {
      assert (es + [e])[1..] == es[1..] + [e];
      assert Keys(es) == [es[0].0] + Keys(es[1..]);
      if es[0].0 != k {
        FindAppend(es[1..], e, k);
      }
    }
  }

  /**
   * Copying entry by entry keeps keys unique; when the copied entries have
   * unique keys too, each copied key ends up with its copied value and every
   * other key keeps the value it had.
   */
  lemma {:induction false} PutAllSpec<V>(es: Entries<V>, more: Entries<V>)
    requires Distinct(es)
    ensures Distinct(PutAll(es, more))
    ensures Distinct(more) ==> forall k ::
      Lookup(PutAll(es, more), k) == (if k in Keys(more) then Lookup(more, k) else Lookup(es, k))
  {
    if more != [] {
      var n := |more| - 1;
      var init, last := more[..n], more[n];
      assert more == init + [last];
      PutAllSpec(es, init);
      PutSpec(PutAll(es, init), last.0, last.1);
      if Distinct(more) {
        assert Distinct(init) by {
          forall a, b | 0 <= a < b < |init| ensures init[a].0 != init[b].0 {
            assert init[a] == more[a] && init[b] == more[b];
          }
        }
        assert last.0 !in Keys(init) by {
          forall j | 0 <= j < |init| ensures Keys(init)[j] != last.0 {
            assert init[j] == more[j];
          }
        }
        forall k ensures Lookup(PutAll(es, more), k) == (if k in Keys(more) then Lookup(more, k) else Lookup(es, k)) {
          FindAppend(init, last, k);
          assert Keys(more) == Keys(init) + [last.0];
        }
      }
    }
  }

  /** Copying a JS object into an empty one reproduces it. */
  lemma PutAllIntoEmpty<V>(more: Entries<V>)
    requires Distinct(more)
    ensures PutAll([], more) == more
  {
    assert [] + more == more;
    PutAllFresh([], more);
  }
}
