/**
 * A PHP array used as a dictionary: an insertion-ordered list of key/value pairs
 * whose keys are distinct. Assigning `$a[$k] = $v` replaces the value in place when
 * the key is present and appends the pair otherwise; `foreach` visits the pairs in order.
 */
module PhpArray {

  function Keys<K, V>(a: seq<(K, V)>): (ks: seq<K>)
    ensures |ks| == |a|
    ensures forall i :: 0 <= i < |a| ==> ks[i] == a[i].0
  {
    seq(|a|, i requires 0 <= i < |a| => a[i].0)
  }

  predicate HasKey<K(==), V>(a: seq<(K, V)>, k: K) {
    k in Keys(a)
  }

  predicate Distinct<K(==)>(ks: seq<K>) {
    forall i, j :: 0 <= i < j < |ks| ==> ks[i] != ks[j]
  }

  /** No key occurs twice. */
  predicate WellFormed<K(==), V>(a: seq<(K, V)>) {
    Distinct(Keys(a))
  }

  /** The first position at or after `from` holding key `k`; `|a|` when there is none. */
  function Find<K(==), V>(a: seq<(K, V)>, k: K, from: nat): (i: nat)
    requires from <= |a|
    ensures from <= i <= |a|
    ensures i < |a| ==> a[i].0 == k
    ensures forall j :: from <= j < i ==> a[j].0 != k
    decreases |a| - from
  {
    if from == |a| || a[from].0 == k then from else Find(a, k, from + 1)
  }

  /** The key is present exactly when the search from the front stops inside the array. */
  lemma FindHasKey<K, V>(a: seq<(K, V)>, k: K)
    ensures HasKey(a, k) <==> Find(a, k, 0) < |a|
  {
    var i := Find(a, k, 0);
    if i < |a| {
      assert Keys(a)[i] == k;
    }
  }

  /** `$a[$k]`: the value stored under `k`. */
  function Get<K(==), V>(a: seq<(K, V)>, k: K): (v: V)
    requires HasKey(a, k)
    ensures (k, v) in a
  {
    FindHasKey(a, k);
    a[Find(a, k, 0)].1
  }

  /** `$a[$k] = $v` */
  function Put<K(==), V>(a: seq<(K, V)>, k: K, v: V): (r: seq<(K, V)>)
    ensures Keys(r) == if HasKey(a, k) then Keys(a) else Keys(a) + [k]
    ensures !HasKey(a, k) ==> r == a + [(k, v)]
  {
    FindHasKey(a, k);
    var i := Find(a, k, 0);
    if i < |a| then
      assert Keys(a[i := (k, v)]) == Keys(a);
      a[i := (k, v)]
    else
      assert Keys(a + [(k, v)]) == Keys(a) + [k];
      a + [(k, v)]
  }

  /** Every slot after `$a[$k] = $v` holds the new pair or the old one. */
  lemma PutSlots<K, V>(a: seq<(K, V)>, k: K, v: V)
    ensures forall i :: 0 <= i < |Put(a, k, v)| ==> Put(a, k, v)[i] == (k, v) || (i < |a| && Put(a, k, v)[i] == a[i])
  {
    FindHasKey(a, k);
  }

  /** In a well-formed array the value at position `i` is what `Get` returns for its key. */
  lemma GetAt<K, V>(a: seq<(K, V)>, i: nat)
    requires WellFormed(a) && i < |a|
    ensures HasKey(a, a[i].0) && Get(a, a[i].0) == a[i].1
  {
    assert Keys(a)[i] == a[i].0;
    var j := Find(a, a[i].0, 0);
    assert j <= i;
    assert Keys(a)[j] == Keys(a)[i];
  }

  /** `$a[$k] = $v` keeps the keys distinct. */
  lemma PutWellFormed<K, V>(a: seq<(K, V)>, k: K, v: V)
    requires WellFormed(a)
    ensures WellFormed(Put(a, k, v))
  {
    var r := Put(a, k, v);
    if !HasKey(a, k) {
      forall i, j | 0 <= i < j < |Keys(r)| ensures Keys(r)[i] != Keys(r)[j] {
        if j == |a| {
          assert Keys(r)[i] == Keys(a)[i];
        }
      }
    }
  }

  /** After `$a[$k] = $v` the key reads back `v`. */
  lemma PutGetSame<K, V>(a: seq<(K, V)>, k: K, v: V)
    requires WellFormed(a)
    ensures HasKey(Put(a, k, v), k) && Get(Put(a, k, v), k) == v
  {
    var r := Put(a, k, v);
    PutWellFormed(a, k, v);
    FindHasKey(a, k);
    var m := Find(a, k, 0);
    if m < |a| {
      assert r == a[m := (k, v)];
      GetAt(r, m);
    } else {
      GetAt(r, |a|);
    }
  }

  /** After `$a[$k] = $v` every other key reads back its old value. */
  lemma PutGetOther<K, V>(a: seq<(K, V)>, k: K, v: V, k': K)
    requires WellFormed(a) && k' != k
    ensures HasKey(Put(a, k, v), k') <==> HasKey(a, k')
    ensures HasKey(a, k') ==> Get(Put(a, k, v), k') == Get(a, k')
  {
    var r := Put(a, k, v);
    PutWellFormed(a, k, v);
    if HasKey(a, k') {
      var i :| 0 <= i < |Keys(a)| && Keys(a)[i] == k';
      PutSlots(a, k, v);
      GetAt(a, i);
      GetAt(r, i);
    }
  }
}
