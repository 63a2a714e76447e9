/**
 * An insertion-ordered dictionary, as Python's `dict` is: a sequence of
 * key/value entries with distinct keys. Assigning to a key that is present
 * replaces its value in place; a new key goes to the end; `pop` removes the
 * entry and keeps the order of the others.
 */
module Registry {
  import opened Wrappers

  datatype Entry<K, V> = Entry(key: K, value: V)

  /** The keys in iteration order. */
  function Keys<K, V>(d: seq<Entry<K, V>>): (ks: seq<K>)
    ensures |ks| == |d|
    ensures forall i | 0 <= i < |d| :: ks[i] == d[i].key
  {
    seq(|d|, i requires 0 <= i < |d| => d[i].key)
  }

  /** No key occurs twice. */
  predicate Distinct<K(==), V>(d: seq<Entry<K, V>>) {
    forall i, j | 0 <= i < j < |d| :: d[i].key != d[j].key
  }

  /** The position of the first entry with key `k`. */
  function IndexOf<K(==), V>(d: seq<Entry<K, V>>, k: K): (r: Option<nat>)
    ensures r.Some? ==> r.value < |d| && d[r.value].key == k
    ensures r.Some? ==> forall j | 0 <= j < r.value :: d[j].key != k
    ensures r.None? ==> forall j | 0 <= j < |d| :: d[j].key != k
  {
    if d == [] then None
    else if d[0].key == k then Some(0)
    else match IndexOf(d[1..], k)
      case None => None
      case Some(i) => Some(i + 1)
  }

  /** `d.get(k)`. */
  function Get<K(==), V>(d: seq<Entry<K, V>>, k: K): Option<V>
  {
    match IndexOf(d, k)
    case None => None
    case Some(i) => Some(d[i].value)
  }

  /** `d[k] = v`. */
  function Put<K(==), V>(d: seq<Entry<K, V>>, k: K, v: V): seq<Entry<K, V>>
  {
    match IndexOf(d, k)
    case None => d + [Entry(k, v)]
    case Some(i) => d[i := Entry(k, v)]
  }

  /** `d.pop(k, None)`, keeping only the dictionary. */
  function Pop<K(==), V>(d: seq<Entry<K, V>>, k: K): seq<Entry<K, V>>
  {
    match IndexOf(d, k)
    case None => d
    case Some(i) => d[..i] + d[i + 1..]
  }

  /** In a dictionary with distinct keys, the entry at position i is what `Get` finds for its key. */
  lemma GetAt<K, V>(d: seq<Entry<K, V>>, i: nat)
    requires Distinct(d) && i < |d|
    ensures IndexOf(d, d[i].key) == Some(i)
    ensures Get(d, d[i].key) == Some(d[i].value)
  {
  }

  /** `Get` finds something exactly when the key is one of the keys. */
  lemma GetSome<K, V>(d: seq<Entry<K, V>>, k: K)
    ensures Get(d, k).Some? <==> k in Keys(d)
  {
    if Get(d, k).Some? {
      assert Keys(d)[IndexOf(d, k).value] == k;
    }
  }

  /** Assigning a key: the key maps to the new value, every other key keeps its
      value, and the order is kept (a new key goes to the end). */
  lemma PutSpec<K, V>(d: seq<Entry<K, V>>, k: K, v: V)
    requires Distinct(d)
    ensures Distinct(Put(d, k, v))
    ensures Get(Put(d, k, v), k) == Some(v)
    ensures forall k' | k' != k :: Get(Put(d, k, v), k') == Get(d, k')
    ensures k in Keys(d) ==> Keys(Put(d, k, v)) == Keys(d)
    ensures k !in Keys(d) ==> Keys(Put(d, k, v)) == Keys(d) + [k]
  {
    var d' := Put(d, k, v);
    GetSome(d, k);
    match IndexOf(d, k)
    case None =>
      assert d' == d + [Entry(k, v)];
      GetAt(d', |d|);
      assert Keys(d') == Keys(d) + [k];
      forall k' | k' != k
        ensures Get(d', k') == Get(d, k')
      {
        match IndexOf(d, k')
        case None =>
          assert forall j | 0 <= j < |d'| :: d'[j].key != k';
        case Some(j) =>
          GetAt(d, j);
          GetAt(d', j);
      }
    case Some(i) =>
      assert d' == d[i := Entry(k, v)];
      GetAt(d', i);
      assert Keys(d') == Keys(d);
      forall k' | k' != k
        ensures Get(d', k') == Get(d, k')
      {
        match IndexOf(d, k')
        case None =>
          assert forall j | 0 <= j < |d'| :: d'[j].key != k';
        case Some(j) =>
          GetAt(d, j);
          GetAt(d', j);
      }
  }

  /** Removing the entry at position i shifts the later entries down by one and
      leaves no entry with its key. */
  lemma RemoveAt<K, V>(d: seq<Entry<K, V>>, i: nat)
    requires Distinct(d) && i < |d|
    ensures var d' := d[..i] + d[i + 1..];
            && (forall j | 0 <= j < |d'| :: d'[j] == if j < i then d[j] else d[j + 1])
            && Distinct(d')
            && Keys(d') == Keys(d)[..i] + Keys(d)[i + 1..]
            && (forall j | 0 <= j < |d'| :: d'[j].key != d[i].key)
  {
    var d' := d[..i] + d[i + 1..];
    assert forall j | 0 <= j < |d'| :: d'[j] == if j < i then d[j] else d[j + 1];
    assert Keys(d') == Keys(d)[..i] + Keys(d)[i + 1..];
  }

  /** Popping a key: the key is gone, every other key keeps its value, and the
      remaining keys keep their order; popping an absent key changes nothing. */
  lemma PopSpec<K, V>(d: seq<Entry<K, V>>, k: K)
    requires Distinct(d)
    ensures Distinct(Pop(d, k))
    ensures Get(Pop(d, k), k) == None
    ensures forall k' | k' != k :: Get(Pop(d, k), k') == Get(d, k')
    ensures k !in Keys(d) ==> Pop(d, k) == d
    ensures k in Keys(d) ==> exists i | 0 <= i < |d| && d[i].key == k ::
              Keys(Pop(d, k)) == Keys(d)[..i] + Keys(d)[i + 1..]
  {
    var d' := Pop(d, k);
    GetSome(d, k);
    match IndexOf(d, k)
    case None =>
    case Some(i) =>
      assert d' == d[..i] + d[i + 1..];
      RemoveAt(d, i);
      forall k' | k' != k
        ensures Get(d', k') == Get(d, k')
      {
        match IndexOf(d, k')
        case None =>
          assert forall j | 0 <= j < |d'| :: d'[j].key != k';
        case Some(j) =>
          GetAt(d, j);
          if j < i {
            GetAt(d', j);
          } else {
            GetAt(d', j - 1);
          }
      }
  }
}
