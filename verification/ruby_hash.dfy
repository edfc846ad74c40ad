/**
  Ruby's insertion-ordered `Hash`, the shape of node options, node
  attributes and the configuration payload. Keys are symbols or strings
  (`:domain` and `"domain"` are different keys); values are the few kinds
  the core stores.
 */
module RubyHash {
  import opened Wrappers

  datatype Key = Sym(name: string) | Str(text: string)

  datatype Value =
    | Nil
    | Flag(b: bool)
    | Text(s: string)
    | Tags(items: seq<string>)
    | Nested(entries: Hash)

  datatype Entry = Entry(key: Key, value: Value)

  /** Entries in insertion order. */
  type Hash = seq<Entry>

  /** Ruby truthiness: everything except `nil` and `false`. */
  predicate Truthy(v: Value)
  {
    !v.Nil? && v != Flag(false)
  }

  function Keys(h: Hash): (ks: seq<Key>)
    ensures |ks| == |h|
    ensures forall i :: 0 <= i < |h| ==> ks[i] == h[i].key
  {
    seq(|h|, i requires 0 <= i < |h| => h[i].key)
  }

  /** A Ruby hash never holds the same key twice. */
  predicate UniqueKeys(h: Hash)
  {
    forall i, j :: 0 <= i < j < |h| ==> h[i].key != h[j].key
  }

  /** The position of the first entry holding `k`, or `|h|` when there is none. */
  function IndexOf(h: Hash, k: Key): (i: nat)
    ensures i <= |h|
    ensures i < |h| ==> h[i].key == k
    ensures forall j :: 0 <= j < i ==> h[j].key != k
  {
    if h == [] then 0
    else if h[0].key == k then 0
    else 1 + IndexOf(h[1..], k)
  }

  /** `h[k]` distinguished from a missing key (`fetch`). */
  function Get(h: Hash, k: Key): (r: Option<Value>)
    ensures r.Some? <==> k in Keys(h)
    ensures r.Some? ==> Entry(k, r.value) in h
  {
    var i := IndexOf(h, k);
    if i < |h| then Some(h[i].value)
    else
      assert forall j :: 0 <= j < |h| ==> Keys(h)[j] != k;
      None
  }

  /** In a hash with unique keys, `Get` finds the one entry holding the key. */
  lemma GetAt(h: Hash, i: nat)
    requires UniqueKeys(h) && i < |h|
    ensures Get(h, h[i].key) == Some(h[i].value)
  {
    assert forall j :: 0 <= j < i ==> h[j].key != h[i].key;
  }

  /**
    `h[k] = v`: an existing key keeps its position and takes the new value,
    a new key is appended.
   */
  function Store(h: Hash, k: Key, v: Value): (r: Hash)
    requires UniqueKeys(h)
    ensures UniqueKeys(r)
    ensures Get(r, k) == Some(v)
    ensures forall k' :: k' != k ==> Get(r, k') == Get(h, k')
    ensures Keys(r) == if k in Keys(h) then Keys(h) else Keys(h) + [k]
  {
    var i := IndexOf(h, k);
    var r := if i < |h| then h[i := Entry(k, v)] else h + [Entry(k, v)];
    StoreFacts(h, k, v, i, r);
    r
  }

  lemma StoreFacts(h: Hash, k: Key, v: Value, i: nat, r: Hash)
    requires UniqueKeys(h)
    requires i == IndexOf(h, k)
    requires r == if i < |h| then h[i := Entry(k, v)] else h + [Entry(k, v)]
    ensures UniqueKeys(r)
    ensures Get(r, k) == Some(v)
    ensures forall k' :: k' != k ==> Get(r, k') == Get(h, k')
    ensures Keys(r) == if k in Keys(h) then Keys(h) else Keys(h) + [k]
  {
    if i < |h| {
      StoreExisting(h, k, v, i, r);
    } else {
      StoreNew(h, k, v, r);
    }
  }

  /** Storing under a key held at position `i` replaces that entry in place. */
  lemma StoreExisting(h: Hash, k: Key, v: Value, i: nat, r: Hash)
    requires UniqueKeys(h) && i < |h| && h[i].key == k
    requires r == h[i := Entry(k, v)]
    ensures UniqueKeys(r) && Get(r, k) == Some(v)
    ensures forall k' :: k' != k ==> Get(r, k') == Get(h, k')
    ensures Keys(r) == Keys(h) && k in Keys(h)
  {
    assert forall j :: 0 <= j < |h| ==> r[j].key == h[j].key;
    assert Keys(h)[i] == k;
    assert Keys(r) == Keys(h);
    GetAt(r, i);
    forall k' | k' != k ensures Get(r, k') == Get(h, k') {
      GetAgree(h, r, k');
    }
  }

  /** Storing under a key the hash lacks appends an entry. */
  lemma StoreNew(h: Hash, k: Key, v: Value, r: Hash)
    requires UniqueKeys(h) && forall j :: 0 <= j < |h| ==> h[j].key != k
    requires r == h + [Entry(k, v)]
    ensures UniqueKeys(r) && Get(r, k) == Some(v)
    ensures forall k' :: k' != k ==> Get(r, k') == Get(h, k')
    ensures k !in Keys(h) && Keys(r) == Keys(h) + [k]
  {
    assert forall j :: 0 <= j < |h| ==> Keys(h)[j] != k;
    assert Keys(r) == Keys(h) + [k];
    assert forall a :: 0 <= a < |h| ==> r[a].key != r[|h|].key;
    GetAt(r, |h|);
    forall k' | k' != k ensures Get(r, k') == Get(h, k') {
      GetAgree(h, r, k');
    }
  }

  /** Two hashes holding the same entries for `k`, at the same positions, look `k` up alike. */
  lemma GetAgree(h: Hash, r: Hash, k: Key)
    requires forall j :: 0 <= j < |h| && h[j].key == k ==> j < |r| && r[j] == h[j]
    requires forall j :: 0 <= j < |r| && r[j].key == k ==> j < |h| && h[j] == r[j]
    ensures Get(r, k) == Get(h, k)
  {
    var a, b := IndexOf(h, k), IndexOf(r, k);
    if a < |h| {
      assert r[a] == h[a];
    }
    if b < |r| {
      assert h[b] == r[b];
    }
  }

  /** The keys of `ks`, in order, that `existing` does not hold. */
  function NewKeys(ks: seq<Key>, existing: seq<Key>): seq<Key>
  {
    if ks == [] then []
    else (if ks[0] in existing then [] else [ks[0]]) + NewKeys(ks[1..], existing)
  }

  /**
    `h.merge!(o)`: the entries of `o` stored into `h` one after another, so
    the keys of `o` win and new keys are appended in `o`'s order.
   */
  function Merge(h: Hash, o: Hash): (r: Hash)
    requires UniqueKeys(h) && UniqueKeys(o)
    ensures UniqueKeys(r)
    ensures forall k :: Get(r, k) == if k in Keys(o) then Get(o, k) else Get(h, k)
    ensures Keys(r) == Keys(h) + NewKeys(Keys(o), Keys(h))
    decreases |o|
  {
    if o == [] then h
    else
      var h1 := Store(h, o[0].key, o[0].value);
      var o1 := o[1..];
      assert UniqueKeys(o1) by {
        forall a, b | 0 <= a < b < |o1| ensures o1[a].key != o1[b].key {
          assert o1[a] == o[a + 1] && o1[b] == o[b + 1];
        }
      }
      var r := Merge(h1, o1);
      MergeStep(h, o, h1, r);
      r
  }

  /** The inductive step of `Merge`: one store, then the merge of the rest. */
  lemma MergeStep(h: Hash, o: Hash, h1: Hash, r: Hash)
    requires UniqueKeys(h) && UniqueKeys(o) && o != []
    requires h1 == Store(h, o[0].key, o[0].value)
    requires forall k :: Get(r, k) == if k in Keys(o[1..]) then Get(o[1..], k) else Get(h1, k)
    requires Keys(r) == Keys(h1) + NewKeys(Keys(o[1..]), Keys(h1))
    ensures forall k :: Get(r, k) == if k in Keys(o) then Get(o, k) else Get(h, k)
    ensures Keys(r) == Keys(h) + NewKeys(Keys(o), Keys(h))
  {
    var k0 := o[0].key;
    HeadKeyNotInTail(o);
    forall k ensures Get(r, k) == if k in Keys(o) then Get(o, k) else Get(h, k) {
      GetCons(o, k);
    }
    MergeStepKeys(Keys(h), k0, Keys(o[1..]), Keys(h1), Keys(r));
  }

  /** The head key of a unique-keyed hash does not occur in its tail. */
  lemma HeadKeyNotInTail(o: Hash)
    requires UniqueKeys(o) && o != []
    ensures o[0].key !in Keys(o[1..])
    ensures Keys(o) == [o[0].key] + Keys(o[1..])
  {
    assert forall j :: 0 <= j < |o[1..]| ==> Keys(o[1..])[j] == o[j + 1].key;
  }

  /** Looking a key up in a non-empty hash: the head entry or the tail. */
  lemma GetCons(o: Hash, k: Key)
    requires o != []
    ensures Get(o, k) == if o[0].key == k then Some(o[0].value) else Get(o[1..], k)
  {
  }

  lemma MergeStepKeys(kh: seq<Key>, k0: Key, ks: seq<Key>, kh1: seq<Key>, kr: seq<Key>)
    requires k0 !in ks
    requires kh1 == if k0 in kh then kh else kh + [k0]
    requires kr == kh1 + NewKeys(ks, kh1)
    ensures kr == kh + NewKeys([k0] + ks, kh)
  {
    NewKeysCons(k0, ks, kh);
    if k0 in kh {
      assert NewKeys([k0] + ks, kh) == NewKeys(ks, kh);
    } else {
      NewKeysAfterAdd(ks, kh, k0);
      assert kr == (kh + [k0]) + NewKeys(ks, kh);
      assert kr == kh + ([k0] + NewKeys(ks, kh));
    }
  }

  lemma NewKeysCons(k0: Key, ks: seq<Key>, existing: seq<Key>)
    ensures NewKeys([k0] + ks, existing) == (if k0 in existing then [] else [k0]) + NewKeys(ks, existing)
  {
    assert ([k0] + ks)[1..] == ks;
  }

  /** The new keys are exactly the keys of `ks` that `existing` lacks. */
  lemma {:induction false} NewKeysMembers(ks: seq<Key>, existing: seq<Key>, k: Key)
    ensures k in NewKeys(ks, existing) <==> k in ks && k !in existing
  {
    if ks != [] {
      NewKeysMembers(ks[1..], existing, k);
      assert ks == [ks[0]] + ks[1..];
    }
  }

  /** Adding a key the rest of `ks` does not hold leaves the remaining new keys alone. */
  lemma {:induction false} NewKeysAfterAdd(ks: seq<Key>, existing: seq<Key>, k0: Key)
    requires k0 !in ks
    ensures NewKeys(ks, existing + [k0]) == NewKeys(ks, existing)
  {
    if ks != [] {
      assert ks[0] in existing + [k0] <==> ks[0] in existing;
      NewKeysAfterAdd(ks[1..], existing, k0);
    }
  }
}
