/** A JavaScript plain object used as a dictionary: string keys in insertion
    order (what `Object.keys` lists) and the value under each key.
    Assigning to a present key keeps its position; a new key goes last. */
module Dicts {

  datatype Dict<V> = Dict(keys: seq<string>, entries: map<string, V>)
  {
    /** The representation invariant: the key list is duplicate-free and
        lists exactly the keys that hold a value. */
    ghost predicate Valid() {
      && (forall i, j :: 0 <= i < j < |keys| ==> keys[i] != keys[j])
      && (forall k :: k in entries <==> k in keys)
    }

    /** `obj[key] = value`. */
    function Put(key: string, value: V): (d: Dict<V>)
      ensures Valid() ==> d.Valid()
      ensures d.entries == entries[key := value]
      ensures key in entries ==> d.keys == keys
      ensures key !in entries ==> d.keys == keys + [key]
    {
      if key in entries then Dict(keys, entries[key := value])
      else Dict(keys + [key], entries[key := value])
    }
  }

  function Empty<V>(): (d: Dict<V>)
    ensures d.Valid() && d.keys == [] && d.entries == map[]
  {
    Dict([], map[])
  }

  /** Writing `(key, value)` pairs one after the other. */
  function PutAll<V>(d: Dict<V>, writes: seq<(string, V)>): (r: Dict<V>)
    ensures d.Valid() ==> r.Valid()
    decreases |writes|
  {
    if writes == [] then d
    else PutAll(d.Put(writes[0].0, writes[0].1), writes[1..])
  }

  /** Whether some write in `writes` targets `key`. */
  predicate Written<V>(writes: seq<(string, V)>, key: string) {
    exists i :: 0 <= i < |writes| && writes[i].0 == key
  }

  /** The value of the last write to `key` (which must exist). */
  function LastWrite<V>(writes: seq<(string, V)>, key: string): V
    requires Written(writes, key)
    decreases |writes|
  {
    var n := |writes|;
    if writes[n - 1].0 == key then writes[n - 1].1
    else
      assert Written(writes[..n - 1], key) by {
        var i :| 0 <= i < n && writes[i].0 == key;
        assert writes[..n - 1][i].0 == key;
      }
      LastWrite(writes[..n - 1], key)
  }

  /** After a sequence of writes, every written key holds the value of the
      LAST write to it, and every other key is as before. */
  lemma {:induction false} PutAllLastWins<V>(d: Dict<V>, writes: seq<(string, V)>, key: string)
    ensures Written(writes, key) ==>
      key in PutAll(d, writes).entries && PutAll(d, writes).entries[key] == LastWrite(writes, key)
    ensures !Written(writes, key) ==>
      (key in PutAll(d, writes).entries <==> key in d.entries) &&
      (key in d.entries ==> PutAll(d, writes).entries[key] == d.entries[key])
    decreases |writes|
  {
    if writes != [] {
      var n := |writes|;
      PutAllSnoc(d, writes[..n - 1], writes[n - 1]);
      assert writes[..n - 1] + [writes[n - 1]] == writes;
      PutAllLastWins(d, writes[..n - 1], key);
      if Written(writes[..n - 1], key) {
        var i :| 0 <= i < n - 1 && writes[..n - 1][i].0 == key;
        assert writes[i].0 == key;
      }
    }
  }

  lemma {:induction false} PutAllSnoc<V>(d: Dict<V>, writes: seq<(string, V)>, w: (string, V))
    ensures PutAll(d, writes + [w]) == PutAll(d, writes).Put(w.0, w.1)
    decreases |writes|
  {
    if writes == [] {
      assert writes + [w] == [w];
    } else {
      assert (writes + [w])[1..] == writes[1..] + [w];
      PutAllSnoc(d.Put(writes[0].0, writes[0].1), writes[1..], w);
    }
  }

  /** Two batches of writes are the writes of their concatenation. */
  lemma {:induction false} PutAllAppend<V>(d: Dict<V>, a: seq<(string, V)>, b: seq<(string, V)>)
    ensures PutAll(d, a + b) == PutAll(PutAll(d, a), b)
    decreases |a|
  {
    if a == [] {
      assert a + b == b;
    } else {
      assert (a + b)[0] == a[0];
      assert (a + b)[1..] == a[1..] + b;
      PutAllAppend(d.Put(a[0].0, a[0].1), a[1..], b);
    }
  }
}
