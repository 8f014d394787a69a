/**
 * A Python dictionary as an insertion-ordered sequence of entries: `Put` is
 * `d[key] = value` and `Lookup` is `d.get(key)`.
 */
module Dicts {
  import opened Wrappers

  /** The value stored under `key`, if any. */
  function Lookup(d: seq<(string, string)>, key: string): Option<string> {
    if d == [] then None
    else if d[0].0 == key then Some(d[0].1)
    else Lookup(d[1..], key)
  }

  /** No key is stored twice. */
  predicate DistinctKeys(d: seq<(string, string)>) {
    forall i, j :: 0 <= i < j < |d| ==> d[i].0 != d[j].0
  }

  /** `d[key] = value`: an existing key keeps its place and takes the new value; a new key goes last. */
  function Put(d: seq<(string, string)>, key: string, value: string): (r: seq<(string, string)>)
    ensures forall i :: 0 <= i < |r| ==> r[i].0 == key || r[i] in d
  {
    if d == [] then [(key, value)]
    else if d[0].0 == key then [(key, value)] + d[1..]
    else [d[0]] + Put(d[1..], key, value)
  }

  /** After `d[key] = value`, the key holds `value`. */
  lemma {:induction false} PutGet(d: seq<(string, string)>, key: string, value: string)
    ensures Lookup(Put(d, key, value), key) == Some(value)
  {
    if d != [] && d[0].0 != key {
      var r := Put(d, key, value);
      assert r[0] == d[0] && r[1..] == Put(d[1..], key, value);
      PutGet(d[1..], key, value);
    }
  }

  /** `d[key] = value` leaves every other key's entry as it was. */
  lemma {:induction false} PutOther(d: seq<(string, string)>, key: string, value: string, other: string)
    requires other != key
    ensures Lookup(Put(d, key, value), other) == Lookup(d, other)
  {
    if d != [] && d[0].0 != key {
      var r := Put(d, key, value);
      assert r[0] == d[0] && r[1..] == Put(d[1..], key, value);
      PutOther(d[1..], key, value, other);
    } else if d != [] {
      var r := Put(d, key, value);
      assert r[0] == (key, value) && r[1..] == d[1..];
    }
  }

  /** An entry is absent exactly when no stored key equals it. */
  lemma {:induction false} LookupNone(d: seq<(string, string)>, key: string)
    ensures Lookup(d, key).None? <==> forall i :: 0 <= i < |d| ==> d[i].0 != key
  {
    if d != [] {
      LookupNone(d[1..], key);
      assert forall i :: 1 <= i < |d| ==> d[i] == d[1..][i - 1];
    }
  }

  /**
   * A new key goes after every existing one; an existing key keeps its place,
   * so the order of the keys does not change.
   */
  lemma {:induction false} PutShape(d: seq<(string, string)>, key: string, value: string)
    ensures Lookup(d, key).None? ==> Put(d, key, value) == d + [(key, value)]
    ensures Lookup(d, key).Some? ==>
      |Put(d, key, value)| == |d| && forall i :: 0 <= i < |d| ==> Put(d, key, value)[i].0 == d[i].0
  {
    if d != [] && d[0].0 != key {
      var r := Put(d, key, value);
      var t := Put(d[1..], key, value);
      assert r == [d[0]] + t;
      PutShape(d[1..], key, value);
      if Lookup(d, key).None? {
        assert Lookup(d[1..], key).None?;
        ConsSnoc(d, (key, value));
      } else {
        assert Lookup(d[1..], key).Some?;
        ConsSameKeys(d, t);
      }
    }
  }

  lemma ConsSnoc(d: seq<(string, string)>, e: (string, string))
    requires d != []
    ensures [d[0]] + (d[1..] + [e]) == d + [e]
  {
    assert d == [d[0]] + d[1..];
  }

  /** Keeping the first entry in front of a tail with the same keys keeps all the keys. */
  lemma ConsSameKeys(d: seq<(string, string)>, t: seq<(string, string)>)
    requires d != [] && |t| == |d| - 1 && forall i :: 0 <= i < |t| ==> t[i].0 == d[1..][i].0
    ensures var r := [d[0]] + t; |r| == |d| && forall i :: 0 <= i < |d| ==> r[i].0 == d[i].0
  {
    var r := [d[0]] + t;
    forall i | 0 <= i < |d|
      ensures r[i].0 == d[i].0
    {
      if i > 0 {
        assert r[i] == t[i - 1] && d[i] == d[1..][i - 1];
      }
    }
  }

  /** Assignment never stores a key twice. */
  lemma PutDistinct(d: seq<(string, string)>, key: string, value: string)
    requires DistinctKeys(d)
    ensures DistinctKeys(Put(d, key, value))
  {
    PutShape(d, key, value);
    LookupNone(d, key);
  }
}
