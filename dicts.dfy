/** Python's `dict`: a finite map that remembers the order in which its keys were first inserted. */
module Dicts {

  /** `keys` lists every key once, in insertion order; `entries` holds the values. */
  datatype Dict<K(==), V> = Dict(keys: seq<K>, entries: map<K, V>) {

    ghost predicate Valid()
    {
      (forall i, j :: 0 <= i < j < |keys| ==> keys[i] != keys[j]) &&
      (forall k :: k in entries ==> k in keys) &&
      (forall i :: 0 <= i < |keys| ==> keys[i] in entries)
    }

    /** `d[k] = v`: an existing key keeps its place, a new key goes last. */
    function Put(k: K, v: V): (r: Dict<K, V>)
      ensures r.entries == entries[k := v]
      ensures k in entries ==> r.keys == keys
      ensures k !in entries ==> r.keys == keys + [k]
    {
      if k in entries then Dict(keys, entries[k := v]) else Dict(keys + [k], entries[k := v])
    }

    /** Storing a key keeps the keys listed once each, and listed exactly when present. */
    lemma PutValid(k: K, v: V)
      requires Valid()
      ensures Put(k, v).Valid()
    {
    }

    /** `list(d.items())`. */
    function Items(): (r: seq<(K, V)>)
      requires Valid()
      ensures |r| == |keys|
      ensures forall i :: 0 <= i < |r| ==> r[i] == (keys[i], entries[keys[i]])
    {
      seq(|keys|, i requires 0 <= i < |keys| => (keys[i], entries[keys[i]]))
    }
  }

  function Empty<K(==), V>(): (r: Dict<K, V>)
    ensures r.Valid() && r.keys == [] && r.entries == map[]
  {
    Dict([], map[])
  }

  /** The first components of a list of pairs. */
  function Firsts<K, V>(items: seq<(K, V)>): (r: seq<K>)
    ensures |r| == |items|
    ensures forall i :: 0 <= i < |items| ==> r[i] == items[i].0
  {
    seq(|items|, i requires 0 <= i < |items| => items[i].0)
  }

  ghost predicate Distinct<K>(s: seq<K>)
  {
    forall i, j :: 0 <= i < j < |s| ==> s[i] != s[j]
  }

  /** The elements of s, each at the position of its first occurrence. */
  function FirstOccurrences<K(==)>(s: seq<K>): (r: seq<K>)
    ensures Distinct(r)
    ensures forall i :: 0 <= i < |s| ==> s[i] in r
    ensures forall i :: 0 <= i < |r| ==> r[i] in s
    decreases |s|
  {
    if s == [] then []
    else
      var r := FirstOccurrences(s[..|s| - 1]);
      if s[|s| - 1] in r then r else r + [s[|s| - 1]]
  }

  /** A list without repeats is its own list of first occurrences. */
  lemma {:induction false} FirstOccurrencesDistinct<K>(s: seq<K>)
    requires Distinct(s)
    ensures FirstOccurrences(s) == s
  {
    if s != [] {
      var init := s[..|s| - 1];
      FirstOccurrencesDistinct(init);
      assert s[|s| - 1] !in init;
    }
  }

  /** The pair at position i is the last one with its key. */
  ghost predicate LastOfKey<K, V>(items: seq<(K, V)>, i: nat)
    requires i < |items|
  {
    forall j :: i < j < |items| ==> items[j].0 != items[i].0
  }

  /** `{k: v for k, v in items}`: a later pair overwrites the value of an earlier
      one with the same key, but the key keeps its first position. */
  function FromItems<K(==), V>(items: seq<(K, V)>): (r: Dict<K, V>)
    ensures r.Valid()
    ensures forall i :: 0 <= i < |items| ==> items[i].0 in r.entries
    ensures forall k :: k in r.entries ==> (k, r.entries[k]) in items
  {
    if items == [] then Empty()
    else
      var init := items[..|items| - 1];
      assert Firsts(items) == Firsts(init) + [items[|items| - 1].0];
      FromItems(init).PutValid(items[|items| - 1].0, items[|items| - 1].1);
      FromItems(init).Put(items[|items| - 1].0, items[|items| - 1].1)
  }

  /** The comprehension lists each key where it first occurs among the pairs. */
  lemma {:induction false} FromItemsKeys<K, V>(items: seq<(K, V)>)
    ensures FromItems(items).keys == FirstOccurrences(Firsts(items))
  {
    if items != [] {
      var init := items[..|items| - 1];
      var x := items[|items| - 1];
      assert Firsts(items)[..|items| - 1] == Firsts(init);
      FromItemsKeys(init);
      var d := FromItems(init);
      assert x.0 in d.entries <==> x.0 in d.keys;
    }
  }

  /** The comprehension holds, for each key, the value of the last pair with that key. */
  lemma {:induction false} FromItemsLast<K, V>(items: seq<(K, V)>, i: nat)
    requires i < |items| && LastOfKey(items, i)
    ensures FromItems(items).entries[items[i].0] == items[i].1
  {
    if i < |items| - 1 {
      var init := items[..|items| - 1];
      assert LastOfKey(init, i);
      assert items[|items| - 1].0 != items[i].0;
      FromItemsLast(init, i);
    }
  }

  /** Rebuilding a dict from its own items gives the same dict, key order included. */
  lemma {:induction false} FromItemsOfItems<K, V>(d: Dict<K, V>)
    requires d.Valid()
    ensures FromItems(d.Items()) == d
  {
    var items := d.Items();
    assert Firsts(items) == d.keys;
    ItemsOfFromItems(items);
    SameItems(FromItems(items), d);
  }

  /** Two dicts that list the same items in the same order are equal. */
  lemma SameItems<K, V>(a: Dict<K, V>, b: Dict<K, V>)
    requires a.Valid() && b.Valid() && a.keys == b.keys && a.Items() == b.Items()
    ensures a == b
  {
    forall k | k in a.entries ensures k in b.entries && a.entries[k] == b.entries[k] {
      var i :| 0 <= i < |a.keys| && a.keys[i] == k;
      assert a.Items()[i] == b.Items()[i];
    }
    assert a.entries == b.entries;
  }

  /** Building a dict from pairs with distinct keys and listing its items gives the pairs back. */
  lemma {:induction false} ItemsOfFromItems<K, V>(items: seq<(K, V)>)
    requires Distinct(Firsts(items))
    ensures FromItems(items).keys == Firsts(items)
    ensures FromItems(items).Items() == items
  {
    var d := FromItems(items);
    KeysOfFromItems(items);
    forall i | 0 <= i < |items|
      ensures d.entries[items[i].0] == items[i].1
    {
      ValueOfFromItems(items, i);
    }
  }

  lemma {:induction false} KeysOfFromItems<K, V>(items: seq<(K, V)>)
    requires Distinct(Firsts(items))
    ensures FromItems(items).keys == Firsts(items)
  {
    if items != [] {
      var init := items[..|items| - 1];
      assert Firsts(items) == Firsts(init) + [items[|items| - 1].0];
      assert Distinct(Firsts(init)) by {
        forall i, j | 0 <= i < j < |init| ensures Firsts(init)[i] != Firsts(init)[j] {
          assert Firsts(items)[i] != Firsts(items)[j];
        }
      }
      KeysOfFromItems(init);
      var k := items[|items| - 1].0;
      forall j | 0 <= j < |init| ensures Firsts(init)[j] != k {
        assert Firsts(items)[j] != Firsts(items)[|items| - 1];
      }
    }
  }

  lemma {:induction false} ValueOfFromItems<K, V>(items: seq<(K, V)>, i: nat)
    requires Distinct(Firsts(items)) && i < |items|
    ensures items[i].0 in FromItems(items).entries
    ensures FromItems(items).entries[items[i].0] == items[i].1
  {
    var init := items[..|items| - 1];
    assert Firsts(items) == Firsts(init) + [items[|items| - 1].0];
    if i < |items| - 1 {
      assert Distinct(Firsts(init)) by {
        forall a, b | 0 <= a < b < |init| ensures Firsts(init)[a] != Firsts(init)[b] {
          assert Firsts(items)[a] != Firsts(items)[b];
        }
      }
      ValueOfFromItems(init, i);
      assert Firsts(items)[i] != Firsts(items)[|items| - 1];
    }
  }
}
