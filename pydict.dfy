/** Python's `dict`: a map that remembers the order in which its keys were
    first inserted, the order `keys()` and `items()` iterate in. */
module PyDicts {
  import opened Wrappers

  datatype Dict<K, V> = Dict(keys: seq<K>, entries: map<K, V>)
  {
    /** Every key listed once, and exactly the keys that have entries. */
    predicate Valid() {
      (forall i, j :: 0 <= i < j < |keys| ==> keys[i] != keys[j]) &&
      (forall k :: k in entries ==> k in keys) &&
      (forall i :: 0 <= i < |keys| ==> keys[i] in entries)
    }

    /** `d[k] = v`: a new key goes last, an existing key keeps its place. */
    function Set(k: K, v: V): (d: Dict<K, V>)
      requires Valid()
      ensures d.Valid()
      ensures d.entries == entries[k := v]
      ensures k in keys ==> d.keys == keys
      ensures k !in keys ==> d.keys == keys + [k]
    {
      if k in entries then Dict(keys, entries[k := v]) else Dict(keys + [k], entries[k := v])
    }
  }

  function Empty<K, V>(): (d: Dict<K, V>)
    ensures d.Valid() && d.keys == [] && d.entries == map[]
  {
    Dict([], map[])
  }

  /** The dictionary that assigning `d[k] = v` for each item in turn builds
      from an empty one. */
  function FromItems<K, V>(items: seq<(K, V)>): (d: Dict<K, V>)
    ensures d.Valid()
  {
    if items == [] then Empty()
    else FromItems(items[..|items| - 1]).Set(items[|items| - 1].0, items[|items| - 1].1)
  }

  /** Exactly the items' keys become keys. */
  lemma {:induction false} FromItemsHas<K, V>(items: seq<(K, V)>, k: K)
    ensures k in FromItems(items).entries <==> exists i :: 0 <= i < |items| && items[i].0 == k
  {
    if items != [] {
      var init, last := items[..|items| - 1], items[|items| - 1];
      FromItemsHas(init, k);
      if k == last.0 {
        assert items[|items| - 1].0 == k;
      } else if k in FromItems(init).entries {
        var i :| 0 <= i < |init| && init[i].0 == k;
        assert items[i].0 == k;
      } else {
        forall i | 0 <= i < |items|
          ensures items[i].0 != k
        {
          if i < |init| {
            assert items[i] == init[i];
          }
        }
      }
    }
  }

  /** A key holds the value of the last item with that key. */
  lemma {:induction false} FromItemsLast<K, V>(items: seq<(K, V)>, i: int)
    requires 0 <= i < |items|
    requires forall j :: i < j < |items| ==> items[j].0 != items[i].0
    ensures items[i].0 in FromItems(items).entries
    ensures FromItems(items).entries[items[i].0] == items[i].1
  {
    if i < |items| - 1 {
      var init := items[..|items| - 1];
      assert init[i] == items[i];
      FromItemsLast(init, i);
    }
  }

  /** Every value comes from an item with its key. */
  lemma {:induction false} FromItemsValue<K, V>(items: seq<(K, V)>, k: K)
    requires k in FromItems(items).entries
    ensures exists i :: 0 <= i < |items| && items[i] == (k, FromItems(items).entries[k])
  {
    var init, last := items[..|items| - 1], items[|items| - 1];
    if k == last.0 {
      assert items[|items| - 1] == (k, FromItems(items).entries[k]);
    } else {
      FromItemsValue(init, k);
      var i :| 0 <= i < |init| && init[i] == (k, FromItems(init).entries[k]);
      assert items[i] == init[i];
    }
  }

  /** Items with distinct keys keep their order as the dictionary's keys. */
  lemma {:induction false} FromItemsKeys<K, V>(items: seq<(K, V)>)
    requires forall i, j :: 0 <= i < j < |items| ==> items[i].0 != items[j].0
    ensures |FromItems(items).keys| == |items|
    ensures forall i :: 0 <= i < |items| ==> FromItems(items).keys[i] == items[i].0
  {
    if items != [] {
      var init := items[..|items| - 1];
      FromItemsKeys(init);
      FromItemsHas(init, items[|items| - 1].0);
    }
  }

  /** The items of the loop `for k in keys: d[k] = f(k)`. */
  function Keyed<K, V>(keys: seq<K>, f: K -> V): (items: seq<(K, V)>)
    ensures |items| == |keys|
  {
    seq(|keys|, i requires 0 <= i < |keys| => (keys[i], f(keys[i])))
  }

  lemma KeyedSnoc<K, V>(keys: seq<K>, f: K -> V, j: int)
    requires 0 <= j < |keys|
    ensures Keyed(keys, f)[..j + 1] == Keyed(keys, f)[..j] + [(keys[j], f(keys[j]))]
  {
  }

  /** Filling a dictionary from distinct keys keeps their order and stores
      `f(k)` under each `k`. */
  lemma FromKeyed<K, V>(keys: seq<K>, f: K -> V)
    requires forall i, j :: 0 <= i < j < |keys| ==> keys[i] != keys[j]
    ensures FromItems(Keyed(keys, f)).keys == keys
    ensures forall k :: k in FromItems(Keyed(keys, f)).entries ==> FromItems(Keyed(keys, f)).entries[k] == f(k)
  {
    var items := Keyed(keys, f);
    FromItemsKeys(items);
    forall k | k in FromItems(items).entries
      ensures FromItems(items).entries[k] == f(k)
    {
      FromItemsValue(items, k);
    }
  }

  /** `for k in keys: d[k] = f(k)` into an empty `d`, where `f` may raise:
      the first error ends the loop and is returned in place of `d`. */
  method FillFrom<K, V, E>(keys: seq<K>, f: K ~> Result<V, E>) returns (r: Result<Dict<K, V>, E>)
    requires forall i, j :: 0 <= i < j < |keys| ==> keys[i] != keys[j]
    requires forall i :: 0 <= i < |keys| ==> f.requires(keys[i])
    ensures r.Ok? <==> forall i :: 0 <= i < |keys| ==> f(keys[i]).Ok?
    ensures r.Err? ==> exists i :: 0 <= i < |keys| && f(keys[i]) == Err(r.error) &&
                                  forall h :: 0 <= h < i ==> f(keys[h]).Ok?
    ensures r.Ok? ==> r.value.Valid() && r.value.keys == keys
    ensures r.Ok? ==> forall k :: k in r.value.entries ==> f.requires(k) && f(k) == Ok(r.value.entries[k])
  {
    var d := Empty();
    var j := 0;
    while j < |keys|
      invariant 0 <= j <= |keys|
      invariant forall i :: 0 <= i < j ==> f(keys[i]).Ok?
      invariant d.Valid() && d.keys == keys[..j]
      invariant forall k :: k in d.entries ==> f.requires(k) && f(k) == Ok(d.entries[k])
    {
      var v := f(keys[j]);
      if v.Err? {
        return Err(v.error);
      }
      assert keys[j] !in keys[..j];
      d := d.Set(keys[j], v.value);
      assert keys[..j + 1] == keys[..j] + [keys[j]];
      j := j + 1;
    }
    assert keys[..j] == keys;
    return Ok(d);
  }
}
