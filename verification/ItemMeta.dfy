/** The process-local item metadata caches of src/click_rec/kafka/enrichment.py:
    a positive FIFO dict, a negative set, both capped, in front of an item table. */
module ItemMeta {
  import opened Lists

  datatype Meta = Meta(category: string, price: real)
  type ItemTable = map<string, Meta>

  /** The SELECT by primary key. */
  function Lookup(db: ItemTable, id: string): Option<Meta> {
    if id in db then Some(db[id]) else None
  }

  /** How many entries one eviction drops: `max(1, cap // 10)`, or all there are. */
  function Victims(size: nat, cap: nat): (r: nat)
    ensures r <= size && (r == 0 <==> size < cap || size == 0)
    ensures size >= cap && size > 1 ==> r < size && if cap < 10 then r == 1 else 10 * r <= cap < 10 * (r + 1)
  {
    var k := if cap / 10 < 1 then 1 else cap / 10;
    if size < cap then 0 else if size < k then size else k
  }

  /** `cap`, except that an insert into an empty cache of capacity 0 still stores one entry. */
  function Bound(cap: nat): nat {
    if cap == 0 then 1 else cap
  }

  /** The entries of `items` for the keys that are left. */
  function Kept(items: map<string, Meta>, keys: seq<string>): map<string, Meta> {
    map k | k in items && k in keys :: items[k]
  }

  lemma OldestDropped(items: map<string, Meta>, keys: seq<string>)
    requires keys != [] && Distinct(keys)
    ensures Kept(items, keys) - {keys[0]} == Kept(items, keys[1..])
  {
    assert keys == [keys[0]] + keys[1..];
  }

  class ItemMetaCache {
    var keys: seq<string>          // insertion order of the positive dict
    var items: map<string, Meta>   // _item_cache
    var negative: set<string>      // _item_negative_cache
    const cap: nat                 // settings.item_cache_max_size

    ghost predicate Valid(db: ItemTable)
      reads this
    {
      && Distinct(keys)
      && (forall k :: k in keys <==> k in items)
      && (forall k :: k in items ==> Lookup(db, k) == Some(items[k]))
      && (forall k :: k in negative ==> Lookup(db, k) == None)
      && |keys| <= Bound(cap)
      && |negative| <= Bound(cap)
    }

    constructor (cap: nat)
      ensures this.cap == cap && items == map[] && negative == {}
      ensures forall db :: Valid(db)
    {
      this.cap := cap;
      keys, items, negative := [], map[], {};
    }

    /** `_evict_if_full`: drops the oldest entries. */
    method EvictIfFull()
      requires Distinct(keys) && forall k :: k in keys <==> k in items
      modifies this`keys, this`items
      ensures keys == old(keys)[Victims(|old(keys)|, cap)..]
      ensures items == Kept(old(items), keys)
    {
      DistinctSize(keys);
      assert items.Keys == set k | k in keys;
      ghost var all := keys;
      var victims := Victims(|items|, cap);
      for i := 0 to victims
        invariant keys == all[i..]
        invariant items == Kept(old(items), keys)
      {
        OldestDropped(old(items), keys);
        items := items - {keys[0]};
        keys := keys[1..];
      }
    }

    /** `_evict_negative_if_full`: set iteration order is unspecified, so any victims may go. */
    method EvictNegativeIfFull()
      modifies this`negative
      ensures negative <= old(negative)
      ensures |negative| == |old(negative)| - Victims(|old(negative)|, cap)
    {
      var victims := Victims(|negative|, cap);
      for i := 0 to victims
        invariant negative <= old(negative)
        invariant |negative| == |old(negative)| - i
      {
        assert negative != {};
        var k :| k in negative;
        negative := negative - {k};
      }
    }

    /** What another coroutine may do while this one awaits the database: any lookups of its own. */
    method Yield(db: ItemTable)
      requires Valid(db)
      modifies this
      ensures Valid(db)
    {
    }

    method ResolveItemMeta(db: ItemTable, id: string) returns (meta: Option<Meta>, queried: bool)
      requires Valid(db)
      modifies this
      ensures Valid(db)
      ensures meta == (if id in db then Some(db[id]) else None) == Lookup(db, id)
      ensures queried <==> id !in old(items) && id !in old(negative)
      ensures queried ==> (id in items <==> id in db) && (id in negative <==> id !in db)
      ensures !queried ==> unchanged(this)
    {
      if id in negative {
        return None, false;
      }
      if id in items {
        return Some(items[id]), false;
      }
      Yield(db);
      var row := Lookup(db, id);
      if row == None {
        EvictNegativeIfFull();
        negative := negative + {id};
        return None, true;
      }
      EvictIfFull();
      if id !in items {
        keys := keys + [id];
      }
      items := items[id := row.value];
      return Some(row.value), true;
    }

    /** Any sequence of lookups answers as direct lookups in the table would. */
    method ResolveAll(db: ItemTable, ids: seq<string>) returns (metas: seq<Option<Meta>>)
      requires Valid(db)
      modifies this
      ensures Valid(db)
      ensures |metas| == |ids| && forall i :: 0 <= i < |ids| ==> metas[i] == Lookup(db, ids[i])
    {
      metas := [];
      for i := 0 to |ids|
        invariant Valid(db)
        invariant |metas| == i && forall j :: 0 <= j < i ==> metas[j] == Lookup(db, ids[j])
      {
        var meta, _ := ResolveItemMeta(db, ids[i]);
        metas := metas + [meta];
      }
    }

    /** What validity gives: the two caches never disagree, and neither outgrows its capacity, unless the
        capacity is 0 and something has been looked up. */
    lemma ValidCaches(db: ItemTable)
      requires Valid(db)
      ensures items.Keys !! negative
      ensures |items| <= cap && |negative| <= cap <==> cap >= 1 || (items == map[] && negative == {})
    {
      DistinctSize(keys);
      assert items.Keys == set k | k in keys;
    }
  }
}
