/** The association list behind the bridge's maps of listeners and of waiting callers. */
module AssocMaps {
  import opened Options

  datatype Item<V> = Item(key: string, value: V)

  /** The map that a list stands for: an earlier item hides a later one. */
  function AsMap<V>(items: seq<Item<V>>): map<string, V> {
    if items == [] then map[] else AsMap(items[1..])[items[0].key := items[0].value]
  }

  predicate Distinct<V>(items: seq<Item<V>>) {
    forall i, j :: 0 <= i < j < |items| ==> items[i].key != items[j].key
  }

  lemma {:induction false} Lookup<V>(items: seq<Item<V>>, key: string)
    ensures key in AsMap(items) <==> exists i :: 0 <= i < |items| && items[i].key == key
    ensures Distinct(items) ==>
              forall i :: 0 <= i < |items| && items[i].key == key ==> AsMap(items)[key] == items[i].value
  {
    if items != [] {
      Lookup(items[1..], key);
      assert forall i :: 0 < i < |items| ==> items[i] == items[1..][i - 1];
    }
  }

  /** Replacing the value of an item replaces the value of its key. */
  lemma {:induction false} Replaced<V>(items: seq<Item<V>>, i: nat, value: V)
    requires i < |items| && Distinct(items)
    ensures AsMap(items[i := items[i].(value := value)]) == AsMap(items)[items[i].key := value]
    ensures Distinct(items[i := items[i].(value := value)])
  {
    if i > 0 {
      Replaced(items[1..], i - 1, value);
      assert items[i := items[i].(value := value)][1..] == items[1..][i - 1 := items[i].(value := value)];
    }
  }

  /** Unlinking an item takes its key out of the map, as no later item has it. */
  lemma {:induction false} Unlinked<V>(items: seq<Item<V>>, i: nat)
    requires i < |items| && Distinct(items)
    ensures AsMap(items[..i] + items[i + 1..]) == AsMap(items) - {items[i].key}
    ensures Distinct(items[..i] + items[i + 1..])
  {
    var rest := items[..i] + items[i + 1..];
    if i == 0 {
      assert rest == items[1..];
      Lookup(items[1..], items[0].key);
    } else {
      assert rest[0] == items[0] && rest[1..] == items[1..][..i - 1] + items[1..][i..];
      Unlinked(items[1..], i - 1);
    }
  }

  class AssocMap<V> {
    var items: seq<Item<V>>
    var count: nat
    ghost var removed: nat

    /** No key twice. The count is not taken back when an item is removed. */
    ghost predicate Valid()
      reads this
    {
      Distinct(items) && count == |items| + removed
    }

    ghost function Contents(): map<string, V>
      reads this
    {
      AsMap(items)
    }

    /** map_init. */
    constructor ()
      ensures Valid() && Contents() == map[] && count == 0
    {
      items := [];
      count := 0;
      removed := 0;
    }

    /** map_getItem. */
    method FindItem(key: string) returns (found: Option<nat>)
      requires Valid()
      ensures found.Some? <==> key in Contents()
      ensures found.Some? ==>
                found.value < |items| && items[found.value].key == key && items[found.value].value == Contents()[key]
    {
      Lookup(items, key);
      var i := 0;
      while i < |items|
        invariant i <= |items|
        invariant forall j :: 0 <= j < i ==> items[j].key != key
      {
        if items[i].key == key {
          return Some(i);
        }
        i := i + 1;
      }
      found := None;
    }

    /** map_set. */
    method Set(key: string, value: V)
      requires Valid()
      modifies this`items, this`count
      ensures Valid() && Contents() == old(Contents())[key := value]
      ensures count == old(count) + if key in old(Contents()) then 0 else 1
    {
      Lookup(items, key);
      var found := FindItem(key);
      match found {
        case Some(i) =>
          Replaced(items, i, value);
          items := items[i := items[i].(value := value)];
        case None =>
          items := [Item(key, value)] + items;
          assert items[1..] == old(items);
          count := count + 1;
      }
    }

    /** map_get. */
    method Get(key: string) returns (value: Option<V>)
      requires Valid()
      ensures value == if key in Contents() then Some(Contents()[key]) else None
    {
      var found := FindItem(key);
      value := if found.Some? then Some(items[found.value].value) else None;
    }

    /** map_del. */
    method Delete(key: string) returns (deleted: bool)
      requires Valid()
      modifies this`items, this`removed
      ensures Valid() && Contents() == old(Contents()) - {key}
      ensures deleted == (key in old(Contents()))
      ensures removed == old(removed) + if deleted then 1 else 0
    {
      var found := FindItem(key);
      match found {
        case Some(i) =>
          Unlinked(items, i);
          items := items[..i] + items[i + 1..];
          removed := removed + 1;
          deleted := true;
        case None =>
          assert Contents() == Contents() - {key};
          deleted := false;
      }
    }
  }
}
