/** Tables that gather sets of flags under a key: a new key is appended, a known one is updated in place. */
module FlagTables {
  datatype Entry<T> = Entry(key: nat, flags: set<T>)

  ghost predicate Has<T>(table: seq<Entry<T>>, key: nat, flag: T) {
    exists i :: 0 <= i < |table| && table[i].key == key && flag in table[i].flags
  }

  function Merged<T>(table: seq<Entry<T>>, key: nat, added: set<T>): (r: seq<Entry<T>>)
    ensures |table| <= |r|
  {
    if table == [] then [Entry(key, added)]
    else if table[0].key == key then [Entry(key, table[0].flags + added)] + table[1..]
    else [table[0]] + Merged(table[1..], key, added)
  }

  /** Where the linear search for the key stops. */
  lemma {:induction false} MergedAt<T>(table: seq<Entry<T>>, key: nat, added: set<T>, i: nat)
    requires i <= |table| && (forall k :: 0 <= k < i ==> table[k].key != key)
    requires i < |table| ==> table[i].key == key
    ensures Merged(table, key, added) ==
            if i < |table| then table[i := Entry(key, table[i].flags + added)] else table + [Entry(key, added)]
  {
    if i > 0 {
      MergedAt(table[1..], key, added, i - 1);
      assert table == [table[0]] + table[1..];
    }
  }

  /** Merging adds exactly the given flags to the given key. */
  lemma {:induction false} MergedHas<T>(table: seq<Entry<T>>, key: nat, added: set<T>, other: nat, flag: T)
    ensures Has(Merged(table, key, added), other, flag) <==> Has(table, other, flag) || (other == key && flag in added)
  {
    var r := Merged(table, key, added);
    if table == [] {
      assert r[0] == Entry(key, added);
    } else {
      assert table == [table[0]] + table[1..] && r == [r[0]] + r[1..];
      HasSplits(table[0], table[1..], other, flag);
      HasSplits(r[0], r[1..], other, flag);
      if table[0].key != key {
        MergedHas(table[1..], key, added, other, flag);
      }
    }
  }

  lemma HasSplits<T>(first: Entry<T>, rest: seq<Entry<T>>, key: nat, flag: T)
    ensures Has([first] + rest, key, flag) <==> (first.key == key && flag in first.flags) || Has(rest, key, flag)
  {
    var table := [first] + rest;
    assert table[0] == first;
    if i :| 0 <= i < |rest| && rest[i].key == key && flag in rest[i].flags {
      assert table[i + 1] == rest[i];
    }
  }

  method Merge<T>(table: seq<Entry<T>>, key: nat, added: set<T>) returns (r: seq<Entry<T>>)
    ensures r == Merged(table, key, added)
  {
    var i := 0;
    while i < |table| && table[i].key != key
      invariant 0 <= i <= |table|
      invariant forall k :: 0 <= k < i ==> table[k].key != key
    {
      i := i + 1;
    }
    MergedAt(table, key, added, i);
    if i < |table| {
      r := table[i := Entry(key, table[i].flags + added)];
    } else {
      r := table + [Entry(key, added)];
    }
  }
}
