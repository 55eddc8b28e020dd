/** One bounded policy store as the three subsystems share it (aegis_file.c, aegis_process.c,
    aegis_audit.c): a list scanned in order and a separate count, used by a single caller.
    Its reference is a bounded, insertion-ordered set of keys. */
module PolicyStore {
  import opened Kernel

  /** What an operation answers and what it leaves behind. */
  datatype Outcome<E> = Outcome(code: int, list: seq<E>)

  // ----- the reference: a bounded ordered set --------------------------------

  function Without<K(==)>(keys: seq<K>, k: K): seq<K> {
    if keys == [] then []
    else if keys[0] == k then Without(keys[1..], k)
    else [keys[0]] + Without(keys[1..], k)
  }

  /** A full set answers ENOSPC even for a key it holds. */
  function SetAdd<K(==)>(keys: seq<K>, max: nat, k: K, alloc: bool): Outcome<K> {
    if |keys| >= max then Outcome(-ENOSPC, keys)
    else if k in keys then Outcome(-EEXIST, keys)
    else if !alloc then Outcome(-ENOMEM, keys)
    else Outcome(0, keys + [k])
  }

  /** Addition as a list performs it, when the duplicate check is made with `query` but the
      entry appended reads back as `stored`. */
  function ListAdd<K(==)>(list: seq<K>, max: nat, query: K, stored: K, alloc: bool): Outcome<K> {
    if |list| >= max then Outcome(-ENOSPC, list)
    else if query in list then Outcome(-EEXIST, list)
    else if !alloc then Outcome(-ENOMEM, list)
    else Outcome(0, list + [stored])
  }

  function SetDel<K(==)>(keys: seq<K>, k: K): Outcome<K> {
    if k in keys then Outcome(0, Without(keys, k)) else Outcome(-ENOENT, keys)
  }

  /** An addition keeps the keys distinct exactly when it fails or what it stores was absent. */
  lemma ListAddDistinct<K>(list: seq<K>, max: nat, query: K, stored: K, alloc: bool)
    requires Distinct(list)
    ensures var o := ListAdd(list, max, query, stored, alloc);
            Distinct(o.list) <==> o.code != 0 || stored !in list
  {
    var o := ListAdd(list, max, query, stored, alloc);
    if o.code == 0 && stored in list {
      var i :| 0 <= i < |list| && list[i] == stored;
      assert o.list[i] == o.list[|list|];
    }
  }

  /** Deleting what was just added restores the list. */
  lemma AddThenDel<K>(list: seq<K>, max: nat, k: K, alloc: bool)
    requires SetAdd(list, max, k, alloc).code == 0
    ensures ListDel(SetAdd(list, max, k, alloc).list, k) == Outcome(0, list)
  {
    RemoveFirstAt(list + [k], k, |list|);
    assert (list + [k])[..|list|] + (list + [k])[|list| + 1..] == list;
  }

  lemma {:induction false} WithoutAbsent<K>(keys: seq<K>, k: K)
    requires k !in keys
    ensures Without(keys, k) == keys
  {
    if keys != [] {
      WithoutAbsent(keys[1..], k);
      assert keys == [keys[0]] + keys[1..];
    }
  }

  /** Taking out the first of distinct keys takes out the key. */
  lemma {:induction false} WithoutFirst<K>(keys: seq<K>, k: K, i: nat)
    requires Distinct(keys) && i < |keys| && keys[i] == k
    ensures Without(keys, k) == keys[..i] + keys[i + 1..]
  {
    if i == 0 {
      WithoutAbsent(keys[1..], k);
    } else {
      WithoutFirst(keys[1..], k, i - 1);
      assert keys[0] != k;
      assert [keys[0]] + keys[1..][..i - 1] == keys[..i];
    }
  }

  /** The list without its first occurrence of `k`, as `list_del` inside the scan leaves it. */
  function RemoveFirst<K(==)>(list: seq<K>, k: K): (r: seq<K>)
    requires k in list
    ensures |r| == |list| - 1
  {
    if list[0] == k then list[1..] else [list[0]] + RemoveFirst(list[1..], k)
  }

  lemma {:induction false} RemoveFirstCounts<K>(list: seq<K>, k: K)
    requires k in list
    ensures multiset(RemoveFirst(list, k)) == multiset(list) - multiset{k}
    ensures forall x :: x in RemoveFirst(list, k) ==> x in list
  {
    assert list == [list[0]] + list[1..];
    if list[0] != k {
      RemoveFirstCounts(list[1..], k);
    }
  }

  lemma {:induction false} RemoveFirstAt<K>(list: seq<K>, k: K, i: nat)
    requires i < |list| && list[i] == k && forall j :: 0 <= j < i ==> list[j] != k
    ensures RemoveFirst(list, k) == list[..i] + list[i + 1..]
  {
    if i > 0 {
      var tail := list[1..];
      assert tail[i - 1] == k && list[0] != k;
      RemoveFirstAt(tail, k, i - 1);
      assert RemoveFirst(list, k) == [list[0]] + RemoveFirst(tail, k);
      assert [list[0]] + tail[..i - 1] == list[..i] && tail[i..] == list[i + 1..];
    }
  }

  /** Deletion as a list performs it. */
  function ListDel<K(==)>(list: seq<K>, k: K): Outcome<K> {
    if k in list then Outcome(0, RemoveFirst(list, k)) else Outcome(-ENOENT, list)
  }

  /** On a list of distinct keys, list deletion is set deletion. */
  lemma {:induction false} ListDelIsSetDel<K>(list: seq<K>, k: K)
    requires Distinct(list)
    ensures ListDel(list, k) == SetDel(list, k)
  {
    if k in list {
      if list[0] == k {
        WithoutFirst(list, k, 0);
      } else {
        ListDelIsSetDel(list[1..], k);
      }
    }
  }

  lemma {:induction false} WithoutMember<K>(keys: seq<K>, k: K, x: K)
    ensures x in Without(keys, k) <==> x in keys && x != k
  {
    if keys != [] {
      WithoutMember(keys[1..], k, x);
      assert keys == [keys[0]] + keys[1..];
    }
  }

  /** Every run of the reference keeps it a bounded set of distinct keys. */
  lemma SetKept<K>(keys: seq<K>, max: nat, k: K, alloc: bool)
    requires Distinct(keys) && |keys| <= max
    ensures Distinct(SetAdd(keys, max, k, alloc).list) && |SetAdd(keys, max, k, alloc).list| <= max
    ensures Distinct(SetDel(keys, k).list) && |SetDel(keys, k).list| <= max
  {
    if k in keys {
      var i :| 0 <= i < |keys| && keys[i] == k;
      WithoutFirst(keys, k, i);
    }
  }

  /** Deleting from a list of distinct keys leaves distinct keys. */
  lemma ListDelDistinct<K>(list: seq<K>, k: K)
    requires Distinct(list)
    ensures Distinct(ListDel(list, k).list)
  {
    ListDelIsSetDel(list, k);
    SetKept(list, |list|, k, true);
  }

  // ----- the store -----------------------------------------------------------

  predicate AnyMatch<E>(list: seq<E>, matches: E -> bool) {
    exists i :: 0 <= i < |list| && matches(list[i])
  }

  /** Position `i` holds the first match. */
  ghost predicate FirstMatch<E>(list: seq<E>, matches: E -> bool, i: nat) {
    i < |list| && matches(list[i]) && forall j :: 0 <= j < i ==> !matches(list[j])
  }

  class Store<E(!new)> {
    var entries: seq<E>
    var count: int
    const max: nat

    ghost predicate Valid()
      reads this
    {
      count == |entries|
    }

    constructor (max: nat)
      ensures Valid() && entries == [] && this.max == max
    {
      this.max := max;
      entries := [];
      count := 0;
    }

    /** Scan for a match, stopping at the first. */
    method Any(matches: E -> bool) returns (found: bool)
      ensures found <==> AnyMatch(entries, matches)
    {
      found := false;
      var i := 0;
      while i < |entries|
        invariant 0 <= i <= |entries|
        invariant !found
        invariant forall j :: 0 <= j < i ==> !matches(entries[j])
      {
        if matches(entries[i]) {
          found := true;
          break;
        }
        i := i + 1;
      }
    }

    /** Check capacity, then duplicates, then allocate and append. */
    method Add(matches: E -> bool, entry: E, alloc: bool) returns (ret: int)
      requires Valid()
      modifies this`entries, this`count
      ensures Valid()
      ensures |old(entries)| >= max ==> ret == -ENOSPC
      ensures |old(entries)| < max && AnyMatch(old(entries), matches) ==> ret == -EEXIST
      ensures |old(entries)| < max && !AnyMatch(old(entries), matches) ==> ret == if alloc then 0 else -ENOMEM
      ensures entries == if ret == 0 then old(entries) + [entry] else old(entries)
    {
      if count >= max {
        return -ENOSPC;
      }
      var i := 0;
      while i < |entries|
        invariant 0 <= i <= |entries|
        invariant forall j :: 0 <= j < i ==> !matches(entries[j])
      {
        if matches(entries[i]) {
          return -EEXIST;
        }
        i := i + 1;
      }
      if !alloc {
        return -ENOMEM;
      }
      entries := entries + [entry];
      count := count + 1;
      return 0;
    }

    /** Take out the first match. */
    method Del(matches: E -> bool) returns (ret: int)
      requires Valid()
      modifies this`entries, this`count
      ensures Valid()
      ensures ret == if AnyMatch(old(entries), matches) then 0 else -ENOENT
      ensures ret != 0 ==> entries == old(entries)
      ensures ret == 0 ==>
        exists i: nat :: FirstMatch(old(entries), matches, i) &&
                         entries == old(entries)[..i] + old(entries)[i + 1..]
    {
      var found := false;
      var i := 0;
      while i < |entries|
        invariant 0 <= i <= |entries| && entries == old(entries) && count == old(count) && !found
        invariant forall j :: 0 <= j < i ==> !matches(entries[j])
      {
        if matches(entries[i]) {
          assert FirstMatch(old(entries), matches, i);
          entries := entries[..i] + entries[i + 1..];
          count := count - 1;
          found := true;
          break;
        }
        i := i + 1;
      }
      ret := if found then 0 else -ENOENT;
    }

    /** Drain the list one entry at a time, then reset the count. */
    method Exit()
      modifies this`entries, this`count
      ensures Valid() && entries == []
    {
      while entries != []
        decreases |entries|
      {
        entries := entries[1..];
      }
      count := 0;
    }
  }

  // ----- the store refines the set -------------------------------------------

  function KeysOf<E, K>(list: seq<E>, key: E -> K): (keys: seq<K>)
    ensures |keys| == |list|
    ensures forall i :: 0 <= i < |list| ==> keys[i] == key(list[i])
  {
    seq(|list|, i requires 0 <= i < |list| => key(list[i]))
  }

  /** On keys, the outcome of `Store.Add` is list addition. */
  lemma AddRefines<E(!new), K>(list: seq<E>, list': seq<E>, ret: int, max: nat, key: E -> K, k: K,
                               matches: E -> bool, entry: E, alloc: bool)
    requires forall e :: matches(e) <==> key(e) == k
    requires |list| >= max ==> ret == -ENOSPC
    requires |list| < max && AnyMatch(list, matches) ==> ret == -EEXIST
    requires |list| < max && !AnyMatch(list, matches) ==> ret == if alloc then 0 else -ENOMEM
    requires list' == if ret == 0 then list + [entry] else list
    ensures Outcome(ret, KeysOf(list', key)) == ListAdd(KeysOf(list, key), max, k, key(entry), alloc)
  {
  }

  /** On keys, the outcome of `Store.Del` is list deletion. */
  lemma DelRefines<E(!new), K>(list: seq<E>, list': seq<E>, ret: int, key: E -> K, k: K, matches: E -> bool)
    requires forall e :: matches(e) <==> key(e) == k
    requires ret == if AnyMatch(list, matches) then 0 else -ENOENT
    requires ret != 0 ==> list' == list
    requires ret == 0 ==>
      exists i: nat :: FirstMatch(list, matches, i) && list' == list[..i] + list[i + 1..]
    ensures Outcome(ret, KeysOf(list', key)) == ListDel(KeysOf(list, key), k)
  {
    if ret == 0 {
      var i: nat :| FirstMatch(list, matches, i) && list' == list[..i] + list[i + 1..];
      RemoveFirstAt(KeysOf(list, key), k, i);
      assert |list'| == |list| - 1;
      assert KeysOf(list', key) == KeysOf(list, key)[..i] + KeysOf(list, key)[i + 1..];
    }
  }
}
