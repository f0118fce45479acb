/** The least-recently-used cache of open fragment files: LRUCache.h and `FileLRUCache`. */
module FileCache {
  import opened Records

  /** Fragment n is the file "<n>.frag"; different numbers give different names. */
  type Name = nat
  type Handle = nat

  /** The part of the operating system that the sort uses.  Closing a handle that is not open, and reading
      through one, is undefined, hence the preconditions. */
  class FileSystem {
    var files: map<Name, seq<Rec>>
    var open: map<Handle, Name>
    var nextHandle: Handle

    ghost predicate Valid()
      reads this
    {
      forall h | h in open :: h < nextHandle
    }

    constructor ()
      ensures Valid() && files == map[] && open == map[]
    {
      files, open, nextHandle := map[], map[], 0;
    }

    method Write(name: Name, contents: seq<Rec>)
      modifies this`files
      ensures files == old(files)[name := contents]
    {
      files := files[name := contents];
    }

    method Fopen(name: Name) returns (h: Handle)
      requires Valid() && name in files
      modifies this`open, this`nextHandle
      ensures Valid() && h !in old(open) && open == old(open)[h := name]
      ensures old(nextHandle) <= h < nextHandle
    {
      h := nextHandle;
      open := open[h := name];
      nextHandle := nextHandle + 1;
    }

    method Fclose(h: Handle)
      requires Valid() && h in open
      modifies this`open
      ensures Valid() && open == old(open) - {h}
    {
      open := open - {h};
    }

    /** `fseek` to record `idx` and `fread` of one record. */
    function ReadAt(h: Handle, idx: nat): Rec
      requires h in open && open[h] in files && idx < |files[open[h]]|
      reads this
    {
      files[open[h]][idx]
    }

    method Remove(name: Name)
      modifies this`files
      ensures files == old(files) - {name}
    {
      files := files - {name};
    }
  }

  type Entry = (Name, Handle)

  ghost predicate DistinctNames(list: seq<Entry>) {
    forall j, k :: 0 <= j < k < |list| ==> list[j].0 != list[k].0
  }

  /** The list without the entry for `key`. */
  function Without(list: seq<Entry>, key: Name): (r: seq<Entry>)
    ensures forall e :: e in r <==> e in list && e.0 != key
    ensures |r| <= |list| && ((exists e :: e in list && e.0 == key) ==> |r| < |list|)
  {
    if list == [] then []
    else if list[0].0 == key then Without(list[1..], key)
    else [list[0]] + Without(list[1..], key)
  }

  lemma {:induction false} WithoutIsDistinct(list: seq<Entry>, key: Name)
    requires DistinctNames(list)
    ensures DistinctNames(Without(list, key))
  {
    if list != [] {
      WithoutIsDistinct(list[1..], key);
      var rest := Without(list[1..], key);
      if list[0].0 != key {
        forall k | 0 <= k < |rest| ensures rest[k].0 != list[0].0 { assert rest[k] in list[1..]; }
      }
    }
  }

  /** The list after a use of `key`: the entry moves to the front, or enters there and pushes out the one
      that was used longest ago. */
  function Used(list: seq<Entry>, key: Name, h: Handle, capacity: nat): seq<Entry> {
    [(key, h)] +
    if exists e | e in list :: e.0 == key then Without(list, key)
    else if |list| == capacity && list != [] then list[..|list| - 1]
    else list
  }

  lemma LastIsAlone(list: seq<Entry>, rest: seq<Entry>, last: Entry)
    requires DistinctNames(list) && list != [] && rest == list[..|list| - 1] && last == list[|list| - 1]
    ensures DistinctNames(rest) && forall e :: e in rest <==> e in list && e != last
    ensures forall e | e in rest :: e.0 != last.0
  {
    assert list == rest + [last];
  }

  class FileLRUCache {
    const capacity: nat
    const os: FileSystem
    var cacheList: seq<Entry>
    var cacheMap: map<Name, Entry>

    /** List and map agree, and the handles open in the system are exactly the cached ones. */
    ghost predicate Valid()
      reads this, os
    {
      && os.Valid() && capacity >= 1 && |cacheList| <= capacity
      && DistinctNames(cacheList)
      && (forall e | e in cacheList :: e.0 in cacheMap && cacheMap[e.0] == e && e.1 in os.open && os.open[e.1] == e.0)
      && (forall name | name in cacheMap :: cacheMap[name] in cacheList && cacheMap[name].0 == name)
      && (forall h | h in os.open :: (os.open[h], h) in cacheList)
    }

    constructor (capacity: nat, os: FileSystem)
      requires capacity >= 1 && os.Valid() && os.open == map[]
      ensures Valid() && this.capacity == capacity && this.os == os && cacheList == []
    {
      this.capacity, this.os, cacheList, cacheMap := capacity, os, [], map[];
    }

    method MoveToFront(key: Name, value: Handle)
      requires Valid() && key in cacheMap && cacheMap[key].1 == value
      modifies this
      ensures Valid() && cacheList == [(key, value)] + Without(old(cacheList), key)
    {
      WithoutIsDistinct(cacheList, key);
      assert cacheMap[key] == (key, value);
      cacheList := Without(cacheList, key);
      cacheList := [(key, value)] + cacheList;
      cacheMap := cacheMap[key := (key, value)];
    }

    /** Drops the last entry and closes its file. */
    method Evict()
      requires Valid() && cacheList != []
      modifies this, os`open
      ensures Valid() && cacheList == old(cacheList)[..|old(cacheList)| - 1]
      ensures os.open.Values <= old(os.open).Values
      ensures cacheMap == old(cacheMap) - {old(cacheList)[|old(cacheList)| - 1].0}
    {
      var last := cacheList[|cacheList| - 1];
      LastIsAlone(cacheList, cacheList[..|cacheList| - 1], last);
      os.Fclose(last.1);
      cacheMap := cacheMap - {last.0};
      cacheList := cacheList[..|cacheList| - 1];
    }

    /** Opens a file that is not cached, when there is room. */
    method OpenNew(key: Name) returns (result: Handle)
      requires Valid() && key in os.files && key !in cacheMap && |cacheList| < capacity
      modifies this, os`open, os`nextHandle
      ensures Valid() && result in os.open && os.open == old(os.open)[result := key]
      ensures cacheList == [(key, result)] + old(cacheList)
    {
      result := os.Fopen(key);
      assert forall e | e in cacheList :: e.0 != key && e.1 != result;
      cacheList := [(key, result)] + cacheList;
      cacheMap := cacheMap[key := (key, result)];
    }

    method GetFile(key: Name) returns (result: Handle)
      requires Valid() && key in os.files
      modifies this, os`open, os`nextHandle
      ensures Valid() && result in os.open && os.open[result] == key
      ensures cacheList == Used(old(cacheList), key, result, capacity)
      ensures os.open.Values <= old(os.open).Values + {key}
    {
      if key in cacheMap {
        result := cacheMap[key].1;
        assert exists e | e in cacheList :: e.0 == key by { assert cacheMap[key] in cacheList; }
        MoveToFront(key, result);
      } else {
        assert forall e | e in cacheList :: e.0 != key;
        if |cacheList| == capacity {
          Evict();
        }
        result := OpenNew(key);
      }
    }

    method Close(key: Name) returns (ok: bool)
      requires Valid()
      modifies this, os`open
      ensures Valid() && ok == (key in old(cacheMap))
      ensures cacheList == Without(old(cacheList), key)
      ensures os.open.Values <= old(os.open).Values - {key}
    {
      ok := key in cacheMap;
      WithoutIsDistinct(cacheList, key);
      if ok {
        var entry := cacheMap[key];
        cacheList := Without(cacheList, key);
        cacheMap := cacheMap - {key};
        os.Fclose(entry.1);
      } else {
        NothingToDrop(cacheList, key);
      }
    }
  }

  lemma {:induction false} NothingToDrop(list: seq<Entry>, key: Name)
    requires forall e | e in list :: e.0 != key
    ensures Without(list, key) == list
  {
    if list != [] { NothingToDrop(list[1..], key); }
  }

  // ----- What is cached, from the calls alone -----

  /** A call of the cache, with the handle that it returned. */
  datatype Call = Get(key: Name, handle: Handle) | Drop(key: Name)

  /** The list after some calls. */
  function Listed(calls: seq<Call>, capacity: nat): seq<Entry> {
    if calls == [] then []
    else
      var list := Listed(calls[..|calls| - 1], capacity);
      match calls[|calls| - 1]
      case Get(key, h) => Used(list, key, h, capacity)
      case Drop(key) => Without(list, key)
  }

  function Names(list: seq<Entry>): seq<Name> {
    seq(|list|, i requires 0 <= i < |list| => list[i].0)
  }

  function Others(names: seq<Name>, key: Name): seq<Name> {
    if names == [] then []
    else if names[0] == key then Others(names[1..], key)
    else [names[0]] + Others(names[1..], key)
  }

  function FirstOf(names: seq<Name>, n: nat): seq<Name> {
    if |names| <= n then names else names[..n]
  }

  /** A requested name comes first, and the first `capacity` names stay. */
  function Kept(calls: seq<Call>, capacity: nat): seq<Name> {
    if calls == [] then []
    else
      var before := Kept(calls[..|calls| - 1], capacity);
      match calls[|calls| - 1]
      case Get(key, _) => FirstOf([key] + Others(before, key), capacity)
      case Drop(key) => Others(before, key)
  }

  ghost predicate Unlike(names: seq<Name>) {
    forall j, k :: 0 <= j < k < |names| ==> names[j] != names[k]
  }

  lemma {:induction false} NamesWithout(list: seq<Entry>, key: Name)
    ensures Names(Without(list, key)) == Others(Names(list), key)
  {
    if list != [] {
      assert Names(list)[1..] == Names(list[1..]);
      NamesWithout(list[1..], key);
    }
  }

  lemma {:induction false} OthersAre(names: seq<Name>, key: Name)
    requires Unlike(names)
    ensures Unlike(Others(names, key)) && forall x :: x in Others(names, key) <==> x in names && x != key
    ensures |Others(names, key)| == if key in names then |names| - 1 else |names|
    ensures key !in names ==> Others(names, key) == names
  {
    if names != [] {
      assert forall x :: x in names <==> x == names[0] || x in names[1..];
      assert names[0] !in names[1..];
      OthersAre(names[1..], key);
      if names[0] != key {
        var rest := Others(names[1..], key);
        assert forall k | 0 <= k < |rest| :: rest[k] in names[1..];
      }
    }
  }

  lemma CachedIff(list: seq<Entry>, key: Name)
    ensures (exists e | e in list :: e.0 == key) <==> key in Names(list)
  {
    var names := Names(list);
    assert forall i | 0 <= i < |list| :: names[i] == list[i].0 && list[i] in list;
  }

  lemma NamesOfMore(e: Entry, list: seq<Entry>)
    ensures Names([e] + list) == [e.0] + Names(list)
  {
  }

  /** One use of the list is one step of `Kept`. */
  lemma UsedKeeps(list: seq<Entry>, key: Name, h: Handle, capacity: nat)
    requires Unlike(Names(list)) && |list| <= capacity && capacity >= 1
    ensures Names(Used(list, key, h, capacity)) == FirstOf([key] + Others(Names(list), key), capacity)
  {
    OthersAre(Names(list), key);
    CachedIff(list, key);
    if key in Names(list) {
      NamesWithout(list, key);
      NamesOfMore((key, h), Without(list, key));
    } else if |list| == capacity {
      var rest := list[..|list| - 1];
      NamesOfMore((key, h), rest);
      assert Names(rest) == Names(list)[..|list| - 1];
    } else {
      NamesOfMore((key, h), list);
    }
  }

  lemma {:induction false} ListedIsKept(calls: seq<Call>, capacity: nat)
    requires capacity >= 1
    ensures Names(Listed(calls, capacity)) == Kept(calls, capacity)
    ensures Unlike(Kept(calls, capacity)) && |Kept(calls, capacity)| <= capacity
  {
    if calls != [] {
      var n := |calls| - 1;
      ListedIsKept(calls[..n], capacity);
      var list := Listed(calls[..n], capacity);
      OthersAre(Names(list), calls[n].key);
      if calls[n].Get? {
        UsedKeeps(list, calls[n].key, calls[n].handle, capacity);
      } else {
        NamesWithout(list, calls[n].key);
      }
    }
  }

  /** The position of the last request for a name, or -1. */
  function LastRequest(calls: seq<Call>, name: Name): int {
    if calls == [] then -1
    else if calls[|calls| - 1].Get? && calls[|calls| - 1].key == name then |calls| - 1
    else LastRequest(calls[..|calls| - 1], name)
  }

  lemma {:induction false} LastRequestBelow(calls: seq<Call>, name: Name)
    ensures -1 <= LastRequest(calls, name) < |calls|
  {
    if calls != [] { LastRequestBelow(calls[..|calls| - 1], name); }
  }

  /** By the last requests: later ones first. */
  ghost predicate ByLastRequest(calls: seq<Call>, names: seq<Name>) {
    forall j, k | 0 <= j < k < |names| :: LastRequest(calls, names[j]) > LastRequest(calls, names[k])
  }

  lemma {:induction false} OthersInOrder(calls: seq<Call>, names: seq<Name>, key: Name)
    requires ByLastRequest(calls, names)
    ensures ByLastRequest(calls, Others(names, key)) && forall x | x in Others(names, key) :: x in names && x != key
  {
    if names != [] {
      assert ByLastRequest(calls, names[1..]);
      OthersInOrder(calls, names[1..], key);
      var rest := Others(names[1..], key);
      forall k | 0 <= k < |rest| ensures LastRequest(calls, names[0]) > LastRequest(calls, rest[k]) {
        assert rest[k] in names[1..];
      }
    }
  }

  /** Over all requests and closes: the cached names come in the order of their last requests, so that the one that
      is pushed out is the one whose last request is oldest. */
  lemma {:induction false} KeptInOrder(calls: seq<Call>, capacity: nat)
    ensures ByLastRequest(calls, Kept(calls, capacity))
  {
    if calls != [] {
      var n := |calls| - 1;
      var front, before, key := calls[..n], Kept(calls[..n], capacity), calls[n].key;
      KeptInOrder(front, capacity);
      OthersInOrder(front, before, key);
      var rest := Others(before, key);
      forall k | 0 <= k < |rest|
        ensures LastRequest(calls, rest[k]) == LastRequest(front, rest[k]) < n
      {
        assert rest[k] in rest;
        LastRequestBelow(front, rest[k]);
      }
      assert calls[n].Get? ==> LastRequest(calls, key) == n;
    }
  }

  /** All names that were ever requested, the latest request first. */
  function Recent(calls: seq<Call>): seq<Name> {
    if calls == [] then []
    else [calls[|calls| - 1].key] + Others(Recent(calls[..|calls| - 1]), calls[|calls| - 1].key)
  }

  lemma {:induction false} RecentIsUnlike(calls: seq<Call>)
    ensures Unlike(Recent(calls))
  {
    if calls != [] {
      var before := Recent(calls[..|calls| - 1]);
      RecentIsUnlike(calls[..|calls| - 1]);
      OthersAre(before, calls[|calls| - 1].key);
    }
  }

  /** Truncating first makes no difference to what is kept. */
  lemma {:induction false} OthersOfFirst(names: seq<Name>, key: Name, n: nat)
    requires Unlike(names)
    ensures FirstOf(Others(FirstOf(names, n + 1), key), n) == FirstOf(Others(names, key), n)
  {
    if names != [] && n > 0 {
      var rest := names[1..];
      assert FirstOf(names, n + 1)[1..] == FirstOf(rest, n);
      if names[0] == key {
        assert key !in rest;
        OthersAre(rest, key);
        assert Unlike(FirstOf(rest, n));
        OthersAre(FirstOf(rest, n), key);
      } else {
        OthersOfFirst(rest, key, n - 1);
        FirstOfMore(names[0], Others(FirstOf(rest, n), key), n);
        FirstOfMore(names[0], Others(rest, key), n);
      }
    }
  }

  lemma FirstOfMore(x: Name, names: seq<Name>, n: nat)
    requires n > 0
    ensures FirstOf([x] + names, n) == [x] + FirstOf(names, n - 1)
  {
  }

  lemma {:induction false} KeptIsRecent(calls: seq<Call>, capacity: nat)
    requires capacity >= 1 && forall k | 0 <= k < |calls| :: calls[k].Get?
    ensures Kept(calls, capacity) == FirstOf(Recent(calls), capacity)
  {
    if calls != [] {
      var n := |calls| - 1;
      KeptIsRecent(calls[..n], capacity);
      RecentIsUnlike(calls[..n]);
      assert calls[n].Get?;
      FirstOfStep(Recent(calls[..n]), calls[n].key, capacity);
    }
  }

  lemma FirstOfStep(recent: seq<Name>, key: Name, capacity: nat)
    requires Unlike(recent) && capacity >= 1
    ensures FirstOf([key] + Others(FirstOf(recent, capacity), key), capacity) ==
            FirstOf([key] + Others(recent, key), capacity)
  {
    OthersOfFirst(recent, key, capacity - 1);
    FirstOfMore(key, Others(recent, key), capacity);
    FirstOfMore(key, Others(FirstOf(recent, capacity), key), capacity);
  }

  /** Over any sequence of requests the cached names are the `capacity` most recently requested distinct names, the
      latest request first. */
  lemma CacheIsMostRecent(calls: seq<Call>, capacity: nat)
    requires capacity >= 1 && forall k | 0 <= k < |calls| :: calls[k].Get?
    ensures Names(Listed(calls, capacity)) == FirstOf(Recent(calls), capacity)
  {
    ListedIsKept(calls, capacity);
    KeptIsRecent(calls, capacity);
  }

  /** Over all requests and closes: the list is in the order of the last requests, and a request for a name that is
      not cached pushes out a name only when the cache is full, and then the one whose last request is oldest. */
  lemma EvictsTheOldest(calls: seq<Call>, key: Name, h: Handle, capacity: nat)
    requires capacity >= 1
    ensures var list, after := Listed(calls, capacity), Listed(calls + [Get(key, h)], capacity);
      && ByLastRequest(calls, Names(list)) && |list| <= capacity && after != [] && after[0] == (key, h)
      && (forall x | x in Names(list) && x !in Names(after) ::
            |list| == capacity && key !in Names(list) &&
            forall y | y in Names(list) && y != x :: LastRequest(calls, y) > LastRequest(calls, x))
  {
    var all := calls + [Get(key, h)];
    assert all[..|calls|] == calls;
    ListedIsKept(calls, capacity);
    ListedIsKept(all, capacity);
    KeptInOrder(calls, capacity);
    var names := Kept(calls, capacity);
    OthersAre(names, key);
    var next := [key] + Others(names, key);
    forall x | x in names && x !in FirstOf(next, capacity)
      ensures |names| == capacity && key !in names && names[|names| - 1] == x
    {
      OnlyLastGoes(names, key, capacity, x);
    }
  }

  lemma OnlyLastGoes(names: seq<Name>, key: Name, capacity: nat, x: Name)
    requires Unlike(names) && |names| <= capacity && capacity >= 1
    requires x in names && x !in FirstOf([key] + Others(names, key), capacity)
    ensures |names| == capacity && key !in names && names[|names| - 1] == x
  {
    OthersAre(names, key);
    PushedOut(Others(names, key), key, capacity, x);
  }

  lemma PushedOut(rest: seq<Name>, key: Name, capacity: nat, x: Name)
    requires |rest| <= capacity && capacity >= 1 && (x != key ==> x in rest)
    requires x !in FirstOf([key] + rest, capacity)
    ensures |rest| == capacity && rest[capacity - 1] == x
  {
    InFirst([key] + rest, capacity, 0);
    var k :| 0 <= k < |rest| && rest[k] == x;
    InFirst([key] + rest, capacity, k + 1);
  }

  lemma InFirst(names: seq<Name>, n: nat, k: nat)
    requires k < |names|
    ensures k < n ==> names[k] in FirstOf(names, n)
  {
    if k < n { assert FirstOf(names, n)[k] == names[k]; }
  }

  /** At most `capacity` files are ever open. */
  lemma OpenIsBounded(cache: FileLRUCache)
    requires cache.Valid()
    ensures |cache.os.open| <= cache.capacity
  {
    var handles := set e | e in cache.cacheList :: e.1;
    assert cache.os.open.Keys <= handles by {
      forall h | h in cache.os.open ensures h in handles { assert (cache.os.open[h], h) in cache.cacheList; }
    }
    HandlesOf(cache.cacheList);
    SubsetSize(cache.os.open.Keys, handles);
  }

  lemma {:induction false} HandlesOf(list: seq<Entry>)
    ensures |set e | e in list :: e.1| <= |list|
  {
    var all := set e | e in list :: e.1;
    if list != [] {
      HandlesOf(list[1..]);
      assert all == {list[0].1} + set e | e in list[1..] :: e.1;
    } else {
      assert all == {};
    }
  }

  lemma {:induction false} SubsetSize(a: set<Handle>, b: set<Handle>)
    requires a <= b
    ensures |a| <= |b|
  {
    if a != {} {
      var x :| x in a;
      SubsetSize(a - {x}, b - {x});
    }
  }
}
