/** External merge sort: runs of at most `slot` records are sorted in memory and written to fragment
    files, then merged through a heap that holds one record of every unexhausted fragment, with a bounded
    number of open files. */
module ExternalSort {
  import opened Records
  import opened QuickSorts
  import opened FileCache

  /** `MinHeapIovec`: a record and the number of the fragment it comes from. */
  datatype Item = Item(data: Rec, idx: nat)

  // ----- What is left in the fragments -----

  ghost predicate Cursors(frags: seq<seq<Rec>>, ptrs: seq<nat>) {
    |ptrs| == |frags| && forall k | 0 <= k < |frags| :: ptrs[k] <= |frags[k]|
  }

  /** The records that the merge has not written yet. */
  ghost function Rest(frags: seq<seq<Rec>>, ptrs: seq<nat>): multiset<Rec>
    requires Cursors(frags, ptrs)
  {
    if frags == [] then multiset{}
    else
      var n := |frags| - 1;
      Rest(frags[..n], ptrs[..n]) + multiset(frags[n][ptrs[n]..])
  }

  lemma {:induction false} RestStep(frags: seq<seq<Rec>>, ptrs: seq<nat>, idx: nat)
    requires Cursors(frags, ptrs) && idx < |frags| && ptrs[idx] < |frags[idx]|
    ensures Cursors(frags, ptrs[idx := ptrs[idx] + 1])
    ensures Rest(frags, ptrs) == multiset{frags[idx][ptrs[idx]]} + Rest(frags, ptrs[idx := ptrs[idx] + 1])
  {
    var n := |frags| - 1;
    var after := ptrs[idx := ptrs[idx] + 1];
    if idx < n {
      RestStep(frags[..n], ptrs[..n], idx);
      assert after[..n] == ptrs[..n][idx := ptrs[idx] + 1];
      Regroup(multiset{frags[idx][ptrs[idx]]}, Rest(frags[..n], after[..n]), multiset(frags[n][ptrs[n]..]));
    } else {
      assert after[..n] == ptrs[..n];
      HeadOf(frags[n], ptrs[n]);
      Regroup(multiset{frags[n][ptrs[n]]}, Rest(frags[..n], ptrs[..n]), multiset(frags[n][ptrs[n] + 1..]));
    }
  }

  lemma Regroup(a: multiset<Rec>, b: multiset<Rec>, c: multiset<Rec>)
    ensures (a + b) + c == a + (b + c) && b + (a + c) == a + (b + c)
  {
  }

  lemma HeadOf(s: seq<Rec>, k: nat)
    requires k < |s|
    ensures multiset(s[k..]) == multiset{s[k]} + multiset(s[k + 1..])
  {
    assert s[k..] == [s[k]] + s[k + 1..];
  }

  lemma {:induction false} RestEmpty(frags: seq<seq<Rec>>, ptrs: seq<nat>)
    requires Cursors(frags, ptrs) && forall k | 0 <= k < |frags| :: ptrs[k] == |frags[k]|
    ensures Rest(frags, ptrs) == multiset{}
  {
    if frags != [] {
      var n := |frags| - 1;
      RestEmpty(frags[..n], ptrs[..n]);
      assert frags[n][ptrs[n]..] == [];
    }
  }

  lemma RestPush(frags: seq<seq<Rec>>, ptrs: seq<nat>, run: seq<Rec>)
    requires Cursors(frags, ptrs)
    ensures Cursors(frags + [run], ptrs + [0])
    ensures Rest(frags + [run], ptrs + [0]) == Rest(frags, ptrs) + multiset(run)
  {
    assert (frags + [run])[..|frags|] == frags && (ptrs + [0])[..|frags|] == ptrs;
    assert run[0..] == run;
  }

  // ----- The merge invariant -----

  ghost predicate Unexhausted(frags: seq<seq<Rec>>, ptrs: seq<nat>, k: int) {
    0 <= k < |frags| && k < |ptrs| && ptrs[k] < |frags[k]|
  }

  /** The fragments that still hold records. */
  ghost function Live(frags: seq<seq<Rec>>, ptrs: seq<nat>): set<nat> {
    set k | 0 <= k < |frags| && Unexhausted(frags, ptrs, k)
  }

  lemma LiveStep(frags: seq<seq<Rec>>, ptrs: seq<nat>, idx: nat)
    requires Cursors(frags, ptrs) && Unexhausted(frags, ptrs, idx)
    ensures Live(frags, ptrs[idx := ptrs[idx] + 1]) ==
            if ptrs[idx] + 1 == |frags[idx]| then Live(frags, ptrs) - {idx} else Live(frags, ptrs)
  {
  }

  /** The heap holds exactly the head of each unexhausted fragment. */
  ghost predicate HeapHoldsHeads(frags: seq<seq<Rec>>, ptrs: seq<nat>, heap: multiset<Item>) {
    (forall e | e in heap :: heap[e] == 1 && Unexhausted(frags, ptrs, e.idx) && e.data == frags[e.idx][ptrs[e.idx]]) &&
    (forall k | Unexhausted(frags, ptrs, k) :: Item(frags[k][ptrs[k]], k) in heap)
  }

  /** Nothing that is left is smaller than anything written. */
  ghost predicate BelowHeads(frags: seq<seq<Rec>>, ptrs: seq<nat>, out: seq<Rec>) {
    forall x, k | x in out && Unexhausted(frags, ptrs, k) :: Le(x, frags[k][ptrs[k]])
  }

  ghost predicate RunsSorted(frags: seq<seq<Rec>>) {
    forall k | 0 <= k < |frags| :: Sorted(frags[k])
  }

  ghost predicate MergeInv(
      frags: seq<seq<Rec>>, ptrs: seq<nat>, heap: multiset<Item>, out: seq<Rec>, all: multiset<Rec>)
  {
    && Cursors(frags, ptrs) && RunsSorted(frags)
    && HeapHoldsHeads(frags, ptrs, heap)
    && multiset(out) + Rest(frags, ptrs) == all
    && Sorted(out) && BelowHeads(frags, ptrs, out)
  }

  /** The heap after the top was popped and the fragment's next record, if any, was pushed. */
  ghost function NextHeap(frags: seq<seq<Rec>>, ptrs: seq<nat>, heap: multiset<Item>, top: Item): multiset<Item>
    requires Cursors(frags, ptrs) && Unexhausted(frags, ptrs, top.idx)
  {
    var p := ptrs[top.idx] + 1;
    if p == |frags[top.idx]| then heap - multiset{top}
    else heap - multiset{top} + multiset{Item(frags[top.idx][p], top.idx)}
  }

  lemma HeapStep(frags: seq<seq<Rec>>, ptrs: seq<nat>, heap: multiset<Item>, top: Item)
    requires Cursors(frags, ptrs) && HeapHoldsHeads(frags, ptrs, heap) && top in heap
    ensures HeapHoldsHeads(frags, ptrs[top.idx := ptrs[top.idx] + 1], NextHeap(frags, ptrs, heap, top))
  {
    var after, next := ptrs[top.idx := ptrs[top.idx] + 1], NextHeap(frags, ptrs, heap, top);
    forall e | e in next
      ensures next[e] == 1 && Unexhausted(frags, after, e.idx) && e.data == frags[e.idx][after[e.idx]]
    {
      if e.idx != top.idx {
        assert e in heap;
      } else {
        assert e in heap ==> e == top;
      }
    }
    forall k | Unexhausted(frags, after, k) ensures Item(frags[k][after[k]], k) in next {
      if k != top.idx {
        assert Unexhausted(frags, ptrs, k);
      }
    }
  }

  lemma TopIsSmallest(frags: seq<seq<Rec>>, ptrs: seq<nat>, heap: multiset<Item>, top: Item, k: int)
    requires Cursors(frags, ptrs) && RunsSorted(frags) && HeapHoldsHeads(frags, ptrs, heap)
    requires top in heap && forall e | e in heap :: !HeapLess(top.data, e.data)
    requires Unexhausted(frags, ptrs[top.idx := ptrs[top.idx] + 1], k)
    ensures Unexhausted(frags, ptrs, k) && Le(top.data, frags[k][ptrs[k]])
    ensures Le(frags[k][ptrs[k]], frags[k][ptrs[top.idx := ptrs[top.idx] + 1][k]])
  {
    assert Unexhausted(frags, ptrs, k);
    assert Item(frags[k][ptrs[k]], k) in heap;
    HeapOrderReversesRunOrder(top.data, frags[k][ptrs[k]], top.data);
    assert Sorted(frags[k]);
  }

  lemma BelowStep(frags: seq<seq<Rec>>, ptrs: seq<nat>, heap: multiset<Item>, out: seq<Rec>, top: Item)
    requires Cursors(frags, ptrs) && RunsSorted(frags) && HeapHoldsHeads(frags, ptrs, heap) &&
             BelowHeads(frags, ptrs, out)
    requires top in heap && forall e | e in heap :: !HeapLess(top.data, e.data)
    ensures BelowHeads(frags, ptrs[top.idx := ptrs[top.idx] + 1], out + [top.data])
  {
    var after := ptrs[top.idx := ptrs[top.idx] + 1];
    forall x, k | x in out + [top.data] && Unexhausted(frags, after, k) ensures Le(x, frags[k][after[k]]) {
      TopIsSmallest(frags, ptrs, heap, top, k);
      HeapOrderReversesRunOrder(x, frags[k][ptrs[k]], frags[k][after[k]]);
    }
  }

  /** Writing the top of the heap keeps the output sorted, keeps it below everything that is left, and
      loses no record. */
  lemma MergeStep(
      frags: seq<seq<Rec>>, ptrs: seq<nat>, heap: multiset<Item>, out: seq<Rec>, all: multiset<Rec>, top: Item)
    requires MergeInv(frags, ptrs, heap, out, all)
    requires top in heap && forall e | e in heap :: !HeapLess(top.data, e.data)
    ensures MergeInv(frags, ptrs[top.idx := ptrs[top.idx] + 1], NextHeap(frags, ptrs, heap, top), out + [top.data], all)
    ensures |Rest(frags, ptrs[top.idx := ptrs[top.idx] + 1])| < |Rest(frags, ptrs)|
  {
    RestStep(frags, ptrs, top.idx);
    HeapStep(frags, ptrs, heap, top);
    BelowStep(frags, ptrs, heap, out, top);
    assert Unexhausted(frags, ptrs, top.idx);
    SortedConcat(out, [top.data]);
    assert multiset(out + [top.data]) == multiset(out) + multiset{top.data};
  }

  /** The bookkeeping before the merge: no fragment has been read yet. */
  ghost predicate Runs(frags: seq<seq<Rec>>, ptrs: seq<nat>, ends: seq<nat>) {
    ptrs == seq(|frags|, _ => 0) && |ends| == |frags| && forall k | 0 <= k < |ends| :: ends[k] == |frags[k]|
  }

  // ----- The procedure -----

  /** The top of `std::priority_queue`: an item that is less than no other.  Ties are broken arbitrarily. */
  method Top(heap: multiset<Item>) returns (top: Item)
    requires heap != multiset{}
    ensures top in heap && forall e | e in heap :: !HeapLess(top.data, e.data)
  {
    top :| top in heap;
    var rest := heap - multiset{top};
    while rest != multiset{}
      invariant rest <= heap && top in heap
      invariant forall e | e in heap && e !in rest :: !HeapLess(top.data, e.data)
      decreases |rest|
    {
      var e :| e in rest;
      if HeapLess(top.data, e.data) {
        top := e;
      }
      rest := rest[e := 0];
    }
  }

  method SortedCopy(tmpData: seq<Rec>) returns (run: seq<Rec>)
    ensures Sorted(run) && multiset(run) == multiset(tmpData)
  {
    var a := new Rec[|tmpData|](i requires 0 <= i < |tmpData| => tmpData[i]);
    assert a[..] == tmpData;
    QuickSort(a);
    run := a[..];
  }

  class ExternalMergeSort {
    const slot: nat
    const os: FileSystem
    const openedFiles: FileLRUCache

    constructor (slot: nat, maxFdOpened: nat, os: FileSystem)
      requires maxFdOpened >= 1 && os.Valid() && os.open == map[]
      ensures this.slot == slot && this.os == os && openedFiles.os == os && openedFiles.Valid()
      ensures openedFiles.cacheList == [] && openedFiles.capacity == maxFdOpened && fresh(openedFiles)
    {
      this.slot, this.os := slot, os;
      openedFiles := new FileLRUCache(maxFdOpened, os);
    }

    /** The fragment files that are not exhausted are still there, and only those can be open. */
    ghost predicate OnDisk(frags: seq<seq<Rec>>, live: set<nat>)
      reads os, openedFiles, openedFiles.os
    {
      && openedFiles.os == os && openedFiles.Valid()
      && (forall k | k in live :: k < |frags| && k in os.files && os.files[k] == frags[k])
      && os.open.Values <= live
    }

    method ReadRecord(ghost frags: seq<seq<Rec>>, ghost live: set<nat>, idx: nat, pos: nat) returns (data: Rec)
      requires OnDisk(frags, live) && idx in live && pos < |frags[idx]|
      modifies openedFiles, os`open, os`nextHandle
      ensures OnDisk(frags, live) && data == frags[idx][pos]
    {
      var fptr := openedFiles.GetFile(idx);
      data := os.ReadAt(fptr, pos);
    }

    method DropFragment(ghost frags: seq<seq<Rec>>, ghost live: set<nat>, idx: nat)
      requires OnDisk(frags, live)
      modifies openedFiles, os`open, os`files
      ensures OnDisk(frags, live - {idx}) && os.files == old(os.files) - {idx}
    {
      var _ := openedFiles.Close(idx);
      os.Remove(idx);
    }

    /** Sorts what is buffered and writes it as the next fragment. */
    method WriteFragment(
        tmpData: seq<Rec>, ghost frags: seq<seq<Rec>>, ptrs: seq<nat>, minheap: multiset<Item>,
        ghost all: multiset<Rec>)
      returns (run: seq<Rec>, heap: multiset<Item>)
      requires tmpData != [] && MergeInv(frags, ptrs, minheap, [], all) && OnDisk(frags, Live(frags, ptrs)) &&
               os.open == map[]
      modifies os`files
      ensures |run| == |tmpData| && MergeInv(frags + [run], ptrs + [0], heap, [], all + multiset(tmpData))
      ensures OnDisk(frags + [run], Live(frags + [run], ptrs + [0])) && os.files == old(os.files)[|ptrs| := run]
    {
      run := SortedCopy(tmpData);
      assert |run| == |tmpData| by { assert |multiset(run)| == |multiset(tmpData)|; }
      os.Write(|ptrs|, run);
      heap := minheap + multiset{Item(run[0], |ptrs|)};
      NewRun(frags, ptrs, minheap, all, run);
      LivePush(frags, ptrs, run);
    }

    /** Replaces the top of the heap by the next record of its fragment, or closes and removes the fragment. */
    method Refill(ghost frags: seq<seq<Rec>>, ptrs: seq<nat>, ends: seq<nat>, minheap: multiset<Item>, x: Item)
      returns (heap: multiset<Item>)
      requires |ends| == |frags| && forall k | 0 <= k < |ends| :: ends[k] == |frags[k]|
      requires Cursors(frags, ptrs) && HeapHoldsHeads(frags, ptrs, minheap) && OnDisk(frags, Live(frags, ptrs)) &&
               x in minheap
      modifies os, openedFiles
      ensures heap == NextHeap(frags, ptrs, minheap, x)
      ensures os.files == if ptrs[x.idx] + 1 == |frags[x.idx]| then old(os.files) - {x.idx} else old(os.files)
      ensures OnDisk(frags, Live(frags, ptrs[x.idx := ptrs[x.idx] + 1]))
    {
      ghost var live := Live(frags, ptrs);
      LiveStep(frags, ptrs, x.idx);
      heap := minheap - multiset{x};
      if ptrs[x.idx] + 1 != ends[x.idx] {
        var data := ReadRecord(frags, live, x.idx, ptrs[x.idx] + 1);
        heap := heap + multiset{Item(data, x.idx)};
      } else {
        DropFragment(frags, live, x.idx);
      }
    }

    /** Between two rounds of the merge; `before` are the files at its start. */
    ghost predicate Merging(frags: seq<seq<Rec>>, ptrs: seq<nat>, heap: multiset<Item>, out: seq<Rec>,
                            all: multiset<Rec>, before: map<Name, seq<Rec>>)
      reads os, openedFiles, openedFiles.os
    {
      && MergeInv(frags, ptrs, heap, out, all) && OnDisk(frags, Live(frags, ptrs))
      && StillThere(os.files, before, |frags|, Live(frags, ptrs))
    }

    /** One round of the merge loop. */
    method WriteTop(
        ghost frags: seq<seq<Rec>>, ends: seq<nat>, ptrs: seq<nat>, minheap: multiset<Item>, ghost out: seq<Rec>,
        ghost all: multiset<Rec>, ghost before: map<Name, seq<Rec>>)
      returns (x: Item, heap: multiset<Item>)
      requires |ends| == |frags| && forall k | 0 <= k < |ends| :: ends[k] == |frags[k]|
      requires Merging(frags, ptrs, minheap, out, all, before) && minheap != multiset{}
      modifies os, openedFiles
      ensures Unexhausted(frags, ptrs, x.idx)
      ensures Merging(frags, ptrs[x.idx := ptrs[x.idx] + 1], heap, out + [x.data], all, before)
      ensures |Rest(frags, ptrs[x.idx := ptrs[x.idx] + 1])| < |Rest(frags, ptrs)|
    {
      x := Top(minheap);
      ghost var was := os.files;
      heap := Refill(frags, ptrs, ends, minheap, x);
      RoundStep(frags, ptrs, minheap, out, all, x, was, os.files, before);
    }

    /** Merges the fragments.  Afterwards no file is open, and all fragment files are gone. */
    method Merge(ghost frags: seq<seq<Rec>>, ends: seq<nat>, minheap: multiset<Item>, ghost all: multiset<Rec>)
      returns (out: seq<Rec>)
      requires |ends| == |frags| && forall k | 0 <= k < |ends| :: ends[k] == |frags[k]| > 0
      requires MergeInv(frags, seq(|frags|, _ => 0), minheap, [], all)
      requires OnDisk(frags, Live(frags, seq(|frags|, _ => 0)))
      modifies os, openedFiles
      ensures Sorted(out) && multiset(out) == all
      ensures openedFiles.Valid() && os.open == map[]
      ensures StillThere(os.files, old(os.files), |frags|, {})
    {
      ghost var before := os.files;
      var heap, ptrs := minheap, seq(|ends|, _ => 0);
      out := [];
      AllLive(frags, ptrs);
      while heap != multiset{}
        invariant Merging(frags, ptrs, heap, out, all, before)
        decreases |Rest(frags, ptrs)|
      {
        var x;
        x, heap := WriteTop(frags, ends, ptrs, heap, out, all, before);
        out := out + [x.data];
        ptrs := ptrs[x.idx := ptrs[x.idx] + 1];
      }
      AllExhausted(frags, ptrs, heap);
      RestEmpty(frags, ptrs);
      assert Live(frags, ptrs) == {};
      NothingOpen(os.open);
    }

    /** After some input: `files` are the files at the start. */
    ghost predicate Making(input: seq<Rec>, tmpData: seq<Rec>, frags: seq<seq<Rec>>, ptrs: seq<nat>, ends: seq<nat>,
                           minheap: multiset<Item>, all: multiset<Rec>, files: map<Name, seq<Rec>>)
      reads os, openedFiles, openedFiles.os
    {
      && Buffered(slot, input, tmpData, |ends|, all) && AllFull(ends, slot) && SameFrom(os.files, files, |ends|)
      && Runs(frags, ptrs, ends) && MergeInv(frags, ptrs, minheap, [], all)
      && OnDisk(frags, Live(frags, ptrs)) && os.open == map[]
    }

    /** Buffers one record; a full buffer becomes the next fragment. */
    method TakeRecord(
        input: seq<Rec>, i: nat, tmpData: seq<Rec>, ghost frags: seq<seq<Rec>>, ptrs: seq<nat>, ends: seq<nat>,
        minheap: multiset<Item>, ghost all: multiset<Rec>, ghost files: map<Name, seq<Rec>>)
      returns (tmpData': seq<Rec>, ghost frags': seq<seq<Rec>>, ptrs': seq<nat>, ends': seq<nat>,
               heap: multiset<Item>, ghost all': multiset<Rec>)
      requires i < |input| && Making(input[..i], tmpData, frags, ptrs, ends, minheap, all, files)
      modifies os`files
      ensures Making(input[..i + 1], tmpData', frags', ptrs', ends', heap, all', files)
    {
      ghost var was := os.files;
      BufferedStep(slot, input, i, tmpData, |ends|, all);
      tmpData' := tmpData + [input[i]];
      if |tmpData'| == slot {
        ptrs', ends', heap, frags' := NextFragment(tmpData', frags, ptrs, ends, minheap, all);
        all' := all + multiset(tmpData');
        tmpData' := [];
        SameFromStep(was, os.files, files, |ends|, |ends'|);
      } else {
        ptrs', ends', heap, frags', all' := ptrs, ends, minheap, frags, all;
      }
    }

    /** Reads the input once and writes a fragment whenever `slot` records are buffered. */
    method MakeRuns(input: seq<Rec>)
      returns (tmpData: seq<Rec>, ghost frags: seq<seq<Rec>>, ptrs: seq<nat>, ends: seq<nat>,
               minheap: multiset<Item>, ghost all: multiset<Rec>)
      requires openedFiles.Valid() && openedFiles.os == os && os.open == map[]
      modifies os`files
      ensures Making(input, tmpData, frags, ptrs, ends, minheap, all, old(os.files))
    {
      ghost var files := os.files;
      tmpData, ptrs, ends, minheap, frags, all := [], [], [], multiset{}, [], multiset{};
      for i := 0 to |input|
        invariant Making(input[..i], tmpData, frags, ptrs, ends, minheap, all, files)
      {
        tmpData, frags, ptrs, ends, minheap, all :=
          TakeRecord(input, i, tmpData, frags, ptrs, ends, minheap, all, files);
      }
      assert input[..|input|] == input;
    }

    /** What is still buffered becomes the last fragment, and all fragments are merged. */
    method MergeAll(input: seq<Rec>, tmpData: seq<Rec>, ghost frags: seq<seq<Rec>>, ptrs: seq<nat>, ends: seq<nat>,
                    minheap: multiset<Item>, ghost all: multiset<Rec>, ghost files: map<Name, seq<Rec>>)
      returns (out: seq<Rec>)
      requires Making(input, tmpData, frags, ptrs, ends, minheap, all, files)
      modifies os, openedFiles
      ensures Sorted(out) && multiset(out) == multiset(input)
      ensures openedFiles.Valid() && os.open == map[] && NothingLeft(os.files, files)
    {
      ghost var was, frags', all', ptrs' := os.files, frags, all, ptrs;
      var ends', heap := ends, minheap;
      if tmpData != [] {
        ptrs', ends', heap, frags' := NextFragment(tmpData, frags, ptrs, ends, minheap, all);
        all' := all + multiset(tmpData);
      }
      SameFromStep(was, os.files, files, |ends|, |ends'|);
      was := os.files;
      out := Merge(frags', ends', heap, all');
      NothingIsLeft(os.files, was, files, |ends'|);
    }

    /** An input that never fills a slot is sorted in memory; all others are merged from fragments.  The
        output is the input, sorted, every file that was opened has been closed, and no fragment is left behind. */
    method Start(input: seq<Rec>) returns (out: seq<Rec>, inMemory: bool)
      requires openedFiles.Valid() && openedFiles.os == os && os.open == map[]
      modifies os, openedFiles
      ensures Sorted(out) && multiset(out) == multiset(input)
      ensures inMemory <==> input != [] && (slot == 0 || |input| < slot)
      ensures openedFiles.Valid() && os.open == map[] && NothingLeft(os.files, old(os.files))
      ensures inMemory ==> os.files == old(os.files)
    {
      var tmpData, ptrs, ends, minheap;
      ghost var frags, all;
      ghost var files := os.files;
      tmpData, frags, ptrs, ends, minheap, all := MakeRuns(input);
      inMemory := tmpData != [] && ends == [];
      if inMemory {
        SameFiles(os.files, files);
        out := SortedCopy(tmpData);
      } else {
        out := MergeAll(input, tmpData, frags, ptrs, ends, minheap, all, files);
      }
    }

    method NextFragment(
        tmpData: seq<Rec>, ghost frags: seq<seq<Rec>>, ptrs: seq<nat>, ends: seq<nat>, minheap: multiset<Item>,
        ghost all: multiset<Rec>)
      returns (ptrs': seq<nat>, ends': seq<nat>, heap: multiset<Item>, ghost frags': seq<seq<Rec>>)
      requires tmpData != [] && Runs(frags, ptrs, ends) && MergeInv(frags, ptrs, minheap, [], all)
      requires OnDisk(frags, Live(frags, ptrs)) && os.open == map[]
      modifies os`files
      ensures ends' == ends + [|tmpData|] && os.files - {|ends|} == old(os.files) - {|ends|}
      ensures |ends'| == |ends| + 1 && Runs(frags', ptrs', ends') &&
              MergeInv(frags', ptrs', heap, [], all + multiset(tmpData))
      ensures OnDisk(frags', Live(frags', ptrs')) && os.open == map[]
    {
      var run;
      run, heap := WriteFragment(tmpData, frags, ptrs, minheap, all);
      frags', ptrs', ends' := frags + [run], ptrs + [0], ends + [|tmpData|];
    }
  }

  /** Every fragment has `slot` records. */
  ghost predicate AllFull(ends: seq<nat>, slot: nat) {
    forall k | 0 <= k < |ends| :: ends[k] == slot > 0
  }

  /** The files from number `n` on are as they were. */
  ghost predicate SameFrom(files: map<Name, seq<Rec>>, before: map<Name, seq<Rec>>, n: nat) {
    forall name | n <= name :: (name in files <==> name in before) && (name in files ==> files[name] == before[name])
  }

  /** Of the first `n` files only the live ones are left, and nothing else has changed. */
  ghost predicate StillThere(files: map<Name, seq<Rec>>, before: map<Name, seq<Rec>>, n: nat, live: set<nat>) {
    SameFrom(files, before, n) && forall name | name in files && name < n :: name in live
  }

  /** Every file was there before, with the same contents. */
  ghost predicate NothingLeft(files: map<Name, seq<Rec>>, before: map<Name, seq<Rec>>) {
    forall name | name in files :: name in before && files[name] == before[name]
  }

  lemma NothingIsLeft(
      files: map<Name, seq<Rec>>, was: map<Name, seq<Rec>>, before: map<Name, seq<Rec>>, n: nat)
    requires StillThere(files, was, n, {}) && SameFrom(was, before, n)
    ensures NothingLeft(files, before)
  {
  }

  lemma SameFiles(files: map<Name, seq<Rec>>, before: map<Name, seq<Rec>>)
    requires SameFrom(files, before, 0)
    ensures files == before && NothingLeft(files, before)
  {
    assert forall name: nat :: name in files <==> name in before;
  }

  lemma FilesStep(frags: seq<seq<Rec>>, ptrs: seq<nat>, idx: nat, files: map<Name, seq<Rec>>,
                  after: map<Name, seq<Rec>>, before: map<Name, seq<Rec>>)
    requires Cursors(frags, ptrs) && Unexhausted(frags, ptrs, idx)
    requires StillThere(files, before, |frags|, Live(frags, ptrs))
    requires after == if ptrs[idx] + 1 == |frags[idx]| then files - {idx} else files
    ensures StillThere(after, before, |frags|, Live(frags, ptrs[idx := ptrs[idx] + 1]))
  {
    LiveStep(frags, ptrs, idx);
  }

  /** What one round of the merge does to the invariant and to the files. */
  lemma RoundStep(frags: seq<seq<Rec>>, ptrs: seq<nat>, heap: multiset<Item>, out: seq<Rec>, all: multiset<Rec>,
                  top: Item, files: map<Name, seq<Rec>>, after: map<Name, seq<Rec>>, before: map<Name, seq<Rec>>)
    requires MergeInv(frags, ptrs, heap, out, all) && StillThere(files, before, |frags|, Live(frags, ptrs))
    requires top in heap && forall e | e in heap :: !HeapLess(top.data, e.data)
    requires after == if ptrs[top.idx] + 1 == |frags[top.idx]| then files - {top.idx} else files
    ensures Unexhausted(frags, ptrs, top.idx)
    ensures var ptrs' := ptrs[top.idx := ptrs[top.idx] + 1];
      && MergeInv(frags, ptrs', NextHeap(frags, ptrs, heap, top), out + [top.data], all)
      && StillThere(after, before, |frags|, Live(frags, ptrs')) && |Rest(frags, ptrs')| < |Rest(frags, ptrs)|
  {
    MergeStep(frags, ptrs, heap, out, all, top);
    FilesStep(frags, ptrs, top.idx, files, after, before);
  }

  lemma SameFromStep(
      files: map<Name, seq<Rec>>, after: map<Name, seq<Rec>>, before: map<Name, seq<Rec>>, n: nat, m: nat)
    requires SameFrom(files, before, n) && n <= m <= n + 1
    requires after - {n} == files - {n} && (m == n ==> after == files)
    ensures SameFrom(after, before, m)
  {
    if m > n {
      forall name | m <= name
        ensures (name in after <==> name in before) && (name in after ==> after[name] == before[name])
      {
        assert name in after <==> name in after - {n};
        assert name in files <==> name in files - {n};
      }
    }
  }

  lemma AllLive(frags: seq<seq<Rec>>, ptrs: seq<nat>)
    requires ptrs == seq(|frags|, _ => 0) && forall k | 0 <= k < |frags| :: |frags[k]| > 0
    ensures forall k | 0 <= k < |frags| :: k in Live(frags, ptrs)
  {
    forall k | 0 <= k < |frags| ensures k in Live(frags, ptrs) { assert Unexhausted(frags, ptrs, k); }
  }

  lemma NothingOpen(open: map<Handle, Name>)
    ensures open.Values == {} ==> open == map[]
  {
    if h :| h in open { assert open[h] in open.Values; }
  }

  /** What has been read is in the fragments or in the buffer, and the buffer is not full. */
  ghost predicate Buffered(slot: nat, input: seq<Rec>, tmpData: seq<Rec>, fragments: nat, all: multiset<Rec>) {
    && all + multiset(tmpData) == multiset(input)
    && (slot == 0 || |tmpData| < slot)
    && (if fragments == 0 then tmpData == input && all == multiset{} else 0 < slot <= |input|)
  }

  lemma BufferedStep(slot: nat, input: seq<Rec>, i: nat, tmpData: seq<Rec>, fragments: nat, all: multiset<Rec>)
    requires i < |input| && Buffered(slot, input[..i], tmpData, fragments, all)
    ensures var more := tmpData + [input[i]];
            if |more| == slot then Buffered(slot, input[..i + 1], [], fragments + 1, all + multiset(more))
            else Buffered(slot, input[..i + 1], more, fragments, all)
  {
    assert input[..i + 1] == input[..i] + [input[i]];
    assert multiset(tmpData + [input[i]]) == multiset(tmpData) + multiset{input[i]};
  }

  lemma AllExhausted(frags: seq<seq<Rec>>, ptrs: seq<nat>, heap: multiset<Item>)
    requires Cursors(frags, ptrs) && HeapHoldsHeads(frags, ptrs, heap) && heap == multiset{}
    ensures forall k | 0 <= k < |frags| :: ptrs[k] == |frags[k]|
    ensures forall k :: !Unexhausted(frags, ptrs, k)
  {
    forall k | 0 <= k < |frags| ensures ptrs[k] == |frags[k]| { assert !Unexhausted(frags, ptrs, k); }
  }

  lemma LivePush(frags: seq<seq<Rec>>, ptrs: seq<nat>, run: seq<Rec>)
    requires Cursors(frags, ptrs) && run != []
    ensures Live(frags + [run], ptrs + [0]) == Live(frags, ptrs) + {|frags|}
  {
    var frags', ptrs' := frags + [run], ptrs + [0];
    forall k ensures k in Live(frags', ptrs') <==> k in Live(frags, ptrs) || k == |frags| {
      if 0 <= k < |frags| { assert Unexhausted(frags', ptrs', k) <==> Unexhausted(frags, ptrs, k); }
    }
  }

  lemma NewRun(frags: seq<seq<Rec>>, ptrs: seq<nat>, heap: multiset<Item>, all: multiset<Rec>, run: seq<Rec>)
    requires MergeInv(frags, ptrs, heap, [], all) && run != [] && Sorted(run)
    ensures MergeInv(frags + [run], ptrs + [0], heap + multiset{Item(run[0], |frags|)}, [], all + multiset(run))
  {
    RestPush(frags, ptrs, run);
    NewHead(frags, ptrs, heap, run);
    assert multiset([]) + Rest(frags + [run], ptrs + [0]) == all + multiset(run);
  }

  lemma NewHead(frags: seq<seq<Rec>>, ptrs: seq<nat>, heap: multiset<Item>, run: seq<Rec>)
    requires Cursors(frags, ptrs) && HeapHoldsHeads(frags, ptrs, heap) && run != []
    ensures HeapHoldsHeads(frags + [run], ptrs + [0], heap + multiset{Item(run[0], |frags|)})
  {
    var frags', ptrs', heap' := frags + [run], ptrs + [0], heap + multiset{Item(run[0], |frags|)};
    forall e | e in heap'
      ensures heap'[e] == 1 && Unexhausted(frags', ptrs', e.idx) && e.data == frags'[e.idx][ptrs'[e.idx]]
    {
      if e in heap { assert Unexhausted(frags, ptrs, e.idx); }
    }
    forall k | Unexhausted(frags', ptrs', k) ensures Item(frags'[k][ptrs'[k]], k) in heap' {
      if k < |frags| { assert Unexhausted(frags, ptrs, k); }
    }
  }
}
