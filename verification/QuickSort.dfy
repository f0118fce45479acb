/** The log record and the order by which it is sorted. */
module Records {

  /** One changed field: FileSerializer.h, `new_delta_data_structure`, without the fields that are never
      read back.  Identifiers are 8 bits wide in the file. */
  datatype Rec = Rec(timestamp: real, structId: nat, fieldId: nat, starting: bool, ending: bool, data: int)

  /** The tuple (timestamp, structure_id, unnested_field_id), compared lexicographically. */
  predicate Le(a: Rec, b: Rec) {
    a.timestamp < b.timestamp ||
    (a.timestamp == b.timestamp && (a.structId < b.structId || (a.structId == b.structId && a.fieldId <= b.fieldId)))
  }

  ghost predicate Sorted(s: seq<Rec>) {
    forall j, k :: 0 <= j < k < |s| ==> Le(s[j], s[k])
  }

  /** `r` is the last record of field `f` of structure `id` up to time `t`. */
  ghost predicate IsLatest(records: set<Rec>, id: nat, f: nat, t: real, r: Rec) {
    && r in records && r.structId == id && r.fieldId == f && r.timestamp <= t
    && forall q | q in records && q.structId == id && q.fieldId == f && q.timestamp <= t :: q.timestamp <= r.timestamp
  }

  function ToSet(records: seq<Rec>): set<Rec> { set r | r in records }

  /** `MinHeapIovec::operator<`. */
  predicate HeapLess(a: Rec, b: Rec) {
    a.timestamp > b.timestamp ||
    (a.timestamp == b.timestamp && a.structId > b.structId) ||
    (a.timestamp == b.timestamp && a.structId == b.structId && a.fieldId > b.fieldId)
  }

  /** The order of the heap is exactly the reverse of the order of the runs, which is total and
      transitive: the top of the heap is a smallest record. */
  lemma HeapOrderReversesRunOrder(a: Rec, b: Rec, c: Rec)
    ensures HeapLess(a, b) <==> Le(b, a) && !Le(a, b)
    ensures !HeapLess(a, b) <==> Le(a, b)
    ensures Le(a, b) && Le(b, c) ==> Le(a, c)
    ensures Le(a, b) || Le(b, a)
  {
  }

  lemma SortedConcat(a: seq<Rec>, b: seq<Rec>)
    requires Sorted(a) && Sorted(b) && forall x, y | x in a && y in b :: Le(x, y)
    ensures Sorted(a + b)
  {
    var s := a + b;
    forall j, k | 0 <= j < k < |s| ensures Le(s[j], s[k]) {
      if j < |a| <= k { assert s[j] in a && s[k] in b; }
    }
  }
}

/** The in-place quicksort of QuickSort.h, on a vector of records. */
module QuickSorts {
  import opened Records

  /** `t` is `s` with the elements of s[lo..hi] rearranged and all others where they were. */
  ghost predicate Rearranged(s: seq<Rec>, t: seq<Rec>, lo: int, hi: int) {
    |s| == |t| && 0 <= lo <= hi <= |s| &&
    multiset(s[lo..hi]) == multiset(t[lo..hi]) && s[..lo] == t[..lo] && s[hi..] == t[hi..]
  }

  lemma RearrangedTrans(s: seq<Rec>, t: seq<Rec>, u: seq<Rec>, lo: int, hi: int)
    requires Rearranged(s, t, lo, hi) && Rearranged(t, u, lo, hi)
    ensures Rearranged(s, u, lo, hi)
  {
  }

  /** Rearranging a segment rearranges every segment that contains it. */
  lemma RearrangedWiden(s: seq<Rec>, t: seq<Rec>, l: int, h: int, lo: int, hi: int)
    requires Rearranged(s, t, l, h) && 0 <= lo <= l && h <= hi <= |s|
    ensures Rearranged(s, t, lo, hi)
  {
    assert s[lo..hi] == s[lo..l] + s[l..h] + s[h..hi];
    assert t[lo..hi] == t[lo..l] + t[l..h] + t[h..hi];
    assert s[lo..l] == s[..l][lo..] == t[..l][lo..] == t[lo..l];
    assert s[h..hi] == s[h..][..hi - h] == t[h..][..hi - h] == t[h..hi];
    assert s[..lo] == s[..l][..lo] && t[..lo] == t[..l][..lo];
    assert s[hi..] == s[h..][hi - h..] && t[hi..] == t[h..][hi - h..];
  }

  lemma RearrangedMembers(s: seq<Rec>, t: seq<Rec>, lo: int, hi: int)
    requires Rearranged(s, t, lo, hi)
    ensures forall x :: x in s[lo..hi] <==> x in t[lo..hi]
    ensures forall k | 0 <= k < lo || hi <= k < |s| :: s[k] == t[k]
  {
    forall x ensures x in s[lo..hi] <==> x in t[lo..hi] {
      assert x in s[lo..hi] <==> x in multiset(s[lo..hi]);
    }
    forall k | 0 <= k < lo || hi <= k < |s| ensures s[k] == t[k] {
      if k < lo { assert s[k] == s[..lo][k]; } else { assert s[k] == s[hi..][k - hi]; }
    }
  }

  function Swapped(s: seq<Rec>, i: nat, j: nat): seq<Rec>
    requires i < |s| && j < |s|
  {
    s[i := s[j]][j := s[i]]
  }

  lemma SwapRearranges(s: seq<Rec>, lo: int, hi: int, i: nat, j: nat)
    requires 0 <= lo <= i < hi <= |s| && lo <= j < hi
    ensures Rearranged(s, Swapped(s, i, j), lo, hi)
  {
    assert Swapped(s, i, j)[lo..hi] == Swapped(s[lo..hi], i - lo, j - lo);
  }

  method Swap(a: array<Rec>, i: nat, j: nat)
    requires i < a.Length && j < a.Length
    modifies a
    ensures a[..] == Swapped(old(a[..]), i, j)
  {
    a[i], a[j] := a[j], a[i];
  }

  /** s[lo..p] is at most the pivot, s[p..j] is at least the pivot. */
  ghost predicate SplitAt(s: seq<Rec>, lo: nat, p: nat, j: nat, pivot: Rec) {
    lo <= p <= j <= |s| &&
    (forall k | lo <= k < p :: Le(s[k], pivot)) && (forall k | p <= k < j :: Le(pivot, s[k]))
  }

  lemma SplitStep(s: seq<Rec>, lo: nat, p: nat, j: nat, pivot: Rec)
    requires SplitAt(s, lo, p, j, pivot) && j < |s|
    ensures if Le(s[j], pivot) then SplitAt(Swapped(s, p, j), lo, p + 1, j + 1, pivot)
            else SplitAt(s, lo, p, j + 1, pivot)
  {
  }

  /** What the loop of `Partition` keeps: `cur` is the vector, `orig` the vector at the start. */
  ghost predicate Partitioning(orig: seq<Rec>, cur: seq<Rec>, lo: nat, hi: nat, p: nat, j: nat) {
    hi < |orig| == |cur| && j <= hi && cur[hi] == orig[hi] &&
    SplitAt(cur, lo, p, j, orig[hi]) && Rearranged(orig, cur, lo, hi + 1)
  }

  lemma PartitionStep(orig: seq<Rec>, cur: seq<Rec>, lo: nat, hi: nat, p: nat, j: nat)
    requires Partitioning(orig, cur, lo, hi, p, j) && j < hi
    ensures if Le(cur[j], orig[hi]) then Partitioning(orig, Swapped(cur, p, j), lo, hi, p + 1, j + 1)
            else Partitioning(orig, cur, lo, hi, p, j + 1)
  {
    SplitStep(cur, lo, p, j, orig[hi]);
    SwapRearranges(cur, lo, hi + 1, p, j);
    RearrangedTrans(orig, cur, Swapped(cur, p, j), lo, hi + 1);
  }

  lemma PartitionEnd(orig: seq<Rec>, cur: seq<Rec>, lo: nat, hi: nat, p: nat)
    requires Partitioning(orig, cur, lo, hi, p, hi)
    ensures var end := Swapped(cur, hi, p);
            SplitAt(end, lo, p, hi + 1, end[p]) && Rearranged(orig, end, lo, hi + 1)
  {
    SwapRearranges(cur, lo, hi + 1, hi, p);
    RearrangedTrans(orig, cur, Swapped(cur, hi, p), lo, hi + 1);
  }

  method Partition(a: array<Rec>, lo: nat, hi: nat) returns (p: nat)
    requires lo <= hi < a.Length
    modifies a
    ensures lo <= p <= hi && SplitAt(a[..], lo, p, hi + 1, a[p])
    ensures Rearranged(old(a[..]), a[..], lo, hi + 1)
  {
    ghost var orig := a[..];
    var pivot := a[hi];
    p := lo;
    for j := lo to hi
      invariant Partitioning(orig, a[..], lo, hi, p, j)
    {
      PartitionStep(orig, a[..], lo, hi, p, j);
      if Le(a[j], pivot) {
        Swap(a, p, j);
        p := p + 1;
      }
    }
    PartitionEnd(orig, a[..], lo, hi, p);
    Swap(a, hi, p);
  }

  ghost predicate SortedPart(s: seq<Rec>, t: seq<Rec>, lo: int, hi: int) {
    Rearranged(s, t, lo, hi) && Sorted(t[lo..hi])
  }

  /** Sorting both sides of the pivot sorts the whole segment. */
  lemma SortedAround(orig: seq<Rec>, s: seq<Rec>, t: seq<Rec>, u: seq<Rec>, lo: nat, p: nat, hi: nat)
    requires lo <= p < hi <= |s| && Rearranged(orig, s, lo, hi) && SplitAt(s, lo, p, hi, s[p])
    requires SortedPart(s, t, lo, p) && SortedPart(t, u, p + 1, hi)
    ensures SortedPart(orig, u, lo, hi)
  {
    RearrangedMembers(s, t, lo, p);
    RearrangedMembers(t, u, p + 1, hi);
    RearrangedWiden(s, t, lo, p, lo, hi);
    RearrangedWiden(t, u, p + 1, hi, lo, hi);
    RearrangedTrans(s, t, u, lo, hi);
    var left, right := u[lo..p], u[p + 1..hi];
    assert left == t[lo..p];
    assert t[p + 1..hi] == s[p + 1..hi];
    forall x | x in left ensures Le(x, s[p]) { assert x in s[lo..p]; }
    forall x | x in right ensures Le(s[p], x) { assert x in s[p + 1..hi]; }
    SortedThree(left, s[p], right);
    assert u[lo..hi] == left + ([s[p]] + right);
    RearrangedTrans(orig, s, u, lo, hi);
  }

  lemma SortedThree(left: seq<Rec>, pivot: Rec, right: seq<Rec>)
    requires Sorted(left) && Sorted(right)
    requires (forall x | x in left :: Le(x, pivot)) && forall y | y in right :: Le(pivot, y)
    ensures Sorted(left + ([pivot] + right))
  {
    forall x, y | x in left && y in right ensures Le(x, y) { HeapOrderReversesRunOrder(x, pivot, y); }
    SortedConcat([pivot], right);
    SortedConcat(left, [pivot] + right);
  }

  lemma ShortIsSorted(s: seq<Rec>, lo: int, hi: int)
    requires 0 <= lo <= hi <= |s| && hi - lo <= 1
    ensures SortedPart(s, s, lo, hi)
  {
  }

  /** `p - 1` is only taken when `p > lo`, so the unsigned index never underflows. */
  method QuickSortRange(a: array<Rec>, lo: nat, hi: nat)
    requires lo <= hi + 1 <= a.Length
    modifies a
    ensures SortedPart(old(a[..]), a[..], lo, hi + 1)
    decreases hi + 1 - lo
  {
    if lo >= hi {
      ShortIsSorted(a[..], lo, hi + 1);
      return;
    }
    var p := Partition(a, lo, hi);
    ghost var s := a[..];
    if p > lo {
      QuickSortRange(a, lo, p - 1);
    } else {
      ShortIsSorted(s, lo, p);
    }
    ghost var t := a[..];
    QuickSortRange(a, p + 1, hi);
    SortedAround(old(a[..]), s, t, a[..], lo, p, hi + 1);
  }

  /** The vector ends up sorted and with exactly the records it had. */
  method QuickSort(a: array<Rec>)
    modifies a
    ensures Sorted(a[..]) && multiset(a[..]) == multiset(old(a[..]))
  {
    if a.Length > 1 {
      QuickSortRange(a, 0, a.Length - 1);
      assert a[0..a.Length] == a[..] && old(a[..])[0..a.Length] == old(a[..]);
    }
  }
}
