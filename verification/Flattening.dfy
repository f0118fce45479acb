/** How a nested structure is flattened into fields: `expandWithBasicMonitor` and
    `setRecursivelyWithTemplates` of AnyFundamentalVariableMonitoringWithSharedFile.h. */
module Flattening {

  /** A member of a structure: a native field, a structure, an array of native values or an array of structures. */
  datatype Member =
    | Leaf
    | Struct(members: seq<Member>)
    | LeafArray(size: nat)
    | StructArray(size: nat, members: seq<Member>)

  /** The way to a leaf: members by number, array elements by index. */
  datatype Selector = Field(number: nat) | Element(index: nat)
  type Path = seq<Selector>

  // ----- The monitors, in the order in which they are created -----

  function ExpandFrom(members: seq<Member>, x: nat, base: Path): seq<Path>
    requires x <= |members|
    decreases members, 1, |members| - x
  {
    if x == |members| then []
    else ExpandMember(members[x], base + [Field(x)]) + ExpandFrom(members, x + 1, base)
  }

  function ExpandMember(m: Member, path: Path): seq<Path>
    decreases m, 0, 0
  {
    match m
    case Leaf => [path]
    case Struct(members) => ExpandFrom(members, 0, path)
    case LeafArray(n) => seq(n, i requires 0 <= i < n => path + [Element(i)])
    case StructArray(n, members) => ExpandElements(members, n, 0, path)
  }

  function ExpandElements(members: seq<Member>, n: nat, i: nat, path: Path): seq<Path>
    requires i <= n
    decreases members, 2, n - i
  {
    if i == n then [] else ExpandFrom(members, 0, path + [Element(i)]) + ExpandElements(members, n, i + 1, path)
  }

  // ----- The updates, in the order in which they are made -----

  /** A value that is written: the index of the monitor that takes it and the leaf it is read from. */
  datatype Visit = Visit(index: nat, leaf: Path)

  function SetFrom(members: seq<Member>, x: nat, base: Path, acc: nat): (seq<Visit>, nat)
    requires x <= |members|
    decreases members, 1, |members| - x
  {
    if x == |members| then ([], acc)
    else
      var (visits, next) := SetMember(members[x], base + [Field(x)], acc);
      var (rest, end) := SetFrom(members, x + 1, base, next);
      (visits + rest, end)
  }

  function SetMember(m: Member, path: Path, acc: nat): (seq<Visit>, nat)
    decreases m, 0, 0
  {
    match m
    case Leaf => ([Visit(acc, path)], acc + 1)
    case Struct(members) => SetFrom(members, 0, path, acc)
    case LeafArray(n) => SetArray(n, 0, path, acc)
    case StructArray(n, members) => SetElements(members, n, 0, path, acc)
  }

  function SetArray(n: nat, i: nat, path: Path, acc: nat): (seq<Visit>, nat)
    requires i <= n
    decreases n - i
  {
    if i == n then ([], acc)
    else
      var (rest, end) := SetArray(n, i + 1, path, acc + 1);
      ([Visit(acc, path + [Element(i)])] + rest, end)
  }

  function SetElements(members: seq<Member>, n: nat, i: nat, path: Path, acc: nat): (seq<Visit>, nat)
    requires i <= n
    decreases members, 2, n - i
  {
    if i == n then ([], acc)
    else
      var (visits, next) := SetFrom(members, 0, path + [Element(i)], acc);
      var (rest, end) := SetElements(members, n, i + 1, path, next);
      (visits + rest, end)
  }

  // ----- They agree -----

  /** Leaf after leaf is visited, with consecutive indices from `acc` on, and the accumulator ends behind them. */
  ghost predicate Aligned(visits: seq<Visit>, end: nat, leaves: seq<Path>, acc: nat) {
    |visits| == |leaves| && end == acc + |leaves| &&
    forall k | 0 <= k < |leaves| :: visits[k] == Visit(acc + k, leaves[k])
  }

  lemma AlignedConcat(v: seq<Visit>, l: seq<Path>, acc: nat, next: nat, w: seq<Visit>, m: seq<Path>, end: nat)
    requires Aligned(v, next, l, acc) && Aligned(w, end, m, next)
    ensures Aligned(v + w, end, l + m, acc)
  {
  }

  lemma {:induction false} FromAligned(members: seq<Member>, x: nat, base: Path, acc: nat)
    requires x <= |members|
    ensures var (visits, end) := SetFrom(members, x, base, acc); Aligned(visits, end, ExpandFrom(members, x, base), acc)
    decreases members, 1, |members| - x
  {
    if x < |members| {
      var path := base + [Field(x)];
      MemberAligned(members[x], path, acc);
      var (visits, next) := SetMember(members[x], path, acc);
      FromAligned(members, x + 1, base, next);
      var (rest, end) := SetFrom(members, x + 1, base, next);
      AlignedConcat(visits, ExpandMember(members[x], path), acc, next, rest, ExpandFrom(members, x + 1, base), end);
    }
  }

  lemma {:induction false} MemberAligned(m: Member, path: Path, acc: nat)
    ensures var (visits, end) := SetMember(m, path, acc); Aligned(visits, end, ExpandMember(m, path), acc)
    decreases m, 0, 0
  {
    match m {
      case Leaf =>
      case Struct(members) => FromAligned(members, 0, path, acc);
      case LeafArray(n) => ArrayAligned(n, 0, path, acc);
      case StructArray(n, members) => ElementsAligned(members, n, 0, path, acc);
    }
  }

  lemma {:induction false} ArrayAligned(n: nat, i: nat, path: Path, acc: nat)
    requires i <= n
    ensures var (visits, end) := SetArray(n, i, path, acc);
      Aligned(visits, end, seq(n - i, k requires 0 <= k < n - i => path + [Element(i + k)]), acc)
    decreases n - i
  {
    if i < n { ArrayAligned(n, i + 1, path, acc + 1); }
  }

  lemma {:induction false} ElementsAligned(members: seq<Member>, n: nat, i: nat, path: Path, acc: nat)
    requires i <= n
    ensures var (visits, end) := SetElements(members, n, i, path, acc);
      Aligned(visits, end, ExpandElements(members, n, i, path), acc)
    decreases members, 2, n - i
  {
    if i < n {
      var here := path + [Element(i)];
      FromAligned(members, 0, here, acc);
      var (visits, next) := SetFrom(members, 0, here, acc);
      ElementsAligned(members, n, i + 1, path, next);
      var (rest, end) := SetElements(members, n, i + 1, path, next);
      var others := ExpandElements(members, n, i + 1, path);
      AlignedConcat(visits, ExpandFrom(members, 0, here), acc, next, rest, others, end);
    }
  }

  /** For every structure: each leaf is written to the monitor that was created for it, and all monitors are written. */
  lemma EveryLeafMeetsItsMonitor(members: seq<Member>)
    ensures var monitors := ExpandFrom(members, 0, []);
      var (visits, end) := SetFrom(members, 0, [], 0);
      end == |monitors| == |visits| &&
      forall k | 0 <= k < |visits| :: visits[k].index == k && monitors[k] == visits[k].leaf
  {
    FromAligned(members, 0, [], 0);
  }

  // ----- The leaves, and their order -----

  /** The path leads from the members to a native value. */
  predicate LeadsToLeaf(members: seq<Member>, p: Path)
    decreases |p|, 1
  {
    p != [] && p[0].Field? && p[0].number < |members| && EndsAtLeaf(members[p[0].number], p[1..])
  }

  predicate EndsAtLeaf(m: Member, p: Path)
    decreases |p|, 2
  {
    match m
    case Leaf => p == []
    case Struct(members) => LeadsToLeaf(members, p)
    case LeafArray(n) => |p| == 1 && p[0].Element? && p[0].index < n
    case StructArray(n, members) => p != [] && p[0].Element? && p[0].index < n && LeadsToLeaf(members, p[1..])
  }

  /** The path without its first part. */
  function Tail(p: Path, base: Path): Path
    requires base <= p
  {
    p[|base|..]
  }

  lemma TailOfTail(p: Path, base: Path, a: Selector)
    requires base + [a] <= p
    ensures base <= p && Tail(p, base) != [] && Tail(p, base)[0] == a && Tail(p, base)[1..] == Tail(p, base + [a])
  {
  }

  lemma TailStarts(p: Path, base: Path)
    requires base <= p && Tail(p, base) != []
    ensures base + [Tail(p, base)[0]] <= p && Tail(p, base)[1..] == Tail(p, base + [Tail(p, base)[0]])
  {
    assert p == base + Tail(p, base);
  }

  /** The monitors of the members from `x` on are the leaves below them. */
  lemma {:induction false} FromLeaves(members: seq<Member>, x: nat, base: Path, p: Path)
    requires x <= |members|
    ensures p in ExpandFrom(members, x, base) <==>
            base <= p && LeadsToLeaf(members, Tail(p, base)) && x <= Tail(p, base)[0].number
    decreases members, 1, |members| - x
  {
    if x < |members| {
      MemberLeaves(members[x], base + [Field(x)], p);
      FromLeaves(members, x + 1, base, p);
      if base + [Field(x)] <= p { TailOfTail(p, base, Field(x)); }
      if base <= p && Tail(p, base) != [] && Tail(p, base)[0] == Field(x) { TailStarts(p, base); }
    }
  }

  lemma {:induction false} MemberLeaves(m: Member, path: Path, p: Path)
    ensures p in ExpandMember(m, path) <==> path <= p && EndsAtLeaf(m, Tail(p, path))
    decreases m, 0, 0
  {
    match m {
      case Leaf => assert path <= p && Tail(p, path) == [] ==> p == path;
      case Struct(members) => FromLeaves(members, 0, path, p);
      case LeafArray(n) => ArrayLeaves(n, path, p);
      case StructArray(n, members) => ElementsLeaves(members, n, 0, path, p);
    }
  }

  lemma ArrayLeaves(n: nat, path: Path, p: Path)
    ensures p in ExpandMember(LeafArray(n), path) <==> path <= p && EndsAtLeaf(LeafArray(n), Tail(p, path))
  {
    var all := ExpandMember(LeafArray(n), path);
    if path <= p && EndsAtLeaf(LeafArray(n), Tail(p, path)) {
      assert p == path + Tail(p, path);
      assert all[Tail(p, path)[0].index] == p;
    }
  }

  lemma {:induction false} ElementsLeaves(members: seq<Member>, n: nat, i: nat, path: Path, p: Path)
    requires i <= n
    ensures p in ExpandElements(members, n, i, path) <==>
            path <= p && EndsAtLeaf(StructArray(n, members), Tail(p, path)) && i <= Tail(p, path)[0].index
    decreases members, 2, n - i
  {
    if i < n {
      FromLeaves(members, 0, path + [Element(i)], p);
      ElementsLeaves(members, n, i + 1, path, p);
      if path + [Element(i)] <= p { TailOfTail(p, path, Element(i)); }
      if path <= p && Tail(p, path) != [] && Tail(p, path)[0] == Element(i) { TailStarts(p, path); }
    }
  }

  /** For every structure: there is a monitor for each leaf, and for nothing else. */
  lemma MonitorsAreLeaves(members: seq<Member>, p: Path)
    ensures p in ExpandFrom(members, 0, []) <==> LeadsToLeaf(members, p)
  {
    FromLeaves(members, 0, [], p);
    assert Tail(p, []) == p;
  }

  // ----- The leaves come in order -----

  lemma {:induction false} FromBelow(members: seq<Member>, x: nat, base: Path, k: nat) returns (y: nat)
    requires x <= |members| && k < |ExpandFrom(members, x, base)|
    ensures x <= y < |members| && base + [Field(y)] <= ExpandFrom(members, x, base)[k]
    decreases members, 1, |members| - x
  {
    var here := ExpandMember(members[x], base + [Field(x)]);
    if k < |here| {
      MemberBelow(members[x], base + [Field(x)], k);
      y := x;
    } else {
      y := FromBelow(members, x + 1, base, k - |here|);
    }
  }

  lemma {:induction false} MemberBelow(m: Member, path: Path, k: nat)
    requires k < |ExpandMember(m, path)|
    ensures path <= ExpandMember(m, path)[k]
    decreases m, 0, 0
  {
    match m {
      case Leaf =>
      case Struct(members) => var _ := FromBelow(members, 0, path, k);
      case LeafArray(n) =>
      case StructArray(n, members) => var _ := ElementsBelow(members, n, 0, path, k);
    }
  }

  lemma {:induction false} ElementsBelow(members: seq<Member>, n: nat, i: nat, path: Path, k: nat) returns (j: nat)
    requires i <= n && k < |ExpandElements(members, n, i, path)|
    ensures i <= j < n && path + [Element(j)] <= ExpandElements(members, n, i, path)[k]
    decreases members, 2, n - i
  {
    var here := ExpandFrom(members, 0, path + [Element(i)]);
    if k < |here| {
      var _ := FromBelow(members, 0, path + [Element(i)], k);
      j := i;
    } else {
      j := ElementsBelow(members, n, i + 1, path, k - |here|);
    }
  }

  function Rank(s: Selector): nat { if s.Field? then s.number else s.index }

  /** Where the paths part, the first one takes the earlier member or element. */
  ghost predicate Precedes(p: Path, q: Path) {
    exists n :: 0 <= n < |p| && n < |q| && p[..n] == q[..n] && Rank(p[n]) < Rank(q[n])
  }

  lemma PartAt(p: Path, q: Path, base: Path, a: Selector, b: Selector)
    requires base + [a] <= p && base + [b] <= q && Rank(a) < Rank(b)
    ensures Precedes(p, q)
  {
    var n := |base|;
    assert p[n] == (base + [a])[n] && q[n] == (base + [b])[n];
    assert p[..n] == (base + [a])[..n] == base == (base + [b])[..n] == q[..n];
  }

  lemma {:induction false} FromOrdered(members: seq<Member>, x: nat, base: Path, k: nat, l: nat)
    requires x <= |members| && k < l < |ExpandFrom(members, x, base)|
    ensures Precedes(ExpandFrom(members, x, base)[k], ExpandFrom(members, x, base)[l])
    decreases members, 1, |members| - x
  {
    var all, here := ExpandFrom(members, x, base), ExpandMember(members[x], base + [Field(x)]);
    if l < |here| {
      MemberOrdered(members[x], base + [Field(x)], k, l);
    } else if k < |here| {
      MemberBelow(members[x], base + [Field(x)], k);
      var y := FromBelow(members, x + 1, base, l - |here|);
      PartAt(all[k], all[l], base, Field(x), Field(y));
    } else {
      FromOrdered(members, x + 1, base, k - |here|, l - |here|);
    }
  }

  lemma {:induction false} MemberOrdered(m: Member, path: Path, k: nat, l: nat)
    requires k < l < |ExpandMember(m, path)|
    ensures Precedes(ExpandMember(m, path)[k], ExpandMember(m, path)[l])
    decreases m, 0, 0
  {
    match m {
      case Leaf =>
      case Struct(members) => FromOrdered(members, 0, path, k, l);
      case LeafArray(n) => PartAt(path + [Element(k)], path + [Element(l)], path, Element(k), Element(l));
      case StructArray(n, members) => ElementsOrdered(members, n, 0, path, k, l);
    }
  }

  lemma {:induction false} ElementsOrdered(members: seq<Member>, n: nat, i: nat, path: Path, k: nat, l: nat)
    requires i <= n && k < l < |ExpandElements(members, n, i, path)|
    ensures Precedes(ExpandElements(members, n, i, path)[k], ExpandElements(members, n, i, path)[l])
    decreases members, 2, n - i
  {
    var all, here := ExpandElements(members, n, i, path), ExpandFrom(members, 0, path + [Element(i)]);
    if l < |here| {
      FromOrdered(members, 0, path + [Element(i)], k, l);
    } else if k < |here| {
      var _ := FromBelow(members, 0, path + [Element(i)], k);
      var j := ElementsBelow(members, n, i + 1, path, l - |here|);
      PartAt(all[k], all[l], path, Element(i), Element(j));
    } else {
      ElementsOrdered(members, n, i + 1, path, k - |here|, l - |here|);
    }
  }

  /** The monitors come in the order of the members and elements, so that no two stand for the same leaf. */
  lemma MonitorsInOrder(members: seq<Member>)
    ensures var monitors := ExpandFrom(members, 0, []);
      forall k, l | 0 <= k < l < |monitors| :: Precedes(monitors[k], monitors[l]) && monitors[k] != monitors[l]
  {
    var monitors := ExpandFrom(members, 0, []);
    forall k, l | 0 <= k < l < |monitors| ensures Precedes(monitors[k], monitors[l]) && monitors[k] != monitors[l] {
      FromOrdered(members, 0, [], k, l);
    }
  }
}
