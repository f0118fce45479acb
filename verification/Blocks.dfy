/** Record files as blocks of records, whatever a record is: what a reader of FileBlockWrapper.h can index and in
    which order it sees the records. */
module Blocks {
  newtype byte = x: int | 0 <= x < 256
  type Bytes = seq<byte>

  function Flatten<T>(blocks: seq<seq<T>>): seq<T> {
    if blocks == [] then [] else blocks[0] + Flatten(blocks[1..])
  }

  lemma {:induction false} FlattenConcat<T>(a: seq<seq<T>>, b: seq<seq<T>>)
    ensures Flatten(a + b) == Flatten(a) + Flatten(b)
  {
    if a == [] {
      assert a + b == b;
    } else {
      FlattenConcat(a[1..], b);
      assert (a + b)[0] == a[0] && (a + b)[1..] == a[1..] + b;
      Associative(a[0], Flatten(a[1..]), Flatten(b));
    }
  }

  lemma Associative<T>(a: seq<T>, b: seq<T>, c: seq<T>)
    ensures (a + b) + c == a + (b + c)
  {
  }

  lemma FlattenAppend<T>(blocks: seq<seq<T>>, last: seq<T>)
    ensures Flatten(blocks + [last]) == Flatten(blocks) + last
  {
    FlattenConcat(blocks, [last]);
    assert Flatten([last]) == last + Flatten([]);
  }

  lemma FlattenAt<T>(blocks: seq<seq<T>>, b: nat, k: nat)
    requires b < |blocks| && k < |blocks[b]|
    ensures var n := |Flatten(blocks[..b])| + k; n < |Flatten(blocks)| && Flatten(blocks)[n] == blocks[b][k]
  {
    var front, back := blocks[..b], blocks[b..];
    FlattenConcat(front, back);
    assert front + back == blocks && back[0] == blocks[b];
    assert Flatten(back)[k] == blocks[b][k];
  }

  /** The blocks before the first empty one. */
  function Seen<T>(blocks: seq<seq<T>>): (seen: seq<seq<T>>)
    ensures |seen| <= |blocks| && seen == blocks[..|seen|] && forall b | 0 <= b < |seen| :: seen[b] != []
    ensures |seen| < |blocks| ==> blocks[|seen|] == []
  {
    if blocks == [] || blocks[0] == [] then [] else [blocks[0]] + Seen(blocks[1..])
  }

  /** No block has more records than `limit`, where 0 stands for the size of the first block with records. */
  predicate Readable<T>(blocks: seq<seq<T>>, limit: nat) {
    blocks == [] ||
    var l := if limit == 0 then |blocks[0]| else limit;
    |blocks[0]| <= l && Readable(blocks[1..], l)
  }

  /** `Readable` in closed form: the first block with records is a largest one. */
  lemma {:induction false} ReadableIff<T>(blocks: seq<seq<T>>, first: nat)
    requires first < |blocks| && blocks[first] != [] && forall b | 0 <= b < first :: blocks[b] == []
    ensures Readable(blocks, 0) <==> forall b | 0 <= b < |blocks| :: |blocks[b]| <= |blocks[first]|
  {
    if first == 0 {
      assert Readable(blocks, 0) == Readable(blocks[1..], |blocks[0]|);
      ReadableLimit(blocks[1..], |blocks[0]|);
      assert forall b | 0 < b < |blocks| :: blocks[b] == blocks[1..][b - 1];
    } else {
      assert blocks[0] == [];
      ReadableIff(blocks[1..], first - 1);
      assert forall b | 0 < b < |blocks| :: blocks[b] == blocks[1..][b - 1];
    }
  }

  lemma {:induction false} ReadableLimit<T>(blocks: seq<seq<T>>, limit: nat)
    requires limit > 0
    ensures Readable(blocks, limit) <==> forall b | 0 <= b < |blocks| :: |blocks[b]| <= limit
  {
    if blocks != [] {
      ReadableLimit(blocks[1..], limit);
      assert forall b | 0 < b < |blocks| :: blocks[b] == blocks[1..][b - 1];
    }
  }

  /** What can be read has no block with more records than its first block. */
  lemma ReadableBlock<T>(blocks: seq<seq<T>>, b: nat)
    requires Readable(blocks, 0) && b < |blocks| && blocks[0] != []
    ensures |blocks[b]| <= |blocks[0]|
  {
    ReadableIff(blocks, 0);
  }
}
