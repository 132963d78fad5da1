/** aof.c: the list of blocks that holds what the parent logs while a child rewrites. */
module AofBuffer {
  import opened Sequences
  import opened Bytes
  import opened Resp

  const BLOCK_SIZE := 10 * 1024 * 1024

  function Joined(blocks: seq<bytes>): bytes {
    if blocks == [] then [] else blocks[0] + Joined(blocks[1..])
  }

  /** Every block is in use, and all but the last are full. */
  ghost predicate Packed(blocks: seq<bytes>) {
    && (forall i :: 0 <= i < |blocks| ==> 0 < |blocks[i]| <= BLOCK_SIZE)
    && (forall i :: 0 <= i < |blocks| - 1 ==> |blocks[i]| == BLOCK_SIZE)
  }

  lemma {:induction false} JoinedAppend(blocks: seq<bytes>, b: bytes)
    ensures Joined(blocks + [b]) == Joined(blocks) + b
  {
    if blocks == [] {
      assert blocks + [b] == [b] && [b][1..] == [];
    } else {
      assert (blocks + [b])[1..] == blocks[1..] + [b];
      JoinedAppend(blocks[1..], b);
    }
  }

  /** The same, but the last block may have just been allocated. */
  ghost predicate Filling(blocks: seq<bytes>) {
    && (forall i :: 0 <= i < |blocks| ==> |blocks[i]| <= BLOCK_SIZE)
    && (forall i :: 0 <= i < |blocks| - 1 ==> |blocks[i]| == BLOCK_SIZE)
  }

  predicate HasRoom(blocks: seq<bytes>) { blocks != [] && |blocks[|blocks| - 1]| < BLOCK_SIZE }

  /** The last block grows. */
  lemma LastGrows(blocks: seq<bytes>, piece: bytes)
    requires blocks != [] && Filling(blocks) && |blocks[|blocks| - 1]| + |piece| <= BLOCK_SIZE
    ensures var last := |blocks| - 1;
      Filling(blocks[last := blocks[last] + piece]) && Joined(blocks[last := blocks[last] + piece]) == Joined(blocks) + piece
  {
    var last := |blocks| - 1;
    var rest := blocks[..last];
    assert blocks == rest + [blocks[last]];
    assert blocks[last := blocks[last] + piece] == rest + [blocks[last] + piece];
    JoinedAppend(rest, blocks[last]);
    JoinedAppend(rest, blocks[last] + piece);
    Assoc(Joined(rest), blocks[last], piece);
  }

  lemma {:induction false} FullBlocks(blocks: seq<bytes>)
    requires forall i :: 0 <= i < |blocks| ==> |blocks[i]| == BLOCK_SIZE
    ensures |Joined(blocks)| == |blocks| * BLOCK_SIZE
  {
    if blocks != [] { FullBlocks(blocks[1..]); }
  }

  /** aofRewriteBufferSize */
  method Size(blocks: seq<bytes>) returns (size: nat)
    requires Packed(blocks)
    ensures size == |Joined(blocks)|
  {
    if blocks == [] { return 0; }
    var last := |blocks| - 1;
    size := last * BLOCK_SIZE + |blocks[last]|;
    FullBlocks(blocks[..last]);
    JoinedAppend(blocks[..last], blocks[last]);
    assert blocks[..last] + [blocks[last]] == blocks;
  }

  /** aofRewriteBufferAppend: fill the last block, and allocate another one while bytes are left. */
  method Append(blocks0: seq<bytes>, s: bytes) returns (blocks: seq<bytes>)
    requires Packed(blocks0)
    ensures Packed(blocks) && Joined(blocks) == Joined(blocks0) + s
  {
    blocks := blocks0;
    var pos := 0;
    assert Joined(blocks) == Joined(blocks0) + s[..pos];
    while pos < |s|
      invariant 0 <= pos <= |s| && Filling(blocks) && Joined(blocks) == Joined(blocks0) + s[..pos]
      invariant pos == |s| ==> Packed(blocks)
      decreases |s| - pos, if HasRoom(blocks) then 0 else 1
    {
      hide *;
      if blocks != [] {
        blocks, pos := FillLast(blocks, s, pos, Joined(blocks0));
      }
      if pos < |s| {
        AnotherBlock(blocks);
        blocks := blocks + [[]];
      }
    }
    assert s[..pos] == s;
  }

  lemma AnotherBlock(blocks: seq<bytes>)
    requires Filling(blocks) && !HasRoom(blocks)
    ensures Filling(blocks + [[]]) && HasRoom(blocks + [[]]) && Joined(blocks + [[]]) == Joined(blocks)
  {
    JoinedAppend(blocks, []);
  }

  method FillLast(blocks0: seq<bytes>, s: bytes, pos0: nat, ghost base: bytes) returns (blocks: seq<bytes>, pos: nat)
    requires Filling(blocks0) && blocks0 != [] && pos0 < |s| && Joined(blocks0) == base + s[..pos0]
    ensures pos0 <= pos <= |s| && Filling(blocks) && Joined(blocks) == base + s[..pos]
    ensures blocks != [] && (pos < |s| ==> !HasRoom(blocks)) && (pos == |s| ==> Packed(blocks))
    ensures HasRoom(blocks0) ==> pos0 < pos
  {
    var last := |blocks0| - 1;
    var free := BLOCK_SIZE - |blocks0[last]|;
    var thislen := if free < |s| - pos0 then free else |s| - pos0;
    LastGrows(blocks0, s[pos0..pos0 + thislen]);
    blocks := blocks0[last := blocks0[last] + s[pos0..pos0 + thislen]];
    pos := pos0 + thislen;
    assert s[..pos0] + s[pos0..pos] == s[..pos];
    Assoc(base, s[..pos0], s[pos0..pos]);
  }

  /** Every write of a block is complete. */
  ghost predicate Writable(blocks: seq<bytes>, disk: nat -> int) {
    forall i :: 0 <= i < |blocks| && |blocks[i]| > 0 ==> disk(i) == |blocks[i]|
  }

  /** aofRewriteBufferWrite: one write per block; `disk(i)` is what the i-th write returns. */
  method Write(file: bytes, blocks: seq<bytes>, disk: nat -> int) returns (ok: bool, file': bytes)
    ensures ok <==> Writable(blocks, disk)
    ensures ok ==> file' == file + Joined(blocks)
  {
    ok, file' := true, file;
    var i := 0;
    assert blocks[..0] == [];
    while i < |blocks|
      invariant 0 <= i <= |blocks| && file' == file + Joined(blocks[..i])
      invariant forall k :: 0 <= k < i && |blocks[k]| > 0 ==> disk(k) == |blocks[k]|
    {
      assert blocks[..i + 1] == blocks[..i] + [blocks[i]];
      JoinedAppend(blocks[..i], blocks[i]);
      if |blocks[i]| > 0 {
        var nwritten := disk(i);
        if nwritten != |blocks[i]| { return false, file'; }
      }
      Assoc(file, Joined(blocks[..i]), blocks[i]);
      file' := file' + blocks[i];
      i := i + 1;
    }
    assert blocks[..i] == blocks;
  }
}
