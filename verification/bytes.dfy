/** Bytes and the concatenation of byte chunks. */
module Bytes {

  /** One octet of a Node `Buffer` or `Uint8Array`. */
  newtype byte = x: int | 0 <= x < 256

  /** The chunks laid end to end, in order. */
  function Flatten(chunks: seq<seq<byte>>): seq<byte>
  {
    if |chunks| == 0 then [] else Flatten(chunks[..|chunks| - 1]) + chunks[|chunks| - 1]
  }

  /** The sum of the chunks' byte lengths. */
  function TotalLength(chunks: seq<seq<byte>>): nat
  {
    if |chunks| == 0 then 0 else TotalLength(chunks[..|chunks| - 1]) + |chunks[|chunks| - 1]|
  }

  /** The concatenation is exactly as long as the chunks together. */
  lemma {:induction false} FlattenLength(chunks: seq<seq<byte>>)
    ensures |Flatten(chunks)| == TotalLength(chunks)
    decreases |chunks|
  {
    if |chunks| > 0 {
      FlattenLength(chunks[..|chunks| - 1]);
    }
  }

  /** Flattening distributes over splitting the chunk list in two. */
  lemma {:induction false} FlattenAppend(xs: seq<seq<byte>>, ys: seq<seq<byte>>)
    ensures Flatten(xs + ys) == Flatten(xs) + Flatten(ys)
    ensures TotalLength(xs + ys) == TotalLength(xs) + TotalLength(ys)
    decreases |ys|
  {
    if |ys| == 0 {
      assert xs + ys == xs;
    } else {
      var init := ys[..|ys| - 1];
      assert (xs + ys)[..|xs + ys| - 1] == xs + init;
      FlattenAppend(xs, init);
    }
  }

  /** Chunk `i` occupies positions TotalLength(chunks[..i]) up to TotalLength(chunks[..i+1])
      of the concatenation, so every chunk's bytes are found in place, unaltered. */
  lemma ChunkInPlace(chunks: seq<seq<byte>>, i: nat)
    requires i < |chunks|
    ensures TotalLength(chunks[..i]) + |chunks[i]| == TotalLength(chunks[..i + 1]) <= |Flatten(chunks)|
    ensures Flatten(chunks)[TotalLength(chunks[..i])..TotalLength(chunks[..i + 1])] == chunks[i]
  {
    assert chunks == chunks[..i] + [chunks[i]] + chunks[i + 1..];
    FlattenAppend(chunks[..i] + [chunks[i]], chunks[i + 1..]);
    FlattenAppend(chunks[..i], [chunks[i]]);
    assert chunks[..i + 1] == chunks[..i] + [chunks[i]];
    assert Flatten([chunks[i]]) == chunks[i] by {
      assert [chunks[i]][..0] == [];
    }
    assert TotalLength([chunks[i]]) == |chunks[i]| by {
      assert [chunks[i]][..0] == [];
    }
    FlattenLength(chunks[..i]);
    FlattenLength(chunks);
  }

  /** A prefix of the chunk list is never longer in total than the whole list. */
  lemma TotalLengthPrefix(chunks: seq<seq<byte>>, j: nat)
    requires j <= |chunks|
    ensures TotalLength(chunks[..j]) <= TotalLength(chunks)
  {
    assert chunks == chunks[..j] + chunks[j..];
    FlattenAppend(chunks[..j], chunks[j..]);
  }

  /** `target.set(source, offset)` on a `Uint8Array`: the bytes at `offset` onwards are
      overwritten by `source`; the length and every other byte stay as they were. */
  function SetAt(target: seq<byte>, source: seq<byte>, offset: nat): (r: seq<byte>)
    requires offset + |source| <= |target|
    ensures |r| == |target|
    ensures r[..offset] == target[..offset]
    ensures r[offset..offset + |source|] == source
    ensures r[offset + |source|..] == target[offset + |source|..]
  {
    target[..offset] + source + target[offset + |source|..]
  }
}
