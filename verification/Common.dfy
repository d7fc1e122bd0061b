/**
 What several parts of the model share: an optional value, the sizes of blocks and chunks,
 and the first difference of two buffers.
 */
module Common {

  datatype Option<+T> = None | Some(value: T)

  /** A block of the volume shadow copy service. */
  const BLOCK: nat := 0x4000

  /** A chunk of a backup image. */
  const CHUNK: nat := 4 * 1024 * 1024

  /** The chunks of a volume, the last of them perhaps partial. */
  function ChunkCount(size: nat): nat { size / CHUNK + if size % CHUNK != 0 then 1 else 0 }

  ghost predicate AreBytes(bytes: seq<nat>) { forall i :: 0 <= i < |bytes| ==> bytes[i] < 256 }

  /** Where two buffers first differ from `from` on, or their end. */
  method Mismatch(left: seq<nat>, right: seq<nat>, from: nat) returns (k: nat)
    requires from <= |left| == |right|
    ensures from <= k <= |left| && (forall i :: from <= i < k ==> left[i] == right[i])
    ensures k < |left| ==> left[k] != right[k]
  {
    k := from;
    while k < |left| && left[k] == right[k]
      invariant from <= k <= |left| && forall i :: from <= i < k ==> left[i] == right[i]
    {
      k := k + 1;
    }
  }
}
