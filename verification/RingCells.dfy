/** The cyclic layout shared by both versions of the ring buffer: the unread bytes are the cells
    from the read index up to the write index, wrapping at the end of storage, and one cell
    always stays empty. */
module RingCells {
  import opened Bytes

  /** Number of occupied cells. */
  function Used(size: nat, rd: nat, wr: nat): (n: nat)
    requires rd < size && wr < size
    ensures n < size
  {
    if rd <= wr then wr - rd else size - rd + wr
  }

  /** Number of cells that may still be filled. */
  function Free(size: nat, rd: nat, wr: nat): (n: nat)
    requires rd < size && wr < size
    ensures n + Used(size, rd, wr) == size - 1
  {
    size - 1 - Used(size, rd, wr)
  }

  /** The unread bytes, oldest first. */
  function Cells(data: seq<Byte>, rd: nat, wr: nat): (c: seq<Byte>)
    requires rd < |data| && wr < |data|
    ensures |c| == Used(|data|, rd, wr)
  {
    if rd <= wr then data[rd..wr] else data[rd..] + data[..wr]
  }

  /** The index `k` cells after `i`. */
  function Advance(size: nat, i: nat, k: nat): (j: nat)
    requires i < size && i + k <= size
    ensures j < size
  {
    if i + k == size then 0 else i + k
  }

  /** Freeing the `k` oldest cells, all before the end of storage, drops the `k` oldest bytes. */
  lemma AdvanceRead(data: seq<Byte>, rd: nat, wr: nat, k: nat)
    requires rd < |data| && wr < |data|
    requires rd + k <= |data| && k <= Used(|data|, rd, wr)
    ensures Cells(data, rd, wr)[..k] == data[rd..rd + k]
    ensures Cells(data, Advance(|data|, rd, k), wr) == Cells(data, rd, wr)[k..]
  {
  }

  /** Filling the `k` cells at the write index, all before the end of storage, appends `k` bytes. */
  lemma AdvanceWrite(data: seq<Byte>, data': seq<Byte>, rd: nat, wr: nat, k: nat)
    requires rd < |data| && wr < |data| && |data'| == |data|
    requires wr + k <= |data| && k <= Free(|data|, rd, wr)
    requires forall i :: 0 <= i < |data| && !(wr <= i < wr + k) ==> data'[i] == data[i]
    ensures Cells(data', rd, Advance(|data|, wr, k)) == Cells(data, rd, wr) + data'[wr..wr + k]
  {
  }

  /** A cell outside the occupied interval can change without touching the unread bytes. */
  lemma FreeCellIrrelevant(data: seq<Byte>, rd: nat, wr: nat, i: nat, b: Byte)
    requires rd < |data| && wr < |data|
    requires wr <= i < |data| && i - wr < Free(|data|, rd, wr)
    ensures Cells(data[i := b], rd, wr) == Cells(data, rd, wr)
  {
  }
}
