/** The pieces into which the parallel downloader divides a file. */
module DownloadPlan {

  datatype Bounds = Bounds(minBlockSize: nat, maxBlockSize: nat)

  /** The 32nd part of the file, brought within the bounds. */
  function BlockSize(bounds: Bounds, totalSize: nat): nat {
    if totalSize == 0 then bounds.minBlockSize
    else
      var b := if totalSize / 32 < bounds.minBlockSize then bounds.minBlockSize else totalSize / 32;
      if b > bounds.maxBlockSize then bounds.maxBlockSize else b
  }

  method ComputeBlockSize(bounds: Bounds, totalSize: nat) returns (blockSize: nat)
    ensures blockSize == BlockSize(bounds, totalSize)
  {
    if totalSize <= 0 {
      return bounds.minBlockSize;
    }
    blockSize := totalSize / 32;
    if blockSize < bounds.minBlockSize {
      blockSize := bounds.minBlockSize;
    }
    if blockSize > bounds.maxBlockSize {
      blockSize := bounds.maxBlockSize;
    }
  }

  /** The block size of a file is its 32nd part, or the bound that this is beyond. */
  lemma BlockSizeIsBounded(bounds: Bounds, size: nat)
    requires size > 0 && bounds.minBlockSize <= bounds.maxBlockSize
    ensures var b := BlockSize(bounds, size);
            && bounds.minBlockSize <= b <= bounds.maxBlockSize
            && (b > bounds.minBlockSize ==> 32 * b <= size) && (b < bounds.maxBlockSize ==> size < 32 * (b + 1))
  {
  }

  /** Division rounded up. */
  function CeilDiv(a: nat, b: nat): (n: nat)
    requires b > 0
    ensures (n - 1) * b < a <= n * b || (a == 0 && n == 0)
  {
    var n := (a + b - 1) / b;
    assert a + b - 1 == b * n + (a + b - 1) % b;
    assert b * n == n * b && (n - 1) * b == n * b - b;
    n
  }

  datatype Piece = Piece(index: nat, start: nat, end: int, length: int)

  function Min(a: int, b: int): int {
    if a < b then a else b
  }

  function PieceAt(size: nat, blockSize: nat, i: nat): Piece {
    var end := Min((i + 1) * blockSize - 1, size - 1);
    Piece(i, i * blockSize, end, end - i * blockSize + 1)
  }

  method PreparePieces(knownSize: nat, blockSize: nat) returns (pieces: seq<Piece>)
    requires blockSize > 0
    ensures |pieces| == CeilDiv(knownSize, blockSize)
    ensures forall i :: 0 <= i < |pieces| ==> pieces[i] == PieceAt(knownSize, blockSize, i)
  {
    var totalPieces := CeilDiv(knownSize, blockSize);
    pieces := [];
    for i := 0 to totalPieces
      invariant |pieces| == i && forall j :: 0 <= j < i ==> pieces[j] == PieceAt(knownSize, blockSize, j)
    {
      var start := i * blockSize;
      var end := Min((i + 1) * blockSize - 1, knownSize - 1);
      pieces := pieces + [Piece(i, start, end, end - start + 1)];
    }
  }

  /** The pieces follow on each other from the first byte to the last, and none is empty. */
  ghost predicate IsPartition(pieces: seq<Piece>, size: nat) {
    && (forall i :: 0 <= i < |pieces| ==> 0 < pieces[i].length == pieces[i].end - pieces[i].start + 1)
    && (forall i :: 0 <= i < |pieces| ==> pieces[i].start == if i == 0 then 0 else pieces[i - 1].end + 1)
    && (if pieces == [] then size == 0 else pieces[|pieces| - 1].end == size - 1)
  }

  lemma PiecesPartition(size: nat, blockSize: nat, pieces: seq<Piece>)
    requires blockSize > 0 && |pieces| == CeilDiv(size, blockSize)
    requires forall i :: 0 <= i < |pieces| ==> pieces[i] == PieceAt(size, blockSize, i)
    ensures IsPartition(pieces, size)
  {
    forall i | 0 <= i < |pieces|
      ensures 0 < pieces[i].length && (i + 1 < |pieces| ==> pieces[i].end == (i + 1) * blockSize - 1)
      ensures i + 1 == |pieces| ==> pieces[i].end == size - 1
    {
      NotPast(i, |pieces| - 1, blockSize);
      NotPast(i + 1, |pieces|, blockSize);
      if i + 1 < |pieces| {
        NotPast(i + 1, |pieces| - 1, blockSize);
      }
      assert (i + 1) * blockSize == i * blockSize + blockSize;
    }
  }

  lemma NotPast(i: nat, n: nat, blockSize: nat)
    requires i <= n
    ensures i * blockSize <= n * blockSize
  {
    assert n * blockSize == i * blockSize + (n - i) * blockSize;
  }

  function TotalLength(pieces: seq<Piece>): int {
    if pieces == [] then 0 else TotalLength(pieces[..|pieces| - 1]) + pieces[|pieces| - 1].length
  }

  ghost predicate Lies(pieces: seq<Piece>, k: nat) {
    exists i :: 0 <= i < |pieces| && pieces[i].start <= k <= pieces[i].end
  }

  /** Every byte lies in one piece, and in one only. */
  lemma {:induction false} PartitionCovers(pieces: seq<Piece>, size: nat)
    requires IsPartition(pieces, size)
    ensures TotalLength(pieces) == size
    ensures forall k :: 0 <= k < size ==> Lies(pieces, k)
    ensures forall i, j :: 0 <= i < j < |pieces| ==> pieces[i].end < pieces[j].start
  {
    if pieces != [] {
      var last := pieces[|pieces| - 1];
      var before := pieces[..|pieces| - 1];
      PartitionCovers(before, last.start);
      forall k | 0 <= k < size ensures Lies(pieces, k) {
        if k < last.start {
          assert Lies(before, k);
          var i :| 0 <= i < |before| && before[i].start <= k <= before[i].end;
          assert pieces[i] == before[i];
        } else {
          assert pieces[|pieces| - 1].start <= k <= pieces[|pieces| - 1].end;
        }
      }
      forall i, j | 0 <= i < j < |pieces| ensures pieces[i].end < pieces[j].start {
        if j < |before| {
          assert before[i].end < before[j].start;
        } else if i < |before| - 1 {
          assert before[i].end < before[|before| - 1].start;
          assert pieces[|before| - 1] == before[|before| - 1];
        }
      }
    }
  }

  /**
   When the 32nd part of the file lies within the bounds, there are 32 or 33 pieces exactly when the bytes
   left over after 32 blocks fit into one more block.
   */
  lemma PieceCount(bounds: Bounds, size: nat)
    requires size > 0 && 0 < bounds.minBlockSize <= size / 32 <= bounds.maxBlockSize
    ensures var n := CeilDiv(size, BlockSize(bounds, size));
            (n == 32 || n == 33 <==> size % 32 <= size / 32)
            && (size % 32 == 0 ==> n == 32)
  {
    var b, r := size / 32, size % 32;
    assert BlockSize(bounds, size) == b && size == 32 * b + r;
    var n := CeilDiv(size, b);
    if n <= 31 {
      NotPast(n, 31, b);
    }
    if n >= 34 {
      NotPast(33, n - 1, b);
    }
    assert 33 * b == 32 * b + b;
  }

  /** With bounds below 32 bytes there can be more pieces: 63 for 63 bytes. */
  lemma ManySmallPieces()
    ensures var bounds := Bounds(1, 8);
            bounds.minBlockSize <= 63 / 32 <= bounds.maxBlockSize && CeilDiv(63, BlockSize(bounds, 63)) == 63
  {
    assert BlockSize(Bounds(1, 8), 63) == 1;
  }
}
