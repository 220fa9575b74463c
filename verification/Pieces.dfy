/** How a file is cut into pieces, as the downloader asks for them and the uploader serves them. */
module Pieces {

  import opened Words
  import opened Bits

  /** file_pieces */
  function Count(fileLen: nat, pieceLen: nat): nat
    requires pieceLen > 0
  {
    (fileLen + pieceLen - 1) / pieceLen
  }

  function Offset(i: nat, pieceLen: nat): nat {
    i * pieceLen
  }

  /** The length asked for: a whole piece, except for the last one. */
  function Len(i: nat, fileLen: nat, pieceLen: nat): int
    requires pieceLen > 0
  {
    if i == Count(fileLen, pieceLen) - 1 then fileLen - pieceLen * (Count(fileLen, pieceLen) - 1) else pieceLen
  }

  lemma CountBounds(fileLen: nat, pieceLen: nat)
    requires pieceLen > 0
    ensures Count(fileLen, pieceLen) * pieceLen >= fileLen
    ensures Count(fileLen, pieceLen) > 0 ==> (Count(fileLen, pieceLen) - 1) * pieceLen < fileLen
    ensures Count(fileLen, pieceLen) == 0 <==> fileLen == 0
  {
    var n := Count(fileLen, pieceLen);
    var r := (fileLen + pieceLen - 1) % pieceLen;
    assert fileLen + pieceLen - 1 == n * pieceLen + r;
    assert n > 0 ==> (n - 1) * pieceLen == n * pieceLen - pieceLen;
    assert n == 0 ==> n * pieceLen == 0;
  }

  lemma SmallQuotient(a: nat, b: nat)
    requires b > 0
    ensures a < b <==> a / b == 0
  {
    assert a == a / b * b + a % b;
    if a / b > 0 { MulMono(1, a / b, b); }
  }

  /** Every piece is a non-empty range of at most piece_len bytes inside the file, and ends where the
      next one begins or, for the last, where the file ends. */
  lemma Tiling(i: nat, fileLen: nat, pieceLen: nat)
    requires pieceLen > 0 && i < Count(fileLen, pieceLen)
    ensures 0 < Len(i, fileLen, pieceLen) <= pieceLen
    ensures Offset(i, pieceLen) + Len(i, fileLen, pieceLen) ==
            if i == Count(fileLen, pieceLen) - 1 then fileLen else Offset(i + 1, pieceLen)
    ensures Offset(i, pieceLen) + Len(i, fileLen, pieceLen) <= fileLen
  {
    var n := Count(fileLen, pieceLen);
    CountBounds(fileLen, pieceLen);
    assert (n - 1) * pieceLen == n * pieceLen - pieceLen == pieceLen * (n - 1);
    if i < n - 1 {
      MulMono(i + 1, n - 1, pieceLen);
      assert (i + 1) * pieceLen == i * pieceLen + pieceLen;
    }
  }

  /** Every byte of the file lies in exactly one piece: the pieces are disjoint and cover the file. */
  lemma EachByteInOnePiece(k: nat, i: nat, fileLen: nat, pieceLen: nat)
    requires pieceLen > 0 && k < fileLen && i < Count(fileLen, pieceLen)
    ensures k / pieceLen < Count(fileLen, pieceLen)
    ensures Offset(i, pieceLen) <= k < Offset(i, pieceLen) + Len(i, fileLen, pieceLen) <==> i == k / pieceLen
  {
    var n, q := Count(fileLen, pieceLen), k / pieceLen;
    CountBounds(fileLen, pieceLen);
    Tiling(i, fileLen, pieceLen);
    WithinMultiple(k, n, pieceLen);
    WithinMultiple(k, i, pieceLen);
    WithinMultiple(k, i + 1, pieceLen);
  }

  /** Dividing rounds down. */
  lemma WithinMultiple(k: nat, i: nat, m: nat)
    requires m > 0
    ensures k < i * m <==> k / m < i
  {
    var q := k / m;
    assert k == q * m + k % m;
    if q < i {
      MulMono(q + 1, i, m);
      assert (q + 1) * m == q * m + m;
    } else {
      MulMono(i, q, m);
    }
  }

  /** No intermediate value of the downloader leaves the range of int, and the uploader, which
      multiplies in unsigned 32-bit arithmetic, seeks to the same offset. */
  lemma NoOverflow(i: nat, fileLen: nat, pieceLen: nat)
    requires pieceLen > 0 && fileLen + pieceLen - 1 <= INT_MAX && i < Count(fileLen, pieceLen)
    ensures Offset(i, pieceLen) + Len(i, fileLen, pieceLen) <= INT_MAX
    ensures pieceLen * (Count(fileLen, pieceLen) - 1) <= INT_MAX
    ensures ToUint32(i * pieceLen) == Offset(i, pieceLen)
  {
    Tiling(i, fileLen, pieceLen);
    CountBounds(fileLen, pieceLen);
  }
}
