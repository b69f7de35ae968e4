/** How successive reads of one block cut a file into pieces. */
module Segmentation {
  import opened Common

  /** What is transferred, at which block size. `acceptEmpty` selects the variant receiver that
      treats writing zero bytes as a success; the program as written is `acceptEmpty == false`. */
  datatype Job = Job(file: seq<byte>, blockSize: BlockSize, acceptEmpty: bool)

  /** The file offset after `i` reads. */
  function Upto(c: Job, i: nat): (n: nat)
    ensures n <= |c.file|
  {
    if i == 0 then 0 else Min(Upto(c, i - 1) + c.blockSize, |c.file|)
  }

  /** How many reads of `d` bytes it takes to read less than `d`, in a file of `n` bytes. */
  function Reads(n: nat, d: nat): nat
    requires 0 < d
  {
    if n < d then 1 else 1 + Reads(n - d, d)
  }

  function BlockCount(c: Job): nat {
    Reads(|c.file|, c.blockSize)
  }

  /** The number of reads is `total_block_count`, before that is stored in 32 bits. */
  lemma BlockCountIsDivision(n: nat, d: nat)
    requires 0 < d
    ensures Reads(n, d) == n / d + 1
  {
    ReadsBracket(n, d);
    var p, q := n / d, Reads(n, d) - 1;
    assert n == p * d + n % d;
    if p < q {
      Scale(p + 1, q, d);
    } else if q < p {
      Scale(q + 1, p, d);
    }
  }

  lemma {:induction false} ReadsBracket(n: nat, d: nat)
    requires 0 < d
    ensures (Reads(n, d) - 1) * d <= n < Reads(n, d) * d
  {
    if n >= d {
      ReadsBracket(n - d, d);
    }
  }

  lemma Scale(a: int, b: int, d: nat)
    requires a <= b
    ensures a * d <= b * d
  {
  }

  /** Blocks are numbered from 1. */
  function Block(c: Job, i: nat): seq<byte>
    requires 1 <= i
  {
    c.file[Upto(c, i - 1)..Upto(c, i)]
  }

  /** Only a file with a non-empty last block can be written by the program. */
  predicate Receivable(c: Job) {
    c.acceptEmpty || Upto(c, BlockCount(c) - 1) < |c.file|
  }

  lemma {:induction false} UptoIsMultiple(c: Job, i: nat)
    requires i < BlockCount(c)
    ensures Upto(c, i) == i * c.blockSize
  {
    if i > 0 {
      UptoIsMultiple(c, i - 1);
      BlockCountIsDivision(|c.file|, c.blockSize);
      FitsBefore(|c.file|, c.blockSize, i);
    }
  }

  lemma FitsBefore(n: nat, d: nat, i: nat)
    requires 0 < d && i <= n / d
    ensures i * d == (i - 1) * d + d && i * d <= n
  {
    assert n == n / d * d + n % d;
    assert i * d <= n / d * d;
  }

  /** What is left of the file before the i-th read. */
  lemma LeftBefore(c: Job, i: nat)
    requires 1 <= i <= BlockCount(c)
    ensures var left := |c.file| - Upto(c, i - 1);
      && (i < BlockCount(c) ==> c.blockSize <= left)
      && (i == BlockCount(c) ==> left == |c.file| % c.blockSize < c.blockSize)
  {
    UptoIsMultiple(c, i - 1);
    BlockCountIsDivision(|c.file|, c.blockSize);
    if i < BlockCount(c) {
      FitsBefore(|c.file|, c.blockSize, i);
    }
  }

  /** Every block but the last is full; the last one is shorter and ends the file. */
  lemma BlockShape(c: Job, i: nat)
    requires 1 <= i <= BlockCount(c)
    ensures |Block(c, i)| <= c.blockSize
    ensures |Block(c, i)| == c.blockSize <==> i < BlockCount(c)
    ensures i == BlockCount(c) ==> Upto(c, i) == |c.file| && (Block(c, i) != [] <==> Upto(c, i - 1) < |c.file|)
  {
    var left := |c.file| - Upto(c, i - 1);
    assert if i < BlockCount(c) then c.blockSize <= left else left < c.blockSize by {
      LeftBefore(c, i);
    }
  }

  /** A file is receivable unless its size is a multiple of the block size. */
  lemma ReceivableIff(c: Job)
    ensures Receivable(c) <==> c.acceptEmpty || |c.file| % c.blockSize != 0
  {
    LeftBefore(c, BlockCount(c));
  }

  function Concat(chunks: seq<seq<byte>>): seq<byte> {
    if chunks == [] then [] else Concat(chunks[..|chunks| - 1]) + chunks[|chunks| - 1]
  }

  /** The first `k` blocks of the file. */
  function FirstBlocks(c: Job, k: nat): seq<seq<byte>> {
    seq(k, i requires 0 <= i => Block(c, i + 1))
  }

  lemma OneMoreBlock(c: Job, k: nat)
    requires 1 <= k
    ensures c.file[..Upto(c, k)] == c.file[..Upto(c, k - 1)] + Block(c, k)
  {
  }

  /** The first `k` blocks put together are the file up to the offset after `k` reads; all of
      them together are the file. */
  lemma {:induction false} BlocksRebuildFile(c: Job, k: nat)
    ensures Concat(FirstBlocks(c, k)) == c.file[..Upto(c, k)]
    ensures k == BlockCount(c) ==> Concat(FirstBlocks(c, k)) == c.file
  {
    hide Block;
    if k > 0 {
      BlocksRebuildFile(c, k - 1);
      assert FirstBlocks(c, k)[..k - 1] == FirstBlocks(c, k - 1);
      OneMoreBlock(c, k);
    }
    if k == BlockCount(c) {
      BlockShape(c, k);
      assert c.file[..|c.file|] == c.file;
    }
  }
}
