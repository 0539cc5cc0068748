/** `calculate_file_hash`: the downloaded file is read in 4096-byte pieces and
    each piece is fed to a SHA-256 hasher. The digest itself (FIPS 180-4) is
    not modelled: it is a function of the bytes supplied by the caller, and the
    hasher's state is the sequence of bytes it has absorbed so far. */
module Hashing {
  import opened Common

  /** The size of one `f.read(4096)`. */
  const ChunkSize: nat := 4096

  /** The bytes of the pieces, in order. */
  function Flatten(blocks: seq<seq<byte>>): seq<byte> {
    if blocks == [] then [] else blocks[0] + Flatten(blocks[1..])
  }

  /** What a chunked read of a file yields: every piece is non-empty and at most
      4096 bytes long, and every piece but the last is full. */
  predicate Chunked(blocks: seq<seq<byte>>) {
    (forall i :: 0 <= i < |blocks| ==> 0 < |blocks[i]| <= ChunkSize) &&
    (forall i :: 0 <= i < |blocks| - 1 ==> |blocks[i]| == ChunkSize)
  }

  lemma {:induction false} FlattenAppend(blocks: seq<seq<byte>>, block: seq<byte>)
    ensures Flatten(blocks + [block]) == Flatten(blocks) + block
  {
    if blocks == [] {
      assert [] + [block] == [block];
      assert Flatten([block]) == block + Flatten([]);
    } else {
      assert (blocks + [block])[1..] == blocks[1..] + [block];
      FlattenAppend(blocks[1..], block);
    }
  }

  /** Reads the file piece by piece until a read comes back empty, absorbing
      every piece, and returns the hex digest of everything absorbed: the digest
      of the whole file. `blocks` records the pieces that were read. */
  method CalculateFileHash(file: seq<byte>, sha256Hex: seq<byte> -> string)
    returns (hex: string, ghost blocks: seq<seq<byte>>)
    ensures hex == sha256Hex(file)
    ensures Chunked(blocks) && Flatten(blocks) == file
  {
    var absorbed: seq<byte> := [];
    var pos := 0;
    blocks := [];
    while true
      invariant 0 <= pos <= |file|
      invariant absorbed == file[..pos]
      invariant Flatten(blocks) == absorbed
      invariant Chunked(blocks)
      invariant pos < |file| ==> forall i :: 0 <= i < |blocks| ==> |blocks[i]| == ChunkSize
      decreases |file| - pos
    {
      var chunk := file[pos..if |file| - pos < ChunkSize then |file| else pos + ChunkSize];
      if chunk == [] {
        break;
      }
      FlattenAppend(blocks, chunk);
      assert file[..pos + |chunk|] == file[..pos] + chunk;
      absorbed := absorbed + chunk;
      blocks := blocks + [chunk];
      pos := pos + |chunk|;
    }
    assert absorbed == file;
    hex := sha256Hex(absorbed);
  }

  lemma {:induction false} FlattenLength(blocks: seq<seq<byte>>)
    requires Chunked(blocks) && |blocks| > 1
    ensures |Flatten(blocks)| > ChunkSize
  {
    assert |blocks[0]| == ChunkSize;
    assert |blocks[1]| > 0;
    assert Flatten(blocks) == blocks[0] + Flatten(blocks[1..]);
    assert Flatten(blocks[1..]) == blocks[1] + Flatten(blocks[2..]);
  }

  lemma FlattenNonEmpty(blocks: seq<seq<byte>>)
    requires Chunked(blocks) && blocks != []
    ensures Flatten(blocks) != []
  {
    assert |blocks[0]| > 0;
  }

  lemma ChunkedTail(blocks: seq<seq<byte>>)
    requires Chunked(blocks) && blocks != []
    ensures Chunked(blocks[1..])
  {
    assert forall i :: 0 <= i < |blocks| - 1 ==> blocks[1..][i] == blocks[i + 1];
  }

  /** The pieces are determined by the file: two chunked readings of the same
      bytes are the same reading. */
  lemma {:induction false} ChunkingUnique(a: seq<seq<byte>>, b: seq<seq<byte>>)
    requires Chunked(a) && Chunked(b) && Flatten(a) == Flatten(b)
    ensures a == b
  {
    if a == [] || b == [] {
      if a != [] { FlattenNonEmpty(a); }
      if b != [] { FlattenNonEmpty(b); }
    } else {
      var f := Flatten(a);
      assert f == a[0] + Flatten(a[1..]);
      assert f == b[0] + Flatten(b[1..]);
      if |a| > 1 { FlattenLength(a); }
      if |b| > 1 { FlattenLength(b); }
      assert |a[0]| == |b[0]| by {
        if |a| == 1 {
          assert Flatten(a[1..]) == [];
        }
        if |b| == 1 {
          assert Flatten(b[1..]) == [];
        }
      }
      assert a[0] == f[..|a[0]|] == b[0];
      assert Flatten(a[1..]) == f[|a[0]|..] == Flatten(b[1..]);
      ChunkedTail(a);
      ChunkedTail(b);
      ChunkingUnique(a[1..], b[1..]);
      assert a == [a[0]] + a[1..];
      assert b == [b[0]] + b[1..];
    }
  }
}
