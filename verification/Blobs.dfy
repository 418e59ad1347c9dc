/** lo_blob: a size word in host order, and the data behind it. */
module Blobs {
  import opened Wrappers
  import opened Octets
  import opened Arguments
  import opened Messages

  /** What a blob object in memory stands for. */
  predicate Represents(b: seq<byte>, data: seq<byte>) {
    |data| < TWO32 && b == HostWord(|data|) + data
  }

  /** lo_blob_new: no blob without at least one byte; without data the bytes behind the size word are
      whatever was there. */
  method BlobNew(size: int, data: Option<seq<byte>>) returns (b: array?<byte>)
    requires size < 0x8000_0000 && (size >= 1 && data.Some? ==> |data.value| == size)
    ensures b == null <==> size < 1
    ensures b != null ==> fresh(b) && b.Length == 4 + size && Represents(b[..], b[4..])
    ensures b != null && data.Some? ==> b[4..] == data.value
  {
    if size < 1 {
      return null;
    }
    b := new byte[4 + size];
    WriteBytes(b, 0, HostWord(size));
    if data.Some? {
      WriteBytes(b, 4, data.value);
    }
    assert b[..] == HostWord(size) + b[4..];
  }

  /** lo_blob_datasize */
  method DataSize(b: array<byte>, ghost data: seq<byte>) returns (n: nat)
    requires Represents(b[..], data)
    ensures n == |data|
  {
    WordValue(|data|);
    assert b[..][..4] == HostWord(|data|) && b[..4] == b[..][..4];
    n := HostValue(b[..4]);
  }

  /** lo_blobsize is the size of the blob as an argument of a message: padded with at least one byte.
      The padded blob starts with the blob object itself. */
  lemma BlobInMessage(b: seq<byte>, data: seq<byte>)
    requires Represents(b, data) && |data| < 0x8000_0000
    ensures |Host(Arg.Blob(data))| == BlobSize(HostValue(b[..4])) > |b| && b <= Host(Arg.Blob(data))
  {
    HostBlob(data);
    BlobSizeExact(|data|);
    WordValue(|data|);
    assert b[..4] == HostWord(|data|);
  }
}
