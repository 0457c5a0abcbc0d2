/** The download loop: received chunks are re-cut into hash blocks and verified at the end. */
module Download {
  import opened Collections
  import opened Numbers
  import opened QuickXor
  import Paths

  const HASH_BLOCK_BYTES: nat := 1024 * 1024

  datatype FileHashes = FileHashes(sha1: Option<string>, quickXor: Option<string>)

  datatype DownloadError = Network | HashMismatch

  /**
   * The library parts: SHA-1 printed in hexadecimal, as a function of all bytes fed in order, and
   * the Base64 text of a digest.
   */
  datatype Codec = Codec(sha1Hex: seq<byte> -> string, base64: seq<byte> -> string)

  /** The received bytes match what the server announced. */
  ghost predicate Verifies(codec: Codec, expected: Option<FileHashes>, content: seq<byte>)
  {
    expected.Some? ==>
      && (expected.value.sha1.Some? ==>
            Paths.AsciiLower(codec.sha1Hex(content)) == Paths.AsciiLower(expected.value.sha1.value))
      && (expected.value.quickXor.Some? ==>
            exists d :: IsDigest(content, d) && codec.base64(d) == expected.value.quickXor.value)
  }

  /**
   * Receives `chunks`, then, when `broken`, a network error. Whatever the cut into chunks, the
   * result is their concatenation or a mismatch of the hash of that concatenation.
   */
  method DownloadFromUrl(chunks: seq<seq<byte>>, broken: bool, codec: Codec, expected: Option<FileHashes>)
    returns (r: Result<seq<byte>, DownloadError>)
    ensures broken ==> r == Err(Network)
    ensures !broken ==>
      r == if Verifies(codec, expected, Flatten(chunks)) then Ok(Flatten(chunks)) else Err(HashMismatch)
  {
    var sha1Fed: seq<byte> := [];
    var hasher := new QuickXorHasher();
    var allBytes: seq<byte> := [];
    var chunkBuf: seq<byte> := [];
    var i := 0;
    assert chunks[..0] == [];
    while i < |chunks|
      invariant 0 <= i <= |chunks|
      invariant hasher.Valid() && fresh(hasher) && fresh(hasher.data)
      invariant sha1Fed == allBytes == hasher.fed
      invariant allBytes + chunkBuf == Flatten(chunks[..i])
    {
      chunkBuf := chunkBuf + chunks[i];
      assert chunks[..i + 1][..i] == chunks[..i];
      assert allBytes + chunkBuf == Flatten(chunks[..i + 1]);
      while |chunkBuf| >= HASH_BLOCK_BYTES
        invariant hasher.Valid() && fresh(hasher) && fresh(hasher.data)
        invariant sha1Fed == allBytes == hasher.fed
        invariant allBytes + chunkBuf == Flatten(chunks[..i + 1])
        decreases |chunkBuf|
      {
        var block := chunkBuf[..HASH_BLOCK_BYTES];
        assert chunkBuf == block + chunkBuf[HASH_BLOCK_BYTES..];
        chunkBuf := chunkBuf[HASH_BLOCK_BYTES..];
        sha1Fed := sha1Fed + block;
        hasher.Update(block);
        allBytes := allBytes + block;
      }
      i := i + 1;
    }
    if broken {
      return Err(Network);
    }
    if chunkBuf != [] {
      sha1Fed := sha1Fed + chunkBuf;
      hasher.Update(chunkBuf);
      allBytes := allBytes + chunkBuf;
    }
    assert chunks[..|chunks|] == chunks;
    assert allBytes == Flatten(chunks);
    if expected.Some? {
      if expected.value.sha1.Some? {
        if Paths.AsciiLower(codec.sha1Hex(sha1Fed)) != Paths.AsciiLower(expected.value.sha1.value) {
          return Err(HashMismatch);
        }
      }
      if expected.value.quickXor.Some? {
        var digest := hasher.Finalize();
        forall d | IsDigest(allBytes, d) ensures d == digest {
          DigestIsUnique(allBytes, d, digest);
        }
        if codec.base64(digest) != expected.value.quickXor.value {
          return Err(HashMismatch);
        }
      }
    }
    return Ok(allBytes);
  }
}
