// The loops of the rewriting child: draining the pipe, and writing the diff to its file.
module AofChild {
  import opened Bytes

  const READ_MAX := 65536
  const CHUNK_MAX := 8 * 1024 * 1024 // 8<<20

  /** aofReadDiffFromParent, when the parent sends nothing meanwhile: the diff gets everything
      that was in the pipe, in whatever pieces read(2) hands it over. */
  method ReadDiffFromParent(childDiff: ByteString, pipe: ByteString) returns (diff: ByteString, total: nat)
    ensures diff == childDiff + pipe && total == |pipe|
  {
    diff, total := childDiff, 0;
    var left := pipe;
    while |left| > 0
      invariant diff + left == childDiff + pipe
      invariant total + |left| == |pipe|
    {
      var n: nat :| 0 < n <= |left| && n <= READ_MAX;
      assert left == left[..n] + left[n..];
      diff, left, total := diff + left[..n], left[n..], total + n;
    }
  }

  /** The write loop of rewriteAppendOnlyFile; rioWrite writes a whole chunk, or fails for want of room. */
  method WriteDiff(file: ByteString, childDiff: ByteString, room: nat) returns (ok: bool, file': ByteString)
    ensures file <= file' <= file + childDiff
    ensures ok <==> |childDiff| <= room
    ensures ok ==> file' == file + childDiff
  {
    file' := file;
    var at := 0;
    while at < |childDiff|
      invariant 0 <= at <= |childDiff| && at <= room && file' == file + childDiff[..at]
    {
      var chunk := if |childDiff| - at < CHUNK_MAX then |childDiff| - at else CHUNK_MAX;
      if at + chunk > room { return false, file'; }
      file', at := file' + childDiff[at..at + chunk], at + chunk;
    }
    return true, file';
  }
}
