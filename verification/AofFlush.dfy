// The append only file and the buffer in front of it: flushing through delayed, short and failed
// writes, and failed truncates.
module AofFlush {
  import opened Bytes

  datatype FsyncPolicy = No | Always | EverySec

  // What the system calls of one flush do: `room` bytes are written before a write(2) fails, and ftruncate(2) and
  // fsync(2) work or fail.
  datatype Disk = Disk(room: nat, truncates: bool, syncs: bool)

  class AofFile {
    const fsyncPolicy: FsyncPolicy
    const noFsyncOnRewrite: bool
    // The bytes on disk, and what the server keeps about them.
    var file: ByteString
    var aofBuf: ByteString
    var currentSize: nat
    var fsyncOffset: nat
    var lastFsync: nat
    var postponedStart: nat
    var lastWriteOk: bool
    var exited: bool
    // Everything fed to the file so far.
    ghost var stream: ByteString

    ghost predicate Valid()
      reads this
    {
      && fsyncOffset <= currentSize
      && (if exited then fsyncPolicy == Always && file <= stream
          else file + aofBuf == stream && currentSize == |file|)
    }

    constructor (fsyncPolicy: FsyncPolicy, noFsyncOnRewrite: bool, file: ByteString)
      ensures Valid() && stream == file && aofBuf == [] && !exited
      ensures this.fsyncPolicy == fsyncPolicy && this.noFsyncOnRewrite == noFsyncOnRewrite && this.file == file
      ensures fsyncOffset == |file|
    {
      this.fsyncPolicy, this.noFsyncOnRewrite := fsyncPolicy, noFsyncOnRewrite;
      this.file, aofBuf, currentSize, fsyncOffset := file, [], |file|, |file|;
      lastFsync, postponedStart, lastWriteOk, exited := 0, 0, true, false;
      stream := file;
    }

    method Append(buf: ByteString)
      requires Valid() && !exited
      modifies this`aofBuf, this`stream
      ensures Valid() && stream == old(stream) + buf && aofBuf == old(aofBuf) + buf
    {
      assert file + (aofBuf + buf) == file + aofBuf + buf;
      aofBuf := aofBuf + buf;
      stream := stream + buf;
    }

    /** The switch to a rewritten file: the buffer is in it already. */
    method SwitchTo(newFile: ByteString, now: nat)
      requires !exited
      modifies this
      ensures Valid() && !exited
      ensures file == stream == newFile && aofBuf == [] && currentSize == fsyncOffset == |newFile|
      ensures lastWriteOk == old(lastWriteOk) && postponedStart == old(postponedStart)
    {
      file, aofBuf, stream := newFile, [], newFile;
      currentSize, fsyncOffset, lastFsync := |newFile|, |newFile|, now;
    }

    /** aofWrite: writes until everything is out or an error stops it. */
    method AofWrite(room: nat) returns (n: int)
      modifies this`file
      ensures n == if aofBuf != [] && room == 0 then -1 else Min(|aofBuf|, room)
      ensures file == old(file) + aofBuf[..Min(|aofBuf|, room)]
    {
      var len, total := |aofBuf|, 0;
      while len > 0
        invariant 0 <= len && 0 <= total <= room && total + len == |aofBuf|
        invariant file == old(file) + aofBuf[..total]
      {
        var w := Write(len, room - total);
        if w < 0 { return if total != 0 then total else -1; }
        file := file + aofBuf[total..total + w];
        len, total := len - w, total + w;
      }
      return total;
    }

    /** flushAppendOnlyFile. */
    method Flush(force: bool, now: nat, fsyncInProgress: bool, activeChild: bool, disk: Disk)
      requires Valid() && !exited
      modifies this
      ensures Valid() && stream == old(stream)
      ensures old(file) <= file <= stream
      // The delayed flush is the only one that leaves the buffer unwritten without an error.
      ensures old(Postponed(force, now, fsyncInProgress)) ==>
                file == old(file) && aofBuf == old(aofBuf) && lastWriteOk == old(lastWriteOk) && !exited
                && postponedStart == (if old(postponedStart) == 0 then now else old(postponedStart))
      ensures !exited && aofBuf != [] && !old(Postponed(force, now, fsyncInProgress)) ==> !lastWriteOk
      // What an acknowledged write is promised under the 'always' policy.
      ensures !exited && fsyncPolicy == Always ==> aofBuf == []
      ensures !exited && fsyncPolicy == Always && old(aofBuf) != [] && !(noFsyncOnRewrite && activeChild) ==>
                fsyncOffset == |file| && file == stream && lastFsync == now
      // A flush writes when it is forced, when no sync is under way, or when it was put off two seconds ago.
      ensures var writes := old(aofBuf) != [] && (force || fsyncPolicy != EverySec || !fsyncInProgress
                              || (old(postponedStart) != 0 && now - old(postponedStart) >= 2));
              if writes then postponedStart == 0 && Wrote(old(file), old(aofBuf), disk, activeChild)
              else file == old(file) && aofBuf == old(aofBuf) && lastWriteOk == old(lastWriteOk) && !exited
      // Under 'everysec' what is written is synced by the first flush of a later second that finds no sync under way,
      // one with nothing to write included.
      ensures var syncs := fsyncPolicy == EverySec && now > old(lastFsync) && aofBuf == []
                           && !(noFsyncOnRewrite && activeChild);
              && (syncs && !fsyncInProgress ==> fsyncOffset == |file|)
              && (fsyncPolicy == EverySec && (!syncs || fsyncInProgress) ==> fsyncOffset == old(fsyncOffset))
              && (fsyncPolicy == EverySec ==>
                    lastFsync == if syncs && (old(aofBuf) != [] ||
                                              (!fsyncInProgress && old(fsyncOffset) != old(currentSize)))
                                 then now else old(lastFsync))
      ensures fsyncPolicy == No ==> fsyncOffset == old(fsyncOffset) && lastFsync == old(lastFsync)
    {
      hide Wrote;
      if |aofBuf| == 0 {
        if fsyncPolicy == EverySec && fsyncOffset != currentSize && now > lastFsync && !fsyncInProgress {
          TryFsync(now, false, activeChild, disk.syncs);
        }
        return;
      }
      var syncInProgress := fsyncPolicy == EverySec && fsyncInProgress;
      if fsyncPolicy == EverySec && !force {
        if syncInProgress {
          if postponedStart == 0 {
            postponedStart := now;
            return;
          } else if now - postponedStart < 2 {
            return;
          }
        }
      }
      ghost var before := file;
      var nwritten := AofWrite(disk.room);
      postponedStart := 0;
      if nwritten != |aofBuf| {
        AfterShortWrite(nwritten, activeChild, disk, before);
        return;
      }
      AfterWholeWrite(now, syncInProgress, activeChild, disk, before);
    }

    /** What a write leaves of the buffer `buf` in front of the file `was`. If it fails, what was written is truncated
        away, or else stays and leaves the buffer; under 'always' the server exits, as it does when a sync fails. */
    ghost predicate Wrote(was: ByteString, buf: ByteString, disk: Disk, activeChild: bool)
      reads this
    {
      if disk.room >= |buf| then
        && file == was + buf && aofBuf == [] && lastWriteOk
        && (exited <==> fsyncPolicy == Always && !(noFsyncOnRewrite && activeChild) && !disk.syncs)
      else
        var n := if disk.truncates then 0 else disk.room;
        && file == was + buf[..n]
        && (exited <==> fsyncPolicy == Always)
        && (!exited ==> aofBuf == buf[n..] && !lastWriteOk)
    }

    /** Everything is written: the buffer is reused and what follows is try_fsync. */
    method AfterWholeWrite(now: nat, syncInProgress: bool, activeChild: bool, disk: Disk, ghost before: ByteString)
      requires !exited && file == before + aofBuf == stream && fsyncOffset <= currentSize == |before|
      requires disk.room >= |aofBuf|
      modifies this`fsyncOffset, this`lastFsync, this`exited, this`lastWriteOk, this`currentSize, this`aofBuf
      ensures Valid() && aofBuf == [] && lastWriteOk
      ensures Wrote(before, old(aofBuf), disk, activeChild)
      ensures exited ==> fsyncPolicy == Always
      ensures !exited && fsyncPolicy == Always && !(noFsyncOnRewrite && activeChild) ==>
                fsyncOffset == |file| && lastFsync == now
      ensures fsyncPolicy == EverySec && now > old(lastFsync) && !(noFsyncOnRewrite && activeChild) ==>
                lastFsync == now && fsyncOffset == if syncInProgress then old(fsyncOffset) else |file|
      ensures fsyncPolicy == No || (noFsyncOnRewrite && activeChild)
              || (fsyncPolicy == EverySec && now <= old(lastFsync))
              ==> lastFsync == old(lastFsync) && fsyncOffset == old(fsyncOffset)
    {
      lastWriteOk := true;
      currentSize := currentSize + |aofBuf|;
      aofBuf := [];
      TryFsync(now, syncInProgress, activeChild, disk.syncs);
    }

    /** The error path of a flush. */
    method AfterShortWrite(nwritten: int, ghost activeChild: bool, disk: Disk, ghost before: ByteString)
      requires !exited && before + aofBuf == stream && fsyncOffset <= currentSize == |before|
      requires disk.room < |aofBuf| && nwritten == if disk.room == 0 then -1 else disk.room
      requires file == before + aofBuf[..disk.room]
      modifies this`file, this`exited, this`lastWriteOk, this`currentSize, this`aofBuf
      ensures Valid() && before <= file <= stream
      ensures Wrote(before, old(aofBuf), disk, activeChild)
      ensures exited <==> fsyncPolicy == Always
      ensures !exited ==> !lastWriteOk && aofBuf != []
    {
      assert aofBuf == aofBuf[..disk.room] + aofBuf[disk.room..];
      var n := nwritten;
      if n != -1 && disk.truncates {
        file := file[..currentSize];
        n := -1;
      }
      if fsyncPolicy == Always {
        exited := true;
        return;
      }
      lastWriteOk := false;
      if n > 0 {
        currentSize := currentSize + n;
        aofBuf := aofBuf[n..];
      }
    }

    predicate Postponed(force: bool, now: nat, fsyncInProgress: bool)
      reads this
    {
      && aofBuf != [] && fsyncPolicy == EverySec && !force && fsyncInProgress
      && (postponedStart == 0 || now - postponedStart < 2)
    }

    /** The try_fsync part of a flush. */
    method TryFsync(now: nat, syncInProgress: bool, activeChild: bool, syncs: bool)
      requires fsyncOffset <= currentSize && !exited
      modifies this`fsyncOffset, this`lastFsync, this`exited
      ensures fsyncOffset == old(fsyncOffset) || fsyncOffset == currentSize
      ensures exited <==> fsyncPolicy == Always && !(noFsyncOnRewrite && activeChild) && !syncs
      ensures !exited && fsyncPolicy == Always && !(noFsyncOnRewrite && activeChild) ==>
                fsyncOffset == currentSize && lastFsync == now
      ensures fsyncPolicy == EverySec && now > old(lastFsync) && !(noFsyncOnRewrite && activeChild) ==>
                lastFsync == now && fsyncOffset == if syncInProgress then old(fsyncOffset) else currentSize
      ensures fsyncPolicy == No || (noFsyncOnRewrite && activeChild)
              || (fsyncPolicy == EverySec && now <= old(lastFsync))
              ==> lastFsync == old(lastFsync) && fsyncOffset == old(fsyncOffset)
    {
      if noFsyncOnRewrite && activeChild { return; }
      if fsyncPolicy == Always {
        if !syncs {
          exited := true;
          return;
        }
        fsyncOffset, lastFsync := currentSize, now;
      } else if fsyncPolicy == EverySec && now > lastFsync {
        if !syncInProgress { fsyncOffset := currentSize; }
        lastFsync := now;
      }
    }
  }

  /** write(2) on `len` > 0 bytes, EINTR and empty writes having been retried: as many of them as it likes, while there
      is room. */
  method Write(len: nat, room: nat) returns (n: int)
    requires len > 0
    ensures if room == 0 then n == -1 else 1 <= n <= Min(len, room)
  {
    if room == 0 { return -1; }
    n :| 1 <= n <= Min(len, room);
  }
}
