// The parent's side of the append only file: feeding commands to the file and to the rewrite's
// diff, starting a rewrite, and switching to the rewritten file.
module AofServer {
  import opened Bytes
  import opened AofLog
  import opened AofFeed
  import opened AofFlush
  import opened AofRewriteBuffer
  import opened AofTranslate

  datatype AofState = Off | On | WaitRewrite

  // What the system calls of backgroundRewriteDoneHandler do: open(2), the writes, fsync(2) and rename(2).
  datatype Ending = Ending(opens: bool, room: nat, syncs: bool, renames: bool)

  class Server {
    var aofState: AofState
    var selectedDb: int
    var aof: AofFile
    // A child is rewriting the file (child_type is CHILD_TYPE_AOF); its diff buffer.
    var rewriting: bool
    var rewriteScheduled: bool
    var diff: RewriteBuffer
    // The commands the file is to hold, and those fed since the rewrite began.
    ghost var commands: seq<Command>
    ghost var fed: seq<Fed>

    ghost predicate Valid()
      reads this, aof, diff, diff.Repr()
    {
      && this !in diff.Repr() && aof !in diff.Repr()
      && aof.Valid() && diff.Valid()
      && (aofState == On ==>
            aof.stream == PrintedLog(commands) && (selectedDb == NO_DB || selectedDb == DbAfter(0, commands)))
      && (if rewriting then
            diff.written + diff.Contents() == PrintedLog(Entries(NO_DB, fed)) && LastDb(NO_DB, fed) == selectedDb
          else diff.blocks == [])
    }

    ghost function Repr(): (r: set<object>)
      reads this, diff
      ensures this in r && aof in r && diff in r
    {
      {this, aof} + diff.Repr()
    }

    /** A server that starts with an empty append only file. */
    constructor (fsyncPolicy: FsyncPolicy, noFsyncOnRewrite: bool)
      ensures Valid() && fresh(aof) && fresh(diff) && fresh(diff.Repr())
      ensures aofState == On && commands == [] && !aof.exited && !rewriting
    {
      aofState, selectedDb, rewriting, rewriteScheduled := On, NO_DB, false, false;
      aof := new AofFile(fsyncPolicy, noFsyncOnRewrite, []);
      diff := new RewriteBuffer();
      commands, fed := [], [];
    }

    /** feedAppendOnlyFile. `f` is the command as it is written, its time to live made absolute at `now`. */
    method FeedAppendOnlyFile(proc: Proc, db: nat, argv: Command, now: int) returns (ghost f: Fed)
      requires Valid() && !aof.exited && aofState != AofState.Off && Executed(proc, argv) && !IsSelect(argv)
      modifies this, aof, diff.Repr()
      ensures f == Fed(db, Translated(proc, argv, now))
      ensures Valid() && !aof.exited && aof == old(aof) && diff == old(diff)
      ensures fresh(diff.Repr() - old(diff.Repr()))
      ensures aofState == old(aofState) && rewriting == old(rewriting)
      ensures if aofState == On
              then commands == old(commands) + Entry(old(selectedDb), f)
                   && Replayed(0, commands) == old(Replayed(0, commands)) + [(f.db, f.argv)]
              else aof.stream == old(aof.stream) && commands == old(commands)
      ensures if rewriting then fed == old(fed) + [f] else diff.Contents() == old(diff.Contents())
      // The same bytes go into both buffers: the command, behind a SELECT if the database is another one.
      ensures var bytes := (if db == old(selectedDb) then [] else Printed(["SELECT", Dec(db)])) + Printed(f.argv);
              && (aofState == On ==> aof.aofBuf == old(aof.aofBuf) + bytes)
              && (rewriting ==> diff.Contents() == old(diff.Contents()) + bytes)
      ensures selectedDb == db && aof.file == old(aof.file)
      ensures diff.written == old(diff.written) && diff.stopSending == old(diff.stopSending)
    {
      hide PrintedLog, Printed, Entries, DbAfter, Replayed, Flatten, IsSelect, Entry, LastDb, Translated, Executed,
           RewriteBuffer.Valid, RewriteBuffer.Contents, AofFile.Valid;
      ghost var selected := selectedDb;
      f := Fed(db, Translated(proc, argv, now));
      TranslatedIsNoSelect(proc, argv, now);
      var buf := [];
      if db != selectedDb {
        buf := Printed(SelectCommand(db));
        selectedDb := db;
      }
      buf := CatTranslated(buf, proc, argv, now);
      EntryPrinted(selected, f);
      if aofState == On { FeedFile(f, buf, selected); }
      if rewriting { FeedDiff(f, buf, selected); }
    }

    method FeedFile(ghost f: Fed, buf: ByteString, ghost selected: int)
      requires aof.Valid() && !aof.exited && aof.stream == PrintedLog(commands)
      requires selected == NO_DB || selected == DbAfter(0, commands)
      requires !IsSelect(f.argv) && buf == PrintedLog(Entry(selected, f))
      modifies this`commands, aof
      ensures aof.Valid() && !aof.exited && aof.stream == PrintedLog(commands)
      ensures commands == old(commands) + Entry(selected, f)
      ensures Replayed(0, commands) == old(Replayed(0, commands)) + [(f.db, f.argv)]
      ensures DbAfter(0, commands) == f.db && aof.aofBuf == old(aof.aofBuf) + buf && aof.file == old(aof.file)
    {
      hide PrintedLog, Printed, Entries, DbAfter, Replayed, Flatten, IsSelect, Entry, Owned;
      EntryReplayed(commands, 0, selected, f);
      PrintedLogSnoc(commands, Entry(selected, f));
      aof.Append(buf);
      commands := commands + Entry(selected, f);
    }

    method FeedDiff(ghost f: Fed, buf: ByteString, ghost selected: int)
      requires this !in diff.Repr() && aof !in diff.Repr() && diff.Valid()
      requires diff.written + diff.Contents() == PrintedLog(Entries(NO_DB, fed)) && LastDb(NO_DB, fed) == selected
      requires buf == PrintedLog(Entry(selected, f))
      modifies this`fed, diff.Repr()
      ensures diff.Valid() && this !in diff.Repr() && aof !in diff.Repr() && fresh(diff.Repr() - old(diff.Repr()))
      ensures fed == old(fed) + [f] && LastDb(NO_DB, fed) == f.db
      ensures diff.written + diff.Contents() == PrintedLog(Entries(NO_DB, fed)) && diff.written == old(diff.written)
      ensures diff.stopSending == old(diff.stopSending) && diff.Contents() == old(diff.Contents()) + buf
    {
      hide PrintedLog, Printed, Entries, Flatten, Entry, Owned;
      diff.Append(buf);
      EntriesSnoc(NO_DB, fed, f);
      PrintedLogSnoc(Entries(NO_DB, fed), Entry(selected, f));
      fed := fed + [f];
    }

    /** flushAppendOnlyFile changes nothing that the rewrite or the feed relies on. */
    method FlushAppendOnlyFile(force: bool, now: nat, fsyncInProgress: bool, disk: Disk)
      requires Valid() && !aof.exited
      modifies aof
      ensures Valid()
      ensures !aof.exited && aofState == On ==> aof.file + aof.aofBuf == PrintedLog(commands)
      ensures aof.exited && aofState == On ==> aof.file <= PrintedLog(commands)
      // With nothing in its way, all of it is in the file.
      ensures aofState == On && disk.room >= |old(aof.aofBuf)|
              && (force || aof.fsyncPolicy != EverySec || !fsyncInProgress)
              ==> aof.file == PrintedLog(commands)
    {
      aof.Flush(force, now, fsyncInProgress, rewriting, disk);
    }

    /** rewriteAppendOnlyFileBackground, in the parent, once fork(2) has succeeded. */
    method RewriteStarted()
      requires Valid() && !rewriting
      modifies this, diff
      ensures Valid() && rewriting && diff == old(diff) && aof == old(aof) && Repr() == old(Repr())
      ensures fed == [] && diff.Contents() == [] && diff.written == [] && !diff.stopSending
      ensures selectedDb == NO_DB && commands == old(commands) && aofState == old(aofState)
    {
      diff.stopSending, diff.handler := false, false;
      diff.written := [];
      rewriting, rewriteScheduled := true, false;
      selectedDb := NO_DB;
      fed := [];
    }

    /** The pipe to the child is writable. */
    method SendDiff(room: nat)
      requires Valid() && rewriting
      modifies diff.Repr()
      ensures Valid() && Repr() <= old(Repr())
      ensures diff.written + diff.Contents() == old(diff.written + diff.Contents()) && old(diff.written) <= diff.written
      ensures diff.stopSending == old(diff.stopSending)
      ensures |diff.written| == |old(diff.written)| + if diff.stopSending then 0 else Min(room, |old(diff.Contents())|)
    {
      hide PrintedLog, Entries, LastDb, Flatten, Owned;
      diff.ChildWriteDiffData(room);
    }

    /** aofChildPipeReadable, when the '!' of the child was read. */
    method StopSending()
      requires Valid() && rewriting
      modifies diff`stopSending
      ensures Valid() && diff.stopSending && Repr() == old(Repr()) && diff.Contents() == old(diff.Contents())
    {
      hide PrintedLog, Entries, LastDb, Flatten, Owned;
      diff.stopSending := true;
    }

    /** backgroundRewriteDoneHandler. When the child succeeded, its file `tmp` holds the snapshot
        and everything the parent sent it. */
    method BackgroundRewriteDone(childOk: bool, tmp: ByteString, ghost snapshot: seq<Command>, now: nat, end: Ending)
      returns (switched: bool, newFile: ByteString)
      requires Valid() && rewriting && !aof.exited
      requires childOk ==> tmp == PrintedLog(snapshot) + diff.written
      modifies this, aof
      ensures Valid() && !rewriting && fresh(diff.Repr()) && aof == old(aof) && !aof.exited
      ensures switched <==> childOk && end.opens && |old(diff.Contents())| <= end.room
                            && (old(aof.fsyncPolicy) == Always ==> end.syncs) && end.renames
      ensures switched ==> newFile == PrintedLog(snapshot + Entries(NO_DB, old(fed)))
      ensures if switched && aofState != Off
              then aofState == On && aof.file == aof.stream == newFile && aof.aofBuf == []
                   && selectedDb == NO_DB && commands == snapshot + Entries(NO_DB, old(fed))
              else aof.file == old(aof.file) && aof.stream == old(aof.stream) && aofState == old(aofState)
                   && selectedDb == old(selectedDb) && commands == old(commands)
      ensures aofState == WaitRewrite ==> rewriteScheduled
    {
      hide PrintedLog, Printed, Entries, DbAfter, LastDb, Flatten, Owned;
      switched, newFile := false, tmp;
      if childOk && end.opens {
        var count;
        newFile, count := diff.RewriteBufferWrite(tmp, end.room);
        if count != -1 && (aof.fsyncPolicy == Always ==> end.syncs) && end.renames {
          switched := true;
          PrintedLogSnoc(snapshot, Entries(NO_DB, fed));
          assert newFile == PrintedLog(snapshot + Entries(NO_DB, fed));
          if aofState != Off {
            aof.SwitchTo(newFile, now);
            selectedDb, commands := NO_DB, snapshot + Entries(NO_DB, fed);
          }
          if aofState == WaitRewrite { aofState := On; }
        }
      }
      diff := new RewriteBuffer();
      rewriting := false;
      if aofState == WaitRewrite { rewriteScheduled := true; }
    }
  }

  lemma EntryPrinted(selected: int, f: Fed)
    ensures PrintedLog(Entry(selected, f))
            == (if f.db != selected then Printed(SelectCommand(f.db)) else []) + Printed(f.argv)
  {
    assert PrintedLog([f.argv]) == Printed(f.argv);
    if f.db != selected {
      assert Entry(selected, f)[1..] == [f.argv];
    } else {
      assert Entry(selected, f) == [f.argv];
    }
  }
}
