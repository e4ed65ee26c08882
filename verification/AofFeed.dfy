// What a fed command becomes in the log: a SELECT whenever the database changes, then the
// command. And what a replay makes of such a log: the database each command runs in.
module AofFeed {
  import opened Bytes
  import opened AofLog

  // A command and the database it was executed in.
  datatype Fed = Fed(db: nat, argv: Command)

  const SELECT: ByteString := "SELECT"
  const NO_DB: int := -1

  function SelectCommand(db: nat): Command {
    [SELECT, Dec(db)]
  }

  predicate IsSelect(argv: Command) {
    |argv| == 2 && argv[0] == SELECT
  }

  /** The commands that feedAppendOnlyFile prints when `selected` is aof_selected_db. */
  function Entry(selected: int, f: Fed): seq<Command> {
    (if f.db != selected then [SelectCommand(f.db)] else []) + [f.argv]
  }

  function Entries(selected: int, fed: seq<Fed>): seq<Command> {
    if fed == [] then []
    else Entries(selected, fed[..|fed| - 1]) + Entry(LastDb(selected, fed[..|fed| - 1]), fed[|fed| - 1])
  }

  lemma EntriesSnoc(selected: int, fed: seq<Fed>, f: Fed)
    ensures Entries(selected, fed + [f]) == Entries(selected, fed) + Entry(LastDb(selected, fed), f)
    ensures LastDb(selected, fed + [f]) == f.db
  {
    assert (fed + [f])[..|fed|] == fed;
  }

  function LastDb(selected: int, fed: seq<Fed>): int {
    if fed == [] then selected else fed[|fed| - 1].db
  }

  /** The database that a replay is in after `cmds`, having started in `db`. */
  function DbAfter(db: int, cmds: seq<Command>): int {
    if cmds == [] then db
    else
      var last := cmds[|cmds| - 1];
      if IsSelect(last) then Digits(last[1], 0) else DbAfter(db, cmds[..|cmds| - 1])
  }

  /** The commands other than SELECT, each with the database a replay runs it in. */
  function Replayed(db: int, cmds: seq<Command>): seq<(int, Command)> {
    if cmds == [] then []
    else
      var before, last := cmds[..|cmds| - 1], cmds[|cmds| - 1];
      Replayed(db, before) + (if IsSelect(last) then [] else [(DbAfter(db, before), last)])
  }

  function Tagged(fed: seq<Fed>): seq<(int, Command)> {
    seq(|fed|, i requires 0 <= i < |fed| => (fed[i].db, fed[i].argv))
  }

  predicate NoSelects(fed: seq<Fed>) {
    forall i :: 0 <= i < |fed| ==> !IsSelect(fed[i].argv)
  }

  /** The literal text of feedAppendOnlyFile's SELECT is the printed form of the command. */
  lemma SelectIsPrinted(db: nat)
    ensures Printed(SelectCommand(db))
            == ("*2\r\n" + "$6\r\nSELECT\r\n") + (("$" + Dec(|Dec(db)|) + "\r\n") + Dec(db) + "\r\n")
  {
    var n := Dec(db);
    SmallHeaders();
    hide Dec, Header, Bulk;
    assert SelectCommand(db)[1..] == [n] && [n][1..] == [];
    assert Bulks([n]) == Bulk(n) by { assert Bulk(n) + [] == Bulk(n); }
    BulkIs(n);
  }

  lemma BulkIs(arg: ByteString)
    ensures Bulk(arg) == ("$" + Dec(|arg|) + "\r\n") + arg + "\r\n"
  {
  }

  lemma SmallHeaders()
    ensures Header(STAR, 2) == "*2\r\n" && Bulk(SELECT) == "$6\r\nSELECT\r\n"
  {
    assert Dec(2) == "2" && Dec(6) == "6";
  }

  lemma {:induction false} PrintedLogSnoc(cmds: seq<Command>, more: seq<Command>)
    ensures PrintedLog(cmds + more) == PrintedLog(cmds) + PrintedLog(more)
    decreases |cmds|
  {
    if cmds == [] {
      assert cmds + more == more;
    } else {
      assert (cmds + more)[1..] == cmds[1..] + more;
      PrintedLogSnoc(cmds[1..], more);
    }
  }

  lemma DbOfSelect(db: nat)
    ensures Digits(SelectCommand(db)[1], 0) == db
  {
    DigitsOfDec(db, []);
    assert Dec(db) + [] == Dec(db);
  }

  /** One fed command, after a log that left the replay in the database the feeder believes in
      (or whose database it has forgotten), runs in its own database. */
  lemma EntryReplayed(cmds: seq<Command>, start: int, selected: int, f: Fed)
    requires selected == NO_DB || selected == DbAfter(start, cmds)
    requires !IsSelect(f.argv)
    ensures Replayed(start, cmds + Entry(selected, f)) == Replayed(start, cmds) + [(f.db, f.argv)]
    ensures DbAfter(start, cmds + Entry(selected, f)) == f.db
  {
    var select := cmds + [SelectCommand(f.db)];
    DbOfSelect(f.db);
    assert select[..|select| - 1] == cmds;
    if f.db != selected {
      var all := select + [f.argv];
      assert cmds + Entry(selected, f) == all && all[..|all| - 1] == select;
    } else {
      var all := cmds + [f.argv];
      assert cmds + Entry(selected, f) == all && all[..|all| - 1] == cmds;
    }
  }

  /** The commands fed since a fork, which forgets the selected database, run in their own
      databases wherever the diff is appended: after any log, started in any database. */
  lemma {:induction false} DiffMerges(snapshot: seq<Command>, start: int, fed: seq<Fed>)
    requires NoSelects(fed)
    ensures Replayed(start, snapshot + Entries(NO_DB, fed)) == Replayed(start, snapshot) + Tagged(fed)
    ensures fed != [] ==> DbAfter(start, snapshot + Entries(NO_DB, fed)) == LastDb(NO_DB, fed)
    decreases |fed|
  {
    hide Replayed, DbAfter, Dec, Digits;
    if fed == [] {
      assert snapshot + Entries(NO_DB, fed) == snapshot;
      assert Tagged(fed) == [];
    } else {
      var before, last := fed[..|fed| - 1], fed[|fed| - 1];
      DiffMerges(snapshot, start, before);
      var sofar := snapshot + Entries(NO_DB, before);
      EntryReplayed(sofar, start, LastDb(NO_DB, before), last);
      assert snapshot + Entries(NO_DB, fed) == sofar + Entry(LastDb(NO_DB, before), last);
      assert Tagged(fed) == Tagged(before) + [(last.db, last.argv)];
    }
  }

  /** A diff that is not empty starts with a SELECT. */
  lemma {:induction false} DiffStartsWithSelect(fed: seq<Fed>)
    requires fed != []
    ensures Entries(NO_DB, fed) != [] && Entries(NO_DB, fed)[0] == SelectCommand(fed[0].db)
    decreases |fed|
  {
    if |fed| == 1 {
      assert Entries(NO_DB, fed[..0]) == [];
    } else {
      DiffStartsWithSelect(fed[..|fed| - 1]);
    }
  }
}
