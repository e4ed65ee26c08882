// The append only log: how a command is printed (catAppendOnlyGenericCommand), how a log is
// replayed (loadAppendOnlyFile), and what a log that was cut short replays to.
module AofLog {
  import opened Bytes

  type Command = seq<ByteString>

  // ---------------------------------------------------------------- printing

  function Header(mark: Byte, n: nat): ByteString {
    [mark] + Dec(n) + CRLF
  }

  function Bulk(arg: ByteString): ByteString {
    Header(DOLLAR, |arg|) + arg + CRLF
  }

  function Bulks(argv: Command): ByteString {
    if argv == [] then [] else Bulk(argv[0]) + Bulks(argv[1..])
  }

  function Printed(argv: Command): ByteString {
    Header(STAR, |argv|) + Bulks(argv)
  }

  function PrintedLog(cmds: seq<Command>): ByteString {
    if cmds == [] then [] else Printed(cmds[0]) + PrintedLog(cmds[1..])
  }

  /** What the C types of `argc` and of the string lengths allow. */
  predicate Printable(argv: Command) {
    1 <= |argv| <= 0x7fff_ffff && forall i :: 0 <= i < |argv| ==> |argv[i]| <= LONG_MAX
  }

  lemma BulksFrom(argv: Command, j: nat)
    requires j < |argv|
    ensures Bulks(argv[j..]) == Bulk(argv[j]) + Bulks(argv[j + 1..])
  {
    assert argv[j..][0] == argv[j] && argv[j..][1..] == argv[j + 1..];
  }

  method CatAppendOnlyGenericCommand(dst: ByteString, argv: Command) returns (r: ByteString)
    ensures r == dst + Printed(argv)
  {
    hide Dec, Bulks;
    var buf := [STAR] + Dec(|argv|) + [CR] + [LF];
    r := dst + buf;
    assert argv[0..] == argv;
    for j := 0 to |argv|
      invariant r + Bulks(argv[j..]) == dst + Printed(argv)
    {
      ghost var before := r;
      buf := [DOLLAR] + Dec(|argv[j]|) + [CR] + [LF];
      r := r + buf;
      r := r + argv[j];
      r := r + CRLF;
      BulksFrom(argv, j);
      assert r == before + Bulk(argv[j]);
      assert before + Bulks(argv[j..]) == r + Bulks(argv[j + 1..]);
    }
    NoBulks(argv[|argv|..]);
  }

  lemma NoBulks(argv: Command)
    requires argv == []
    ensures Bulks(argv) == []
  {
  }

  // ---------------------------------------------------------------- reading one command

  const LINE_MAX := 127 // sizeof(buf)-1

  /** Where fgets stops: after a newline, at the buffer's size or at the end of the file. */
  function FgetsEnd(file: ByteString, pos: nat, room: nat): (end: nat)
    requires pos <= |file|
    ensures pos <= end <= |file| && end <= pos + room
    ensures pos < |file| && room > 0 ==> pos < end
    decreases room
  {
    if pos == |file| || room == 0 then pos
    else if file[pos] == LF then pos + 1
    else FgetsEnd(file, pos + 1, room - 1)
  }

  /** fgets from `pos` ran into the end of the file (the stream's eof flag is up). */
  predicate HitEof(file: ByteString, pos: nat)
    requires pos <= |file|
  {
    var end := FgetsEnd(file, pos, LINE_MAX);
    end == |file| && end < pos + LINE_MAX && (end == pos || file[end - 1] != LF)
  }

  // Taken: the argument vector, and the offset after it.
  // Short: a read failed at the end of the file. Unreadable: it failed elsewhere.
  datatype Read = Taken(argv: Command, next: nat) | Short | Unreadable | Malformed

  /** The length field of an argument, as the unsigned long it is stored in. */
  function ArgLength(digits: ByteString): nat {
    var v := StrToL(digits);
    if v < 0 then v + 0x1_0000_0000_0000_0000 else v
  }

  function ReadArg(file: ByteString, pos: nat): (r: Read)
    requires pos <= |file|
    ensures r.Taken? ==> |r.argv| == 1 && pos < r.next <= |file|
  {
    if pos == |file| then Short
    else
      var data := FgetsEnd(file, pos, LINE_MAX);
      if file[pos] != DOLLAR then Malformed
      else
        var end := data + ArgLength(file[pos + 1..data]);
        if end > |file| || |file| - end < 2 then Short
        else Taken([file[data..end]], end + 2)
  }

  /** The arguments that follow `argv`, until there are `argc` of them. */
  function ReadArgs(file: ByteString, pos: nat, argv: Command, argc: nat): (r: Read)
    requires pos <= |file| && |argv| <= argc
    ensures r.Taken? ==> |r.argv| == argc && pos <= r.next <= |file|
    decreases argc - |argv|
  {
    if |argv| == argc then Taken(argv, pos)
    else
      var r := ReadArg(file, pos);
      if r.Taken? then ReadArgs(file, r.next, argv + r.argv, argc) else r
  }

  function ReadCommand(file: ByteString, pos: nat): (r: Read)
    requires pos < |file|
    ensures r.Taken? ==> 1 <= |r.argv| && pos < r.next <= |file|
  {
    var end := FgetsEnd(file, pos, LINE_MAX);
    if file[pos] != STAR then Malformed
    else if end == pos + 1 || file[pos + 1] == '\0' then (if HitEof(file, pos) then Short else Unreadable)
    else
      var argc := AtoI(file[pos + 1..end]);
      if argc < 1 then Malformed else ReadArgs(file, end, [], argc)
  }

  // ---------------------------------------------------------------- replaying

  // What lookupCommand says of a command name.
  datatype Kind = Unknown | Multi | Exec | Plain
  type Lookup = ByteString -> Kind

  /** The fake client: its CLIENT_MULTI flag, its queue, and the commands it has run. */
  datatype Replay = Replay(inMulti: bool, queued: seq<Command>, run: seq<Command>)

  const FreshReplay := Replay(false, [], [])

  function Step(s: Replay, argv: Command, kind: Kind): Replay {
    if s.inMulti && kind != Exec then s.(queued := s.queued + [argv])
    else match kind
      case Multi => s.(inMulti := true)
      case Exec => if s.inMulti then Replay(false, [], s.run + s.queued) else s
      case _ => s.(run := s.run + [argv])
  }

  function ReplayAll(lookup: Lookup, s: Replay, cmds: seq<Command>): Replay
    requires forall i :: 0 <= i < |cmds| ==> cmds[i] != []
    decreases |cmds|
  {
    if cmds == [] then s else ReplayAll(lookup, Step(s, cmds[0], lookup(cmds[0][0])), cmds[1..])
  }

  // The ways loadAppendOnlyFile ends: with C_OK (and, after an unexpected end, the offset the
  // file was truncated at), with C_ERR on an empty file, or in exit(1). RdbPreamble: the file
  // starts with an RDB dump, which this model does not read.
  datatype Loaded =
    | Ok(run: seq<Command>, cut: Option<nat>)
    | Empty
    | FormatError
    | UnknownCommand(name: ByteString)
    | ShortRead
    | ReadError
    | RdbPreamble

  const REDIS_SIG: ByteString := "REDIS"

  function AtShortRead(s: Replay, truncate: bool, cut: nat): Loaded {
    if truncate then Ok(s.run, Some(cut)) else ShortRead
  }

  /** The replay loop from offset `at` on; `valid` and `beforeMulti` are the two offsets kept. */
  function LoadFrom(file: ByteString, lookup: Lookup, truncate: bool, at: nat, s: Replay, valid: nat,
                    beforeMulti: nat): Loaded
    requires at <= |file|
    decreases |file| - at
  {
    if at == |file| then
      if s.inMulti then AtShortRead(s, truncate, beforeMulti) else Ok(s.run, None)
    else
      match ReadCommand(file, at)
      case Malformed => FormatError
      case Unreadable => ReadError
      case Short => AtShortRead(s, truncate, valid)
      case Taken(argv, next) =>
        var kind := lookup(argv[0]);
        if kind == Unknown then UnknownCommand(argv[0])
        else
          LoadFrom(file, lookup, truncate, next, Step(s, argv, kind), if truncate then next else valid,
                   if kind == Multi then valid else beforeMulti)
  }

  function Load(file: ByteString, lookup: Lookup, truncate: bool): Loaded {
    if file == [] then Empty
    else if REDIS_SIG <= file then RdbPreamble
    else LoadFrom(file, lookup, truncate, 0, FreshReplay, 0, 0)
  }

  /** The inner loop: the arguments of one command, from offset `start` on. */
  method LoadArguments(file: ByteString, start: nat, argc: nat) returns (r: Read)
    requires start <= |file|
    ensures r == ReadArgs(file, start, [], argc)
  {
    hide FgetsEnd, ArgLength;
    var argv: Command, pos := [], start;
    while |argv| < argc
      invariant |argv| <= argc && start <= pos <= |file|
      invariant ReadArgs(file, pos, argv, argc) == ReadArgs(file, start, [], argc)
    {
      if pos == |file| { return Short; }
      var data := FgetsEnd(file, pos, LINE_MAX);
      if file[pos] != DOLLAR { return Malformed; }
      var len := ArgLength(file[pos + 1..data]);
      if len > |file| - data { return Short; }
      var arg := file[data..data + len];
      if |file| - data - len < 2 { return Short; }
      argv := argv + [arg];
      pos := data + len + 2;
    }
    return Taken(argv, pos);
  }

  method LoadAppendOnlyFile(file: ByteString, lookup: Lookup, truncate: bool) returns (r: Loaded)
    ensures r == Load(file, lookup, truncate)
  {
    if |file| == 0 { return Empty; }
    if |file| >= 5 && file[..5] == REDIS_SIG { return RdbPreamble; }
    var at: nat, validUpTo: nat, validBeforeMulti: nat := 0, 0, 0;
    var client := FreshReplay;
    while at < |file|
      invariant at <= |file|
      invariant LoadFrom(file, lookup, truncate, at, client, validUpTo, validBeforeMulti) ==
                Load(file, lookup, truncate)
    {
      var end := FgetsEnd(file, at, LINE_MAX);
      if file[at] != STAR { return FormatError; }
      if end == at + 1 || file[at + 1] == '\0' {
        if !HitEof(file, at) { return ReadError; }
        return AtShortRead(client, truncate, validUpTo);
      }
      var argc := AtoI(file[at + 1..end]);
      if argc < 1 { return FormatError; }
      var args := LoadArguments(file, end, argc);
      match args {
        case Malformed => return FormatError;
        case Unreadable => return ReadError;
        case Short => return AtShortRead(client, truncate, validUpTo);
        case Taken(argv, next) =>
          var kind := lookup(argv[0]);
          if kind == Unknown { return UnknownCommand(argv[0]); }
          if kind == Multi { validBeforeMulti := validUpTo; }
          client := Step(client, argv, kind);
          at := next;
          if truncate { validUpTo := at; }
      }
    }
    if client.inMulti { return AtShortRead(client, truncate, validBeforeMulti); }
    return Ok(client.run, None);
  }
}
