# Redis and zIO: a verified model

A Dafny model of the parts of this repository whose correctness is hardest to see from the code: the append
only file and its rewrite protocol, the ACL engine, blocked clients, the bit commands, the checksums, the
event loop's timers, the background jobs over the doubly linked list (all Redis 6.2), and zIO's delayed
copies. Operations that work in place are methods on classes and arrays, proved against specifications; the
properties are lemmas over all inputs, all runs or all interleavings. Run `dafny verify dfyconfig.toml`.

## The components

- **Append only file.** `AofLog` prints and loads the log, `AofRecovery` says what any byte prefix of a log
  replays to, `AofRefusal` what becomes of every other file: which bytes are a command, and what is refused.
  `AofFlush` is the file behind short writes, failed writes and failed truncates.
  `AofRewriteBuffer` is the list of blocks sent to the rewriting child, `AofChild` the child's loops,
  `AofFeed` and `AofTranslate` the meaning of what is fed, `AofServer` the server's fields around them.
  `AofProtocol` is the rewrite as steps of two processes over three pipes, and its theorem that a successful
  rewrite replays the snapshot and then everything fed since the fork. `AofRewrite` runs the methods of both
  processes in any order and proves that each event is exactly its step of that protocol.
- **ACL.** `AclRules` says what one rule does to a user, `AclCategory` what the walk over a category does,
  `AclUser` is the user structure changed in place. `AclEffect` states every kind of rule field by field, and what
  it lets the user run.
  `AclDescribe` and `AclRoundTrip` are the greedy printing of permissions and why the rules rebuild them.
  `AclSave` is the whole description, `AclLoad` the transactional loading of a file, `AclText` the text between
  them: words in lines, lines in files. `AclFile` is the saving of all users, and the theorem that says when
  loading the file restores them.
- **Blocked clients.** `BlockedIndex` is the two-way index, `BlockedClients` the operations on one client,
  `BlockedServe` the serving of one waiter with replies and propagation and the writes that may forget one,
  `BlockedLoop` the loops over a key's queue and over the ready keys.
- **Bit commands.** `BitCount`, `BitPos`, `BitOp`, `Bitfield` and `BitfieldOps`, over `BitMap` (strings as
  bits) and `BinaryNumbers` (integers as bits).
- **Checksums.** `CrcDivision` is division of polynomials over two elements and the shift register; `Crc16`,
  `Crc64` and `CrcSpeed` refine it, and `CrcCheck` computes the check values that the source files name.
- **zIO.** `ZioRanges` are the tracked ranges and the memory the program sees through them, `ZioFault` the
  fault handler, `ZioGather` the copy to trackers and the vector of buffers for a write.
- **Lists, jobs, event loop.** `Adlist` on heap nodes, `Bio` as a two-party protocol and on those nodes,
  `AeFiles` the table of descriptors, `AeTimerHistory` and `AeTimers` the timers, whose callbacks may create
  and delete timers and run passes of their own.

## Assumptions

- Allocation succeeds. What system calls do is a parameter: how many bytes are written before a write fails
  (in pieces of any size; interrupted and empty writes are retried in one step), whether `fsync`, `ftruncate`,
  `open` and `rename` work. A pipe read finds a part of what is there. `fstat` after a rewrite works.
- The command table is fixed while users are described, saved or loaded. Its names are in lower case and
  distinct, contain neither `|` nor white space nor NUL and do not start with `@`; its ids are distinct and
  fit the bitmap. User names have no white space (ACL SETUSER refuses it). Password hashing is a function to 64
  hexadecimal digits.
- The clock of the event loop never goes back, and passes only while callbacks run. Finalizers of timers
  leave the event loop alone.
- zIO's tracked ranges are kept by a map from lookup keys; entries that track a received buffer read through
  themselves, and sources of delayed copies lie outside all destinations. Missing faults only come from
  destinations. Calls do not overlap: the code holds its lock.
- Machine words are 64 bits and little-endian where the code depends on it; 64-bit casts and wrap-around in
  the bit commands and checksums are explicit.

## Where the code surprises

Each line names the lemma or method that states it exactly.

- A log cut in the middle of a command of a transaction is truncated behind the open MULTI, not before it
  (`CutLeavesMultiOpen`; `CutInsideTransaction` is such a log); commands appended later are queued behind that
  MULTI (`AppendedBehindOpenMulti`).
- ACL SETUSER accepts subcommands with spaces, newlines and trailing blanks, and those users cannot be saved
  and loaded: a space makes two rules, a newline two lines, and the whole file is then refused
  (`SavedUserParsesBack`, `SaveThenLoad`; the witnesses are `SpaceSplitsTheRule`, `NewlineIsGranted` and
  `NewlineSplitsTheLine`). A default user that says nothing about sanitizing comes back with the sanitizing
  flag, because loading resets it first (`Same`, used by `DescriptionReadsBack`).
- Overwriting a key signals nothing, so a client that waits for a list on a key that holds a string is not told
  of a list that overwrites it (`GenericSetKey` says exactly when, `OverwriteForgets` is an instance).
- The panic in describing a user depends on bits no command stands for (`DescribeUserCommandRules`); over a
  fixed table it cannot happen (`DescribeRoundTrip`).
- `copy_from_original` compares only the page a tracker's source begins on, and asks the skip list to delete
  by the node's address instead of its lookup key, so no tracker is retired (`CopyFromOriginal`,
  `CopiedButStillRead`); when a later overwrite is harmless is `OverwriteIsLocal`.
- The gather loop takes the full length of a range even when entered in the middle, and then reads beyond
  its end. `Gather` says exactly when that shows (`AllHarmless`), `WrongBehindTheGap` is an instance.
- BITFIELD SET with OVERFLOW SAT stores the maximum for a negative number in an unsigned field, and for a
  number too far below a signed field (`SatClamps`, `SignedCheckReports`; `SatStoresTheMaximum` is an instance
  of each). The comment above the overflow checks promises -1 on underflow; a wrapped underflow returns 1
  (`Reports`).
- The comment above `aeResizeSetSize` refuses descriptors at the new size minus one; the code refuses those
  at the new size and above (`ResizeSetSize`). Registering an empty mask leaves `maxfd` too high
  (`CreateFileEvent`). `aeDeleteTimeEvent` with the deletion mark as identifier finds a deleted timer
  (`DeleteTimeEvent`). The guard against timers created during a pass is dead code, as its comment says
  (`ProcessTimeEvents` proves it).

## Model

| member | source | states |
|---|---|---|
| `AofLog.CatAppendOnlyGenericCommand` | `redis/redis-6.2-ZC/src/aof.c:552-575` | The buffer grows by exactly the printed form of the command: the count, then each argument by length, for any bytes |
| `AofLog.LoadArguments` | `redis/redis-6.2-ZC/src/aof.c:839-868` | The argument loop reads what the specification reads: all arguments and the offset behind them, or why not |
| `AofLog.LoadAppendOnlyFile` | `redis/redis-6.2-ZC/src/aof.c:753-971` | The loader, with its line buffer, end-of-file tests, MULTI queue and two kept offsets, ends as `Load` says on every file, and `AofRefusal.LoadOutcome` says what that is; on a file that starts with an RDB dump it only says so |
| `AofRefusal.CommandIs` | `redis/redis-6.2-ZC/src/aof.c:822-868` | At every offset of every file, exactly when the loader takes a command and which one, when it calls the bytes malformed (no '*', a count below one, no '$'), when cut off, and when it only stumbles on a stray mark |
| `AofRefusal.LoadOutcome` | `redis/redis-6.2-ZC/src/aof.c:807-971` | Every file is the longest run of whole known commands and something that stops it; by what that is, the result: all is run, the tail is cut off or refused as a short read, a format error, or an unknown command |
| `AofRefusal.LoadedFileReads` | `redis/redis-6.2-ZC/src/aof.c:807-971` | The converse: a file that loads is whole known commands up to its end, or up to the end of the bytes inside a command, and what ran is their replay |
| `AofRefusal.JunkRefused` | `redis/redis-6.2-ZC/src/aof.c:828-850` | Behind any printed log of known commands, bytes that are no command make a format error, for both values of aof-load-truncated |
| `AofRefusal.NoStarIsBad` | `redis/redis-6.2-ZC/src/aof.c:828-828` | Bytes that do not start with '*' are no command |
| `AofRefusal.LowCountIsBad` | `redis/redis-6.2-ZC/src/aof.c:830-831` | Neither is a header line whose count is below one |
| `AofRefusal.NoDollarIsBad` | `redis/redis-6.2-ZC/src/aof.c:844-850` | Nor a whole header with fewer arguments than it counts and then a byte other than '$' |
| `AofRefusal.CutRefused` | `redis/redis-6.2-ZC/src/aof.c:907-960` | With aof-load-truncated off, a log cut inside a command, or that ends inside a transaction, is a short read |
| `AofRefusal.UnknownRefused` | `redis/redis-6.2-ZC/src/aof.c:870-877` | A command that is not in the table ends the loading, whatever follows it |
| `AofRefusal.GarbageRefused` | `redis/redis-6.2-ZC/src/aof.c:828-966` | Witnesses: three short files of no command are refused, whatever the setting |
| `Bytes.StrToLOfDec` | `redis/redis-6.2-ZC/src/aof.c:552-575` | What is printed as a decimal length is read back as that number, whatever follows |
| `Bytes.StrToLReads` | `redis/redis-6.2-ZC/src/aof.c:829-830` | What strtol makes of blanks, a sign and digits |
| `Bytes.AtoIKeepsLowBits` | `redis/redis-6.2-ZC/src/aof.c:829-830` | atoi is that number's low 32 bits |
| `AofRecovery.HeaderCut` | `redis/redis-6.2-ZC/src/aof.c:822-850` | A header line cut short by the end of the file never looks malformed and never spells a larger number |
| `AofRecovery.CommandCut` | `redis/redis-6.2-ZC/src/aof.c:822-868` | A command cut at any byte is a short read, never a format error |
| `AofRecovery.CommandRead` | `redis/redis-6.2-ZC/src/aof.c:822-868` | A whole command reads back as printed and the next offset is behind it |
| `AofRecovery.PrefixRecovery` | `redis/redis-6.2-ZC/src/aof.c:807-971` | For every non-empty byte prefix of a printed log: no format error, exactly the complete commands are replayed in order, an open MULTI runs nothing, and the cut is a command boundary |
| `AofRecovery.LogRoundTrip` | `redis/redis-6.2-ZC/src/aof.c:552-971` | Printing and loading a whole log runs all its commands, whatever bytes they hold; the file is cut, before the last MULTI, exactly if a MULTI stays open |
| `AofRecovery.ReloadAfterCut` | `redis/redis-6.2-ZC/src/aof.c:907-960` | Loading the truncated file again replays the same commands |
| `AofRecovery.TransactionAtomic` | `redis/redis-6.2-ZC/src/aof.c:879-889` | A transaction runs entirely with its EXEC and not at all without it |
| `AofRecovery.OpenMultiRunsNothing` | `redis/redis-6.2-ZC/src/aof.c:879-916` | While a MULTI is open nothing after it has run |
| `AofRecovery.PlainCommandsRun` | `redis/redis-6.2-ZC/src/aof.c:879-893` | Outside of transactions every command runs, in order |
| `AofRecovery.CutLeavesMultiOpen` | `redis/redis-6.2-ZC/src/aof.c:902-937` | For every log, MULTIs inside a MULTI included, exactly when the truncated file still ends inside a transaction: it ended in the middle of a command of one, or behind a whole command and the last MULTI was itself inside one |
| `AofRecovery.InMultiIsOpen` | `redis/redis-6.2-ZC/src/aof.c:879-889` | The replay is inside a transaction exactly if some MULTI has no EXEC behind it |
| `AofRecovery.CutInsideTransaction` | `redis/redis-6.2-ZC/src/aof.c:902-937` | A witness: a MULTI and a SET without its last byte load without error, run nothing, and leave a file that ends with the MULTI |
| `AofRecovery.AppendedBehindOpenMulti` | `redis/redis-6.2-ZC/src/aof.c:902-937` | After such a cut, what is appended up to an EXEC is queued behind the MULTI and not run |
| `AofFeed.SelectIsPrinted` | `redis/redis-6.2-ZC/src/aof.c:617-624` | The literal SELECT text of the feeder is the printed form of that command |
| `AofTranslate.TranslationKeepsMeaning` | `redis/redis-6.2-ZC/src/aof.c:584-665` | EXPIRE, PEXPIRE, EXPIREAT and SET with PX are written so that a replay at any later time names the same key and value and sets the end of life the command has when it is fed; other commands are written as they are |
| `AofTranslate.FedAs` | `redis/redis-6.2-ZC/src/aof.c:584-665` | What is written, command by command: seconds times 1000, a time to live plus the clock, PXAT with its deadline for a PX in any case; anything else as it is |
| `AofTranslate.StrToLOfDecInt` | `redis/redis-6.2-ZC/src/aof.c:608-608` | A printed deadline, negative ones included, is read back as that number |
| `AofTranslate.CatTranslated` | `redis/redis-6.2-ZC/src/aof.c:627-665` | The branches print the translated command |
| `AofFeed.EntryReplayed` | `redis/redis-6.2-ZC/src/aof.c:613-679` | A fed command runs in its own database when the believed database is right or forgotten |
| `AofFeed.DiffMerges` | `redis/redis-6.2-ZC/src/aof.c:613-679` | The commands fed since a fork run in order, each in its own database, behind any snapshot and from any starting database |
| `AofFeed.DiffStartsWithSelect` | `redis/redis-6.2-ZC/src/aof.c:1795-1799` | A non-empty diff starts with SELECT, because the fork forgets the selected database |
| `AofServer.Server.FeedAppendOnlyFile` | `redis/redis-6.2-ZC/src/aof.c:613-689` | File buffer and rewrite buffer grow by the same bytes: the printed translated command, behind a SELECT exactly if the database is not the selected one; each only when it is due, keeping the stream equal to the commands fed |
| `AofServer.Server.FlushAppendOnlyFile` | `redis/redis-6.2-ZC/src/aof.c:360-550` | After any flush, file ++ buffer is still the printed commands; after an exit the file is a prefix of them; a flush with nothing in its way leaves all of them in the file |
| `AofServer.Server.RewriteStarted` | `redis/redis-6.2-ZC/src/aof.c:1763-1804` | A fork empties the diff, forgets the database and changes nothing in the file |
| `AofServer.Server.BackgroundRewriteDone` | `redis/redis-6.2-ZC/src/aof.c:1851-2010` | If the child's file is snapshot ++ what was sent, the switch takes place exactly if the child and each system call succeeded and the unsent rest found room, and makes the file snapshot ++ everything fed since the fork; otherwise file, stream and state are as before; waiting states reschedule (`AofRewrite.Rewrite.Finish` proves what is required of the child) |
| `AofFlush.AofFile.AofWrite` | `redis/redis-6.2-ZC/src/aof.c:322-339` | Whatever the sizes of the writes, the file grows by the buffer or by as much of it as there is room for, which is what is reported; -1 means by nothing although there was something |
| `AofFlush.AofFile.Flush` | `redis/redis-6.2-ZC/src/aof.c:360-550` | When it writes: forced, no sync under way, or put off for two seconds; then the whole buffer is in the file, or of a failed write the bytes that were not truncated away, which also leave the buffer. file ++ aof_buf stays the stream fed. With `always` a return means written and synced; with `everysec` the first flush of a later second without a sync under way syncs all that is written, one with an empty buffer included, and says exactly when the second is taken as new; with `no` nothing is synced |
| `AofFlush.AofFile.AfterWholeWrite` | `redis/redis-6.2-ZC/src/aof.c:501-550` | Behind a whole write the buffer is empty and try_fsync follows |
| `AofFlush.AofFile.AfterShortWrite` | `redis/redis-6.2-ZC/src/aof.c:437-499` | After a short write what was written is truncated away, or stays and leaves the buffer; `always` exits, and nothing else does |
| `AofFlush.AofFile.SwitchTo` | `redis/redis-6.2-ZC/src/aof.c:1958-1972` | After the switch the new file is the stream and nothing is buffered |
| `AofFlush.AofFile.TryFsync` | `redis/redis-6.2-ZC/src/aof.c:520-549` | Under each policy exactly what counts as synced and when the second is taken as new; it exits exactly if a sync under `always` fails |
| `AofRewriteBuffer.Block.Fill` | `redis/redis-6.2-ZC/src/aof.c:135-137` | The block gains the bytes behind the used ones |
| `AofRewriteBuffer.Block.Shift` | `redis/redis-6.2-ZC/src/aof.c:116-118` | The memmove drops exactly the first n used bytes |
| `AofRewriteBuffer.RewriteBuffer.Append` | `redis/redis-6.2-ZC/src/aof.c:125-171` | The list of 10 MB blocks holds the old contents followed by the new bytes; what was sent is not touched |
| `AofRewriteBuffer.RewriteBuffer.ChildWriteDiffData` | `redis/redis-6.2-ZC/src/aof.c:95-122` | However many bytes each write takes, what moves from the buffer to the pipe is the buffer, or as much of it as the pipe has room for; nothing once told to stop; the handler goes exactly then or when all was sent |
| `AofRewriteBuffer.RewriteBuffer.RewriteBufferWrite` | `redis/redis-6.2-ZC/src/aof.c:176-196` | The file gains the buffered bytes in order, or as many as there is room for, and then -1 is returned |
| `AofChild.ReadDiffFromParent` | `redis/redis-6.2-ZC/src/aof.c:1439-1449` | The diff gains what was in the pipe, in order, in whatever pieces it is read |
| `AofChild.WriteDiff` | `redis/redis-6.2-ZC/src/aof.c:1622-1645` | The file gains a prefix of the diff, all of it exactly if it reports success, which is when there is room |
| `AofProtocol.StepConserves` | `redis/redis-6.2-ZC/src/aof.c:95-196` | Every step keeps child_diff ++ pipe ++ parent blocks equal to the bytes fed since the fork |
| `AofProtocol.StepKeepsHandshake` | `redis/redis-6.2-ZC/src/aof.c:1603-1701` | The child drains its last bytes only after the parent stopped sending, so nothing is left in the pipe |
| `AofProtocol.RunKeepsInv` | `redis/redis-6.2-ZC/src/aof.c:95-196` | Both invariants hold at every moment of every interleaving |
| `AofProtocol.NothingLost` | `redis/redis-6.2-ZC/src/aof.c:1603-1701` | At every moment the bytes are conserved in order, and a successful rewrite is snapshot ++ all that was fed |
| `AofProtocol.FedIsFinal` | `redis/redis-6.2-ZC/src/aof.c:1851-2010` | Once the rewrite is settled its outcome never changes |
| `AofProtocol.RewriteReplays` | `redis/redis-6.2-ZC/src/aof.c:1851-2010` | End to end: loading the rewritten file runs the snapshot and then every command fed, in order and in its own database; a MULTI that is open at the switch is cut off |
| `AofRewrite.Rewrite.Propagate` | `redis/redis-6.2-ZC/src/aof.c:613-689` | Feeding, by the server's methods on heap blocks, is the step of the protocol for that command |
| `AofRewrite.Rewrite.PipeWritable` | `redis/redis-6.2-ZC/src/aof.c:95-122` | So is sending, however the bytes are cut into writes: as many bytes as the pipe takes, none once told to stop |
| `AofRewrite.Rewrite.AckReadable` | `redis/redis-6.2-ZC/src/aof.c:1680-1701` | So is answering the child, or failing to |
| `AofRewrite.Rewrite.ReadDiff` | `redis/redis-6.2-ZC/src/aof.c:1439-1449` | So is the child's reading of the pipe |
| `AofRewrite.Rewrite.WriteFile` | `redis/redis-6.2-ZC/src/aof.c:1622-1645` | So is its writing of the diff, in chunks, or its failure |
| `AofRewrite.Rewrite.Finish` | `redis/redis-6.2-ZC/src/aof.c:1851-2010` | When the child is gone its file is what the handler relies on; the switch takes place exactly if the child and the system calls succeeded, and is the protocol's last step |
| `AofRewrite.Rewrite.Happen` | `redis/redis-6.2-ZC/src/aof.c:95-196` | Every event of either process is exactly the step of the protocol that it stands for, if it is possible, and changes nothing otherwise |
| `AofRewrite.RewriteAppendOnlyFile` | `redis/redis-6.2-ZC/src/aof.c:1603-2010` | A rewrite from fork to switch, under every order of events: it switches exactly if the events lead to a child that succeeded and the system calls work then, to the snapshot and every command fed meanwhile, each replayed in its own database |
| `AofRewrite.ChildCanFinish` | `redis/redis-6.2-ZC/src/aof.c:1603-1701` | From every state in which the child still dumps, the child left alone and answered succeeds, with all that was sent in its file |
| `AclTable.CommandIds.GetCommandID` | `redis/redis-6.2-ZC/src/acl.c:1128-1154` | One id per name in any case, never the reserved one, no id shared |
| `AclUser.User.constructor` | `redis/redis-6.2-ZC/src/acl.c:244-265` | A new user is the one the rules start from: off, no command, no password, no pattern, all channels if that is the default |
| `AclUser.User.SetCommandBit` | `redis/redis-6.2-ZC/src/acl.c:397-406` | Exactly one bit changes, and clearing one clears the ALLCOMMANDS flag |
| `AclUser.User.SetCommandBitsForCategory` | `redis/redis-6.2-ZC/src/acl.c:414-429` | For a known category, of every command of the table: its bit is set or cleared and its subcommands are forgotten if it is no module's and has the category, and it keeps them otherwise; clearing ends ALLCOMMANDS |
| `AclCategory.CategoryWalk` | `redis/redis-6.2-ZC/src/acl.c:414-429` | The same of the specification, for a table of distinct ids |
| `AclEffect.CategoryRule` | `redis/redis-6.2-ZC/src/acl.c:996-1001` | +@name and -@name, in any case, field by field: the bits and subcommands of exactly the commands with that category, of no other command and no other bit; ALLCOMMANDS goes exactly if a bit was cleared |
| `AclEffect.UnknownCategory` | `redis/redis-6.2-ZC/src/acl.c:996-1001` | A name of no category is refused |
| `AclEffect.CommandRule` | `redis/redis-6.2-ZC/src/acl.c:945-953` | +name and -name: one bit, the subcommands of that command, ALLCOMMANDS under '-'; an unknown name is refused |
| `AclEffect.SubcommandRule` | `redis/redis-6.2-ZC/src/acl.c:954-985` | A plus rule with a subcommand: put behind the others unless there in some case or the command is allowed as a whole; refused when empty or of no command |
| `AclEffect.FlagWords` | `redis/redis-6.2-ZC/src/acl.c:828-840` | on, off and the two words for sanitizing, in any case: the two flags each changes |
| `AclEffect.ListWords` | `redis/redis-6.2-ZC/src/acl.c:841-872` | The eight words for keys, channels and passwords: the flag and the emptied list |
| `AclEffect.CommandWords` | `redis/redis-6.2-ZC/src/acl.c:855-867` | The four words for all commands: each of the 1024 bits, no subcommand, the flag |
| `AclEffect.PasswordAdded` | `redis/redis-6.2-ZC/src/acl.c:873-893` | '>' and '#': the hash is there once, at the end if new, and nopass ends; a '#' without 64 hexadecimal digits is refused |
| `AclEffect.PasswordRemoved` | `redis/redis-6.2-ZC/src/acl.c:894-912` | '<' and '!': the first such hash goes and nothing else changes, or there is none and it fails |
| `AclEffect.KeyPatternAdded` | `redis/redis-6.2-ZC/src/acl.c:913-929` | '~': the pattern is there once; refused while all keys are open or if it has a space |
| `AclEffect.ChannelPatternAdded` | `redis/redis-6.2-ZC/src/acl.c:930-944` | '&': the same for channels |
| `AclEffect.ResetRule` | `redis/redis-6.2-ZC/src/acl.c:1002-1009` | reset leaves nothing of what the user was |
| `AclEffect.OtherRules` | `redis/redis-6.2-ZC/src/acl.c:825-1013` | Everything else is refused; the empty rule does nothing |
| `AclEffect.LowerIs` | `redis/redis-6.2-ZC/src/acl.c:827-872` | Comparing without case changes the 26 letters and nothing else |
| `AclEffect.CommandRuleVerdicts` | `redis/redis-6.2-ZC/src/acl.c:1188-1211` | After +name the user may run the command with any arguments, after -name not at all unless it needs no authentication; nothing changes for any other command of the table |
| `AclEffect.CategoryRuleVerdicts` | `redis/redis-6.2-ZC/src/acl.c:1188-1211` | The same for the commands of a category |
| `AclEffect.SubcommandRuleVerdicts` | `redis/redis-6.2-ZC/src/acl.c:1188-1211` | A subcommand rule adds exactly the command with that first argument, in any case |
| `AclEffect.AllRuleVerdicts` | `redis/redis-6.2-ZC/src/acl.c:1188-1211` | After +@all everything may be run, after -@all what needs no authentication |
| `AclUser.User.AddAllowedSubcommand` | `redis/redis-6.2-ZC/src/acl.c:712-739` | The subcommand is added at the end unless present in some case |
| `AclUser.User.SetUser` | `redis/redis-6.2-ZC/src/acl.c:825-1014` | The in-place engine returns and does what the rule specification says for every string, embedded NULs included, and a failing rule changes nothing; what that is, rule by rule, are the lemmas of `AclEffect` |
| `AclRules.CategoryEffect` | `redis/redis-6.2-ZC/src/acl.c:414-429` | A category rule only changes bits of its commands, and a changed bit has no subcommands |
| `AclRules.ApplyKeepsSound` | `redis/redis-6.2-ZC/src/acl.c:825-1014` | Every rule keeps: unassigned bits equal the reserved bit, a set bit has no subcommands, ALLCOMMANDS implies all bits |
| `AclRules.ReachableSound` | `redis/redis-6.2-ZC/src/acl.c:825-1014` | So does every user reachable by rules over a fixed table |
| `AclDescribe.RuleMeaning` | `redis/redis-6.2-ZC/src/acl.c:464-603` | A printed rule, read back as text, never fails and does to any user what it stands for |
| `AclDescribe.RulesMeaning` | `redis/redis-6.2-ZC/src/acl.c:464-603` | The same for a whole list |
| `AclDescribe.RulesForget` | `redis/redis-6.2-ZC/src/acl.c:483-491` | Rules that start with +@all or -@all do not depend on the user they are applied to |
| `AclDescribe.CountCategoryBits` | `redis/redis-6.2-ZC/src/acl.c:435-455` | The counts are the numbers of commands of the category with the bit on and off |
| `AclDescribe.BestCategory` | `redis/redis-6.2-ZC/src/acl.c:512-539` | The search finds a category worth a rule that no other beats, or none is worth one |
| `AclDescribe.CategoryRules` | `redis/redis-6.2-ZC/src/acl.c:483-555` | The greedy loop ends, and its rules build the fake user it leaves |
| `AclRoundTrip.EmitSubcommands` | `redis/redis-6.2-ZC/src/acl.c:571-582` | The emitted rules rebuild exactly the subcommand list of one command |
| `AclRoundTrip.FixCommand` | `redis/redis-6.2-ZC/src/acl.c:560-583` | One turn of the final pass makes the rules agree on one more command |
| `AclRoundTrip.DescribeUserCommandRules` | `redis/redis-6.2-ZC/src/acl.c:464-603` | Panics if and only if some unassigned bit differs from the reserved bit; otherwise the rules rebuild bitmap and subcommands |
| `AclRoundTrip.RulesRebuild` | `redis/redis-6.2-ZC/src/acl.c:464-603` | Rules that build some permissions rebuild them on any user |
| `AclRoundTrip.DescribeRoundTrip` | `redis/redis-6.2-ZC/src/acl.c:464-603` | For every user reachable by rules: no panic, and the printed rules give any user the same bitmap and subcommands |
| `AclRoundTrip.SameCommandsSameVerdicts` | `redis/redis-6.2-ZC/src/acl.c:1188-1211` | Equal bitmaps and subcommands give equal verdicts, whatever the flags |
| `AclRoundTrip.SameVerdictsAfterRoundTrip` | `redis/redis-6.2-ZC/src/acl.c:1188-1211` | The rebuilt user gets the same verdict for every command |
| `AclText.TextSplitsBack` | `redis/redis-6.2-ZC/src/acl.c:1557-1557` | Joined parts split back into themselves exactly when none contains the separator |
| `AclText.LineRoundTrip` | `redis/redis-6.2-ZC/src/acl.c:571-587` | The printed line gives the rules back exactly when no allowed subcommand contains a space |
| `AclText.SpaceSplitsTheRule` | `redis/redis-6.2-ZC/src/acl.c:571-587` | A witness: the rule of a subcommand with a space comes back as two |
| `AclSave.ReachableTidy` | `redis/redis-6.2-ZC/src/acl.c:825-1014` | Flags never contradict each other or the lists; lists have no repetitions and hold only hashes and space-free patterns |
| `AclSave.HeadReadsBack` | `redis/redis-6.2-ZC/src/acl.c:611-665` | The printed flags, passwords, key and channel patterns restore those of the user on any blank user |
| `AclSave.DescriptionReadsBack` | `redis/redis-6.2-ZC/src/acl.c:611-670` | The whole description makes a new or reset user the described one, up to the two flags it cannot express |
| `AclSave.DescribeUser` | `redis/redis-6.2-ZC/src/acl.c:611-670` | For every reachable user the text is made of words that give the user back |
| `AclFile.LineParsesBack` | `redis/redis-6.2-ZC/src/acl.c:1546-1597` | A saved user, in a file of its own, is read back as its words exactly when every word survives splitting the file into lines, trimming and splitting the line |
| `AclFile.SavedUserParsesBack` | `redis/redis-6.2-ZC/src/acl.c:1661-1680` | A user saved alone is read back as written exactly when no subcommand has a space, a newline or a trailing blank |
| `AclFile.LineLoads` | `redis/redis-6.2-ZC/src/acl.c:1546-1630` | Such a line loads without error and restores its user, and only it |
| `AclFile.SaveToFile` | `redis/redis-6.2-ZC/src/acl.c:1661-1680` | The loop over the users builds the text of the file, a line with its newline for every reachable user |
| `AclFile.InstalledSubsAreClean` | `redis/redis-6.2-ZC/src/acl.c:1546-1630` | No file, whatever it holds, installs a subcommand with a space, a newline or a trailing blank |
| `AclFile.SaveThenLoad` | `redis/redis-6.2-ZC/src/acl.c:1509-1680` | Loading the saved file gives no error and every user back if and only if no subcommand of any user has a space, a newline or a trailing blank |
| `AclFile.SavedUsersKeepTheirVerdicts` | `redis/redis-6.2-ZC/src/acl.c:1188-1211` | Every user of a file that loads back may run the same commands |
| `AclFile.NewlineIsGranted` | `redis/redis-6.2-ZC/src/acl.c:955-985` | A witness: a rule with a newline in its subcommand is accepted |
| `AclFile.NewlineSplitsTheLine` | `redis/redis-6.2-ZC/src/acl.c:1546-1580` | Saved, that user becomes two lines and the whole load is refused |
| `AclFile.LineErrorsAre` | `redis/redis-6.2-ZC/src/acl.c:1551-1605` | What is wrong with a line, by its words: it does not begin with user and a name, the name has spaces, or the errors of its rules; blanks around it do not matter |
| `AclFile.LineInstalls` | `redis/redis-6.2-ZC/src/acl.c:1607-1627` | A line without errors sets up its user by its rules, from a new user or from what reset leaves if the file spoke of the user before or it is the default user; no other user changes |
| `AclFile.BlankLineIsFine` | `redis/redis-6.2-ZC/src/acl.c:1551-1554` | A line of blanks is passed over |
| `AclFile.RuleErrorsAre` | `redis/redis-6.2-ZC/src/acl.c:1594-1605` | Every rule of a line is tried, also behind one that failed, and each failure is one error |
| `AclFile.FileErrorsAre` | `redis/redis-6.2-ZC/src/acl.c:1546-1630` | The errors of a file are those of its lines, in order |
| `AclLoad.ApplyAlike` | `redis/redis-6.2-ZC/src/acl.c:825-1014` | Users alike in passwords and the two list flags fail on the same rules with the same error and stay alike |
| `AclLoad.FakeRunPredictsRealRun` | `redis/redis-6.2-ZC/src/acl.c:1594-1627` | Rules that succeed on the reset fake user succeed on the real user, new or reset: the assertion cannot fire |
| `AclLoad.TryLine` | `redis/redis-6.2-ZC/src/acl.c:1594-1605` | The errors of a line are those of its rules on a reset user |
| `AclLoad.ApplyLine` | `redis/redis-6.2-ZC/src/acl.c:1624-1627` | The asserted run on the real user never fails |
| `AclLoad.InitDefaultUser` | `redis/redis-6.2-ZC/src/acl.c:1045-1052` | The default user is on, with no password needed, and all commands, keys and channels |
| `AclLoad.DefaultIs` | `redis/redis-6.2-ZC/src/acl.c:1045-1052` | The same of the specification |
| `AclLoad.CopyUser` | `redis/redis-6.2-ZC/src/acl.c:328-351` | The copy has the same state as the source, element by element |
| `AclLoad.LoadLines` | `redis/redis-6.2-ZC/src/acl.c:1546-1630` | The loop gathers the errors of the file, and without errors builds the users the lines describe |
| `AclLoad.Registry.LoadFromFile` | `redis/redis-6.2-ZC/src/acl.c:1509-1656` | For the whole text of a file, split at its newlines: after any error no user and no table entry changed; otherwise the table is what the file says; the default user object stays the same |
| `AclLoad.InstalledSound` | `redis/redis-6.2-ZC/src/acl.c:1546-1630` | Every user a file installs has the invariants of rule-made users |
| `BlockedIndex.WaiterAdded` | `redis/redis-6.2-ZC/src/blocked.c:666-687` | Adding a waiter keeps the two-way index: each node is stored by its client, each client is listed once per key |
| `BlockedIndex.WaiterRemoved` | `redis/redis-6.2-ZC/src/blocked.c:702-713` | Removing a waiter keeps it, and an emptied list goes |
| `BlockedClients.Server.BlockClient` | `redis/redis-6.2-ZC/src/blocked.c:89-106` | Counters equal the blocked clients, in all and by type; paused clients queue up |
| `BlockedClients.Server.EnlistOnKeys` | `redis/redis-6.2-ZC/src/blocked.c:659-688` | The client is last in the queue of each distinct key and of no other |
| `BlockedClients.Server.BlockForKeys` | `redis/redis-6.2-ZC/src/blocked.c:647-690` | The whole invariant is kept and the client waits on exactly its keys |
| `BlockedClients.Server.UnblockClientWaitingData` | `redis/redis-6.2-ZC/src/blocked.c:694-728` | The client's node leaves every list, and no other node does |
| `BlockedClients.Server.QueueClientForReprocessing` | `redis/redis-6.2-ZC/src/blocked.c:168-175` | The unblocked queue holds each flagged client once |
| `BlockedClients.Server.Unlink` | `redis/redis-6.2-ZC/src/blocked.c:180-194` | By type of blocking, every list forgets the client; the panic on an unknown type is unreachable |
| `BlockedClients.Server.UnblockClient` | `redis/redis-6.2-ZC/src/blocked.c:179-213` | Counters fall by one, the client is queued once and waits for nothing |
| `BlockedClients.Server.SignalKeyAsReady` | `redis/redis-6.2-ZC/src/blocked.c:747-783` | A key is queued exactly if a client of its type is blocked and some client waits for it, and at most once (clients blocked by modules aside) |
| `BlockedClients.Server.NextUnblocked` | `redis/redis-6.2-ZC/src/blocked.c:128-133` | The head of the queue is taken and its flag cleared |
| `BlockedServe.EffectiveReplays` | `redis/redis-6.2-ZC/src/t_list.c:882-933` | Commands that fail need not be propagated: a replica without them has the same dataset |
| `BlockedServe.DbAdd` | `redis/redis-6.2-ZC/src/db.c:193-200` | A new key is signalled exactly if a client of its type is blocked and some client waits for it, so no waiting client is forgotten |
| `BlockedServe.GenericSetKey` | `redis/redis-6.2-ZC/src/db.c:225-263` | A new key is signalled like that; overwriting a key signals nothing: no client is forgotten if and only if the key is new, already queued, or no client waits on it for the new type |
| `BlockedServe.OverwriteForgets` | `redis/redis-6.2-ZC/src/db.c:225-246` | A witness: a client that waits for a list on a key that holds a string is forgotten when a list overwrites it |
| `BlockedServe.ChangeKeepsPending` | `redis/redis-6.2-ZC/src/t_list.c:226-268` | A value that changes without changing its type forgets nobody |
| `BlockedServe.DeleteKeepsPending` | `redis/redis-6.2-ZC/src/db.c:313-330` | Neither does a deletion |
| `BlockedServe.ServeClientBlockedOnList` | `redis/redis-6.2-ZC/src/t_list.c:882-933` | Reply, propagation and destination list for one receiver, or a wrong-type reply and no change |
| `BlockedServe.PopThenPush` | `redis/redis-6.2-ZC/src/blocked.c:303-308` | A failed serve puts the element back where it was |
| `BlockedServe.ListCommandServes` | `redis/redis-6.2-ZC/src/t_list.c:882-933` | The command a list client waits to do, run on any dataset with the list: the reply is the element at the end it named, what remains is the list without it, the command names that end; with a target the element ends up at the client's end of it, and a target of another type changes nothing |
| `BlockedServe.ZsetCommandServes` | `redis/redis-6.2-ZC/src/blocked.c:353-378` | The same for the member with the lowest or highest score |
| `BlockedServe.PopAndServe` | `redis/redis-6.2-ZC/src/blocked.c:286-308` | The pop and its delivery: the client gets the element at its own end, a pop or move with its own ends is propagated, or the element is put back where it was and the answer is a wrong type; as a replica's command too |
| `BlockedServe.ServeListWaiter` | `redis/redis-6.2-ZC/src/blocked.c:286-319` | One list waiter: the element at its own end is its reply or goes to its own end of the target, the list keeps the rest, the pop or move with its ends is propagated once, and it is released |
| `BlockedServe.ServeZsetWaiter` | `redis/redis-6.2-ZC/src/blocked.c:353-378` | One sorted-set waiter: the member at its own end goes and is its reply, that pop is propagated, and it is released |
| `BlockedLoop.TakenInOrder` | `redis/redis-6.2-ZC/src/blocked.c:267-381` | In a run of clients that only take: the k-th is answered with the next element from its own end, counting those before it that took from the same end, its own command is propagated as the k-th, and what is left are the elements in the middle |
| `BlockedLoop.ServeClientsBlockedOnListKey` | `redis/redis-6.2-ZC/src/blocked.c:267-328` | Clients of the list type are served first come, first served until the list runs out, each with the element at its own end and its own command propagated; the others keep their order at the back |
| `BlockedLoop.ServeClientsBlockedOnSortedSetKey` | `redis/redis-6.2-ZC/src/blocked.c:333-381` | The same for sorted sets |
| `BlockedLoop.ServeClientsBlockedOnStreamKey` | `redis/redis-6.2-ZC/src/blocked.c:386-489` | For every set of clients found due when they are reached: exactly those stream clients of the queue are released, while nodes are removed during the walk |
| `BlockedLoop.DueAreServed` | `redis/redis-6.2-ZC/src/blocked.c:386-489` | Of the clients that waited for the stream, those that are due are served, and nobody else |
| `BlockedLoop.ServeByType` | `redis/redis-6.2-ZC/src/blocked.c:583-603` | The switch on the type of the key: what is served is correct client by client, nobody twice; for a stream it is exactly the due clients |
| `BlockedLoop.ServeReadyKey` | `redis/redis-6.2-ZC/src/blocked.c:577-615` | One ready key: not queued again while served; every client that was served got what it is owed, once; without an unblocked client nothing new becomes ready; effects are replicated |
| `BlockedLoop.BlockingKeepsPending` | `redis/redis-6.2-ZC/src/blocked.c:647-690` | A client that blocks where there is nothing for it leaves no key forgotten |
| `BlockedLoop.HandleClientsBlockedOnKeys` | `redis/redis-6.2-ZC/src/blocked.c:565-618` | Terminates although serving signals new keys. The run is a chain of services, each correct in the client's own terms (its end, its target, its reply, its command), no client twice; replaying what was propagated gives the same dataset; every client due at a stream that was ready is served; if no waiting client was forgotten at entry (`AllPending`; `GenericSetKey` says what breaks it), none waits afterwards for what is there |
| `ZioRanges.SourceInMemory` | `zIO/src/copy_interpose.c:710-726` | Every byte the program reads comes from inside memory |
| `ZioRanges.SourceIsReal` | `zIO/src/copy_interpose.c:710-726` | No byte is read from inside a destination whose copy is still delayed |
| `ZioRanges.FringeAligns` | `zIO/src/copy_interpose.c:94-100` | The fringe macro leads to the next page boundary, and is 0 exactly on one |
| `ZioFault.CarvedKeepsWf` | `zIO/src/copy_interpose.c:728-783` | Whatever the branch, ranges stay disjoint, aligned and long enough |
| `ZioFault.CarvedSource` | `zIO/src/copy_interpose.c:728-783` | The carved hole is read directly and every other byte as before |
| `ZioFault.CarvedKeepsView` | `zIO/src/copy_interpose.c:785-792` | Filling the hole from its source leaves the program's view of every byte unchanged |
| `ZioFault.Zio.SplitAt` | `zIO/src/copy_interpose.c:728-783` | The three branches carve exactly the range that is then copied: the faulting page, and a piece beside it if no more than the threshold would be left on that side |
| `ZioFault.Zio.SplitInside` | `zIO/src/copy_interpose.c:754-783` | The split keeps at most two pieces, and short pieces join the copied range |
| `ZioFault.Zio.HandleMissingFault` | `zIO/src/copy_interpose.c:710-792` | The program sees the same memory; the faulting page becomes real, and of its range just the pieces no longer than the threshold besides; ranges stay well formed; aborts exactly when the page is untracked |
| `ZioGather.CopyFromOriginal` | `zIO/src/copy_interpose.c:129-155` | The trackers of the page are filled, the view is unchanged, but no entry is retired |
| `ZioGather.OverwriteIsLocal` | `zIO/src/copy_interpose.c:129-155` | Overwriting a real byte is invisible elsewhere if and only if no delayed copy reads it |
| `ZioGather.CopiedButStillRead` | `zIO/src/copy_interpose.c:149-153` | A witness: after copy_from_original a tracker still sees the next write to the original |
| `ZioGather.UntrackedToBoundary` | `zIO/src/copy_interpose.c:227-232` | From an untracked byte nothing is tracked up to the next page boundary |
| `ZioGather.NextChunk` | `zIO/src/copy_interpose.c:220-239` | Each chunk is non-empty and, entered at the start of a range or outside one, reads exactly the program's bytes |
| `ZioGather.AlikeIs` | `zIO/src/copy_interpose.c:217-246` | A byte is displaced alike exactly when the program reads it where the vector does |
| `ZioGather.Gather` | `zIO/src/copy_interpose.c:217-246` | The vector has exactly count bytes; they are the program's bytes if and only if every chunk that enters a range in its middle is followed, up to the chunk's end, by bytes displaced alike; so they are whenever the buffer does not begin inside a range that ends before it |
| `ZioGather.WrongBehindTheGap` | `zIO/src/copy_interpose.c:217-246` | A witness: the byte behind the range is right and a later one is wrong |
| `BitCount.TableIsRight` | `redis/redis-6.2-ZC/src/bitops.c:44-44` | All 256 table entries are the numbers of ones |
| `BitCount.FoldByByte` | `redis/redis-6.2-ZC/src/bitops.c:66-86` | The masked additions leave in each byte the ones of that byte, without carries |
| `BitCount.ProductAdds` | `redis/redis-6.2-ZC/src/bitops.c:80-86` | The multiply-and-shift adds the four byte sums, at most 224, and loses nothing |
| `BitCount.CountSevenWords` | `redis/redis-6.2-ZC/src/bitops.c:54-87` | One turn counts the ones of 28 bytes |
| `BitCount.RedisPopcount` | `redis/redis-6.2-ZC/src/bitops.c:40-92` | The number of set bits of the buffer, for every address and length |
| `BitPos.LongSkips` | `redis/redis-6.2-ZC/src/bitops.c:132-142` | A word skipped by comparison is all zeroes or all ones |
| `BitPos.LoadedIsBigEndian` | `redis/redis-6.2-ZC/src/bitops.c:151-159` | The loading loop puts the next bytes in a word, first byte on top |
| `BitPos.MaskSelects` | `redis/redis-6.2-ZC/src/bitops.c:172-180` | The shifted mask tests the bits in string order |
| `BitPos.RedisBitpos` | `redis/redis-6.2-ZC/src/bitops.c:101-186` | The first position with the bit; none: -1 for 1 and the length in bits for 0 |
| `BitPos.ScanLastWord` | `redis/redis-6.2-ZC/src/bitops.c:144-186` | The end of the search finds it, and the panic is unreachable |
| `BitOp.EachByte` | `redis/redis-6.2-ZC/src/bitops.c:680-730` | A word operation is the operation on each of its bytes |
| `BitOp.CombinedBits` | `redis/redis-6.2-ZC/src/bitops.c:734-758` | Bit by bit: all sources, some source, an odd number of sources, not the source |
| `BitOp.Absorbed` | `redis/redis-6.2-ZC/src/bitops.c:742-755` | Once AND is 0 or OR is 0xff the remaining sources change nothing, so the early exit is right |
| `BitOp.FastPath` | `redis/redis-6.2-ZC/src/bitops.c:670-731` | Blocks of four words give the combination of all sources |
| `BitOp.ByteAt` | `redis/redis-6.2-ZC/src/bitops.c:735-757` | One byte of the tail, early exit included |
| `BitOp.Compute` | `redis/redis-6.2-ZC/src/bitops.c:659-759` | Fast path and tail together give every byte |
| `BitOp.BitopCommand` | `redis/redis-6.2-ZC/src/bitops.c:594-781` | The stored string is the bytewise combination of all sources padded to the longest, for any keys, with the error replies |
| `Bitfield.SetUnsignedBitfield` | `redis/redis-6.2-ZC/src/bitops.c:209-222` | The field gets the low bits of the value and every other bit is as before |
| `Bitfield.GetUnsignedBitfield` | `redis/redis-6.2-ZC/src/bitops.c:229-241` | The number its bits stand for |
| `Bitfield.GetSignedBitfield` | `redis/redis-6.2-ZC/src/bitops.c:243-263` | The same, sign-extended |
| `Bitfield.ReadAfterWrite` | `redis/redis-6.2-ZC/src/bitops.c:209-263` | Reading what was written gives the value modulo 2^bits in the field's range |
| `Bitfield.FieldExample` | `redis/redis-6.2-ZC/src/bitops.c:229-263` | A witness of the order of the bits: fields of the bytes 0x12 0xF4 that cross bytes and the end |
| `Bitfield.WrappedInRange` | `redis/redis-6.2-ZC/src/bitops.c:358-377` | The wrapped value is the only one in range congruent to the sum |
| `BitfieldOps.UnsignedCheckReports` | `redis/redis-6.2-ZC/src/bitops.c:288-323` | Non-zero exactly when the true sum leaves the range; the limit is the wrapped or clamped value |
| `BitfieldOps.SignedCheckReports` | `redis/redis-6.2-ZC/src/bitops.c:325-378` | The same for signed fields, outside one exact case of SET, in which an underflow is taken for an overflow |
| `BitfieldOps.SatClamps` | `redis/redis-6.2-ZC/src/bitops.c:1055-1114` | SAT stores the nearest value in range if and only if it is not a SET of a negative number in an unsigned field or of one too far below a signed one |
| `BitfieldOps.SatStoresTheMaximum` | `redis/redis-6.2-ZC/src/bitops.c:325-352` | A witness: SAT SET i8 of the smallest 64-bit number stores 127, SAT SET u8 of -1 stores 255 |
| `BitfieldOps.OutcomeIs` | `redis/redis-6.2-ZC/src/bitops.c:1055-1114` | Spelled out for every value: what fits is stored; FAIL stores nothing, WRAP the number in range that differs by a multiple of 2^bits, SAT the nearer bound but for those cases |
| `BitfieldOps.HighestIsWritten` | `redis/redis-6.2-ZC/src/bitops.c:990-993` | The string grows to the last bit of one of the writes, and to no other |
| `BitfieldOps.OutcomeInRange` | `redis/redis-6.2-ZC/src/bitops.c:1055-1114` | What is stored fits the field |
| `BitfieldOps.Compute` | `redis/redis-6.2-ZC/src/bitops.c:1055-1114` | The two code paths with their casts compute the outcome |
| `BitfieldOps.Write` | `redis/redis-6.2-ZC/src/bitops.c:1055-1115` | SET and INCRBY: field and all other bits; SET is answered with what the field held, INCRBY with what it holds now |
| `BitfieldOps.Read` | `redis/redis-6.2-ZC/src/bitops.c:1116-1149` | The 9-byte buffer reads as the string followed by zeroes without end, at any offset and width |
| `BitfieldOps.BitfieldGeneric` | `redis/redis-6.2-ZC/src/bitops.c:1029-1150` | The operations take effect in order on the grown string, each as specified and with its reply; with reads alone the string does not grow |
| `CrcDivision.DivisionIsRight` | `redis/redis-6.2-ZC/src/crc16.c:32-45` | Long division: the message is quotient times divisor plus remainder |
| `CrcDivision.RegisterDivides` | `redis/redis-6.2-ZC/src/crc16.c:82-88` | The shift register computes the remainder of the message times x^w |
| `CrcDivision.SameEndSameStart` | `redis/redis-6.2-ZC/src/crc64.c:92-107` | Each step is one to one in the register |
| `CrcDivision.BurstsAreDetected` | `redis/redis-6.2-ZC/src/crc16.c:82-88` | Messages that differ inside w consecutive bits never share a check value |
| `CrcDivision.TopAndRest` | `redis/redis-6.2-ZC/src/crcspeed.c:116-135` | An input only enters the top of the register; the rest moves up |
| `Crc16.TableIsRight` | `redis/redis-6.2-ZC/src/crc16.c:47-80` | All 256 entries are eight steps of the register for x^16+x^12+x^5+1 |
| `Crc16.StepByteIsRun` | `redis/redis-6.2-ZC/src/crc16.c:85-86` | One table step is eight register steps |
| `Crc16.Crc16` | `redis/redis-6.2-ZC/src/crc16.c:82-88` | The table-driven loop returns the remainder of the division, for every message |
| `Crc16.TwoBytesAreDetected` | `redis/redis-6.2-ZC/src/crc16.c:82-88` | Equal-length messages that differ only inside two consecutive bytes share a crc16 if and only if they are equal |
| `Crc64.CrcReflect` | `redis/redis-6.2-ZC/src/crc64.c:69-78` | The result has the 64 bits in the other order |
| `Crc64.StepBitIsStep` | `redis/redis-6.2-ZC/src/crc64.c:94-104` | One round of the inner loop is one register step |
| `Crc64.Crc64Bits` | `redis/redis-6.2-ZC/src/crc64.c:88-111` | The bit-by-bit loop returns the reflected remainder |
| `Crc64.EightBytesAreDetected` | `redis/redis-6.2-ZC/src/crc64.c:88-111` | Equal-length messages that differ only inside eight consecutive bytes share a check value if and only if they are equal |
| `CrcSpeed.Crcspeed64LittleInit` | `redis/redis-6.2-ZC/src/crcspeed.c:33-50` | Each of the 8 x 256 entries is the register after that many zero bytes behind the byte |
| `CrcSpeed.SliceBy8` | `redis/redis-6.2-ZC/src/crcspeed.c:124-132` | Eight lookups are 64 register steps |
| `CrcSpeed.Crcspeed64Little` | `redis/redis-6.2-ZC/src/crcspeed.c:112-144` | The fast function computes the register after the whole message, for every alignment and length |
| `CrcSpeed.SameAsBitByBit` | `redis/redis-6.2-ZC/src/crcspeed.c:112-144` | From an empty register it returns the number the bit-by-bit function returns |
| `CrcSpeed.PieceByPiece` | `redis/redis-6.2-ZC/src/crc64.c:120-123` | A message may be checked piece by piece |
| `CrcCheck.CheckValue16` | `redis/redis-6.2-ZC/src/crc16.c:44-44` | The text 123456789 has the check value 0x31C3 that the header names |
| `CrcCheck.CheckValue64` | `redis/redis-6.2-ZC/src/crc64.c:132-140` | The same text has the check value 0xe9c6d914c4b8d9ca that the file's own check expects, and no other number stands for it |
| `Adlist.List.AddNodeHead` | `redis/redis-6.2-ZC/src/adlist.c:89-107` | The heap list stays well formed and its nodes are the new one followed by the old |
| `Adlist.List.AddNodeTail` | `redis/redis-6.2-ZC/src/adlist.c:115-133` | The same at the tail |
| `Adlist.List.InsertNode` | `redis/redis-6.2-ZC/src/adlist.c:135-162` | The new node stands directly before or after the given one |
| `Adlist.List.DelNode` | `redis/redis-6.2-ZC/src/adlist.c:168-181` | Exactly that node goes |
| `Adlist.List.RotateTailToHead` | `redis/redis-6.2-ZC/src/adlist.c:331-343` | The last node becomes the first, the others keep their order |
| `Adlist.List.RotateHeadToTail` | `redis/redis-6.2-ZC/src/adlist.c:346-358` | The first node becomes the last |
| `Adlist.List.Join` | `redis/redis-6.2-ZC/src/adlist.c:362-378` | All nodes of the second list are behind those of the first, and the second is empty |
| `Adlist.List.Empty` | `redis/redis-6.2-ZC/src/adlist.c:57-72` | No node is left, and the list can be used again |
| `Adlist.List.Index` | `redis/redis-6.2-ZC/src/adlist.c:316-328` | The node at the index, from the tail when negative, or null |
| `Adlist.List.SearchKey` | `redis/redis-6.2-ZC/src/adlist.c:291-309` | The first node that matches, or none does |
| `Adlist.List.Dup` | `redis/redis-6.2-ZC/src/adlist.c:251-280` | A fresh list of the copied values, or null exactly when some copy fails |
| `Adlist.List.ListNext` | `redis/redis-6.2-ZC/src/adlist.c:230-241` | An iterator on the k-th node returns that node and moves to its neighbour in its direction; past an end it stays there |
| `Adlist.DeletingTheReturnedNode` | `redis/redis-6.2-ZC/src/adlist.c:216-241` | Deleting the returned node leaves the iterator on the right node |
| `Bio.StepKeepsInv` | `redis/redis-6.2-ZC/src/bio.c:129-256` | Every critical section keeps: pending is the queue length, the taken node is still the head, jobs are a prefix in order |
| `Bio.FinishKeepsInv` | `redis/redis-6.2-ZC/src/bio.c:247-254` | The node deleted after relocking is the head that was taken |
| `Bio.RunKeepsInv` | `redis/redis-6.2-ZC/src/bio.c:129-256` | So does every interleaving |
| `Bio.JobsRunOnceInOrder` | `redis/redis-6.2-ZC/src/bio.c:129-256` | Jobs run once each in submission order; pending = queued = submitted - completed |
| `Bio.WorkerDrains` | `redis/redis-6.2-ZC/src/bio.c:204-255` | The worker alone finishes everything queued |
| `Bio.BioThread.SubmitJob` | `redis/redis-6.2-ZC/src/bio.c:129-136` | The submission on heap nodes is the protocol's step |
| `Bio.BioThread.TakeJob` | `redis/redis-6.2-ZC/src/bio.c:205-217` | So is taking the head |
| `Bio.BioThread.FinishJob` | `redis/redis-6.2-ZC/src/bio.c:247-254` | So is deleting it |
| `Bio.Interleave` | `redis/redis-6.2-ZC/src/bio.c:129-256` | Under every order of events the heap list goes through the protocol's states |
| `AeFiles.EventLoop.CreateFileEvent` | `redis/redis-6.2-ZC/src/ae.c:157-175` | The masks grow by the interest; an exact maxfd stays exact unless an empty mask is registered above it |
| `AeFiles.EventLoop.DeleteFileEvent` | `redis/redis-6.2-ZC/src/ae.c:177-197` | The interest goes, the barrier with the write interest; an exact maxfd stays exact |
| `AeFiles.EventLoop.ResizeSetSize` | `redis/redis-6.2-ZC/src/ae.c:120-136` | No registration is lost; with an exact maxfd it fails exactly when some registered descriptor has no slot |
| `AeFiles.EventLoop.GetFileEvents` | `redis/redis-6.2-ZC/src/ae.c:199-204` | The registered mask, none outside the table |
| `AeTimerHistory.DeletedNeverFires` | `redis/redis-6.2-ZC/src/ae.c:229-240` | In every history a deleted timer never fires again and its identifier is not reused |
| `AeTimerHistory.BetweenTrans` | `redis/redis-6.2-ZC/src/ae.c:267-331` | What callbacks and nested passes keep is kept by any run of them: no timer in use is freed, none comes back, only firing reschedules |
| `AeTimerHistory.FiringKeeps` | `redis/redis-6.2-ZC/src/ae.c:316-326` | Entering a callback, anything it does, and leaving it |
| `AeTimerHistory.WalkFires` | `redis/redis-6.2-ZC/src/ae.c:313-329` | A timer that fires lies below all fired before |
| `AeTimerHistory.WholePass` | `redis/redis-6.2-ZC/src/ae.c:267-331` | Each timer fires at most once and only if it was there and due; every due one has fired or is deleted, also one that became due during an earlier callback of the pass; deleted ones are gone unless in use; those in use stay |
| `AeTimerHistory.NotBeforeDue` | `redis/redis-6.2-ZC/src/ae.c:313-329` | A timer never fires before the moment it is set to, whatever passes and callbacks run until then |
| `AeTimerHistory.DueIsServed` | `redis/redis-6.2-ZC/src/ae.c:267-331` | A pass begun at or after that moment fires it, unless it is deleted first |
| `AeTimers.EventLoop.CreateTimeEvent` | `redis/redis-6.2-ZC/src/ae.c:206-227` | The new timer is the head of a well-formed list, with the next identifier, and is due at the clock plus its milliseconds |
| `AeTimers.EventLoop.DeleteTimeEvent` | `redis/redis-6.2-ZC/src/ae.c:229-240` | Found exactly when a node carries the identifier; that timer, and only it, is marked |
| `AeTimers.EventLoop.Unlink` | `redis/redis-6.2-ZC/src/ae.c:288-293` | Exactly that node leaves the doubly linked list |
| `AeTimers.EventLoop.Free` | `redis/redis-6.2-ZC/src/ae.c:278-301` | A deleted timer not in use leaves the list |
| `AeTimers.EventLoop.Fire` | `redis/redis-6.2-ZC/src/ae.c:313-327` | The callback may do anything, passes included, and the node is still on the list when it returns; a returned interval makes it due at the clock of the return plus that many milliseconds, and the mark for no more deletes it |
| `AeTimers.EventLoop.ProcessTimeEvents` | `redis/redis-6.2-ZC/src/ae.c:267-331` | A pass keeps every promise above, for every tree of callback behaviour; no timer fires early, every due one fires; processed is the number of timers fired at its own depth |

## Left out

- AofLog.LoadAppendOnlyFile: a log that starts with an RDB dump is only recognised; reading dumps is not part of
  this model.
- AofServer.Server.BackgroundRewriteDone: that the child's file holds what was sent is required of the caller;
  `AofRewrite.Rewrite.Finish` proves it for every run.
- AofTranslate.TranslationKeepsMeaning: asks that the end of life fits 64 bits, which the commands themselves
  check before they are fed (expire.c:497-511, t_string.c:84-102). The clock is the one at feeding, which may be
  later than the one at execution.
- AofRewrite.RewriteAppendOnlyFile: starts at the fork; starting the child, its snapshot's bytes, its timeouts
  and its signals are events that may or may not happen.
- BlockedClients.Server.SignalKeyAsReady: clients blocked by modules, which are signalled whatever the type, are
  not modelled.
- BlockedLoop.ServeClientsBlockedOnStreamKey: which clients are due is a parameter, one set for each key while the
  ready keys are served; stream IDs and consumer groups are not modelled.
- BlockedLoop.HandleClientsBlockedOnKeys: that no client was forgotten at entry is an assumption of its last
  clause; `DbAdd`, `ChangeKeepsPending`, `DeleteKeepsPending`, `BlockingKeepsPending` and `GenericSetKey` say what
  keeps it. The timeout table and the assertion on masters are not modelled.
- Sockets, polling interfaces, TLS, logging, latency sampling, statistics, cluster, modules, scripting: no
  part of what is proved.
- startAppendOnly and stopAppendOnly: the states between which they switch are covered by the server's
  invariant, the functions themselves are not modelled.
- Killing clients after ACL changes, ACL LOG, key and channel pattern matching, ids beyond the bitmap's size.
- The file system side of ACL SAVE and ACL LOAD: temporary files, fgets, renaming.
- Expiration during serving: the code freezes the clock there.
- zIO's memcpy, handle_existing_buffer, send and receive calls, and its skip list, which is a map here; its
  insertion keeps only the low 32 bits of a length, which is not modelled. Flushing of userfaultfd ranges is
  not modelled.
- The parsing of BITFIELD arguments, BITCOUNT and BITPOS ranges, GETBIT and SETBIT: easy beside what is here.
- The most negative 64-bit increment is negated in the overflow check, which C leaves undefined; the model
  lets it wrap.
- The big-endian and 16-bit variants of crcspeed.
- AeTimers.EventLoop.Fire: `retval * 1000` is an int in ae.c (line 323) and overflows above some 35 minutes, which C
  leaves undefined; the model does not wrap.
- aeProcessEvents and the polling of file events; usUntilEarliestTimer.
- Restored users may differ in the ALLCOMMANDS flag, which `AclFile.SavedUsersKeepTheirVerdicts` shows to
  have no effect on the verdicts.
