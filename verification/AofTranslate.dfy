// The translations of the feed: a time to live becomes the moment at which it ends, so that a
// replay, whenever it takes place, sets the same end.
module AofTranslate {
  import opened Bytes
  import opened AofLog
  import opened AofFeed

  // cmd->proc. SETEX and PSETEX reach the feed as a SET, with its arguments rewritten.
  datatype Proc = Expire | PExpire | ExpireAt | PExpireAt | Set | Other

  const PEXPIREAT: ByteString := "PEXPIREAT"
  const PXAT: ByteString := "PXAT"

  /** createStringObjectFromLongLong, as text. */
  function DecInt(v: int): ByteString {
    if v < 0 then ['-'] + Dec(-v) else Dec(v)
  }

  lemma StrToLOfDecInt(v: int)
    requires LONG_MIN <= v <= LONG_MAX
    ensures StrToL(DecInt(v)) == v
  {
    hide Dec, Digits;
    if v < 0 {
      var s := Dec(-v);
      assert s + [] == s;
      DigitsOfDec(-v, []);
      assert DecInt(v)[1..] == s;
    } else {
      assert Dec(v) + [] == Dec(v);
      StrToLOfDec(v, []);
    }
  }

  // ---------------------------------------------------------------- what the commands mean

  /** strcasecmp(s,"px") == 0. */
  predicate SaysPx(s: ByteString) {
    |s| >= 2 && (s[0] == 'p' || s[0] == 'P') && (s[1] == 'x' || s[1] == 'X') && (|s| == 2 || s[2] == '\0')
  }

  /** A command that was executed has the arguments its arity and its parser ask for; a SET with an expire
      time was rewritten to exactly five. */
  predicate Executed(proc: Proc, argv: Command) {
    match proc
    case Set => |argv| >= 3 && (|argv| > 3 && (SaysPx(argv[3]) || argv[3] == PXAT) ==> |argv| == 5)
    case Other => argv != []
    case _ => |argv| == 3
  }

  /** The end of life that EXPIRE, PEXPIRE, EXPIREAT or PEXPIREAT with argument `n` sets at `now`. */
  function ExpireEnd(proc: Proc, n: int, now: int): int {
    (if proc.Expire? || proc.ExpireAt? then 1000 * n else n) + (if proc.Expire? || proc.PExpire? then now else 0)
  }

  /** When the key expires after the command ran at `now`, if the command says so. */
  function EndOfLife(proc: Proc, argv: Command, now: int): Option<int>
    requires Executed(proc, argv)
  {
    match proc
    case Other => None
    case Set =>
      if |argv| == 3 then None
      else if SaysPx(argv[3]) then Some(StrToL(argv[4]) + now)
      else if argv[3] == PXAT then Some(StrToL(argv[4]))
      else None
    case _ => Some(ExpireEnd(proc, StrToL(argv[2]), now))
  }

  // ---------------------------------------------------------------- the translation

  function Translated(proc: Proc, argv: Command, now: int): Command
    requires Executed(proc, argv)
  {
    if proc.Expire? || proc.PExpire? || proc.ExpireAt? then
      [PEXPIREAT, argv[1], DecInt(EndOfLife(proc, argv, now).value)]
    else if proc.Set? && |argv| > 3 && SaysPx(argv[3]) then
      [argv[0], argv[1], argv[2], PXAT, DecInt(EndOfLife(proc, argv, now).value)]
    else argv
  }

  /** The command a replay looks up. */
  function TranslatedProc(proc: Proc): Proc {
    if proc.Expire? || proc.PExpire? || proc.ExpireAt? then PExpireAt else proc
  }

  /** Replayed at any later time, the translated command names the same key, sets the same value if it sets one, and
      gives the key the end of life that the command has at the time it is fed. */
  lemma TranslationKeepsMeaning(proc: Proc, argv: Command, now: int, later: int)
    requires Executed(proc, argv)
    requires EndOfLife(proc, argv, now).Some? ==> LONG_MIN <= EndOfLife(proc, argv, now).value <= LONG_MAX
    ensures var t := Translated(proc, argv, now);
            && Executed(TranslatedProc(proc), t)
            && EndOfLife(TranslatedProc(proc), t, later) == EndOfLife(proc, argv, now)
            && (proc != Other ==> t[1] == argv[1])
            && (proc == Set ==> t[..3] == argv[..3])
            && (proc == Other || proc == PExpireAt ==> t == argv)
            && (!IsSelect(argv) ==> !IsSelect(t))
  {
    hide StrToL, Dec, DecInt;
    if EndOfLife(proc, argv, now).Some? {
      StrToLOfDecInt(EndOfLife(proc, argv, now).value);
    }
  }

  /** What is fed, command by command: seconds become milliseconds, a time to live the moment at which it ends; whatever
      sets no end, or sets it as a moment in milliseconds already, is fed as it is. */
  lemma FedAs(proc: Proc, argv: Command, now: int)
    requires Executed(proc, argv)
    ensures proc == Expire ==>
            Translated(proc, argv, now) == ["PEXPIREAT", argv[1], DecInt(StrToL(argv[2]) * 1000 + now)]
    ensures proc == PExpire ==> Translated(proc, argv, now) == ["PEXPIREAT", argv[1], DecInt(StrToL(argv[2]) + now)]
    ensures proc == ExpireAt ==> Translated(proc, argv, now) == ["PEXPIREAT", argv[1], DecInt(StrToL(argv[2]) * 1000)]
    ensures proc == PExpireAt || proc == Other ==> Translated(proc, argv, now) == argv
    ensures proc == Set ==>
              Translated(proc, argv, now)
              == if |argv| > 3 && |argv[3]| >= 2 && argv[3][..2] in ["px", "pX", "Px", "PX"] &&
                    (|argv[3]| == 2 || argv[3][2] == '\0')
                 then [argv[0], argv[1], argv[2], "PXAT", DecInt(StrToL(argv[4]) + now)] else argv
  {
    hide StrToL, DecInt, Dec;
    if proc == Set && |argv| > 3 { PxIs(argv[3]); }
  }

  lemma PxIs(s: ByteString)
    ensures SaysPx(s) <==> |s| >= 2 && s[..2] in ["px", "pX", "Px", "PX"] && (|s| == 2 || s[2] == '\0')
  {
    if |s| >= 2 {
      assert s[..2] == [s[0], s[1]];
    }
  }

  lemma TranslatedIsNoSelect(proc: Proc, argv: Command, now: int)
    requires Executed(proc, argv) && !IsSelect(argv)
    ensures !IsSelect(Translated(proc, argv, now))
  {
  }

  /** catAppendOnlyExpireAtCommand. */
  method CatAppendOnlyExpireAtCommand(dst: ByteString, proc: Proc, key: ByteString, seconds: ByteString, now: int)
    returns (r: ByteString)
    requires proc.Expire? || proc.PExpire? || proc.ExpireAt?
    ensures r == dst + Printed([PEXPIREAT, key, DecInt(ExpireEnd(proc, StrToL(seconds), now))])
  {
    var when := StrToL(seconds);
    if proc.Expire? || proc.ExpireAt? { when := when * 1000; }
    if proc.Expire? || proc.PExpire? { when := when + now; }
    r := CatAppendOnlyGenericCommand(dst, [PEXPIREAT, key, DecInt(when)]);
  }

  /** The part of feedAppendOnlyFile that prints the command. */
  method CatTranslated(dst: ByteString, proc: Proc, argv: Command, now: int) returns (r: ByteString)
    requires Executed(proc, argv)
    ensures r == dst + Printed(Translated(proc, argv, now))
  {
    hide StrToL, DecInt, Printed;
    if proc.Expire? || proc.PExpire? || proc.ExpireAt? {
      r := CatAppendOnlyExpireAtCommand(dst, proc, argv[1], argv[2], now);
    } else if proc.Set? && |argv| > 3 {
      if SaysPx(argv[3]) {
        var when := StrToL(argv[4]);
        when := when + now;
        r := CatAppendOnlyGenericCommand(dst, [argv[0], argv[1], argv[2], PXAT, DecInt(when)]);
      } else {
        r := CatAppendOnlyGenericCommand(dst, argv);
      }
    } else {
      r := CatAppendOnlyGenericCommand(dst, argv);
    }
  }
}
