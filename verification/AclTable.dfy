// The command table, the categories and the command ids that the ACL engine works over.
module AclTable {

  // ---------------------------------------------------------------- text

  function LowerChar(c: char): char {
    if 'A' <= c <= 'Z' then c + 32 as char else c
  }

  function Lower(s: string): (l: string)
    ensures |l| == |s| && forall i :: 0 <= i < |s| ==> l[i] == LowerChar(s[i])
  {
    seq(|s|, i requires 0 <= i < |s| => LowerChar(s[i]))
  }

  /** strcasecmp(a, b) == 0. */
  predicate SameText(a: string, b: string) {
    Lower(a) == Lower(b)
  }

  // ---------------------------------------------------------------- commands

  const COMMAND_BITS: nat := 1024 // USER_COMMAND_BITS_COUNT
  const FUTURE_COMMANDS: nat := COMMAND_BITS - 1

  const CATEGORIES: seq<string> := [
    "keyspace", "read", "write", "set", "sortedset", "list", "hash", "string", "bitmap", "hyperloglog", "geo",
    "stream", "pubsub", "admin", "fast", "slow", "blocking", "dangerous", "connection", "transaction", "scripting"]

  datatype Command = Command(name: string, id: nat, categories: set<string>, isModule: bool, noAuth: bool)

  // server.orig_commands, in the order a dictionary iterator meets them.
  type Table = seq<Command>

  /** What the rest of the server guarantees of its table: names are lower case, distinct, and
      contain neither '|' nor white space nor a leading '@'; ids are distinct (ACLGetCommandID)
      and fit the bitmap. */
  predicate ValidTable(t: Table) {
    && (forall i :: 0 <= i < |t| ==> ValidCommand(t[i]))
    && (forall i, j :: 0 <= i < j < |t| ==> t[i].name != t[j].name && t[i].id != t[j].id)
  }

  predicate ValidCommand(c: Command) {
    c.id < FUTURE_COMMANDS && ValidName(c.name)
  }

  predicate ValidName(name: string) {
    && name != "" && name[0] != '@' && Lower(name) == name
    && forall i :: 0 <= i < |name| ==> name[i] !in {'|', ' ', '\0'}
  }

  /** ACLLookupCommand: the table is searched ignoring case. */
  function Lookup(t: Table, name: string): (r: int)
    ensures -1 <= r < |t|
    ensures r >= 0 ==> t[r].name == Lower(name)
    ensures r == -1 ==> forall i :: 0 <= i < |t| ==> t[i].name != Lower(name)
  {
    if t == [] then -1
    else if t[|t| - 1].name == Lower(name) then |t| - 1
    else Lookup(t[..|t| - 1], name)
  }

  lemma LookupFinds(t: Table, i: nat)
    requires ValidTable(t) && i < |t|
    ensures Lookup(t, t[i].name) == i
  {
    var r := Lookup(t, t[i].name);
    assert ValidCommand(t[i]);
  }

  /** ACLGetCommandCategoryFlagByName finds something. */
  predicate KnownCategory(name: string) {
    exists i :: 0 <= i < |CATEGORIES| && SameText(CATEGORIES[i], name)
  }

  predicate Letters(name: string) {
    name != "" && forall i :: 0 <= i < |name| ==> 'a' <= name[i] <= 'z'
  }

  lemma FirstCategories(k: nat)
    requires k < 7
    ensures Letters(CATEGORIES[k])
  {
  }

  lemma MoreCategories(k: nat)
    requires 7 <= k < 14
    ensures Letters(CATEGORIES[k])
  {
  }

  lemma LastCategories(k: nat)
    requires 14 <= k < |CATEGORIES|
    ensures Letters(CATEGORIES[k])
  {
  }

  lemma CategoriesAreLetters(name: string)
    requires name in CATEGORIES
    ensures Letters(name)
  {
    hide Letters;
    var k :| 0 <= k < |CATEGORIES| && CATEGORIES[k] == name;
    if k < 7 {
      FirstCategories(k);
    } else if k < 14 {
      MoreCategories(k);
    } else {
      LastCategories(k);
    }
  }

  /** The ids that the commands of a table stand for. */
  function Ids(t: Table): set<nat> {
    set i | 0 <= i < |t| :: t[i].id
  }

  // ---------------------------------------------------------------- command ids

  predicate Numbered(ids: map<string, nat>, nextId: nat) {
    && (forall n :: n in ids ==> ids[n] < nextId && ids[n] != FUTURE_COMMANDS)
    && (forall m, n :: m in ids && n in ids && m != n ==> ids[m] != ids[n])
    && nextId != FUTURE_COMMANDS
    && nextId == |ids| + (if nextId > FUTURE_COMMANDS then 1 else 0)
  }

  lemma NumberedNext(ids: map<string, nat>, nextId: nat, name: string)
    requires Numbered(ids, nextId) && name !in ids
    ensures Numbered(ids[name := nextId], if nextId + 1 == FUTURE_COMMANDS then nextId + 2 else nextId + 1)
    ensures nextId != FUTURE_COMMANDS && (|ids[name := nextId]| <= FUTURE_COMMANDS ==> nextId < FUTURE_COMMANDS)
  {
  }

  lemma NumberedAlready(ids: map<string, nat>, nextId: nat, name: string)
    requires Numbered(ids, nextId) && name in ids
    ensures ids[name] != FUTURE_COMMANDS && (|ids| <= FUTURE_COMMANDS ==> ids[name] < FUTURE_COMMANDS)
  {
  }

  /** ACLGetCommandID and the radix tree behind it. */
  class CommandIds {
    var ids: map<string, nat>
    var nextId: nat

    ghost predicate Valid()
      reads this
    {
      Numbered(ids, nextId)
    }

    constructor ()
      ensures Valid() && ids == map[]
    {
      ids, nextId := map[], 0;
    }

    /** The same name, in any case, always has the same id; no two names share one; the id that
        marks future commands is never handed out, and while the names fit below it, so do the
        ids. */
    method GetCommandID(name: string) returns (id: nat)
      requires Valid()
      modifies this
      ensures Valid()
      ensures ids.Keys == old(ids.Keys) + {Lower(name)} && ids[Lower(name)] == id
      ensures forall n :: n in old(ids) ==> n in ids && ids[n] == old(ids)[n]
      ensures id != FUTURE_COMMANDS
      ensures |ids| <= FUTURE_COMMANDS ==> id < FUTURE_COMMANDS
    {
      hide Lower, Numbered;
      var lowerName := Lower(name);
      if lowerName in ids {
        NumberedAlready(ids, nextId, lowerName);
        return ids[lowerName];
      }
      id := nextId;
      NumberedNext(ids, nextId, lowerName);
      ids := ids[lowerName := nextId];
      nextId := nextId + 1;
      if nextId == FUTURE_COMMANDS { nextId := nextId + 1; }
    }
  }
}
