// ae.c: the table of file events, indexed by descriptor, and its highest registered descriptor.
module AeFiles {

  datatype Flag = Readable | Writable | Barrier

  /** Callbacks and client data are opaque addresses. */
  datatype FileEvent = FileEvent(mask: set<Flag>, rfileProc: nat, wfileProc: nat, clientData: nat)

  /** The highest descriptor below `n` that is registered, or -1. */
  function Highest(events: seq<FileEvent>, n: nat): (r: int)
    requires n <= |events|
    ensures -1 <= r < n
    ensures r >= 0 ==> events[r].mask != {}
    ensures forall fd :: r < fd < n ==> events[fd].mask == {}
  {
    if n == 0 then -1 else if events[n - 1].mask != {} then n - 1 else Highest(events, n - 1)
  }

  /** Those three facts leave no choice. */
  lemma HighestIsUnique(events: seq<FileEvent>, n: nat, r: int)
    requires n <= |events| && -1 <= r < n
    requires r >= 0 ==> events[r].mask != {}
    requires forall fd :: r < fd < n ==> events[fd].mask == {}
    ensures r == Highest(events, n)
  {
  }

  class EventLoop {
    var events: array<FileEvent>
    var setsize: nat
    var maxfd: int

    ghost predicate Valid()
      reads this, events
    {
      && events.Length == setsize
      && -1 <= maxfd < setsize
      && forall fd :: maxfd < fd < setsize ==> events[fd].mask == {}
    }

    /** maxfd is the highest descriptor registered. */
    ghost predicate Exact()
      reads this, events
      requires Valid()
    {
      maxfd == Highest(events[..], setsize)
    }

    ghost function MaskOf(fd: nat): set<Flag>
      reads this, events
      requires Valid()
    {
      if fd < setsize then events[fd].mask else {}
    }

    constructor (n: nat)
      ensures Valid() && Exact() && fresh(events) && setsize == n
      ensures forall fd :: MaskOf(fd) == {}
    {
      setsize := n;
      maxfd := -1;
      events := new FileEvent[n](_ => FileEvent({}, 0, 0, 0));
      new;
      HighestIsUnique(events[..], n, -1);
    }

    method GetFileEvents(fd: nat) returns (mask: set<Flag>)
      requires Valid()
      ensures mask == MaskOf(fd)
    {
      mask := if fd >= setsize then {} else events[fd].mask;
    }

    /** `polled`: the polling interface accepted the descriptor. Only a call with an empty mask, above every
        registered descriptor, makes maxfd inexact. */
    method CreateFileEvent(fd: nat, mask: set<Flag>, proc: nat, clientData: nat, polled: bool) returns (ok: bool)
      requires Valid()
      modifies this`maxfd, events
      ensures Valid() && ok == (fd < setsize && polled)
      ensures !ok ==> events[..] == old(events[..]) && maxfd == old(maxfd)
      ensures forall k :: MaskOf(k) == if ok && k == fd then old(MaskOf(k)) + mask else old(MaskOf(k))
      ensures ok ==>
                && events[fd].rfileProc == (if Readable in mask then proc else old(events[fd].rfileProc))
                && events[fd].wfileProc == (if Writable in mask then proc else old(events[fd].wfileProc))
                && events[fd].clientData == clientData
                && forall k :: 0 <= k < setsize && k != fd ==> events[k] == old(events[k])
      ensures ok && old(Exact()) ==> (Exact() <==> mask != {} || fd <= old(maxfd))
    {
      if fd >= setsize || !polled {
        return false;
      }
      var fe := events[fd];
      fe := fe.(mask := fe.mask + mask);
      if Readable in mask {
        fe := fe.(rfileProc := proc);
      }
      if Writable in mask {
        fe := fe.(wfileProc := proc);
      }
      events[fd] := fe.(clientData := clientData);
      if fd > maxfd {
        maxfd := fd;
      }
      if events[maxfd].mask != {} {
        HighestIsUnique(events[..], setsize, maxfd);
      }
      ok := true;
    }

    /** What is removed: the barrier goes with the write interest. */
    static function Removed(mask: set<Flag>): set<Flag> {
      if Writable in mask then mask + {Barrier} else mask
    }

    method DeleteFileEvent(fd: nat, mask: set<Flag>)
      requires Valid()
      modifies this`maxfd, events
      ensures Valid()
      ensures forall k :: MaskOf(k) == if k == fd then old(MaskOf(k)) - Removed(mask) else old(MaskOf(k))
      ensures forall k :: 0 <= k < setsize ==> events[k] == old(events[k]).(mask := MaskOf(k))
      ensures old(Exact()) ==> Exact()
      ensures fd == old(maxfd) && old(MaskOf(fd)) != {} ==> Exact()
    {
      if fd >= setsize || events[fd].mask == {} {
        return;
      }
      events[fd] := events[fd].(mask := events[fd].mask - Removed(mask));
      if fd == maxfd && events[fd].mask == {} {
        var j := maxfd - 1;
        while j >= 0 && events[j].mask == {}
          invariant -1 <= j < setsize
          invariant forall k :: j < k < setsize ==> events[k].mask == {}
        {
          j := j - 1;
        }
        maxfd := j;
      }
      if maxfd < 0 || events[maxfd].mask != {} {
        HighestIsUnique(events[..], setsize, maxfd);
      }
    }

    /** The test is on the new size itself; the comment above the code says one less. With an exact maxfd the
        call fails just when a registered descriptor has no slot in the new table (or the polling interface
        refuses), and otherwise keeps every registration. The reallocated slots hold anything until the loop
        clears them. */
    method ResizeSetSize(n: nat, polled: bool) returns (ok: bool)
      requires Valid()
      modifies this
      ensures Valid() && (events == old(events) || fresh(events))
      ensures maxfd == old(maxfd) && setsize == if ok then n else old(setsize)
      ensures forall fd :: MaskOf(fd) == old(MaskOf(fd))
      ensures forall fd :: 0 <= fd <= maxfd ==> events[fd] == old(events[fd])
      ensures ok <==> n == old(setsize) || (maxfd < n && polled)
      ensures old(Exact()) ==> Exact()
      ensures old(Exact()) && polled ==> (ok <==> forall fd :: fd >= n ==> old(MaskOf(fd)) == {})
    {
      if n == setsize {
        return true;
      }
      if maxfd >= n {
        assert old(Exact()) ==> MaskOf(maxfd) != {};
        return false;
      }
      if !polled {
        return false;
      }
      ghost var was := events[..];
      var moved := new FileEvent[n];
      var keep := if n < setsize then n else setsize;
      forall k | 0 <= k < keep {
        moved[k] := events[k];
      }
      events := moved;
      setsize := n;
      for i := maxfd + 1 to n
        invariant events == moved && maxfd == old(maxfd) && setsize == n
        invariant forall k :: 0 <= k <= maxfd ==> events[k] == was[k]
        invariant forall k :: maxfd < k < i ==> events[k].mask == {}
      {
        events[i] := events[i].(mask := {});
      }
      if maxfd < 0 || events[maxfd].mask != {} {
        HighestIsUnique(events[..], n, maxfd);
      }
      ok := true;
    }
  }
}
