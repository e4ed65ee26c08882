// The buffer that gathers what the parent feeds while a child rewrites the append only file: a
// list of blocks, filled at the tail and sent to the child from the head.
module AofRewriteBuffer {
  import opened Bytes

  const BLOCK_SIZE: nat := 10 * 1024 * 1024

  class Block {
    const buf: array<Byte>
    var used: nat
    var free: nat

    constructor ()
      ensures fresh(buf) && buf.Length == BLOCK_SIZE && used == 0 && free == BLOCK_SIZE
    {
      buf := new Byte[BLOCK_SIZE];
      used, free := 0, BLOCK_SIZE;
    }

    ghost predicate Valid()
      reads this
    {
      used + free == buf.Length == BLOCK_SIZE
    }

    ghost function Data(): ByteString
      requires Valid()
      reads this, buf
    {
      buf[..used]
    }

    /** The memcpy of aofRewriteBufferAppend: `s` goes behind the used bytes. */
    method Fill(s: ByteString)
      requires Valid() && |s| <= free
      modifies this, buf
      ensures Valid() && Data() == old(Data()) + s
    {
      forall i | 0 <= i < |s| { buf[used + i] := s[i]; }
      used, free := used + |s|, free - |s|;
      assert buf[..used] == old(buf[..used]) + s;
    }

    /** The memmove of aofChildWriteDiffData: the first `n` used bytes are gone. */
    method Shift(n: nat)
      requires Valid() && n <= used
      modifies this, buf
      ensures Valid() && Data() == old(Data())[n..] && used == old(used) - n
    {
      forall i | 0 <= i < used - n { buf[i] := buf[n + i]; }
      used, free := used - n, free + n;
      assert buf[..used] == old(buf[..used])[n..];
    }
  }

  function Flatten(data: seq<ByteString>): ByteString {
    if data == [] then [] else data[0] + Flatten(data[1..])
  }

  lemma {:induction false} FlattenSnoc(data: seq<ByteString>, last: ByteString)
    ensures Flatten(data + [last]) == Flatten(data) + last
    decreases |data|
  {
    if data == [] {
      assert [last][1..] == [];
    } else {
      assert (data + [last])[1..] == data[1..] + [last];
      FlattenSnoc(data[1..], last);
    }
  }

  lemma FlattenSent(data: seq<ByteString>, n: nat)
    requires data != [] && n <= |data[0]|
    ensures data[0][..n] + Flatten(data[0 := data[0][n..]]) == Flatten(data)
  {
    assert data[0 := data[0][n..]][1..] == data[1..];
    assert data[0] == data[0][..n] + data[0][n..];
  }

  /** The blocks and their memory. */
  ghost function Owned(blocks: seq<Block>): (r: set<object>)
    ensures forall i :: 0 <= i < |blocks| ==> blocks[i] in r && blocks[i].buf in r
  {
    assert forall i :: 0 <= i < |blocks| ==> blocks[i] in blocks;
    (set b | b in blocks :: b as object) + (set b | b in blocks :: b.buf as object)
  }

  lemma OwnedSnoc(blocks: seq<Block>, block: Block)
    ensures Owned(blocks + [block]) == Owned(blocks) + {block, block.buf}
  {
    var more := blocks + [block];
    assert more[|blocks|] == block;
    assert forall b :: b in more <==> b in blocks || b == block;
  }

  class RewriteBuffer {
    var blocks: seq<Block>
    // aof_stop_sending_diff, and whether aofChildWriteDiffData is installed as a handler.
    var stopSending: bool
    var handler: bool
    // Everything written to the child's pipe so far.
    var written: ByteString
    // What the blocks hold.
    ghost var data: seq<ByteString>

    ghost predicate Valid()
      reads this, Repr()
    {
      && |data| == |blocks|
      && (forall i :: 0 <= i < |blocks| ==> blocks[i].Valid() && blocks[i].Data() == data[i])
      && (forall i, j :: 0 <= i < j < |blocks| ==> blocks[i] != blocks[j] && blocks[i].buf != blocks[j].buf)
    }

    ghost function Repr(): (r: set<object>)
      reads this
      ensures this in r && forall i :: 0 <= i < |blocks| ==> blocks[i] in r && blocks[i].buf in r
    {
      {this} + Owned(blocks)
    }

    /** The bytes in the buffer, in the order they will be sent. */
    ghost function Contents(): ByteString
      reads this
    {
      Flatten(data)
    }

    constructor ()
      ensures Valid() && fresh(Repr())
      ensures blocks == [] && Contents() == [] && written == [] && !stopSending && !handler
    {
      blocks, stopSending, handler := [], false, false;
      data, written := [], [];
    }

    /** aofRewriteBufferAppend. */
    method Append(s: ByteString)
      requires Valid()
      modifies Repr()
      ensures Valid() && fresh(Repr() - old(Repr()))
      ensures Contents() == old(Contents()) + s
      ensures written == old(written) && stopSending == old(stopSending)
      ensures handler == (old(handler) || !stopSending)
    {
      hide Flatten, Valid, Repr;
      var rest := s;
      while rest != []
        invariant Valid() && fresh(Repr() - old(Repr()))
        invariant Contents() + rest == old(Contents()) + s
        invariant written == old(written) && stopSending == old(stopSending) && handler == old(handler)
        decreases |rest|, if blocks != [] && blocks[|blocks| - 1].free > 0 then 0 else 1
      {
        rest := FillLast(rest);
        if rest != [] {
          AddBlock();
        }
      }
      if !stopSending && !handler {
        SetHandler(true);
      }
    }

    /** aeCreateFileEvent or aeDeleteFileEvent on the data pipe. */
    method SetHandler(on: bool)
      requires Valid()
      modifies this`handler
      ensures Valid() && handler == on && Repr() == old(Repr())
      ensures blocks == [] ==> Contents() == []
    {
      handler := on;
    }

    /** The last block takes what it has room for. */
    method FillLast(s: ByteString) returns (rest: ByteString)
      requires Valid()
      modifies Repr()
      ensures Valid() && Repr() == old(Repr()) && blocks == old(blocks)
      ensures Contents() + rest == old(Contents()) + s
      ensures |rest| <= |s|
      ensures blocks != [] && old(blocks[|blocks| - 1].free) > 0 && s != [] ==> |rest| < |s|
      ensures written == old(written) && stopSending == old(stopSending) && handler == old(handler)
    {
      hide Flatten;
      rest := s;
      if |blocks| > 0 {
        var last := |blocks| - 1;
        var block := blocks[last];
        assert block in blocks;
        var n := if block.free < |s| then block.free else |s|;
        if n > 0 {
          FillBlock(block, s[..n]);
          rest := s[n..];
          assert s == s[..n] + s[n..];
        }
      }
    }

    method FillBlock(block: Block, s: ByteString)
      requires Valid() && blocks != [] && block == blocks[|blocks| - 1] && |s| <= block.free
      modifies this`data, block, block.buf
      ensures Valid()
      ensures Contents() == old(Contents()) + s
    {
      hide Flatten;
      var last := |blocks| - 1;
      assert forall i :: 0 <= i < last ==> blocks[i] != block && blocks[i].buf != block.buf;
      block.Fill(s);
      FlattenSnoc(data[..last], data[last]);
      FlattenSnoc(data[..last], data[last] + s);
      assert data == data[..last] + [data[last]];
      data := data[..last] + [data[last] + s];
    }

    method AddBlock()
      requires Valid()
      modifies this
      ensures Valid() && blocks != []
      ensures var block := blocks[|blocks| - 1];
              block.free > 0 && fresh(block) && fresh(block.buf) && Repr() == old(Repr()) + {block, block.buf}
      ensures Contents() == old(Contents())
      ensures written == old(written) && stopSending == old(stopSending) && handler == old(handler)
    {
      hide Flatten, Owned;
      var block := new Block();
      OwnedSnoc(blocks, block);
      blocks := blocks + [block];
      FlattenSnoc(data, []);
      data := data + [[]];
    }

    /** aofChildWriteDiffData: the pipe to the child is writable. Sends from the head of the
        list until the list is empty, the child asked us to stop, or the pipe takes no more: it has
        room for `room` bytes, and takes them in whatever pieces. */
    method ChildWriteDiffData(room: nat)
      requires Valid()
      modifies Repr()
      ensures Valid() && Repr() <= old(Repr())
      ensures written + Contents() == old(written + Contents())
      ensures written == old(written) + old(Contents())[..if stopSending then 0 else Min(room, |old(Contents())|)]
      ensures stopSending == old(stopSending)
      ensures handler == (old(handler) && !stopSending && room < |old(Contents())|)
    {
      hide Flatten, Valid, Repr;
      ghost var had, all := written, written + Contents();
      assert all == had + Contents();
      var left := room;
      while true
        invariant Valid() && Repr() <= old(Repr())
        invariant written + Contents() == all
        invariant 0 <= left <= room && |written| == |had| + (room - left)
        invariant stopSending == old(stopSending) && handler == old(handler)
        invariant stopSending ==> left == room
        decreases |blocks|, if blocks == [] then 0 else blocks[0].used
      {
        if stopSending || |blocks| == 0 {
          SetHandler(false);
          FrontIs(had, old(Contents()), written, Contents());
          return;
        }
        if blocks[0].used > 0 {
          FirstIsPart();
          var n := SendFirst(blocks[0], left);
          if n <= 0 {
            FrontIs(had, old(Contents()), written, Contents());
            return;
          }
          left := left - n;
        }
        if blocks[0].used == 0 {
          DropFirst();
        }
      }
    }

    lemma FirstIsPart()
      requires Valid() && blocks != []
      ensures |Contents()| >= blocks[0].used
    {
      assert |data[0]| == blocks[0].used;
    }

    /** One write(2): what it takes moves from the first block to the pipe. */
    method SendFirst(block: Block, room: nat) returns (n: int)
      requires Valid() && blocks != [] && block == blocks[0] && block.used > 0
      modifies this`data, this`written, block, block.buf
      ensures Valid() && Repr() == old(Repr())
      ensures if room == 0 then n <= 0 else 1 <= n <= Min(old(block.used), room)
      ensures block.used == old(block.used) - if n > 0 then n else 0
      ensures old(written) <= written && |written| == |old(written)| + if n > 0 then n else 0
      ensures written + Contents() == old(written + Contents())
    {
      hide Flatten, Owned;
      assert forall i :: 0 < i < |blocks| ==> blocks[i] != block && blocks[i].buf != block.buf;
      n := Write(block.used, room);
      if n > 0 {
        written := written + block.buf[..n];
        block.Shift(n);
        FlattenSent(data, n);
        data := data[0 := data[0][n..]];
      }
    }

    /** listDelNode on the empty first block. */
    method DropFirst()
      requires Valid() && |blocks| > 0 && blocks[0].used == 0
      modifies this`blocks, this`data
      ensures Valid() && Repr() <= old(Repr()) && blocks == old(blocks)[1..]
      ensures Contents() == old(Contents())
    {
      assert data[0] == [];
      blocks := blocks[1..];
      data := data[1..];
      assert forall b :: b in blocks ==> b in old(blocks);
    }

    /** aofRewriteBufferWrite: appends the buffer to a file; -1 as soon as one write is short, which is so when `room`
        bytes are written. */
    method RewriteBufferWrite(file: ByteString, room: nat) returns (file': ByteString, count: int)
      requires Valid()
      ensures file' == file + Contents()[..Min(room, |Contents()|)]
      ensures count == if room < |Contents()| then -1 else |Contents()|
    {
      hide Owned;
      ghost var all := file + Contents();
      file', count := file, 0;
      var i := 0;
      while i < |blocks|
        invariant 0 <= i <= |blocks|
        invariant 0 <= count <= room && file' + Flatten(data[i..]) == all
        invariant |file'| == |file| + count
      {
        var block := blocks[i];
        assert data[i..][0] == data[i] && data[i..][1..] == data[i + 1..];
        if block.used > 0 {
          var n := Min(block.used, room - count); // write(2)
          if n != block.used {
            ghost var was := file';
            file' := file' + block.buf[..n];
            assert was + data[i] + Flatten(data[i + 1..]) == all;
            FrontIs(file, Contents(), file', data[i][n..] + Flatten(data[i + 1..]));
            return file', -1;
          }
          file', count := file' + block.buf[..n], count + n;
        }
        i := i + 1;
      }
      assert data[i..] == [];
      FrontIs(file, Contents(), file', []);
    }
  }

  lemma FrontIs(front: ByteString, rest: ByteString, front': ByteString, rest': ByteString)
    requires front' + rest' == front + rest && |front| <= |front'|
    ensures |front'| - |front| <= |rest| && front' == front + rest[..|front'| - |front|]
  {
    assert |front' + rest'| == |front + rest|;
    assert front' == (front + rest)[..|front'|];
  }

  /** write(2) on `len` bytes, into something with room for `room` of them: an error, or any number of them. */
  method Write(len: nat, room: nat) returns (n: int)
    requires len > 0
    ensures if room == 0 then -1 <= n <= 0 else 1 <= n <= Min(len, room)
  {
    if room == 0 {
      n :| -1 <= n <= 0;
    } else {
      n :| 1 <= n <= Min(len, room);
    }
  }
}
