/** The record buffer, a byte queue in one allocation, and the transport it is written to. */
module TlsBuffer {
  import opened Prelude

  const U16 := 0x1_0000
  const ALIGN := 8

  /** How many of the answers take bytes, and how many say that the transport is blocked. */
  function Takes(answers: seq<int>): nat {
    if answers == [] then 0 else (if answers[0] > 0 then 1 else 0) + Takes(answers[1..])
  }

  function Blocks(answers: seq<int>): nat {
    if answers == [] then 0 else (if answers[0] > 0 then 0 else 1) + Blocks(answers[1..])
  }

  /**
   Between two states of the transport `moved` bytes have gone out, at least one for each answer that takes any.
   If something was left over, the last answer was a refusal, or there was none left.
   */
  predicate Pushed(before: seq<int>, after: seq<int>, moved: int, all: bool) {
    && Takes(before) <= Takes(after) + moved
    && Blocks(before) == Blocks(after) + (if all || (after == [] && Blocks(before) == 0) then 0 else 1)
  }

  /** A stream transport: its answers are fixed in advance, in any pattern; it may take part of what it is offered. */
  class Transport {
    var answers: seq<int>
    var sent: seq<u8>

    constructor (answers: seq<int>)
      ensures this.answers == answers && sent == []
    {
      this.answers, sent := answers, [];
    }

    method Answer() returns (r: int)
      modifies this`answers
      ensures r == if old(answers) == [] then -1 else old(answers)[0]
      ensures answers == if old(answers) == [] then [] else old(answers)[1..]
    {
      if answers == [] {
        return -1;
      }
      r := answers[0];
      answers := answers[1..];
    }

    method Write(data: seq<u8>) returns (r: int)
      requires data != []
      modifies this
      ensures r <= |data|
      ensures r > 0 <==> old(answers) != [] && old(answers)[0] > 0
      ensures answers == if old(answers) == [] then [] else old(answers)[1..]
      ensures sent == if r > 0 then old(sent) + data[..r] else old(sent)
    {
      r := Answer();
      if r > |data| {
        r := |data|;
      }
      if r > 0 {
        sent := sent + data[..r];
      }
    }
  }

  /** Where in a new block the contents start, so that what follows a header of that length is aligned. */
  function Align(headerLen: nat, address: nat): (r: nat)
    ensures r < ALIGN && (headerLen + address + r) % ALIGN == 0
  {
    (0 - headerLen - address) % ALIGN
  }

  /** Addition on 16 bits. */
  function Plus16(a: nat, b: nat): (r: nat)
    requires a < U16 && b < U16
    ensures r == if a + b < U16 then a + b else a + b - U16
  {
    (a + b) % U16
  }

  /** What a block shows after `len` bytes have been taken off the front: the offset has only 16 bits. */
  function Shown(block: seq<u8>, offset: nat, size: nat, len: nat): (r: seq<u8>)
    requires offset < U16 && len <= size < U16 && offset + size <= |block|
    ensures |r| == size - len
  {
    var o := Plus16(offset, len);
    block[o..o + size - len]
  }

  /** What a queue would hold then. */
  function Queued(block: seq<u8>, offset: nat, size: nat, len: nat): (r: seq<u8>)
    requires len <= size && offset + size <= |block|
    ensures |r| == size - len
  {
    block[offset..offset + size][len..]
  }

  /** Taking bytes off is right, whatever the block holds, exactly when the offset does not wrap or nothing is left. */
  lemma QueueIff(offset: nat, size: nat, len: nat)
    requires offset < U16 && len <= size < U16
    ensures (forall block: seq<u8> | |block| == offset + size :: Shown(block, offset, size, len) == Queued(block, offset, size, len))
            <==> offset + len < U16 || len == size
  {
    if offset + len < U16 || len == size {
      forall block: seq<u8> | |block| == offset + size
        ensures Shown(block, offset, size, len) == Queued(block, offset, size, len)
      {
      }
    } else {
      var block: seq<u8> := seq(offset + size, i => if i == offset + len then 1 else 0);
      assert Queued(block, offset, size, len)[0] == 1;
      var o := Plus16(offset, len);
      assert o == offset + len - U16 && block[o] == 0;
      assert Shown(block, offset, size, len)[0] == block[o];
    }
  }

  /** A block of that capacity works as a queue, however it is filled and emptied, exactly when it ends within 2^16. */
  lemma StraightIff(offset: nat, cap: nat)
    requires offset < U16 && cap < U16
    ensures offset + cap <= U16 <==>
            forall size: nat, len: nat, block: seq<u8> | len <= size <= cap && |block| == offset + size ::
              Shown(block, offset, size, len) == Queued(block, offset, size, len)
  {
    hide Shown, Queued;
    if offset + cap <= U16 {
      forall size: nat, len: nat, block: seq<u8> | len <= size <= cap && |block| == offset + size
        ensures Shown(block, offset, size, len) == Queued(block, offset, size, len)
      {
        QueueIff(offset, size, len);
      }
    } else {
      QueueIff(offset, cap, U16 - offset);
      var block: seq<u8> :| |block| == offset + cap &&
        Shown(block, offset, cap, U16 - offset) != Queued(block, offset, cap, U16 - offset);
    }
  }

  /** The largest capacity at the worst alignment: with 0xFFF9 bytes taken off, the six left are read from the wrong place. */
  lemma WrapLoses()
    ensures Align(1, 0) == 7
    ensures exists block: seq<u8> ::
              |block| == 7 + 0xFFFF && Shown(block, 7, 0xFFFF, 0xFFF9) == block[..6] != Queued(block, 7, 0xFFFF, 0xFFF9)
  {
    QueueIff(7, 0xFFFF, 0xFFF9);
    var block: seq<u8> :| |block| == 7 + 0xFFFF && Shown(block, 7, 0xFFFF, 0xFFF9) != Queued(block, 7, 0xFFFF, 0xFFF9);
    assert Shown(block, 7, 0xFFFF, 0xFFF9) == block[..6];
  }

  /** All fields have 16 bits. The offset wraps, and the contents are then not what was queued, unless the block is straight. */
  class SSLBuffer {
    var buf: array?<u8>
    var offset: nat
    var size: nat
    var cap: nat
    ghost var contents: seq<u8>

    ghost predicate Valid()
      reads this, buf
    {
      && size <= cap < U16 && offset < U16
      && (buf == null ==> cap == 0 && offset == 0)
      && (buf != null ==> offset + cap <= buf.Length)
      && contents == (if buf == null then [] else buf[offset..offset + size])
    }

    /** What is in the buffer, and what may be put in, lies within the reach of a 16-bit offset. */
    ghost predicate Straight()
      reads this`offset, this`cap
    {
      offset + cap <= U16
    }

    constructor ()
      ensures Valid() && contents == [] && buf == null && Straight()
    {
      buf, offset, size, cap, contents := null, 0, 0, 0, [];
    }

    method Clear()
      modifies this
      ensures Valid() && contents == [] && buf == null && cap == 0 && Straight()
    {
      buf, offset, size, cap, contents := null, 0, 0, 0, [];
    }

    /**
     Makes room for `newCap` bytes from the present contents on. `address` stands for where the allocator
     puts the new block, which decides the alignment offset.
     */
    method EnsureCap(headerLen: nat, newCap: nat, address: nat) returns (ok: bool)
      requires Valid()
      modifies this
      ensures Valid() && contents == old(contents)
      ensures ok <==> newCap < U16
      ensures ok ==> cap >= newCap && (newCap > 0 ==> buf != null)
      ensures buf == old(buf) || fresh(buf)
      ensures Straight() <==>
                if old(cap) < newCap < U16 then Align(headerLen, address) + newCap <= U16 else old(Straight())
      ensures !(old(cap) < newCap < U16) ==> buf == old(buf) && cap == old(cap)
    {
      if newCap > 0xFFFF {
        return false;
      }
      if cap >= newCap {
        return true;
      }
      var newBuf := new u8[newCap + ALIGN - 1];
      var newOffset := Align(headerLen, address);
      if buf != null {
        forall k | 0 <= k < size {
          newBuf[newOffset + k] := buf[offset + k];
        }
        forall k | 0 <= k < size
          ensures newBuf[newOffset..newOffset + size][k] == contents[k]
        {
          assert newBuf[newOffset + k] == buf[offset + k];
        }
        assert newBuf[newOffset..newOffset + size] == contents;
      }
      buf, offset, cap := newBuf, newOffset, newCap;
      return true;
    }

    /** Puts bytes behind the contents. */
    method Append(data: seq<u8>)
      requires Valid() && |data| <= cap - size
      modifies this, buf
      ensures Valid() && contents == old(contents) + data
      ensures buf == old(buf) && cap == old(cap) && offset == old(offset)
    {
      if buf == null {
        return;
      }
      forall k | 0 <= k < |data| {
        buf[offset + size + k] := data[k];
      }
      assert buf[offset..offset + size] == old(buf[offset..offset + size]);
      size := size + |data|;
      contents := contents + data;
      assert buf[offset..offset + size] == contents;
    }

    /** Takes bytes off the front. */
    method Consume(len: nat)
      requires Valid() && len <= size
      modifies this
      ensures Valid() && buf == old(buf)
      ensures old(buf) != null ==> contents == Shown(old(buf)[..], old(offset), old(size), len)
      ensures old(offset) + len < U16 || len == old(size) ==> contents == old(contents)[len..]
      ensures old(Straight()) ==> Straight() && contents == old(contents)[len..]
      ensures |contents| == size == old(size) - len
    {
      hide Plus16;
      ghost var block: seq<u8> := if buf == null then [] else buf[..];
      var o := Plus16(offset, len);
      if buf != null {
        assert contents == block[offset..offset + size];
        contents := Shown(block, offset, size, len);
        assert offset + len < U16 ==> contents == block[offset..offset + size][len..];
      }
      offset, size, cap := o, size - len, cap - len;
      if buf != null {
        assert buf[offset..offset + size] == block[offset..offset + size];
      }
    }

    method DiscardConsumed()
      requires Valid()
      modifies this
      ensures Valid() && contents == old(contents) && (buf == old(buf) || buf == null)
      ensures old(Straight()) ==> Straight()
    {
      if size == 0 {
        Clear();
      }
    }

    /** Writes out the contents, until they are gone or the transport blocks. */
    method Flush(bio: Transport) returns (ret: int)
      requires Valid()
      modifies this, bio
      ensures Valid() && old(bio.sent) <= bio.sent
      ensures old(Straight()) ==> Straight() && bio.sent + contents == old(bio.sent) + old(contents)
      ensures if contents == [] then ret == 1 else ret <= 0
      ensures size == |contents| <= old(size)
      ensures Pushed(old(bio.answers), bio.answers, old(size) - size, contents == [])
      ensures buf == old(buf) || buf == null
    {
      while size > 0
        invariant size == |contents| <= old(size)
        invariant Pushed(old(bio.answers), bio.answers, old(size) - size, true)
        invariant Valid() && buf == old(buf) && old(bio.sent) <= bio.sent
        invariant old(Straight()) ==> Straight() && bio.sent + contents == old(bio.sent) + old(contents)
        decreases size
      {
        ghost var sent, c := bio.sent, contents;
        ret := bio.Write(buf[offset..offset + size]);
        if ret <= 0 {
          return;
        }
        Moved(sent, c, ret);
        Consume(ret);
      }
      Clear();
      return 1;
    }
  }

  lemma Moved(sent: seq<u8>, c: seq<u8>, n: nat)
    requires n <= |c|
    ensures (sent + c[..n]) + c[n..] == sent + c
  {
    assert c[..n] + c[n..] == c;
  }
}
