/** ABuffer of src/mediaserver/cdplugins/abuffer.h in place, and the part of NetFetch::databufToQ that fills one.
    malloc and realloc succeed. */
module Buffers {
  import N = NetFetch
  import opened Strings

  class Buffer {
    var buf: array<char>
    var bytes: nat
    var curoffs: nat

    ghost predicate Valid()
      reads this
    {
      curoffs <= bytes <= buf.Length
    }

    ghost function View(): N.ABuffer
      requires Valid()
      reads this, buf
    {
      N.ABuffer(buf.Length, buf[..bytes], curoffs)
    }

    constructor (bufsize: nat)
      ensures Valid() && fresh(buf) && View() == N.ABuffer(bufsize, "", 0)
    {
      buf, bytes, curoffs := new char[bufsize], 0, 0;
      new;
      assert buf[..0] == "";
    }

    /** The contents survive the reallocation. */
    method Reserve(minbytes: nat)
      requires Valid()
      modifies this`buf
      ensures Valid() && (buf == old(buf) || fresh(buf))
      ensures View() == old(View()).(alloc := N.Max(old(buf.Length), minbytes))
    {
      if buf.Length >= minbytes { return; }
      var bigger := new char[minbytes];
      forall i | 0 <= i < bytes { bigger[i] := buf[i]; }
      assert bigger[..bytes] == buf[..bytes];
      buf := bigger;
    }

    method Append(data: string)
      requires Valid()
      modifies this, buf
      ensures Valid() && (buf == old(buf) || fresh(buf))
      ensures View() == N.ABuffer(N.Max(old(buf.Length), 2 * (|data| + old(bytes))), old(buf[..bytes]) + data, old(curoffs))
    {
      Reserve(2 * (|data| + bytes));
      ghost var front := buf[..bytes];
      forall i | 0 <= i < |data| { buf[bytes + i] := data[i]; }
      assert buf[..bytes + |data|] == front + data;
      bytes := bytes + |data|;
    }

    /** A full copy, with no room to spare and to be read from the start. */
    method Dup() returns (n: Buffer)
      requires Valid()
      ensures fresh(n) && fresh(n.buf) && n.Valid() && n.View() == N.ABuffer(bytes, buf[..bytes], 0)
    {
      n := new Buffer(bytes);
      forall i | 0 <= i < bytes { n.buf[i] := buf[i]; }
      n.bytes := bytes;
      assert n.buf[..bytes] == buf[..bytes];
    }

    /** The memcpy of databufToQ, with the two fields it sets. */
    method Fill(contents: string)
      requires |contents| <= buf.Length
      modifies this`bytes, this`curoffs, buf
      ensures Valid() && View() == N.ABuffer(buf.Length, contents, 0)
    {
      forall i | 0 <= i < |contents| { buf[i] := contents[i]; }
      bytes := |contents|;
      curoffs := 0;
      assert buf[..bytes] == contents;
    }
  }

  /** A recycled buffer is taken if it is big enough, else a new one; the copy fits in either. The buffer is the one that
      the state machine of NetFetch puts. */
  method PrepareBuffer(recycled: Buffer?, contents: string) returns (b: Buffer)
    modifies if recycled == null then {} else {recycled, recycled.buf}
    ensures b.Valid() && b.View() == N.Prepared(if recycled == null then None else Some(old(recycled.buf.Length)), contents)
    ensures if recycled != null && old(recycled.buf.Length) >= |contents| then b == recycled && b.buf == old(recycled.buf)
            else fresh(b) && fresh(b.buf) && b.buf.Length == N.Max(4096, |contents|)
  {
    if recycled != null && recycled.buf.Length >= |contents| {
      b := recycled;
    } else {
      b := new Buffer(N.Max(4096, |contents|));
    }
    b.Fill(contents);
  }
}
