/** The buffered reader of src/netcon.cpp (NetconData::receive, doreceive, getline) over a stream that
    read() hands out in pieces of any size, and the ExecCmd wrappers of src/execmd.cpp. No timeout,
    cancel or read error; writing may fail. A char is a byte. */
module Netcon {
  import opened Strings

  /** How many bytes getline returns at most max of s: up to and including the first newline. */
  function LineLength(s: seq<char>, max: nat): (n: nat)
    ensures n <= max && n <= |s|
    ensures forall i :: 0 <= i < n - 1 ==> s[i] != '\n'
    ensures n < max && n < |s| ==> n > 0 && s[n - 1] == '\n'
    ensures n == 0 <==> max == 0 || s == []
  {
    if max == 0 || s == [] then 0 else if s[0] == '\n' then 1 else 1 + LineLength(s[1..], max - 1)
  }

  /** LineLength is what its contract says and nothing else. */
  lemma {:induction false} LineLengthIs(s: seq<char>, max: nat, n: nat)
    requires n <= max && n <= |s|
    requires forall i :: 0 <= i < n - 1 ==> s[i] != '\n'
    requires n == max || n == |s| || (n > 0 && s[n - 1] == '\n')
    ensures LineLength(s, max) == n
    decreases n
  {
    if n > 1 {
      LineLengthIs(s[1..], max - 1, n - 1);
    } else if n == 1 && s[0] != '\n' {
      assert max == 1 || s[1..] == [];
    }
  }

  /** Of the bytes before, piece was handed over first and after is left. */
  ghost predicate Delivered(before: seq<char>, piece: seq<char>, after: seq<char>) {
    before == piece + after
  }

  lemma DeliveredTwice(a: seq<char>, p: seq<char>, b: seq<char>, q: seq<char>, c: seq<char>)
    requires Delivered(a, p, b) && Delivered(b, q, c)
    ensures Delivered(a, p + q, c)
  {
  }

  lemma DeliveredNothing(a: seq<char>)
    ensures Delivered(a, [], a)
  {
  }

  lemma DeliveredIsPrefix(a: seq<char>, p: seq<char>, b: seq<char>)
    requires Delivered(a, p, b)
    ensures |p| <= |a| && p == a[..|p|] && b == a[|p|..]
  {
  }

  lemma DeliveredBefore(a: seq<char>, p: seq<char>, b: seq<char>, w: seq<char>)
    requires Delivered(a, p, b)
    ensures Delivered(a + w, p, b + w)
  {
  }

  const DEFBUFSIZE: nat := 200

  class NetconData {
    var buf: array?<char>
    var base: nat
    var bytes: nat
    // What the other end has sent and read() has not returned yet.
    var wire: seq<char>

    ghost predicate Valid()
      reads this
    {
      if buf == null then bytes == 0 else base + bytes <= buf.Length == DEFBUFSIZE
    }

    /** What the buffer holds. */
    ghost function Buffered(): (s: seq<char>)
      requires Valid()
      reads this, buf
      ensures |s| == bytes
    {
      if buf == null then [] else buf[base..base + bytes]
    }

    /** Everything still to be delivered: the buffered bytes, then the unread ones. */
    ghost function Pending(): seq<char>
      requires Valid()
      reads this, buf
    {
      Buffered() + wire
    }

    constructor (stream: seq<char>)
      ensures Valid() && buf == null && Pending() == stream
    {
      buf, base, bytes, wire := null, 0, 0, stream;
    }

    /** read(2): at least one byte unless none is wanted or left, and never more than n. */
    method Read(dst: array<char>, off: nat, n: nat) returns (k: nat)
      requires off + n <= dst.Length
      modifies this`wire, dst
      ensures k <= n && (k == 0 <==> n == 0 || old(wire) == [])
      ensures dst[..off] == old(dst[..off])
      ensures Delivered(old(wire), dst[off..off + k], wire)
      ensures |wire| == |old(wire)| - k
    {
      if n == 0 || wire == [] {
        return 0;
      }
      k :| 1 <= k <= n && k <= |wire|;
      forall i | 0 <= i < k {
        dst[off + i] := wire[i];
      }
      assert dst[off..off + k] == wire[..k];
      wire := wire[k..];
    }

    /** The copy out of the buffer, with its pointer and count. */
    method TakeBuffered(dst: array<char>, off: nat, n: nat)
      requires Valid() && buf != null && dst != buf && n <= bytes && off + n <= dst.Length
      modifies this`base, this`bytes, dst
      ensures Valid() && bytes == old(bytes) - n
      ensures dst[..off] == old(dst[..off])
      ensures Delivered(old(Buffered()), dst[off..off + n], Buffered())
    {
      forall i | 0 <= i < n {
        dst[off + i] := buf[base + i];
      }
      ghost var was := Buffered();
      assert dst[off..off + n] == was[..n];
      bytes := bytes - n;
      base := base + n;
      assert Buffered() == was[n..];
    }

    /** Receive at most cnt bytes. What a getline left in the buffer comes first, except when the call
        is there to fill the buffer. */
    method Receive(dst: array<char>, off: nat, cnt: nat) returns (n: nat)
      requires Valid() && off + cnt <= dst.Length
      requires dst == buf ==> bytes == 0
      modifies this`base, this`bytes, this`wire, dst
      ensures Valid() && bytes <= old(bytes)
      ensures n <= cnt && (n == 0 <==> cnt == 0 || old(Pending()) == [])
      ensures dst[..off] == old(dst[..off])
      ensures Delivered(old(Pending()), dst[off..off + n], Pending())
      ensures |wire| <= |old(wire)| && (old(bytes) == 0 && n > 0 ==> |wire| < |old(wire)|)
    {
      hide Delivered, Buffered;
      ghost var all := Pending();
      var fromibuf := TakeLeftover(dst, off, cnt);
      if fromibuf == cnt {
        return fromibuf;
      }
      n := ReadMore(dst, off, fromibuf, cnt - fromibuf, all);
    }

    /** What a previous getline may have left in the buffer. */
    method TakeLeftover(dst: array<char>, off: nat, cnt: nat) returns (fromibuf: nat)
      requires Valid() && off + cnt <= dst.Length
      requires dst == buf ==> bytes == 0
      modifies this`base, this`bytes, dst
      ensures Valid() && fromibuf == (if old(bytes) < cnt then old(bytes) else cnt) && bytes == old(bytes) - fromibuf
      ensures dst[..off] == old(dst[..off])
      ensures Delivered(old(Pending()), dst[off..off + fromibuf], Pending())
    {
      hide Delivered;
      fromibuf := 0;
      DeliveredNothing(Pending());
      assert dst[off..off] == [];
      if buf != null && bytes > 0 && dst != buf {
        ghost var was := Buffered();
        fromibuf := if bytes < cnt then bytes else cnt;
        TakeBuffered(dst, off, fromibuf);
        DeliveredBefore(was, dst[off..off + fromibuf], Buffered(), wire);
      }
    }

    lemma NothingBuffered()
      requires Valid() && bytes == 0
      ensures Pending() == wire
    {
    }

    /** The read that completes what came from the buffer, now empty. */
    method ReadMore(dst: array<char>, off: nat, fromibuf: nat, want: nat, ghost all: seq<char>) returns (n: nat)
      requires Valid() && bytes == 0 && off + fromibuf + want <= dst.Length
      requires Delivered(all, dst[off..off + fromibuf], Pending())
      modifies this`wire, dst
      ensures Valid() && bytes == 0 && fromibuf <= n <= fromibuf + want
      ensures n == fromibuf <==> want == 0 || old(wire) == []
      ensures dst[..off] == old(dst[..off])
      ensures Delivered(all, dst[off..off + n], Pending())
      ensures |wire| == |old(wire)| - (n - fromibuf)
    {
      hide Delivered, Pending, Buffered;
      ghost var head := dst[..off + fromibuf];
      ghost var first := dst[off..off + fromibuf];
      NothingBuffered();
      var got := Read(dst, off + fromibuf, want);
      assert dst[..off + fromibuf] == head;
      assert dst[off..off + fromibuf] == head[off..] == first;
      assert dst[..off] == head[..off];
      n := fromibuf + got;
      assert dst[off..off + n] == first + dst[off + fromibuf..off + n];
      NothingBuffered();
      DeliveredTwice(all, first, old(wire), dst[off + fromibuf..off + n], wire);
    }

    /** Receive exactly cnt bytes, or all there is before the end of the stream. */
    method DoReceive(dst: array<char>, cnt: nat) returns (cur: nat)
      requires Valid() && cnt <= dst.Length && dst != buf
      modifies this`base, this`bytes, this`wire, dst
      ensures Valid()
      ensures cur == if cnt < |old(Pending())| then cnt else |old(Pending())|
      ensures Delivered(old(Pending()), dst[..cur], Pending())
    {
      hide Delivered, Pending;
      ghost var all := Pending();
      cur := 0;
      DeliveredNothing(all);
      assert dst[..0] == [];
      while cnt > cur
        invariant cur <= cnt && Valid() && Delivered(all, dst[..cur], Pending())
      {
        var got := ReceiveBehind(dst, cur, cnt, all);
        if got == 0 { break; }
        cur := cur + got;
      }
      DeliveredIsPrefix(all, dst[..cur], Pending());
    }

    method ReceiveBehind(dst: array<char>, cur: nat, cnt: nat, ghost all: seq<char>) returns (got: nat)
      requires Valid() && cur < cnt <= dst.Length && dst != buf && Delivered(all, dst[..cur], Pending())
      modifies this`base, this`bytes, this`wire, dst
      ensures Valid() && got <= cnt - cur && Delivered(all, dst[..cur + got], Pending())
      ensures got == 0 ==> Pending() == []
    {
      hide Delivered, Pending;
      ghost var first, here := dst[..cur], Pending();
      got := Receive(dst, cur, cnt - cur);
      assert dst[..cur + got] == first + dst[cur..cur + got];
      DeliveredTwice(all, first, here, dst[cur..cur + got], Pending());
      if got == 0 {
        assert dst[cur..cur + got] == [];
        DeliveredIsPrefix(here, [], Pending());
      }
    }

    /** The buffer is allocated by the first getline. */
    method MakeBuffer()
      requires Valid()
      modifies this`buf, this`base, this`bytes
      ensures Valid() && buf != null && (buf == old(buf) || fresh(buf)) && Pending() == old(Pending())
    {
      if buf == null {
        buf := new char[DEFBUFSIZE];
        base, bytes := 0, 0;
      }
    }

    /** A line of at most cnt - 1 bytes, then a null character. The result depends on the stream alone,
        not on how read() cut it. */
    method GetLine(dst: array<char>, cnt: nat) returns (n: nat)
      requires Valid() && 1 <= cnt <= dst.Length && dst != buf
      modifies this, buf, dst
      ensures Valid() && (buf == old(buf) || fresh(buf))
      ensures n == LineLength(old(Pending()), cnt - 1)
      ensures Delivered(old(Pending()), dst[..n], Pending())
      ensures dst[n] == '\0'
    {
      hide Delivered, LineLength, Pending, Buffered;
      ghost var stream := Pending();
      MakeBuffer();
      var cp: nat, left: nat := 0, cnt;
      DeliveredNothing(stream);
      assert dst[..0] == [];
      while true
        invariant Valid() && buf != null && (buf == old(buf) || fresh(buf)) && dst != buf
        invariant cp + left == cnt && left >= 1
        invariant Delivered(stream, dst[..cp], Pending())
        invariant forall i :: 0 <= i < cp ==> dst[i] != '\n'
        decreases |wire|
      {
        var moved := Transfer(dst, cp, if bytes < left - 1 then bytes else left - 1, stream);
        left := left - moved;
        cp := cp + moved;
        if left <= 1 || (cp > 0 && dst[cp - 1] == '\n') {
          EndLine(dst, cp, cnt, stream);
          return cp;
        }
        Refill(dst, cp, stream);
        if bytes == 0 {
          EndLine(dst, cp, cnt, stream);
          return cp;
        }
      }
    }

    /** The transfer from the net into the empty buffer. */
    method Refill(dst: array<char>, cp: nat, ghost stream: seq<char>)
      requires Valid() && buf != null && dst != buf && cp <= dst.Length && bytes == 0
      requires Delivered(stream, dst[..cp], Pending())
      modifies this`base, this`bytes, this`wire, buf
      ensures Valid() && Delivered(stream, dst[..cp], Pending())
      ensures bytes == 0 <==> old(Pending()) == []
      ensures bytes == 0 ==> Pending() == []
      ensures bytes > 0 ==> |wire| < |old(wire)|
    {
      base := 0;
      ghost var sofar := dst[..cp];
      var got := Receive(buf, 0, buf.Length);
      assert dst[..cp] == sofar;
      assert Pending() == wire;
      bytes := got;
      base := 0;
      assert Buffered() == buf[0..0 + got];
    }

    /** The line is complete: the null character goes in. */
    method EndLine(dst: array<char>, cp: nat, cnt: nat, ghost stream: seq<char>)
      requires Valid() && dst != buf && cp < cnt <= dst.Length
      requires Delivered(stream, dst[..cp], Pending())
      requires forall i :: 0 <= i < cp - 1 ==> dst[i] != '\n'
      requires cp == cnt - 1 || Pending() == [] || (cp > 0 && dst[cp - 1] == '\n')
      modifies dst
      ensures cp == LineLength(stream, cnt - 1)
      ensures Delivered(stream, dst[..cp], Pending()) && dst[cp] == '\0'
    {
      hide LineLength;
      ghost var line := dst[..cp];
      assert forall i :: 0 <= i < cp ==> stream[i] == line[i] == dst[i];
      LineLengthIs(stream, cnt - 1, cp);
      dst[cp] := '\0';
      assert dst[..cp] == line;
    }

    /** The copy loop of getline: bytes from the buffer to dst[cp..], a newline being the last. */
    method Transfer(dst: array<char>, cp: nat, maxtransf: nat, ghost stream: seq<char>) returns (moved: nat)
      requires Valid() && buf != null && dst != buf && maxtransf <= bytes && cp + maxtransf <= dst.Length
      requires Delivered(stream, dst[..cp], Pending())
      requires forall i :: 0 <= i < cp ==> dst[i] != '\n'
      modifies this`base, this`bytes, dst
      ensures Valid() && moved <= maxtransf && bytes == old(bytes) - moved
      ensures Delivered(stream, dst[..cp + moved], Pending())
      ensures forall i :: 0 <= i < cp + moved - 1 ==> dst[i] != '\n'
      ensures moved < maxtransf ==> moved > 0 && dst[cp + moved - 1] == '\n'
    {
      hide Delivered;
      ghost var src, first, here := Buffered(), dst[..cp], Pending();
      hide Pending, LineLength;
      var nn := maxtransf;
      moved := 0;
      while nn > 0
        invariant moved + nn == maxtransf && base == old(base) + moved && bytes == old(bytes)
        invariant dst[..cp] == first
        invariant buf[old(base)..old(base) + bytes] == src
        invariant forall i :: 0 <= i < moved ==> dst[cp + i] == src[i]
        invariant forall i :: 0 <= i < cp + moved ==> dst[i] != '\n'
      {
        nn := nn - 1;
        dst[cp + moved] := buf[base];
        assert buf[base] == src[moved];
        base := base + 1;
        moved := moved + 1;
        if dst[cp + moved - 1] == '\n' {
          break;
        }
      }
      bytes := bytes - moved;
      assert dst[cp..cp + moved] == src[..moved];
      assert Buffered() == src[moved..];
      DeliveredSplit(src, moved);
      DeliveredBefore(src, dst[cp..cp + moved], Buffered(), wire);
      DeliveredTwice(stream, first, here, dst[cp..cp + moved], Pending());
      assert dst[..cp + moved] == first + dst[cp..cp + moved];
    }
  }

  lemma DeliveredSplit(a: seq<char>, k: nat)
    requires k <= |a|
    ensures Delivered(a, a[..k], a[k..])
  {
  }

  /** Whether a pipe takes that many bytes before write() fails. */
  predicate Takes(room: Option<nat>, n: nat) { room.None? || n <= room.value }

  function Spent(room: Option<nat>, n: nat): Option<nat>
    requires Takes(room, n)
  {
    if room.None? then None else Some(room.value - n)
  }

  /** The ends of the pipes to and from a command. */
  class ExecCmd {
    const fromCmd: NetconData
    var sent: seq<char>
    // What the other end will still take; None if it never fails.
    var room: Option<nat>

    ghost predicate Valid()
      reads this, fromCmd
    {
      fromCmd.Valid()
    }

    ghost function Pending(): seq<char>
      requires Valid()
      reads this, fromCmd, fromCmd.buf
    {
      fromCmd.Pending()
    }

    constructor (con: NetconData, room: Option<nat>)
      requires con.Valid()
      ensures fromCmd == con && Valid() && sent == [] && this.room == room
    {
      fromCmd, sent, this.room := con, [], room;
    }

    /** send: write() may take the data in several pieces, or fail after some of them. */
    method Send(data: string) returns (n: int)
      modifies this`sent, this`room
      ensures Takes(old(room), |data|) ==>
        n == |data| && sent == old(sent) + data && room == Spent(old(room), |data|)
      ensures !Takes(old(room), |data|) ==>
        n == -1 && sent == old(sent) + data[..old(room).value] && room == Some(0)
    {
      var nwritten: nat := 0;
      while nwritten < |data|
        invariant nwritten <= |data| && sent == old(sent) + data[..nwritten]
        invariant Takes(old(room), nwritten) && room == Spent(old(room), nwritten)
      {
        if room == Some(0) { return -1; }
        var k :| 1 <= k <= |data| - nwritten && Takes(room, k);
        sent := sent + data[nwritten..nwritten + k];
        assert data[..nwritten + k] == data[..nwritten] + data[nwritten..nwritten + k];
        room := Spent(room, k);
        nwritten := nwritten + k;
      }
      return nwritten;
    }

    /** receive: appends cnt bytes to data, fewer at the end of the stream; one read if cnt is 0. */
    method Receive(data: string, cnt: nat) returns (ntot: nat, out: string)
      requires Valid()
      modifies fromCmd
      ensures Valid() && fromCmd.buf == old(fromCmd.buf)
      ensures ntot <= |old(Pending())| && out == data + old(Pending())[..ntot] && Pending() == old(Pending())[ntot..]
      ensures cnt > 0 ==> ntot == if cnt < |old(Pending())| then cnt else |old(Pending())|
      ensures cnt == 0 ==> ntot <= 4096 && (ntot == 0 <==> old(Pending()) == [])
    {
      hide Delivered, Pending;
      ghost var stream, piece := Pending(), [];
      DeliveredNothing(stream);
      var buf := new char[4096];
      ntot, out := 0, data;
      while true
        invariant Valid() && fromCmd.buf == old(fromCmd.buf) && buf != fromCmd.buf && fresh(buf)
        invariant Delivered(stream, piece, Pending()) && out == data + piece && ntot == |piece|
        invariant cnt > 0 ==> ntot < cnt
        invariant cnt == 0 ==> ntot == 0 && Pending() == stream
        decreases |Pending()|
      {
        var toread := if cnt == 0 || cnt - ntot > 4096 then 4096 else cnt - ntot;
        var n := ReceivePiece(buf, toread, stream, piece);
        if n == 0 {
          break;
        }
        piece := piece + buf[..n];
        out := out + buf[..n];
        ntot := ntot + n;
        if !(cnt > 0 && ntot < cnt) {
          break;
        }
      }
      DeliveredIsPrefix(stream, piece, Pending());
    }

    method ReceivePiece(buf: array<char>, toread: nat, ghost stream: seq<char>, ghost piece: seq<char>) returns (n: nat)
      requires Valid() && 0 < toread <= buf.Length && buf != fromCmd.buf
      requires Delivered(stream, piece, Pending())
      modifies fromCmd, buf
      ensures Valid() && fromCmd.buf == old(fromCmd.buf)
      ensures n <= toread && (n == 0 <==> old(Pending()) == []) && |Pending()| == |old(Pending())| - n
      ensures Delivered(stream, piece + buf[..n], Pending())
      ensures n == 0 ==> Delivered(stream, piece, Pending())
    {
      hide Delivered;
      ghost var here := Pending();
      n := fromCmd.Receive(buf, 0, toread);
      assert buf[0..n] == buf[..n];
      DeliveredTwice(stream, piece, here, buf[..n], Pending());
      DeliveredIsPrefix(here, buf[..n], Pending());
      assert n == 0 ==> piece + buf[..n] == piece;
    }

    /** getline: appends a line of at most 1023 bytes to data. */
    method GetLine(data: string) returns (n: nat, out: string)
      requires Valid()
      modifies fromCmd, fromCmd.buf
      ensures Valid() && (fromCmd.buf == old(fromCmd.buf) || fresh(fromCmd.buf))
      ensures n == LineLength(old(Pending()), 1023)
      ensures out == data + old(Pending())[..n] && Pending() == old(Pending())[n..]
    {
      var buf := new char[1024];
      n := fromCmd.GetLine(buf, 1024);
      out := data + buf[..n];
    }
  }
}
