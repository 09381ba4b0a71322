/** The message protocol of src/mediaserver/cdplugins/cmdtalk.cpp:
      name: length newline data ... and an empty line at the end of the message. */
module CmdTalk {
  import opened Strings
  import opened Numbers
  import opened Tokens
  import opened Netcon

  datatype Element = Element(name: string, data: string)

  /** A decoding result and the bytes that are left. */
  datatype Decoded<+T> = Decoded(result: Option<T>, rest: string)

  const LINEMAX: nat := 1023

  // ----- What the reader makes of a stream -----

  /** The data after a header line. */
  function TakeData(name: string, len: int, rest: string): (r: Decoded<Element>)
    ensures |r.rest| <= |rest|
  {
    if len <= 0 then Decoded(Some(Element(name, "")), rest)
    else if |rest| < len then Decoded(None, "")
    else Decoded(Some(Element(name, rest[..len])), rest[len..])
  }

  function DecodeElement(s: string): (r: Decoded<Element>)
    ensures |r.rest| <= |s| && (r.result.Some? ==> |r.rest| < |s|)
  {
    var n := LineLength(s, LINEMAX);
    var line, rest := s[..n], s[n..];
    if n == 0 then Decoded(None, rest)
    else if line == "\n" then Decoded(Some(Element("", "")), rest)
    else
      var tokens := Tokenize(line, BLANKS);
      if |tokens| != 2 then Decoded(None, rest)
      else
        match ScanInt(tokens[1])
        case None => Decoded(None, rest)
        case Some(len) =>
          TakeData(tokens[0], len, rest)
  }

  /** The answer and what follows it; rep is the map being filled. */
  function DecodeMessage(s: string, rep: map<string, string>): (r: Decoded<map<string, string>>)
    decreases |s|
  {
    var e := DecodeElement(s);
    match e.result
    case None => Decoded(None, e.rest)
    case Some(elt) =>
      if elt.name == "" then Decoded(Some(rep), e.rest)
      else DecodeMessage(e.rest, rep[Trim(elt.name, ":") := elt.data])
  }

  // ----- What the writer sends -----

  function Header(e: Element): string { e.name + ": " + Decimal(|e.data|) + "\n" }

  function EncodeElements(elts: seq<Element>): string {
    if elts == [] then "" else Header(elts[0]) + elts[0].data + EncodeElements(elts[1..])
  }

  function Encode(elts: seq<Element>): string { EncodeElements(elts) + "\n" }

  /** The map that a sequence of elements amounts to, a later one with the same name winning. */
  function AddAll(rep: map<string, string>, elts: seq<Element>): map<string, string>
    decreases |elts|
  {
    if elts == [] then rep else AddAll(rep[elts[0].name := elts[0].data], elts[1..])
  }

  /** An element that the header line can carry. The data may be any bytes. */
  ghost predicate WfElement(e: Element) {
    e.name != "" && FreeOf(e.name, " \t\n") && Trimmed(e.name, ":") && |e.data| <= INT_MAX && |Header(e)| <= LINEMAX
  }

  ghost predicate WfMessage(elts: seq<Element>) { forall e :: e in elts ==> WfElement(e) }

  // ----- The reader undoes the writer -----

  lemma HeaderTokens(e: Element)
    requires WfElement(e)
    ensures Tokenize(Header(e), BLANKS) == [e.name + ":", Decimal(|e.data|) + "\n"]
  {
    hide Decimal, Tokenize;
    var a, b := e.name + ":", Decimal(|e.data|) + "\n";
    assert Header(e) == a + [' '] + b;
    assert AllDigits(Decimal(|e.data|));
    TwoTokens(a, ' ', b, BLANKS);
  }

  lemma HeaderIsALine(e: Element, tail: string)
    requires WfElement(e)
    ensures LineLength(Header(e) + tail, LINEMAX) == |Header(e)|
  {
    hide Decimal, LineLength;
    var h := Header(e);
    assert AllDigits(Decimal(|e.data|));
    assert forall i :: 0 <= i < |h| - 1 ==> h[i] != '\n' by {
      assert forall i :: 0 <= i < |e.name| ==> h[i] == e.name[i];
      assert forall i :: |e.name| + 2 <= i < |h| - 1 ==> h[i] == Decimal(|e.data|)[i - |e.name| - 2];
    }
    assert forall i :: 0 <= i < |h| ==> (h + tail)[i] == h[i];
    LineLengthIs(h + tail, LINEMAX, |h|);
  }

  lemma TrimColon(name: string)
    requires name != "" && Trimmed(name, ":")
    ensures Trim(name + ":", ":") == name
  {
    TrimAround("", name, ":", ":");
    assert "" + name + ":" == name + ":";
  }

  lemma ElementRoundTrip(e: Element, tail: string)
    requires WfElement(e)
    ensures DecodeElement(Header(e) + e.data + tail) == Decoded(Some(Element(e.name + ":", e.data)), tail)
  {
    hide Decimal, LineLength, Tokenize, ScanInt, WfElement;
    var h := Header(e);
    var s := h + e.data + tail;
    assert s == h + (e.data + tail);
    HeaderIsALine(e, e.data + tail);
    HeaderTokens(e);
    ScanPrinted(|e.data|, "\n");
    assert s[..|h|] == h && s[|h|..] == e.data + tail;
    assert |h| > 1;
    assert (e.data + tail)[..|e.data|] == e.data && (e.data + tail)[|e.data|..] == tail;
  }

  lemma EndOfMessage(tail: string)
    ensures DecodeElement("\n" + tail) == Decoded(Some(Element("", "")), tail)
  {
    hide LineLength;
    LineLengthIs("\n" + tail, LINEMAX, 1);
    assert ("\n" + tail)[..1] == "\n" && ("\n" + tail)[1..] == tail;
  }

  /** Decoding an encoded message gives its elements and leaves exactly what follows it. */
  lemma {:induction false} MessageRoundTrip(elts: seq<Element>, tail: string, rep: map<string, string>)
    requires WfMessage(elts)
    ensures DecodeMessage(Encode(elts) + tail, rep) == Decoded(Some(AddAll(rep, elts)), tail)
    decreases |elts|
  {
    hide DecodeElement, Header, WfElement;
    if elts == [] {
      EndOfMessage(tail);
      assert Encode(elts) + tail == "\n" + tail;
    } else {
      var e := elts[0];
      var rest := Encode(elts[1..]) + tail;
      assert Encode(elts) + tail == Header(e) + e.data + rest;
      ElementRoundTrip(e, rest);
      assert WfElement(e);
      NameOf(e);
      MessageRoundTrip(elts[1..], tail, rep[e.name := e.data]);
    }
  }

  lemma NameOf(e: Element)
    requires WfElement(e)
    ensures e.name + ":" != "" && Trim(e.name + ":", ":") == e.name
  {
    TrimColon(e.name);
  }

  /** The elements of a map, in any order, amount to the map. */
  ghost predicate Enumerates(elts: seq<Element>, m: map<string, string>) {
    (forall i, j :: 0 <= i < j < |elts| ==> elts[i].name != elts[j].name) &&
    (forall e :: e in elts ==> e.name in m && m[e.name] == e.data) &&
    (forall nm :: nm in m ==> Element(nm, m[nm]) in elts)
  }

  lemma {:induction false} AddAllEnumerated(rep: map<string, string>, elts: seq<Element>)
    requires forall i, j :: 0 <= i < j < |elts| ==> elts[i].name != elts[j].name
    ensures forall e :: e in elts ==> e.name in AddAll(rep, elts) && AddAll(rep, elts)[e.name] == e.data
    ensures forall nm :: (forall e :: e in elts ==> e.name != nm) ==>
              (nm in AddAll(rep, elts) <==> nm in rep) && (nm in rep ==> AddAll(rep, elts)[nm] == rep[nm])
    decreases |elts|
  {
    if elts != [] {
      var first := elts[0];
      var rep1 := rep[first.name := first.data];
      AddAllEnumerated(rep1, elts[1..]);
      assert forall e :: e in elts <==> e == first || e in elts[1..];
    }
  }

  /** A map sent in the order of its hash table comes back as the same map. */
  lemma MapRoundTrip(m: map<string, string>, elts: seq<Element>, tail: string)
    requires WfMessage(elts) && Enumerates(elts, m)
    ensures DecodeMessage(Encode(elts) + tail, map[]) == Decoded(Some(m), tail)
  {
    hide DecodeMessage, Encode, AddAll, WfMessage, Enumerates;
    MessageRoundTrip(elts, tail, map[]);
    EnumeratedIsTheMap(m, elts);
  }

  lemma EnumeratedIsTheMap(m: map<string, string>, elts: seq<Element>)
    requires Enumerates(elts, m)
    ensures AddAll(map[], elts) == m
  {
    hide AddAll;
    AddAllEnumerated(map[], elts);
    var r := AddAll(map[], elts);
    forall nm ensures (nm in r <==> nm in m) && (nm in m ==> r[nm] == m[nm]) {
      if nm in m { assert Element(nm, m[nm]) in elts; }
    }
  }

  /** Several messages in a row. */
  function EncodeAll(msgs: seq<seq<Element>>): string {
    if msgs == [] then "" else Encode(msgs[0]) + EncodeAll(msgs[1..])
  }

  function DecodeAll(s: string, n: nat): Decoded<seq<map<string, string>>>
    decreases n
  {
    if n == 0 then Decoded(Some([]), s)
    else
      var first := DecodeMessage(s, map[]);
      if first.result.None? then Decoded(None, first.rest)
      else
        var others := DecodeAll(first.rest, n - 1);
        if others.result.None? then Decoded(None, others.rest)
        else Decoded(Some([first.result.value] + others.result.value), others.rest)
  }

  function Maps(msgs: seq<seq<Element>>): seq<map<string, string>> {
    if msgs == [] then [] else [AddAll(map[], msgs[0])] + Maps(msgs[1..])
  }

  /** Each message comes back as what was sent, whatever follows. */
  lemma {:induction false} StreamRoundTrip(msgs: seq<seq<Element>>, tail: string)
    requires forall m :: m in msgs ==> WfMessage(m)
    ensures DecodeAll(EncodeAll(msgs) + tail, |msgs|) ==
            Decoded(Some(Maps(msgs)), tail)
    decreases |msgs|
  {
    hide DecodeMessage, WfMessage, Encode;
    if msgs == [] {
      assert EncodeAll(msgs) + tail == tail;
    } else {
      var rest := EncodeAll(msgs[1..]) + tail;
      assert EncodeAll(msgs) + tail == Encode(msgs[0]) + rest;
      MessageRoundTrip(msgs[0], rest, map[]);
      StreamRoundTrip(msgs[1..], tail);
    }
  }

  // ----- The class -----

  /** The message of a call; the first argument may be missing. */
  function Request(arg0: Element, args: seq<Element>): string {
    Encode((if arg0.name == "" then [] else [arg0]) + args)
  }

  class Talker {
    const cmd: ExecCmd
    // The command has been started, has not exited and has not been killed.
    var running: bool

    ghost predicate Valid()
      reads this, cmd, cmd.fromCmd
    {
      cmd.Valid()
    }

    constructor (cmd: ExecCmd)
      requires cmd.Valid()
      ensures this.cmd == cmd && running && Valid()
    {
      this.cmd, running := cmd, true;
    }

    method ReadDataElement() returns (ok: bool, name: string, data: string)
      requires Valid()
      modifies cmd.fromCmd, cmd.fromCmd.buf
      ensures Valid() && (cmd.fromCmd.buf == old(cmd.fromCmd.buf) || fresh(cmd.fromCmd.buf))
      ensures var d := DecodeElement(old(cmd.Pending()));
        cmd.Pending() == d.rest && ok == d.result.Some? && (ok ==> d.result.value == Element(name, data))
    {
      hide LineLength, ScanInt, Tokenize, TakeData, NetconData.Pending, ExecCmd.Pending;
      ghost var stream := cmd.Pending();
      name, data := "", "";
      var n, ibuf := cmd.GetLine("");
      assert ibuf == stream[..n];
      if n == 0 {
        return false, name, data;
      }
      if ibuf == "\n" {
        return true, name, data;
      }
      var tokens := StringToTokens(ibuf, BLANKS, true, false);
      if |tokens| != 2 {
        return false, name, data;
      }
      name := tokens[0];
      var len := ScanInt(tokens[1]);
      if len.None? {
        return false, name, data;
      }
      ok, data := ReadData(name, len.value);
    }

    method ReadData(ghost name: string, len: int) returns (ok: bool, data: string)
      requires Valid()
      modifies cmd.fromCmd
      ensures Valid() && cmd.fromCmd.buf == old(cmd.fromCmd.buf)
      ensures var d := TakeData(name, len, old(cmd.Pending()));
        cmd.Pending() == d.rest && ok == d.result.Some? && (ok ==> d.result.value == Element(name, data))
    {
      hide NetconData.Pending, ExecCmd.Pending;
      data := "";
      if len > 0 {
        var got;
        got, data := cmd.Receive("", len);
        return got == len, data;
      }
      return true, data;
    }

    /** One exchange. The reply depends on the bytes of the stream alone. */
    method Talk(arg0: Element, args: seq<Element>, rep: map<string, string>)
        returns (ok: bool, out: map<string, string>)
      requires Valid()
      modifies this`running, cmd, cmd.fromCmd, cmd.fromCmd.buf
      ensures Valid()
      ensures !old(running) ==> !ok && out == rep && cmd.sent == old(cmd.sent) && cmd.Pending() == old(cmd.Pending())
      ensures old(running) && Takes(old(cmd.room), |Request(arg0, args)|) ==> var d := DecodeMessage(old(cmd.Pending()), rep);
        cmd.sent == old(cmd.sent) + Request(arg0, args) && cmd.Pending() == d.rest && running == d.result.Some? &&
        ok == (d.result.Some? && "cmdtalkstatus" !in d.result.value) && (d.result.Some? ==> out == d.result.value)
      ensures old(running) && !Takes(old(cmd.room), |Request(arg0, args)|) ==>
        !ok && !running && out == rep && cmd.Pending() == old(cmd.Pending()) &&
        cmd.sent == old(cmd.sent) + Request(arg0, args)[..old(cmd.room).value]
    {
      out := rep;
      if !running {
        return false, out;
      }
      var obuf := EncodeArgs(arg0, args);
      var n := cmd.Send(obuf);
      if n < 0 {
        running := false;
        return false, out;
      }
      var answered;
      answered, out := ReadAnswer(rep);
      if !answered {
        return false, out;
      }
      return "cmdtalkstatus" !in out, out;
    }

    method EncodeArgs(arg0: Element, args: seq<Element>) returns (obuf: string)
      ensures obuf == Request(arg0, args)
    {
      hide Header;
      obuf := "";
      if arg0.name != "" {
        obuf := obuf + Header(arg0) + arg0.data;
      }
      ghost var all := (if arg0.name == "" then [] else [arg0]) + args;
      assert arg0.name != "" ==> all[1..] == args;
      assert arg0.name == "" ==> all == args;
      assert obuf + EncodeElements(args) == EncodeElements(all);
      var i := 0;
      while i < |args|
        invariant i <= |args| && obuf + EncodeElements(args[i..]) == EncodeElements(all)
      {
        assert args[i..][0] == args[i] && args[i..][1..] == args[i + 1..];
        ghost var before, rest := obuf, EncodeElements(args[i + 1..]);
        obuf := obuf + (Header(args[i]) + args[i].data);
        assert obuf + rest == before + (Header(args[i]) + args[i].data + rest);
        i := i + 1;
      }
      assert obuf + "" == obuf;
      obuf := obuf + "\n";
    }

    /** The reading loop of talk. A bad element kills the command. */
    method ReadAnswer(rep: map<string, string>) returns (ok: bool, out: map<string, string>)
      requires Valid()
      modifies this`running, cmd.fromCmd, cmd.fromCmd.buf
      ensures Valid()
      ensures var d := DecodeMessage(old(cmd.Pending()), rep);
        cmd.Pending() == d.rest && ok == d.result.Some? && (ok ==> out == d.result.value) && running == (old(running) && ok)
    {
      hide DecodeElement, NetconData.Pending, Trim;
      out := rep;
      ghost var target := DecodeMessage(cmd.Pending(), rep);
      while true
        invariant Valid() && (cmd.fromCmd.buf == old(cmd.fromCmd.buf) || fresh(cmd.fromCmd.buf))
        invariant DecodeMessage(cmd.Pending(), out) == target && running == old(running)
        decreases |cmd.Pending()|
      {
        var read, name, data := ReadDataElement();
        if !read {
          running := false;
          return false, out;
        }
        if name == "" {
          return true, out;
        }
        name := Trim(name, ":");
        out := out[name := data];
      }
    }
  }
}
