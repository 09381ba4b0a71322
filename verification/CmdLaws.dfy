/** What src/mediaserver/cdplugins/cmdtalk.cpp reads beside what it writes itself: headers with other blanks and signs,
    bad headers, missing data. */
module CmdLaws {
  import opened Strings
  import opened Numbers
  import opened Tokens
  import opened Netcon
  import opened CmdTalk

  /** A header line as words with blanks around them; the newline belongs to the last one. */
  ghost predicate HeaderLine(lead: string, ws: seq<string>, gaps: seq<string>) {
    Only(lead, BLANKS) && WfSpread(ws, gaps, BLANKS) &&
    var line := lead + Spread(ws, gaps);
    line != "" && line != "\n" && |line| <= LINEMAX && line[|line| - 1] == '\n' && '\n' !in line[..|line| - 1]
  }

  lemma LineIsTaken(line: string, rest: string)
    requires line != "" && |line| <= LINEMAX && line[|line| - 1] == '\n' && '\n' !in line[..|line| - 1]
    ensures LineLength(line + rest, LINEMAX) == |line| && (line + rest)[..|line|] == line && (line + rest)[|line|..] == rest
  {
    hide LineLength;
    assert forall i :: 0 <= i < |line| - 1 ==> line[i] == line[..|line| - 1][i];
    LineLengthIs(line + rest, LINEMAX, |line|);
  }

  /** A header of two words, the second a number, names and sizes the data; any other line is an error, and only the line
      is consumed. */
  lemma HeaderReads(lead: string, ws: seq<string>, gaps: seq<string>, rest: string)
    requires HeaderLine(lead, ws, gaps)
    ensures var s := lead + Spread(ws, gaps) + rest;
      if |ws| != 2 || ScanInt(ws[1]).None? then DecodeElement(s) == Decoded(None, rest)
      else DecodeElement(s) == TakeData(ws[0], ScanInt(ws[1]).value, rest)
  {
    hide LineLength, Tokenize, ScanInt, TakeData, Spread;
    var line := lead + Spread(ws, gaps);
    LineIsTaken(line, rest);
    WordsAreTokens(lead, ws, gaps, BLANKS);
  }

  /** The data follows the header; without a positive length there is none. */
  lemma DataReads(lead: string, ws: seq<string>, gaps: seq<string>, data: string, more: string)
    requires HeaderLine(lead, ws, gaps) && |ws| == 2 && ScanInt(ws[1]).Some?
    ensures var s := lead + Spread(ws, gaps) + (data + more); var len := ScanInt(ws[1]).value;
      (len == |data| ==> DecodeElement(s) == Decoded(Some(Element(ws[0], data)), more)) &&
      (len <= 0 ==> DecodeElement(s) == Decoded(Some(Element(ws[0], "")), data + more)) &&
      (len > |data| + |more| ==> DecodeElement(s) == Decoded(None, ""))
  {
    hide DecodeElement, Spread, ScanInt;
    HeaderReads(lead, ws, gaps, data + more);
    if ScanInt(ws[1]).value == |data| {
      assert (data + more)[..|data|] == data && (data + more)[|data|..] == more;
      if data == "" { assert data + more == more; }
    }
  }

  /** At the end of the stream there is no element. */
  lemma NoElement()
    ensures DecodeElement("") == Decoded(None, "")
  {
    hide LineLength;
    LineLengthIs("", LINEMAX, 0);
  }

  /** The colons around a name do not belong to it. */
  lemma ColonsGo(s: string, rep: map<string, string>, a: string, nm: string, b: string, data: string, rest: string)
    requires Only(a, ":") && Only(b, ":") && nm != "" && Trimmed(nm, ":")
    requires DecodeElement(s) == Decoded(Some(Element(a + nm + b, data)), rest)
    ensures DecodeMessage(s, rep) == DecodeMessage(rest, rep[nm := data])
  {
    hide DecodeElement, Trim;
    TrimAround(a, nm, b, ":");
  }

  /** An element that cannot be read ends the message with an error. */
  lemma BadElementFails(s: string, rep: map<string, string>)
    requires DecodeElement(s).result.None?
    ensures DecodeMessage(s, rep) == Decoded(None, DecodeElement(s).rest)
  {
    hide DecodeElement;
  }

  // ----- What the writer sends -----

  lemma {:induction false} DecimalIsShort(n: nat)
    ensures Decimal(n)[0] == '0' ==> n == 0
    ensures n < 10 ==> Decimal(n) == ["0123456789"[n]]
  {
    if n >= 10 { DecimalIsShort(n / 10); }
  }

  /** The bytes on the wire: name, colon, blank, length, newline, data; an empty line at the end. */
  lemma OnTheWire(a: string, x: string, b: string)
    requires |x| < 10
    ensures Encode([Element(a, x), Element(b, "")]) == a + ": " + ["0123456789"[|x|]] + "\n" + x + b + ": 0\n" + "\n"
    ensures Encode([]) == "\n"
  {
    hide Decimal;
    DecimalIsShort(|x|);
    DecimalIsShort(0);
    var es := [Element(a, x), Element(b, "")];
    assert es[1..] == [Element(b, "")] && es[1..][1..] == [];
    assert EncodeElements(es[1..]) == b + ": " + "0" + "\n" + "" + "";
    assert ["0123456789"[0]] == "0";
  }

  /** The first argument of a call goes first, unless it has no name. */
  lemma RequestStarts(first: Element, args: seq<Element>)
    ensures first.name == "" ==> Request(first, args) == Encode(args)
    ensures first.name != "" ==> Request(first, args) == first.name + ": " + Decimal(|first.data|) + "\n" + first.data + Encode(args)
  {
    hide Decimal;
    if first.name == "" {
      assert [] + args == args;
    } else {
      var all := [first] + args;
      assert all[1..] == args;
      assert EncodeElements(all) == Header(first) + first.data + EncodeElements(args);
      assert EncodeElements(all) + "\n" == first.name + ": " + Decimal(|first.data|) + "\n" + first.data + (EncodeElements(args) + "\n");
    }
  }
}
