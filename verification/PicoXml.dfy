/** The parser of cfgui/picoxml.h: a cursor on the input, the stacks of the open elements, and the calls of the
    handlers so far. No more input (npos in the source) is the end of the input here. */
module PicoXml {
  import opened Strings
  import opened S = XmlSpec
  import E = Escapes

  datatype StackEl = StackEl(name: string, startIndex: nat, attributes: Attrs)

  function Names(path: seq<StackEl>): seq<string> { seq(|path|, k requires 0 <= k < |path| => path[k].name) }

  /** skipWS */
  method SkipBlanks(s: string, pos: nat) returns (next: nat)
    requires pos <= |s|
    ensures pos <= next <= |s| && s[next..] == SkipWS(s[pos..])
    ensures next < |s| ==> s[next] !in WS
    ensures pos < |s| && s[pos] !in WS ==> next == pos
  {
    next := FindFirstNotOf(s, WS, pos);
    NotOfShift(s, pos, next);
  }

  lemma NotOfShift(s: string, pos: nat, k: nat)
    requires pos <= k <= |s| && (k < |s| ==> s[k] !in WS) && forall i :: pos <= i < k ==> s[i] in WS
    ensures SkipWS(s[pos..]) == s[k..]
  {
    assert forall i :: 0 <= i < |s| - pos ==> s[pos..][i] == s[pos + i];
  }

  lemma OfShift(s: string, chars: string, pos: nat)
    requires pos <= |s|
    ensures FindFirstOf(s, chars, pos) == pos + FindFirstOf(s[pos..], chars, 0)
  {
    assert forall i :: 0 <= i < |s| - pos ==> s[pos..][i] == s[pos + i];
  }

  // ----- Tags -----

  /** The tag must have been trimmed, or looking behind its end would be possible. */
  method OneName(tag: string, pos: nat) returns (ok: bool, name: string, next: nat)
    requires pos <= |tag| && (pos < |tag| ==> tag[|tag| - 1] !in WS)
    ensures ok ==> next < |tag|
    ensures AttrName(tag[pos..]) == if ok then Some((name, tag[next..])) else None
  {
    hide FindFirstNotOf, FindFirstOf, SkipWS;
    ok, name, next := false, "", pos;
    ghost var t := tag[pos..];
    OfShift(tag, " \t\n\r=", pos);
    var epos := FindFirstOf(tag, " \t\n\r=", pos);
    assert t[epos - pos..] == tag[epos..] && t[..epos - pos] == tag[pos..epos];
    if epos == |tag| {
      assert SkipWS("") == "" by { SkipsNothing(); }
      return;
    }
    name := tag[pos..epos];
    if name == "" { return; }
    epos := SkipBlanks(tag, epos);
    if epos == |tag| || epos == |tag| - 1 || tag[epos] != '=' { return; }
    assert tag[epos..][1..] == tag[epos + 1..];
    next := SkipBlanks(tag, epos + 1);
    LastIsLeft(tag, next, tag[epos + 1..]);
    ok := true;
  }

  lemma SkipsNothing()
    ensures SkipWS("") == ""
  {
  }

  method OneValue(tag: string, pos: nat) returns (ok: bool, value: string, next: nat)
    requires pos < |tag|
    ensures next <= |tag|
    ensures AttrValue(tag[pos..]) == if ok then Some((value, tag[next..])) else None
  {
    hide FindFirstNotOf, FindFirstOf, SkipWS, E.Unquoted;
    ok, value, next := false, "", pos;
    if tag[pos] !in "\"'" || pos == |tag| - 1 { return; }
    ghost var q := tag[pos..];
    var spos := pos + 1;
    OfShift(tag, [tag[pos]], spos);
    assert q[1..] == tag[spos..];
    var epos := FindFirstOf(tag, [tag[pos]], spos);
    if epos == |tag| { return; }
    assert q[1..][..epos - spos] == tag[spos..epos] && q[epos - spos + 2..] == tag[epos + 1..];
    value := E.UnQuote(tag[spos..epos]);
    next := SkipBlanks(tag, epos + 1);
    ok := true;
  }

  method OneAttr(tag: string, pos: nat) returns (ok: bool, name: string, value: string, next: nat)
    requires pos <= |tag| && (pos < |tag| ==> tag[|tag| - 1] !in WS)
    ensures next <= |tag|
    ensures Attr1(tag[pos..]) == if ok then Some(Attr(name, value, tag[next..])) else None
  {
    hide AttrName, AttrValue;
    value := "";
    ok, name, next := OneName(tag, pos);
    if !ok { return false, name, value, pos; }
    ok, value, next := OneValue(tag, next);
  }

  lemma LastIsLeft(tag: string, k: nat, t: string)
    requires t != "" && |t| <= |tag| && t == tag[|tag| - |t|..] && tag[|tag| - 1] !in WS
    requires k <= |tag| && tag[k..] == SkipWS(t)
    ensures k < |tag|
  {
    assert t[|t| - 1] == tag[|tag| - 1];
  }

  method ParseAttrs(tag: string) returns (ok: bool, name: string, attrs: Attrs)
    requires tag != "" && tag[|tag| - 1] in WS ==> forall c :: c in tag ==> c in WS
    ensures TagOf(tag) == if ok then Some(Tag(name, attrs)) else None
  {
    hide Attr1, SkipWS;
    attrs := map[];
    var spos := FindFirstOf(tag, WS, 0);
    if spos == |tag| { return true, tag, attrs; }
    name := tag[..spos];
    spos := SkipBlanks(tag, spos);
    ghost var start := spos;
    while true
      invariant spos <= |tag| && (spos < |tag| ==> tag[|tag| - 1] !in WS)
      invariant AttrsFrom(tag[spos..], attrs) == AttrsFrom(tag[start..], map[])
      decreases |tag| - spos
    {
      var found, attrnm, value, next := OneAttr(tag, spos);
      if !found { return false, name, attrs; }
      attrs := attrs[attrnm := value];
      if next >= |tag| - 1 { break; }
      spos := next;
    }
    ok := true;
  }

  method TrimmedTag(tag: string) returns (t: string)
    ensures t == TrimTag(tag)
    ensures t != "" && t[|t| - 1] in WS ==> forall c :: c in t ==> c in WS
  {
    var n: nat := |tag|;
    assert tag[..n] == tag;
    while n > 0 && tag[n - 1] in WS
      invariant n <= |tag| && RTrim(tag[..n], WS) == RTrim(tag, WS)
    {
      n := n - 1;
      assert tag[..n + 1][..n] == tag[..n];
    }
    RTrimDrops(tag, WS);
    t := if n == 0 then tag else tag[..n];
  }

  lemma CommentIs(s: string)
    ensures IsComment(s) <==> |s| >= 4 && s[0] == '<' && s[1] == '!' && s[2] == '-' && s[3] == '-'
  {
    assert |s| >= 4 ==> s[..4] == [s[0], s[1], s[2], s[3]];
  }

  lemma AfterNothing(events: seq<Event>, ok: bool)
    ensures After(events, Parse(ok, [])) == Parse(ok, events)
  {
    assert events + [] == events;
  }

  lemma TextUnfold(s: string, stack: seq<string>)
    ensures TextThen(s, stack) == After(CharEvents(s), Elements(NextTag(s), stack))
  {
  }

  /** One turn of the loop, on the text. */
  lemma ElementsUnfold(s: string, stack: seq<string>)
    requires AtTag(s)
    ensures Elements(s, stack) ==
      if s == "" then Parse(stack == [], [])
      else if IsComment(s) then
        (if Find(s, "-->") == |s| then Parse(false, []) else TextThen(s[Find(s, "-->") + 3..], stack))
      else TagThen(s, stack)
  {
    hide TextThen, TagThen, Find, IndexOf;
  }

  lemma EndOfTag(s: string)
    requires |s| > 1 && s[0] == '<'
    ensures IndexOf(s, '>') == 1 + Find(s[1..], ">")
  {
    var n := Find(s[1..], ">");
    forall j | 1 <= j < 1 + n ensures s[j] != '>' {
      assert !Occurs(s[1..], ">", j - 1);
      assert s[1..][j - 1..j] == [s[j]];
    }
    if n < |s| - 1 { assert s[1..][n..n + 1] == [s[n + 1]]; }
    IndexOfIs(s, '>', 1 + n);
  }

  // ----- The parser -----

  class PicoXmlParser {
    const input: string
    var pos: nat
    var tagstack: seq<string>
    var path: seq<StackEl>
    var events: seq<Event>

    /** The two stacks agree, and the calls so far have opened just their elements. */
    ghost predicate Valid()
      reads this
    {
      pos <= |input| && Names(path) == tagstack && Open(events, []) == Option.Some(tagstack)
    }

    constructor (input: string)
      ensures Valid() && this.input == input && pos == 0 && events == [] && tagstack == []
    {
      this.input := input;
      pos, tagstack, path, events := 0, [], [], [];
    }

    predicate NoMore()
      reads this
    {
      pos >= |input|
    }

    method StartElem(tagname: string, attrs: Attrs, empty: bool)
      requires Valid()
      modifies this`tagstack, this`path, this`events
      ensures Valid()
      ensures events == old(events) + ([Start(tagname, attrs)] + if empty then [End(tagname)] else [])
      ensures tagstack == if empty then old(tagstack) else old(tagstack) + [tagname]
    {
      path := path + [StackEl(tagname, pos, attrs)];
      OpenAppend(events, [Start(tagname, attrs)], []);
      events := events + [Start(tagname, attrs)];
      assert [Start(tagname, attrs)][1..] == [];
      tagstack := tagstack + [tagname];
      if empty {
        EndElem(tagname);
        assert tagstack == old(tagstack);
      }
    }

    method EndElem(tagname: string)
      requires Valid() && tagstack != [] && tagstack[|tagstack| - 1] == tagname
      modifies this`tagstack, this`path, this`events
      ensures Valid() && events == old(events) + [End(tagname)] && tagstack == old(tagstack)[..|old(tagstack)| - 1]
    {
      OpenAppend(events, [End(tagname)], []);
      assert [End(tagname)][1..] == [];
      assert |path| == |Names(path)|;
      tagstack := tagstack[..|tagstack| - 1];
      events := events + [End(tagname)];
      path := path[..|path| - 1];
    }

    /** _chardata */
    method CharData()
      requires Valid()
      modifies this`pos, this`events
      ensures Valid() && pos >= old(pos) && tagstack == old(tagstack)
      ensures input[pos..] == NextTag(input[old(pos)..]) && events == old(events) + CharEvents(input[old(pos)..])
    {
      hide FindFirstOf, E.Unquoted;
      var spos := pos;
      OfShift(input, "<", pos);
      pos := FindFirstOf(input, "<", pos);
      assert input[spos..][pos - spos..] == input[pos..] && input[spos..][..pos - spos] == input[spos..pos];
      if NoMore() { return; }
      if pos != spos {
        var data := E.UnQuote(input[spos..pos]);
        OpenAppend(events, [Chars(data)], []);
        assert [Chars(data)][1..] == [];
        events := events + [Chars(data)];
      }
    }

    /** skipStr: behind the next t. */
    method SkipStr(t: string) returns (found: bool)
      requires Valid() && t != ""
      modifies this`pos
      ensures Valid() && (found <==> Find(input[old(pos)..], t) < |input| - old(pos))
      ensures pos == if found then old(pos) + Find(input[old(pos)..], t) + |t| else |input|
    {
      var n := Find(input[pos..], t);
      found := n < |input[pos..]|;
      pos := if found then pos + n + |t| else |input|;
    }

    /** peek: never past the terminating NUL of the string. */
    function Peek(sz: nat): (c: Option<char>)
      requires sz <= |input|
      reads this
      ensures c.Some? ==> pos + 1 + sz <= |input|
    {
      if pos >= |input| - sz then Option.None
      else Option.Some(if pos + 1 + sz == |input| then '\0' else input[pos + 1 + sz])
    }

    method SkipDeclarations() returns (ok: bool)
      requires Valid() && events == []
      modifies this`pos
      ensures Valid()
      ensures SkipDecl(input[old(pos)..]) == if ok then Option.Some(input[pos..]) else Option.None
    {
      hide SkipWS, Find;
      while true
        invariant Valid() && SkipDecl(input[pos..]) == SkipDecl(input[old(pos)..])
        decreases |input| - pos
      {
        ghost var s := input[pos..];
        pos := SkipBlanks(input, pos);
        if NoMore() { return true; }
        ghost var t := input[pos..];
        ghost var start := pos;
        if input[pos] != '<' { return false; }
        if Peek(0) == Option.Some('?') {
          var found := SkipStr("?>");
          if !found { return false; }
          assert t[pos - start..] == input[pos..];
        } else {
          return true;
        }
      }
    }

    /** skipComment, with the characters behind it. */
    method SkipComment() returns (ok: bool, wascomment: bool)
      requires Valid() && AtTag(input[pos..])
      modifies this`pos, this`events
      ensures Valid() && tagstack == old(tagstack) && pos >= old(pos)
      ensures wascomment <==> IsComment(input[old(pos)..])
      ensures !wascomment ==> ok && pos == old(pos) && events == old(events)
      ensures wascomment ==>
        var s := input[old(pos)..];
        var n := Find(s, "-->");
        (ok <==> n < |s|) && (!ok ==> events == old(events)) &&
        (ok ==> pos > old(pos) && input[pos..] == NextTag(s[n + 3..]) && events == old(events) + CharEvents(s[n + 3..]))
    {
      wascomment := false;
      CommentIs(input[pos..]);
      if NoMore() { return true, false; }
      ghost var s := input[pos..];
      if Peek(0) == Option.Some('!') {
        if Peek(1) == Option.Some('-') {
          if Peek(2) == Option.Some('-') {
            ghost var start := pos;
            wascomment := true;
            var found := SkipStr("-->");
            if !found { return false, true; }
            assert s[pos - start..] == input[pos..];
            CharData();
            return true, true;
          }
        }
      }
      ok := true;
    }

    /** The cursor goes behind the tag. */
    method ReadTag() returns (found: bool, isendtag: bool, emptyel: bool, tag: string)
      requires Valid() && pos < |input| && input[pos] == '<'
      modifies this`pos
      ensures Valid()
      ensures ScanTag(input[old(pos)..]) == if found then Option.Some(Scan(isendtag, emptyel, tag, input[pos..])) else Option.None
      ensures found ==> pos > old(pos)
    {
      hide Find, IndexOf, Open, Names;
      found, isendtag, emptyel, tag := false, false, false, "";
      ghost var s, start := input[pos..], pos;
      pos := pos + 1;
      if NoMore() { return; }
      var spos := pos;
      isendtag := input[pos] == '/';
      EndOfTag(s);
      assert s[1..] == input[pos..];
      var more := SkipStr(">");
      if !more || pos <= spos + 1 { return; }
      ghost var n := pos - 1 - start;
      assert s[n + 1..] == input[pos..] && s[n - 1] == input[pos - 2] && s[1] == input[spos];
      emptyel := input[pos - 2] == '/';
      if emptyel && isendtag { return; }
      var first := if isendtag then spos + 1 else spos;
      tag := input[first..if emptyel then pos - 2 else pos - 1];
      assert tag == if isendtag then s[2..n] else if emptyel then s[1..n - 1] else s[1..n];
      found := true;
    }

    /** A tag and the characters behind it. */
    method OneTag() returns (ok: bool)
      requires Valid() && pos < |input| && input[pos] == '<'
      modifies this
      ensures Valid()
      ensures !ok ==> TagThen(input[old(pos)..], old(tagstack)) == Parse(false, []) && events == old(events)
      ensures ok ==> pos > old(pos) && AtTag(input[pos..])
      ensures ok ==>
        After(old(events), TagThen(input[old(pos)..], old(tagstack))) == After(events, Elements(input[pos..], tagstack))
    {
      hide Elements, TextThen, ScanTag, TagOf, TrimTag, CharEvents, NextTag;
      ghost var before, stack := events, tagstack;
      var found, isendtag, emptyel, text := ReadTag();
      if !found { return false; }
      text := TrimmedTag(text);
      var parsed, name, attrs := ParseAttrs(text);
      if !parsed { return false; }
      if isendtag {
        if tagstack == [] || name != tagstack[|tagstack| - 1] { return false; }
        EndElem(name);
      } else {
        StartElem(name, attrs, emptyel);
      }
      ghost var mid, rest := events, input[pos..];
      CharData();
      TextUnfold(rest, tagstack);
      AfterAfter(mid, CharEvents(rest), Elements(input[pos..], tagstack));
      AfterAfter(before, mid[|before|..], TextThen(rest, tagstack));
      assert before + mid[|before|..] == mid;
      ok := true;
    }

    /** _parse, called parse. It always ends, with the events that the text stands for. */
    method ParseInput() returns (ok: bool)
      requires Valid() && pos == 0 && events == [] && tagstack == []
      modifies this
      ensures Valid() && Parse(ok, events) == Document(input)
      ensures ok ==> tagstack == [] && path == []
    {
      hide SkipDecl, Elements;
      assert input[0..] == input;
      ok := SkipDeclarations();
      if !ok { return; }
      ghost var doc := Elements(input[pos..], []);
      assert doc == Document(input);
      while true
        invariant Valid() && AtTag(input[pos..]) && After(events, Elements(input[pos..], tagstack)) == doc
        decreases |input| - pos
      {
        ghost var before := events;
        ghost var s := input[pos..];
        ElementsUnfold(s, tagstack);
        var wascomment;
        ok, wascomment := SkipComment();
        if !ok {
          AfterNothing(events, false);
          return;
        }
        if wascomment {
          ghost var t := s[Find(s, "-->") + 3..];
          TextUnfold(t, tagstack);
          AfterAfter(before, CharEvents(t), Elements(input[pos..], tagstack));
        }
        if NoMore() {
          assert input[pos..] == "";
          ElementsUnfold("", tagstack);
          AfterNothing(events, tagstack == []);
          return tagstack == [];
        }
        if wascomment { continue; }
        ok := OneTag();
        if !ok {
          AfterNothing(events, false);
          return;
        }
      }
    }
  }
}
