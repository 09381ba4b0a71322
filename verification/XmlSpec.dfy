/** What the parser of cfgui/picoxml.h does with a text, as a function of the part not read yet. */
module XmlSpec {
  import opened Strings
  import E = Escapes

  const WS := " \t\n\r"

  type Attrs = map<string, string>

  /** The calls of the handlers. */
  datatype Event = Start(name: string, attrs: Attrs) | Chars(data: string) | End(name: string)

  datatype Parse = Parse(ok: bool, events: seq<Event>)

  function After(events: seq<Event>, p: Parse): Parse { Parse(p.ok, events + p.events) }

  lemma AfterAfter(a: seq<Event>, b: seq<Event>, p: Parse)
    ensures After(a, After(b, p)) == After(a + b, p)
  {
    assert a + (b + p.events) == (a + b) + p.events;
  }

  predicate Occurs(s: string, t: string, i: nat) { i + |t| <= |s| && s[i..i + |t|] == t }

  /** Where t first occurs in s. */
  function Find(s: string, t: string): (r: nat)
    requires t != ""
    ensures r <= |s| && (r < |s| ==> Occurs(s, t, r))
    ensures forall i :: 0 <= i < r ==> !Occurs(s, t, i)
  {
    FindAt(s, t, 0)
  }

  function FindAt(s: string, t: string, i: nat): (r: nat)
    requires t != "" && i <= |s|
    ensures i <= r <= |s| && (r < |s| ==> Occurs(s, t, r))
    ensures forall j :: i <= j < r ==> !Occurs(s, t, j)
    decreases |s| - i
  {
    if i == |s| || Occurs(s, t, i) then i else FindAt(s, t, i + 1)
  }

  lemma FindIs(s: string, t: string, k: nat)
    requires t != "" && k <= |s| && (k < |s| ==> Occurs(s, t, k))
    requires forall i :: 0 <= i < k ==> !Occurs(s, t, i)
    ensures Find(s, t) == k
  {
  }

  // ----- Tags -----

  function TrimTag(tag: string): string { if RTrim(tag, WS) == "" then tag else RTrim(tag, WS) }

  function SkipWS(s: string): string { s[FindFirstNotOf(s, WS, 0)..] }

  datatype Attr = Attr(name: string, value: string, rest: string)

  /** A name with its equal sign, and what follows. */
  function AttrName(t: string): (r: Option<(string, string)>)
    ensures r.Some? ==> |r.value.1| < |t|
  {
    var e := FindFirstOf(t, " \t\n\r=", 0);
    var eq := SkipWS(t[e..]);
    if e == 0 || |eq| <= 1 || eq[0] != '=' then None else Some((t[..e], SkipWS(eq[1..])))
  }

  /** A value in its quotes, and what follows. */
  function AttrValue(q: string): (r: Option<(string, string)>)
    ensures r.Some? ==> |r.value.1| < |q|
  {
    if |q| <= 1 || q[0] !in "\"'" then None
    else
      var n := IndexOf(q[1..], q[0]);
      if n == |q| - 1 then None else Some((E.Unquoted(q[1..][..n]), SkipWS(q[n + 2..])))
  }

  /** One attribute, and what follows it. */
  function Attr1(t: string): (r: Option<Attr>)
    ensures r.Some? ==> |r.value.rest| < |t|
  {
    match AttrName(t)
    case None => None
    case Some(n) =>
      match AttrValue(n.1)
      case None => None
      case Some(v) => Some(Attr(n.0, v.0, v.1))
  }

  /** The attributes in what is left of a tag; a single character behind one is ignored. */
  function AttrsFrom(t: string, attrs: Attrs): Option<Attrs> {
    match Attr1(t)
    case None => None
    case Some(a) =>
      var now := attrs[a.name := a.value];
      if |a.rest| <= 1 then Some(now) else AttrsFrom(a.rest, now)
  }

  datatype Tag = Tag(name: string, attrs: Attrs)

  /** A tag without what delimits it. */
  function ParseTag(tag: string): Option<Tag> { TagOf(TrimTag(tag)) }

  function TagOf(t: string): Option<Tag> {
    var s := FindFirstOf(t, WS, 0);
    if s == |t| then Some(Tag(t, map[]))
    else match AttrsFrom(SkipWS(t[s..]), map[])
         case None => None
         case Some(a) => Some(Tag(t[..s], a))
  }

  // ----- The text -----

  predicate AtTag(s: string) { s == "" || s[0] == '<' }

  /** The characters up to the next tag; those behind the last one are ignored. */
  function CharEvents(s: string): seq<Event> {
    var n := IndexOf(s, '<');
    if n == |s| || n == 0 then [] else [Chars(E.Unquoted(s[..n]))]
  }

  function NextTag(s: string): (r: string)
    ensures AtTag(r) && |r| <= |s|
  {
    s[IndexOf(s, '<')..]
  }

  predicate IsComment(s: string) { 4 <= |s| && s[..4] == "<!--" }

  /** The loop of _parse, inside the elements of the stack. */
  function Elements(s: string, stack: seq<string>): Parse
    requires AtTag(s)
    decreases |s|, 1
  {
    if s == "" then Parse(stack == [], [])
    else if IsComment(s) then
      var n := Find(s, "-->");
      if n == |s| then Parse(false, []) else TextThen(s[n + 3..], stack)
    else TagThen(s, stack)
  }

  datatype Scan = Scan(end: bool, empty: bool, text: string, rest: string)

  /** What is inside a tag, and what follows it. */
  function ScanTag(s: string): (r: Option<Scan>)
    ensures r.Some? ==> |r.value.rest| < |s|
  {
    var n := IndexOf(s, '>');
    if |s| <= 1 || n == |s| || n <= 1 || (s[1] == '/' && s[n - 1] == '/') then None
    else
      var end, empty := s[1] == '/', s[n - 1] == '/';
      Some(Scan(end, empty, if end then s[2..n] else if empty then s[1..n - 1] else s[1..n], s[n + 1..]))
  }

  function TagEvents(tag: Tag, scan: Scan): seq<Event> {
    if scan.end then [End(tag.name)]
    else [Start(tag.name, tag.attrs)] + if scan.empty then [End(tag.name)] else []
  }

  /** The open elements after a tag; an end tag must be that of the innermost one. */
  function TagStack(tag: Tag, scan: Scan, stack: seq<string>): Option<seq<string>> {
    if !scan.end then Some(if scan.empty then stack else stack + [tag.name])
    else if stack == [] || tag.name != stack[|stack| - 1] then None
    else Some(stack[..|stack| - 1])
  }

  /** A start or end tag, and what follows. */
  function TagThen(s: string, stack: seq<string>): Parse
    decreases |s|, 0
  {
    match ScanTag(s)
    case None => Parse(false, [])
    case Some(scan) =>
      match ParseTag(scan.text)
      case None => Parse(false, [])
      case Some(tag) =>
        match TagStack(tag, scan, stack)
        case None => Parse(false, [])
        case Some(inner) => After(TagEvents(tag, scan), TextThen(scan.rest, inner))
  }

  function TextThen(s: string, stack: seq<string>): Parse
    decreases |s|, 2
  {
    After(CharEvents(s), Elements(NextTag(s), stack))
  }

  /** Blanks and <?..?> declarations. */
  function SkipDecl(s: string): (r: Option<string>)
    ensures r.Some? ==> AtTag(r.value)
    decreases |s|
  {
    var t := SkipWS(s);
    if t == "" then Some("")
    else if t[0] != '<' then None
    else if |t| > 1 && t[1] == '?' then
      var n := Find(t, "?>");
      if n == |t| then None else SkipDecl(t[n + 2..])
    else Some(t)
  }

  function Document(s: string): Parse {
    match SkipDecl(s)
    case None => Parse(false, [])
    case Some(t) => Elements(t, [])
  }

  // ----- Nesting -----

  /** The elements open after some events, if each end matches the innermost open start. */
  function Open(events: seq<Event>, stack: seq<string>): Option<seq<string>> {
    if events == [] then Some(stack)
    else match events[0]
         case Start(n, _) => Open(events[1..], stack + [n])
         case Chars(_) => Open(events[1..], stack)
         case End(n) => if stack != [] && stack[|stack| - 1] == n then Open(events[1..], stack[..|stack| - 1]) else None
  }

  lemma {:induction false} OpenAppend(a: seq<Event>, b: seq<Event>, stack: seq<string>)
    requires Open(a, stack).Some?
    ensures Open(a + b, stack) == Open(b, Open(a, stack).value)
  {
    if a == [] {
      assert [] + b == b;
    } else {
      assert (a + b)[1..] == a[1..] + b;
      match a[0]
      case Start(n, _) => OpenAppend(a[1..], b, stack + [n]);
      case Chars(_) => OpenAppend(a[1..], b, stack);
      case End(n) => OpenAppend(a[1..], b, stack[..|stack| - 1]);
    }
  }

  lemma EventsMoveStack(tag: Tag, scan: Scan, stack: seq<string>)
    requires TagStack(tag, scan, stack).Some?
    ensures Open(TagEvents(tag, scan), stack) == TagStack(tag, scan, stack)
  {
    var e := TagEvents(tag, scan);
    var last := [End(tag.name)];
    assert last[1..] == [];
    if !scan.end {
      var inner := stack + [tag.name];
      assert inner[..|stack|] == stack && inner[|inner| - 1] == tag.name;
      assert e[1..] == if scan.empty then last else [];
      if scan.empty { assert Open(last, inner) == Open(last[1..], stack); }
    }
  }

  // ----- Where the parser stops -----

  /** The text that is left, and the elements that are open. */
  datatype Halt = Halt(rest: string, open: seq<string>)

  function HaltAt(s: string, stack: seq<string>): Halt
    requires AtTag(s)
    decreases |s|, 1
  {
    if s == "" then Halt("", stack)
    else if IsComment(s) then
      var n := Find(s, "-->");
      if n == |s| then Halt(s, stack) else HaltText(s[n + 3..], stack)
    else HaltTag(s, stack)
  }

  function HaltTag(s: string, stack: seq<string>): Halt
    decreases |s|, 0
  {
    match ScanTag(s)
    case None => Halt(s, stack)
    case Some(scan) =>
      match ParseTag(scan.text)
      case None => Halt(s, stack)
      case Some(tag) =>
        match TagStack(tag, scan, stack)
        case None => Halt(s, stack)
        case Some(inner) => HaltText(scan.rest, inner)
  }

  function HaltText(s: string, stack: seq<string>): Halt
    decreases |s|, 2
  {
    HaltAt(NextTag(s), stack)
  }

  /** A text that starts with a comment without end, with a tag that cannot be read, or with the end tag of an
      element that is not the innermost open one. */
  predicate Refused(s: string, open: seq<string>) {
    s != "" && s[0] == '<' &&
    if IsComment(s) then Find(s, "-->") == |s|
    else match ScanTag(s)
         case None => true
         case Some(scan) =>
           match ParseTag(scan.text)
           case None => true
           case Some(tag) => scan.end && (open == [] || tag.name != open[|open| - 1])
  }

  /** The calls have opened what is open where the parser stops, which is at the end of the text or at something
      it refuses; and it is content exactly at the end with nothing open. */
  lemma {:induction false} StopsAtHalt(s: string, stack: seq<string>)
    requires AtTag(s)
    ensures var h := HaltAt(s, stack);
      Open(Elements(s, stack).events, stack) == Some(h.open) && (h.rest == "" || Refused(h.rest, h.open)) &&
      (Elements(s, stack).ok <==> h == Halt("", []))
    decreases |s|, 1
  {
    hide TagThen, TextThen, HaltTag, HaltText, Find, Refused;
    if s == "" {
    } else if IsComment(s) {
      var n := Find(s, "-->");
      if n < |s| { TextStopsAtHalt(s[n + 3..], stack); } else { UnfinishedIsRefused(s, stack); }
    } else {
      TagStopsAtHalt(s, stack);
    }
  }

  lemma UnfinishedIsRefused(s: string, stack: seq<string>)
    requires s != "" && s[0] == '<' && IsComment(s) && Find(s, "-->") == |s|
    ensures Refused(s, stack)
  {
    hide Find;
  }

  lemma {:induction false} TagStopsAtHalt(s: string, stack: seq<string>)
    requires s != "" && s[0] == '<' && !IsComment(s)
    ensures var h := HaltTag(s, stack);
      Open(TagThen(s, stack).events, stack) == Some(h.open) && (h.rest == "" || Refused(h.rest, h.open)) &&
      (TagThen(s, stack).ok <==> h == Halt("", []))
    decreases |s|, 0
  {
    hide TextThen, HaltText, ParseTag, ScanTag, TagEvents;
    var scan := ScanTag(s);
    if scan.None? { return; }
    var tag := ParseTag(scan.value.text);
    if tag.None? { return; }
    var inner := TagStack(tag.value, scan.value, stack);
    if inner.None? { return; }
    hide Refused, TagStack;
    EventsMoveStack(tag.value, scan.value, stack);
    TextStopsAtHalt(scan.value.rest, inner.value);
    OpenAppend(TagEvents(tag.value, scan.value), TextThen(scan.value.rest, inner.value).events, stack);
  }

  lemma {:induction false} TextStopsAtHalt(s: string, stack: seq<string>)
    ensures var h := HaltText(s, stack);
      Open(TextThen(s, stack).events, stack) == Some(h.open) && (h.rest == "" || Refused(h.rest, h.open)) &&
      (TextThen(s, stack).ok <==> h == Halt("", []))
    decreases |s|, 2
  {
    hide Refused;
    StopsAtHalt(NextTag(s), stack);
    OpenAppend(CharEvents(s), Elements(NextTag(s), stack).events, stack);
  }

  /** For any text the events are the beginning of a well nested sequence, and a whole one if the parser
      returns true. */
  lemma EventsNest(s: string, stack: seq<string>)
    requires AtTag(s)
    ensures Open(Elements(s, stack).events, stack).Some?
    ensures Elements(s, stack).ok ==> Open(Elements(s, stack).events, stack) == Some([])
  {
    StopsAtHalt(s, stack);
  }

  /** The same for a whole document; a text that does not start with a declaration or a tag stops the parser at
      once. */
  function DocumentHalt(s: string): Halt {
    match SkipDecl(s)
    case None => Halt(s, [])
    case Some(t) => HaltAt(t, [])
  }

  /** The events are always those of well-nested elements with the ones of the halt left open. They are complete,
      and the parser fails all the same, exactly when it stops with nothing open in front of a text that is not
      empty: one without a start, or one that it refuses there. */
  lemma FailsCompleteExactly(s: string)
    ensures var h, p := DocumentHalt(s), Document(s);
      Open(p.events, []) == Some(h.open) && (p.ok <==> h == Halt("", [])) &&
      (!p.ok && Open(p.events, []) == Some([]) <==> h.open == [] && h.rest != "") &&
      (h.rest != "" ==> SkipDecl(s).None? || Refused(h.rest, h.open))
  {
    hide Elements, HaltAt, Refused, SkipDecl;
    match SkipDecl(s)
    case None => NoStartIsNotEmpty(s);
    case Some(t) => StopsAtHalt(t, []);
  }

  lemma NoStartIsNotEmpty(s: string)
    requires SkipDecl(s).None?
    ensures s != ""
  {
  }
}
