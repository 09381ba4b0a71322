/** Documents in the shape of cfgui/picoxml.h:54, printed with the escapes of smallut and parsed again. */
module XmlRoundTrip {
  import opened Strings
  import opened XmlSpec
  import E = Escapes

  datatype Pair = Pair(name: string, value: string)

  datatype Node =
    | Text(text: string)
    | Comment(text: string)
    | Element(name: string, attrs: seq<Pair>, children: seq<Node>, selfClosed: bool)

  // ----- Well-formed trees -----

  predicate WfName(n: string) {
    n != "" && n[0] !in "!?/" && forall k :: 0 <= k < |n| ==> n[k] !in " \t\n\r=<>/"
  }

  predicate WfAttrs(attrs: seq<Pair>) { forall k :: 0 <= k < |attrs| ==> WfName(attrs[k].name) }

  predicate WfComment(text: string) { Find("<!--" + text + "-->", "-->") == 4 + |text| }

  /** No empty text and no two texts side by side, which would be one. */
  predicate WfNodes(ns: seq<Node>) {
    ns == [] ||
    (WfNode(ns[0]) && WfNodes(ns[1..]) && (|ns| > 1 ==> !(ns[0].Text? && ns[1].Text?)))
  }

  predicate WfNode(n: Node) {
    match n
    case Text(t) => t != ""
    case Comment(t) => WfComment(t)
    case Element(name, attrs, children, selfClosed) =>
      WfName(name) && WfAttrs(attrs) && (selfClosed ==> children == []) && WfNodes(children)
  }

  // ----- Printing, and the calls that printing stands for -----

  function PrintedAttrs(attrs: seq<Pair>): string {
    if attrs == [] then "" else " " + AttrText(attrs[0], PrintedAttrs(attrs[1..]))
  }

  /** name="value" and what follows. */
  function AttrText(a: Pair, rest: string): string { a.name + ("=" + Quoted(E.Escaped(a.value), rest)) }

  function Quoted(value: string, rest: string): string { "\"" + (value + ("\"" + rest)) }

  function Printed(n: Node): string {
    match n
    case Text(t) => E.Escaped(t)
    case Comment(t) => "<!--" + t + "-->"
    case Element(name, attrs, children, selfClosed) =>
      "<" + name + PrintedAttrs(attrs) +
      if selfClosed then " />" else ">" + PrintedAll(children) + "</" + name + ">"
  }

  function PrintedAll(ns: seq<Node>): string {
    if ns == [] then "" else Printed(ns[0]) + PrintedAll(ns[1..])
  }

  /** A later attribute of the same name replaces an earlier one. */
  function AttrMap(attrs: seq<Pair>, m: Attrs): Attrs {
    if attrs == [] then m else AttrMap(attrs[1..], m[attrs[0].name := attrs[0].value])
  }

  function Events(n: Node): seq<Event> {
    match n
    case Text(t) => [Chars(t)]
    case Comment(_) => []
    case Element(name, attrs, children, _) => [Start(name, AttrMap(attrs, map[]))] + EventsAll(children) + [End(name)]
  }

  function EventsAll(ns: seq<Node>): seq<Event> {
    if ns == [] then [] else Events(ns[0]) + EventsAll(ns[1..])
  }

  // ----- Tags -----

  lemma {:induction false} AttrsHaveNo(attrs: seq<Pair>)
    requires WfAttrs(attrs)
    ensures '>' !in PrintedAttrs(attrs)
    ensures attrs != [] ==> PrintedAttrs(attrs)[0] == ' ' && PrintedAttrs(attrs)[|PrintedAttrs(attrs)| - 1] == '"'
  {
    if attrs != [] {
      hide AttrText, WfName;
      AttrsHaveNo(attrs[1..]);
      AttrTextHasNo(attrs[0], PrintedAttrs(attrs[1..]));
    }
  }

  lemma AttrTextHasNo(a: Pair, rest: string)
    requires WfName(a.name) && '>' !in rest && (rest != "" ==> rest[|rest| - 1] == '"')
    ensures var t := AttrText(a, rest); '>' !in t && t != "" && t[|t| - 1] == '"'
  {
    hide E.Escaped;
    E.EscapedHasNo(a.value);
  }

  lemma PrintedAttrsHead(attrs: seq<Pair>)
    requires attrs != [] && WfAttrs(attrs)
    ensures var p := PrintedAttrs(attrs);
      |p| > 1 && p[0] == ' ' && p[1] !in WS && p[1..] == AttrText(attrs[0], PrintedAttrs(attrs[1..]))
  {
    hide Quoted;
    assert WfName(attrs[0].name);
    assert AttrText(attrs[0], PrintedAttrs(attrs[1..]))[0] == attrs[0].name[0];
  }

  /** The first attribute of a list, without the blank in front of it. */
  lemma Attr1Reads(a: Pair, rest: string)
    requires WfName(a.name) && (rest == "" || (rest[0] == ' ' && |rest| > 1 && rest[1] !in WS))
    ensures Attr1(AttrText(a, rest)) ==
            Some(Attr(a.name, a.value, if rest == "" then "" else rest[1..]))
  {
    hide AttrName, AttrValue, AttrText, E.Escaped;
    var value := E.Escaped(a.value);
    AttrNameReads(a, rest);
    E.EscapedHasNo(a.value);
    E.UnquoteUndoesEscape(a.value);
    AttrValueReads(value, rest);
  }

  lemma AttrNameReads(a: Pair, rest: string)
    requires WfName(a.name)
    ensures AttrName(AttrText(a, rest)) == Some((a.name, Quoted(E.Escaped(a.value), rest)))
  {
    hide E.Escaped, FindFirstOf, FindFirstNotOf, SkipWS, Quoted;
    var q := Quoted(E.Escaped(a.value), rest);
    var eq := "=" + q;
    var t := AttrText(a, rest);
    assert forall i :: 0 <= i < |a.name| ==> t[i] == a.name[i];
    FindFirstOfIs(t, " \t\n\r=", 0, |a.name|);
    assert t[|a.name|..] == eq && t[..|a.name|] == a.name && eq[1..] == q;
    assert q[0] == '"' by { QuoteFirst(E.Escaped(a.value), rest); }
    SkipNothing(eq);
    SkipNothing(q);
  }

  lemma QuoteFirst(value: string, rest: string)
    ensures Quoted(value, rest) != "" && Quoted(value, rest)[0] == '"'
  {
  }

  lemma AttrValueReads(value: string, rest: string)
    requires '"' !in value && (rest == "" || (rest[0] == ' ' && |rest| > 1 && rest[1] !in WS))
    ensures AttrValue(Quoted(value, rest)) == Some((E.Unquoted(value), if rest == "" then "" else rest[1..]))
  {
    hide E.Unquoted, IndexOf, SkipWS, Quoted;
    QuotedIs(value, rest);
    if rest != "" { SkipBlank(rest); } else { SkipEmpty(); }
  }

  lemma SkipNothing(s: string)
    requires s != "" && s[0] !in WS
    ensures SkipWS(s) == s
  {
    FindFirstNotOfIs(s, WS, 0);
  }

  lemma SkipBlank(s: string)
    requires |s| > 1 && s[0] == ' ' && s[1] !in WS
    ensures SkipWS(s) == s[1..]
  {
    FindFirstNotOfIs(s, WS, 1);
  }

  lemma SkipEmpty()
    ensures SkipWS("") == ""
  {
  }

  lemma QuotedIs(value: string, rest: string)
    requires '"' !in value
    ensures var q := Quoted(value, rest);
      |q| == |value| + |rest| + 2 && q[0] == '"' &&
      IndexOf(q[1..], '"') == |value| && q[1..][..|value|] == value && q[|value| + 2..] == rest
  {
    var r := value + ("\"" + rest);
    assert Quoted(value, rest)[1..] == r;
    assert forall i :: 0 <= i < |value| ==> r[i] == value[i];
    IndexOfIs(r, '"', |value|);
  }

  lemma {:induction false} AttrsRead(attrs: seq<Pair>, m: Attrs)
    requires attrs != [] && WfAttrs(attrs)
    ensures AttrsFrom(PrintedAttrs(attrs)[1..], m) == Some(AttrMap(attrs, m))
  {
    hide Attr1, PrintedAttrs, E.Escaped, WfName;
    var rest := PrintedAttrs(attrs[1..]);
    PrintedAttrsHead(attrs);
    if |attrs| == 1 {
      assert rest == "" by { PrintedNone(attrs[1..]); }
      Attr1Reads(attrs[0], rest);
    } else {
      PrintedAttrsHead(attrs[1..]);
      Attr1Reads(attrs[0], rest);
      AttrsRead(attrs[1..], m[attrs[0].name := attrs[0].value]);
    }
  }

  lemma PrintedNone(attrs: seq<Pair>)
    requires attrs == []
    ensures PrintedAttrs(attrs) == ""
  {
  }

  lemma TrimTagStays(t: string, blank: string)
    requires t != "" && t[|t| - 1] !in WS && (blank == "" || blank == " ")
    ensures TrimTag(t + blank) == t
  {
    assert RTrim(t, WS) == t;
    if blank == " " {
      var u := t + " ";
      assert u[|u| - 1] in WS && u[..|u| - 1] == t;
    } else {
      assert t + blank == t;
    }
  }

  /** The name and the attributes, with or without a blank behind. */
  lemma TagReads(name: string, attrs: seq<Pair>, blank: string)
    requires WfName(name) && WfAttrs(attrs) && (blank == "" || blank == " ")
    ensures ParseTag(name + PrintedAttrs(attrs) + blank) == Some(Tag(name, AttrMap(attrs, map[])))
  {
    hide AttrsFrom, TrimTag, PrintedAttrs, FindFirstOf, FindFirstNotOf;
    var t := name + PrintedAttrs(attrs);
    AttrsHaveNo(attrs);
    if attrs == [] {
      PrintedNone(attrs);
      assert t == name;
      TrimTagStays(t, blank);
      FindFirstOfIs(t, WS, 0, |name|);
    } else {
      PrintedAttrsHead(attrs);
      assert t[|t| - 1] == PrintedAttrs(attrs)[|PrintedAttrs(attrs)| - 1];
      TrimTagStays(t, blank);
      assert forall i :: 0 <= i < |name| ==> t[i] == name[i];
      assert t[|name|] == PrintedAttrs(attrs)[0];
      FindFirstOfIs(t, WS, 0, |name|);
      var r := t[|name|..];
      assert r == PrintedAttrs(attrs) && t[..|name|] == name;
      FindFirstNotOfIs(r, WS, 1);
      AttrsRead(attrs, map[]);
    }
  }

  // ----- Pieces of the text -----

  lemma NoText(s: string, stack: seq<string>)
    requires AtTag(s)
    ensures TextThen(s, stack) == Elements(s, stack)
  {
    IndexOfIs(s, '<', 0);
    assert s[0..] == s;
    hide Elements, IndexOf;
    var p := Elements(s, stack);
    assert [] + p.events == p.events;
  }

  lemma TextReads(t: string, rest: string, stack: seq<string>)
    requires t != "" && rest != "" && rest[0] == '<'
    ensures TextThen(E.Escaped(t) + rest, stack) == After([Chars(t)], Elements(rest, stack))
  {
    hide Elements, IndexOf, E.Escaped, E.Unquoted;
    var e := E.Escaped(t);
    var s := e + rest;
    E.EscapedHasNo(t);
    E.UnquoteUndoesEscape(t);
    assert forall i :: 0 <= i < |e| ==> s[i] == e[i];
    IndexOfIs(s, '<', |e|);
    assert s[..|e|] == e && s[|e|..] == rest;
  }

  lemma CommentReads(t: string, rest: string, stack: seq<string>)
    requires WfComment(t)
    ensures Elements("<!--" + t + "-->" + rest, stack) == TextThen(rest, stack)
  {
    hide TextThen, IndexOf, ParseTag;
    var c := "<!--" + t + "-->";
    var s := c + rest;
    var n := 4 + |t|;
    assert s[..4] == "<!--";
    forall i | 0 <= i < n ensures !Occurs(s, "-->", i) {
      assert !Occurs(c, "-->", i);
      assert s[i..i + 3] == c[i..i + 3];
    }
    assert s[n..n + 3] == "-->";
    FindIs(s, "-->", n);
    assert s[n + 3..] == rest;
  }

  lemma StartReads(name: string, attrs: seq<Pair>, rest: string, stack: seq<string>)
    requires WfName(name) && WfAttrs(attrs)
    ensures Elements("<" + (name + PrintedAttrs(attrs)) + ">" + rest, stack) ==
            After([Start(name, AttrMap(attrs, map[]))], TextThen(rest, stack + [name]))
  {
    hide TextThen, IndexOf, ParseTag, PrintedAttrs, Find, AttrMap;
    var t := name + PrintedAttrs(attrs);
    var s := "<" + t + ">" + rest;
    var n := 1 + |t|;
    TagEnd(name, attrs, "", rest);
    assert s == "<" + t + "" + ">" + rest;
    assert |s| >= 4 ==> s[..4][1] == s[1];
    assert [Start(name, AttrMap(attrs, map[]))] + [] == [Start(name, AttrMap(attrs, map[]))];
    assert s[1..n] == t == t + "";
    TagReads(name, attrs, "");
    assert s[n + 1..] == rest;
  }

  lemma SelfClosedReads(name: string, attrs: seq<Pair>, rest: string, stack: seq<string>)
    requires WfName(name) && WfAttrs(attrs)
    ensures Elements("<" + (name + PrintedAttrs(attrs)) + " />" + rest, stack) ==
            After([Start(name, AttrMap(attrs, map[])), End(name)], TextThen(rest, stack))
  {
    hide TextThen, IndexOf, ParseTag, PrintedAttrs, Find, AttrMap;
    var t := name + PrintedAttrs(attrs);
    var s := "<" + t + " />" + rest;
    var n := 3 + |t|;
    TagEnd(name, attrs, " /", rest);
    assert s == "<" + t + " /" + ">" + rest;
    assert s[1..n - 1] == t + " ";
    TagReads(name, attrs, " ");
    assert s[n + 1..] == rest;
    assert [Start(name, AttrMap(attrs, map[]))] + [End(name)] == [Start(name, AttrMap(attrs, map[])), End(name)];
  }

  /** Where a start tag ends, and that it is neither a comment nor an end tag. */
  lemma TagEnd(name: string, attrs: seq<Pair>, slash: string, rest: string)
    requires WfName(name) && WfAttrs(attrs) && (slash == "" || slash == " /")
    ensures var t := name + PrintedAttrs(attrs);
      var s := "<" + t + slash + ">" + rest;
      IndexOf(s, '>') == 1 + |t| + |slash| && s[1] == name[0] && (s[|t| + |slash|] == '/' <==> slash != "")
  {
    hide PrintedAttrs;
    var t := name + PrintedAttrs(attrs);
    var s := "<" + t + slash + ">" + rest;
    AttrsHaveNo(attrs);
    if attrs == [] { PrintedNone(attrs); } else { PrintedAttrsHead(attrs); }
    assert forall i :: 0 <= i < |t| ==> s[1 + i] == t[i];
    assert s[1] == t[0] == name[0];
    assert t[|t| - 1] != '/' && '>' !in t;
    IndexOfIs(s, '>', 1 + |t| + |slash|);
  }

  lemma EndReads(name: string, rest: string, stack: seq<string>)
    requires WfName(name)
    ensures Elements("</" + name + ">" + rest, stack + [name]) == After([End(name)], TextThen(rest, stack))
  {
    hide TextThen, IndexOf, ParseTag, Find;
    var s := "</" + name + ">" + rest;
    var n := 2 + |name|;
    assert forall i :: 0 <= i < |name| ==> s[2 + i] == name[i];
    IndexOfIs(s, '>', n);
    assert s[2..n] == name == name + PrintedAttrs([]) + "";
    TagReads(name, [], "");
    assert s[n + 1..] == rest && s[n - 1] == name[|name| - 1] && s[1] == '/';
    assert |s| >= 4 ==> s[..4][1] == s[1];
    var open := stack + [name];
    assert open[..|stack|] == stack && open[|open| - 1] == name;
  }

  // ----- Documents -----

  lemma {:induction false} NodeReads(n: Node, rest: string, stack: seq<string>)
    requires WfNode(n) && !n.Text?
    ensures Elements(Printed(n) + rest, stack) == After(Events(n), TextThen(rest, stack))
    decreases n
  {
    hide Elements, TextThen;
    match n
    case Comment(t) =>
      CommentReads(t, rest, stack);
      assert [] + TextThen(rest, stack).events == TextThen(rest, stack).events;
    case Element(name, attrs, children, selfClosed) =>
      var t := name + PrintedAttrs(attrs);
      if selfClosed {
        SelfClosedReads(name, attrs, rest, stack);
        assert Printed(n) + rest == "<" + t + " />" + rest;
        assert Events(n) == [Start(name, AttrMap(attrs, map[])), End(name)];
      } else {
        var close := "</" + name + ">" + rest;
        var inner := PrintedAll(children) + close;
        PrintedElement(n, rest);
        StartReads(name, attrs, inner, stack);
        AllRead(children, close, stack + [name]);
        NoText(close, stack + [name]);
        EndReads(name, rest, stack);
        AfterAfter(EventsAll(children), [End(name)], TextThen(rest, stack));
        var start := [Start(name, AttrMap(attrs, map[]))];
        AfterAfter(start, EventsAll(children) + [End(name)], TextThen(rest, stack));
        assert start + (EventsAll(children) + [End(name)]) == Events(n);
      }
  }

  lemma PrintedElement(n: Node, rest: string)
    requires n.Element? && !n.selfClosed
    ensures Printed(n) + rest ==
            "<" + (n.name + PrintedAttrs(n.attrs)) + ">" + (PrintedAll(n.children) + ("</" + n.name + ">" + rest))
  {
  }

  /** Nodes in a row. A last text needs a tag behind it. */
  lemma {:induction false} AllRead(ns: seq<Node>, rest: string, stack: seq<string>)
    requires WfNodes(ns) && (ns != [] && ns[|ns| - 1].Text? ==> rest != "" && rest[0] == '<')
    ensures TextThen(PrintedAll(ns) + rest, stack) == After(EventsAll(ns), TextThen(rest, stack))
    decreases ns
  {
    hide Elements, TextThen;
    if ns == [] {
      assert PrintedAll(ns) + rest == rest;
      assert [] + TextThen(rest, stack).events == TextThen(rest, stack).events;
    } else {
      var n, more := ns[0], PrintedAll(ns[1..]) + rest;
      assert PrintedAll(ns) + rest == Printed(n) + more;
      AllRead(ns[1..], rest, stack);
      if n.Text? {
        StartsWithTag(ns[1..], rest);
        TextReads(n.text, more, stack);
        NoText(more, stack);
      } else {
        assert (Printed(n) + more)[0] == '<';
        NoText(Printed(n) + more, stack);
        NodeReads(n, more, stack);
      }
      AfterAfter(Events(n), EventsAll(ns[1..]), TextThen(rest, stack));
    }
  }

  lemma StartsWithTag(ns: seq<Node>, rest: string)
    requires (ns == [] ==> rest != "" && rest[0] == '<') && (ns != [] ==> !ns[0].Text?)
    ensures PrintedAll(ns) + rest != "" && (PrintedAll(ns) + rest)[0] == '<'
  {
    if ns != [] { assert Printed(ns[0])[0] == '<'; }
  }

  /** What may stand before the first element. */
  datatype Misc = Blanks(ws: string) | Decl(body: string)

  predicate WfMisc(m: Misc) {
    match m
    case Blanks(ws) => forall c :: c in ws ==> c in WS
    case Decl(body) => Find("<?" + body + "?>", "?>") == 2 + |body|
  }

  function PrintedMisc(m: Misc): string {
    match m
    case Blanks(ws) => ws
    case Decl(body) => "<?" + body + "?>"
  }

  function PrintedProlog(p: seq<Misc>): string {
    if p == [] then "" else PrintedMisc(p[0]) + PrintedProlog(p[1..])
  }

  lemma {:induction false} PrologReads(p: seq<Misc>, rest: string)
    requires (forall m :: m in p ==> WfMisc(m)) && |rest| > 1 && rest[0] == '<' && rest[1] != '?'
    ensures SkipDecl(PrintedProlog(p) + rest) == Some(rest)
  {
    hide PrintedMisc, SkipDecl, WfMisc;
    if p == [] {
      assert PrintedProlog(p) + rest == rest;
      NoProlog(rest);
    } else {
      PrologReads(p[1..], rest);
      assert WfMisc(p[0]);
      MiscSkipped(p[0], PrintedProlog(p[1..]) + rest);
      assert PrintedProlog(p) + rest == PrintedMisc(p[0]) + (PrintedProlog(p[1..]) + rest);
    }
  }

  lemma NoProlog(rest: string)
    requires |rest| > 1 && rest[0] == '<' && rest[1] != '?'
    ensures SkipDecl(rest) == Some(rest)
  {
    SkipNothing(rest);
  }

  lemma MiscSkipped(m: Misc, more: string)
    requires WfMisc(m)
    ensures SkipDecl(PrintedMisc(m) + more) == SkipDecl(more)
  {
    hide SkipDecl;
    match m
    case Blanks(ws) =>
      BlanksSkipped(ws, more);
      SameBehindBlanks(ws + more, more);
    case Decl(body) => DeclSkipped(body, more);
  }

  lemma SameBehindBlanks(s: string, t: string)
    requires SkipWS(s) == SkipWS(t)
    ensures SkipDecl(s) == SkipDecl(t)
  {
    hide SkipWS, Find;
  }

  lemma BlanksSkipped(ws: string, more: string)
    requires forall c :: c in ws ==> c in WS
    ensures SkipWS(ws + more) == SkipWS(more)
  {
    hide FindFirstNotOf;
    var s := ws + more;
    var k := FindFirstNotOf(more, WS, 0);
    assert forall i :: 0 <= i < |s| ==> s[i] == if i < |ws| then ws[i] else more[i - |ws|];
    FindFirstNotOfIs(s, WS, |ws| + k);
    assert s[|ws| + k..] == more[k..];
  }

  lemma DeclSkipped(body: string, more: string)
    requires WfMisc(Decl(body))
    ensures SkipDecl("<?" + body + "?>" + more) == SkipDecl(more)
  {
    hide SkipWS, Find;
    var c := "<?" + body + "?>";
    var s := c + more;
    var n := 2 + |body|;
    SkipNothing(s);
    forall i | 0 <= i < n ensures !Occurs(s, "?>", i) {
      assert !Occurs(c, "?>", i);
      assert s[i..i + 2] == c[i..i + 2];
    }
    assert s[n..n + 2] == "?>";
    FindIs(s, "?>", n);
    assert s[n + 2..] == more;
  }

  /** The calls of the handlers give back every document, with all its strings: after the declarations, comments,
      elements and texts between them in any order. Only what is behind the last tag is ignored. */
  lemma DocumentReads(prolog: seq<Misc>, ns: seq<Node>, trailer: string)
    requires (forall m :: m in prolog ==> WfMisc(m)) && WfNodes(ns) && '<' !in trailer
    requires ns != [] && !ns[0].Text? && !ns[|ns| - 1].Text?
    ensures Document(PrintedProlog(prolog) + (PrintedAll(ns) + trailer)) == Parse(true, EventsAll(ns))
  {
    var s := PrintedAll(ns) + trailer;
    StartsDocument(ns, trailer);
    PrologReads(prolog, s);
    AllRead(ns, trailer, []);
    NoText(s, []);
    IndexOfIs(trailer, '<', |trailer|);
    hide PrintedAll, EventsAll;
    assert TextThen(trailer, []) == Parse(true, []);
    assert EventsAll(ns) + [] == EventsAll(ns);
  }

  lemma StartsDocument(ns: seq<Node>, rest: string)
    requires WfNodes(ns) && ns != [] && !ns[0].Text?
    ensures var s := PrintedAll(ns) + rest; |s| > 1 && s[0] == '<' && s[1] != '?'
  {
    var more := PrintedAll(ns[1..]) + rest;
    assert PrintedAll(ns) + rest == Printed(ns[0]) + more;
    hide PrintedAll;
    if ns[0].Element? {
      StartsElement(ns[0], more);
    } else {
      assert (Printed(ns[0]) + more)[1] == '!';
    }
  }

  lemma ElementNests(root: Node)
    requires WfNode(root) && root.Element?
    ensures Open(Events(root), []) == Some([])
  {
    hide Printed, Events, WfNode;
    NodeReads(root, "", []);
    NoText("", []);
    StartsElement(root, "");
    assert Events(root) + [] == Events(root);
    EventsNest(Printed(root) + "", []);
  }

  lemma StartsElement(root: Node, rest: string)
    requires WfNode(root) && root.Element?
    ensures var s := Printed(root) + rest; |s| > 1 && s[0] == '<' && s[1] !in "!?"
  {
    hide PrintedAttrs, PrintedAll;
    var s := Printed(root) + rest;
    assert s[1] == root.name[0];
  }

  /** A document followed by the start of a tag is refused, though the calls are those of the whole document. */
  lemma CompleteButRefused(root: Node)
    requires WfNode(root) && root.Element?
    ensures Document(Printed(root) + "<") == Parse(false, Events(root))
    ensures Open(Events(root), []) == Some([])
  {
    hide Printed, Events, WfNode, Open, SkipDecl;
    ElementNests(root);
    StartsElement(root, "<");
    NoProlog(Printed(root) + "<");
    NodeReads(root, "<", []);
    NoText("<", []);
    assert Elements("<", []) == Parse(false, []);
    assert Events(root) + [] == Events(root);
  }
}
