/** What the parser of cfgui/picoxml.h reads beside what the printer of XmlRoundTrip writes: values in either quote,
    blanks anywhere in a tag, texts with bare quotes, and the predefined entities. */
module XmlLaws {
  import opened Strings
  import opened XmlSpec
  import E = Escapes
  import R = XmlRoundTrip

  ghost predicate Blank(s: string) { forall i :: 0 <= i < |s| ==> s[i] in WS }

  // ----- Entities -----

  lemma {:induction false} PlainStays(a: string, x: string)
    requires '&' !in a
    ensures E.Unquoted(a + x) == a + E.Unquoted(x)
  {
    hide E.Unquoted;
    if a == "" {
      assert a + x == x;
    } else {
      var rest := a[1..];
      PlainStays(rest, x);
      UnquotedPlain(a[0], rest + x);
      assert a + x == [a[0]] + (rest + x);
      Regroup([a[0]], rest, E.Unquoted(x));
      assert [a[0]] + rest == a;
    }
  }

  lemma UnquotedPlain(c: char, s: string)
    requires c != '&'
    ensures E.Unquoted([c] + s) == [c] + E.Unquoted(s)
  {
    assert ([c] + s)[1..] == s;
  }

  /** A text without ampersands is itself, quotes and apostrophes included. */
  lemma NothingToUnquote(a: string)
    requires '&' !in a
    ensures E.Unquoted(a) == a
  {
    PlainStays(a, "");
    assert a + "" == a;
    assert E.Unquoted("") == "";
  }

  /** The five entities, wherever they stand; any other one disappears, and one without end takes the rest with it. */
  lemma EntitiesRead(a: string, code: string, x: string)
    requires '&' !in a && ';' !in code
    ensures E.Unquoted(a + "&lt;" + x) == a + "<" + E.Unquoted(x)
    ensures E.Unquoted(a + "&gt;" + x) == a + ">" + E.Unquoted(x)
    ensures E.Unquoted(a + "&amp;" + x) == a + "&" + E.Unquoted(x)
    ensures E.Unquoted(a + "&quot;" + x) == a + "\"" + E.Unquoted(x)
    ensures E.Unquoted(a + "&apos;" + x) == a + "'" + E.Unquoted(x)
    ensures code !in ["lt", "gt", "amp", "quot", "apos"] ==> E.Unquoted(a + "&" + code + ";" + x) == a + E.Unquoted(x)
    ensures E.Unquoted(a + "&" + code) == a
  {
    hide E.Unquoted;
    EntityAt(a, "lt", x);
    EntityAt(a, "gt", x);
    EntityAt(a, "amp", x);
    EntityAt(a, "quot", x);
    EntityAt(a, "apos", x);
    EntityAt(a, code, x);
    assert "&" + "lt" + ";" == "&lt;" && "&" + "gt" + ";" == "&gt;" && "&" + "amp" + ";" == "&amp;";
    assert "&" + "quot" + ";" == "&quot;" && "&" + "apos" + ";" == "&apos;";
    if code !in ["lt", "gt", "amp", "quot", "apos"] { OtherEntity(code); }
    PlainStays(a, "&" + code);
    Unfinished(code);
    assert a + "&" + code == a + ("&" + code);
    assert a + "" == a;
  }

  lemma EntityAt(a: string, code: string, x: string)
    requires '&' !in a && ';' !in code
    ensures E.Unquoted(a + ("&" + code + ";") + x) == a + E.Entity(code) + E.Unquoted(x)
    ensures E.Unquoted(a + "&" + code + ";" + x) == a + E.Entity(code) + E.Unquoted(x)
  {
    hide E.Unquoted, E.Entity;
    var e := "&" + code + ";" + x;
    PlainStays(a, e);
    E.EntityFirst(code, x);
    assert a + ("&" + code + ";") + x == a + e;
    assert a + "&" + code + ";" + x == a + e;
    assert a + (E.Entity(code) + E.Unquoted(x)) == a + E.Entity(code) + E.Unquoted(x);
  }

  lemma OtherEntity(code: string)
    requires code !in ["lt", "gt", "amp", "quot", "apos"]
    ensures E.Entity(code) == ""
  {
    var known := ["lt", "gt", "amp", "quot", "apos"];
    assert known[0] == "lt" && known[1] == "gt" && known[2] == "amp" && known[3] == "quot" && known[4] == "apos";
  }

  lemma Unfinished(code: string)
    requires ';' !in code
    ensures E.Unquoted("&" + code) == ""
  {
    var s := "&" + code;
    assert s[1..] == code;
    IndexOfIs(code, ';', |code|);
  }

  // ----- Attributes -----

  /** An attribute with blanks around its equal sign and its value in either quote. */
  datatype Attribute = Attribute(before: string, name: string, b: string, c: string, quote: char, raw: string)
  {
    function Value(rest: string): string { [quote] + (raw + ([quote] + rest)) }
    function Body(rest: string): string { name + (b + ("=" + (c + Value(rest)))) }

    ghost predicate Wf() {
      Blank(before) && R.WfName(name) && Blank(b) && Blank(c) && quote in "\"'" && quote !in raw
    }
  }

  function Texts(ats: seq<Attribute>): string { if ats == [] then "" else ats[0].before + ats[0].Body(Texts(ats[1..])) }

  function Values(ats: seq<Attribute>, m: Attrs): Attrs {
    if ats == [] then m else Values(ats[1..], m[ats[0].name := E.Unquoted(ats[0].raw)])
  }

  ghost predicate AllWf(ats: seq<Attribute>) { forall k :: 0 <= k < |ats| ==> ats[k].Wf() }

  lemma SkipsBlank(b: string, x: string)
    requires Blank(b) && (x != "" ==> x[0] !in WS)
    ensures SkipWS(b + x) == x
  {
    FindFirstNotOfIs(b + x, WS, |b|);
    assert (b + x)[|b|..] == x;
  }

  lemma NameReads(a: Attribute, rest: string)
    requires a.Wf()
    ensures AttrName(a.Body(rest)) == Some((a.name, a.Value(rest)))
  {
    hide SkipWS, FindFirstOf, FindFirstNotOf;
    var v := a.Value(rest);
    var eq := "=" + (a.c + v);
    var t := a.Body(rest);
    assert t == a.name + (a.b + eq);
    assert forall i :: 0 <= i < |a.name| ==> t[i] == a.name[i];
    assert t[|a.name|] == (a.b + eq)[0];
    if a.b != "" { assert (a.b + eq)[0] == a.b[0]; } else { assert (a.b + eq)[0] == '='; }
    FindFirstOfIs(t, " \t\n\r=", 0, |a.name|);
    assert t[|a.name|..] == a.b + eq && t[..|a.name|] == a.name;
    SkipsBlank(a.b, eq);
    assert eq[1..] == a.c + v;
    assert v[0] == a.quote && a.quote !in WS;
    SkipsBlank(a.c, v);
  }

  lemma ValueReads(a: Attribute, rest: string)
    requires a.Wf()
    ensures AttrValue(a.Value(rest)) == Some((E.Unquoted(a.raw), SkipWS(rest)))
  {
    hide E.Unquoted, SkipWS, IndexOf;
    var q := a.Value(rest);
    var r := a.raw + ([a.quote] + rest);
    assert q[1..] == r;
    assert forall i :: 0 <= i < |a.raw| ==> r[i] == a.raw[i];
    IndexOfIs(r, a.quote, |a.raw|);
    assert r[..|a.raw|] == a.raw && q[|a.raw| + 2..] == rest;
  }

  /** The blanks in front of the next attribute are skipped. */
  lemma NextAttribute(ats: seq<Attribute>)
    requires AllWf(ats)
    ensures SkipWS(Texts(ats)) == if ats == [] then "" else ats[0].Body(Texts(ats[1..]))
  {
    if ats == [] {
      R.SkipEmpty();
    } else {
      hide SkipWS;
      var body := ats[0].Body(Texts(ats[1..]));
      assert ats[0].Wf();
      assert body[0] == ats[0].name[0];
      SkipsBlank(ats[0].before, body);
    }
  }

  lemma {:induction false} AllRead(ats: seq<Attribute>, m: Attrs)
    requires ats != [] && AllWf(ats)
    ensures AttrsFrom(ats[0].Body(Texts(ats[1..])), m) == Some(Values(ats, m))
  {
    hide AttrName, AttrValue, SkipWS, E.Unquoted;
    var a, more := ats[0], ats[1..];
    assert a.Wf();
    NameReads(a, Texts(more));
    ValueReads(a, Texts(more));
    NextAttribute(more);
    if more != [] {
      BodyIsLong(more[0], Texts(more[1..]));
      AllRead(more, m[a.name := E.Unquoted(a.raw)]);
    }
  }

  lemma BodyIsLong(a: Attribute, rest: string)
    ensures |a.Body(rest)| > 1
  {
  }

  lemma {:induction false} TextsEnd(ats: seq<Attribute>)
    requires ats != [] && AllWf(ats)
    ensures Texts(ats) != "" && Texts(ats)[|Texts(ats)| - 1] in "\"'"
  {
    hide Texts;
    TextsOf(ats);
    assert ats[0].quote in "\"'" by { assert ats[0].Wf(); }
    if |ats| > 1 {
      TextsEnd(ats[1..]);
      BehindBody(ats[0], Texts(ats[1..]));
    } else {
      TextsNone(ats[1..]);
      BodyEnds(ats[0]);
    }
  }

  lemma TextsOf(ats: seq<Attribute>)
    requires ats != []
    ensures Texts(ats) == ats[0].before + ats[0].Body(Texts(ats[1..]))
  {
  }

  lemma BodyEnds(a: Attribute)
    ensures var t := a.before + a.Body(""); t != "" && t[|t| - 1] == a.quote
  {
    assert a.before + a.Body("") == (a.before + a.name + a.b + "=" + a.c + [a.quote] + a.raw) + [a.quote];
  }

  lemma BehindBody(a: Attribute, rest: string)
    requires rest != ""
    ensures var t := a.before + a.Body(rest); t[|t| - 1] == rest[|rest| - 1]
  {
    assert a.before + a.Body(rest) == (a.before + a.name + a.b + "=" + a.c + [a.quote] + a.raw + [a.quote]) + rest;
  }

  lemma {:induction false} TrimsBlank(t: string, tail: string)
    requires Blank(tail) && t != "" && t[|t| - 1] !in WS
    ensures RTrim(t + tail, WS) == t
    decreases |tail|
  {
    if tail == "" {
      assert t + tail == t;
    } else {
      var s := t + tail;
      assert s[|s| - 1] == tail[|tail| - 1];
      assert s[..|s| - 1] == t + tail[..|tail| - 1];
      TrimsBlank(t, tail[..|tail| - 1]);
    }
  }

  /** A tag with any blanks between its parts and behind them gives its name and its attributes. */
  lemma TagWithAttributes(name: string, ats: seq<Attribute>, tail: string)
    requires R.WfName(name) && AllWf(ats) && (ats != [] ==> ats[0].before != "") && Blank(tail)
    ensures ParseTag(name + Texts(ats) + tail) == Some(Tag(name, Values(ats, map[])))
  {
    hide AttrsFrom, Texts, FindFirstOf, FindFirstNotOf, RTrim, SkipWS;
    var t := name + Texts(ats);
    assert forall i :: 0 <= i < |name| ==> t[i] == name[i];
    if ats == [] {
      TextsNone(ats);
      assert t == name;
      TrimsBlank(t, tail);
      FindFirstOfIs(t, WS, 0, |name|);
    } else {
      TextsEnd(ats);
      assert t[|t| - 1] == Texts(ats)[|Texts(ats)| - 1];
      TrimsBlank(t, tail);
      TextsStart(ats);
      assert t[|name|] == Texts(ats)[0];
      FindFirstOfIs(t, WS, 0, |name|);
      assert t[|name|..] == Texts(ats) && t[..|name|] == name;
      NextAttribute(ats);
      AllRead(ats, map[]);
    }
  }

  lemma TextsNone(ats: seq<Attribute>)
    requires ats == []
    ensures Texts(ats) == ""
  {
  }

  lemma TextsStart(ats: seq<Attribute>)
    requires ats != [] && AllWf(ats) && ats[0].before != ""
    ensures Texts(ats) != "" && Texts(ats)[0] in WS
  {
    assert ats[0].Wf();
    assert Texts(ats)[0] == ats[0].before[0];
  }

  // ----- Tags and texts in a document -----

  /** What stands between the angle brackets of a start tag. */
  ghost predicate WfInner(name: string, ats: seq<Attribute>, tail: string) {
    R.WfName(name) && AllWf(ats) && (ats != [] ==> ats[0].before != "") && Blank(tail) && '>' !in Texts(ats)
  }

  lemma InnerScans(name: string, ats: seq<Attribute>, tail: string, slash: string, rest: string)
    requires WfInner(name, ats, tail) && (slash == "" || slash == "/")
    ensures var t := name + Texts(ats) + tail; var s := "<" + t + slash + ">" + rest;
      ScanTag(s) == Some(Scan(false, slash == "/", t, rest)) && !IsComment(s)
  {
    hide Texts, IndexOf, FindFirstOf, FindFirstNotOf;
    var t := name + Texts(ats) + tail;
    var s := "<" + t + slash + ">" + rest;
    var n := 1 + |t| + |slash|;
    assert t[0] == name[0] == s[1];
    LastOfInner(name, ats, tail);
    assert s[|t|] == t[|t| - 1];
    InnerHasNoEnd(name, ats, tail);
    assert forall i :: 0 <= i < |t| ==> s[1 + i] == t[i];
    IndexOfIs(s, '>', n);
    assert s[1..1 + |t|] == t && s[n + 1..] == rest;
    assert |s| >= 4 ==> s[..4][1] == s[1];
  }

  lemma LastOfInner(name: string, ats: seq<Attribute>, tail: string)
    requires WfInner(name, ats, tail)
    ensures var t := name + Texts(ats) + tail; t[|t| - 1] != '/'
  {
    var t := name + Texts(ats) + tail;
    if tail != "" { assert t[|t| - 1] == tail[|tail| - 1]; }
    else if ats != [] { TextsEnd(ats); assert t[|t| - 1] == Texts(ats)[|Texts(ats)| - 1]; }
    else { assert t[|t| - 1] == name[|name| - 1]; }
  }

  lemma InnerHasNoEnd(name: string, ats: seq<Attribute>, tail: string)
    requires WfInner(name, ats, tail)
    ensures '>' !in name + Texts(ats) + tail
  {
    hide Texts;
    assert forall i :: 0 <= i < |tail| ==> tail[i] != '>';
  }

  /** A start tag opens its element, one that ends in a slash closes it at once. */
  lemma StartTagReads(name: string, ats: seq<Attribute>, tail: string, rest: string, stack: seq<string>)
    requires WfInner(name, ats, tail)
    ensures var t := name + Texts(ats) + tail; var tag := Start(name, Values(ats, map[]));
      Elements("<" + t + ">" + rest, stack) == After([tag], TextThen(rest, stack + [name])) &&
      Elements("<" + t + "/>" + rest, stack) == After([tag, End(name)], TextThen(rest, stack))
  {
    hide TextThen, ScanTag, ParseTag, Texts, IsComment, Elements, After;
    var t := name + Texts(ats) + tail;
    TagWithAttributes(name, ats, tail);
    TagUnfolds("<" + t + ">" + rest, Scan(false, false, t, rest), Tag(name, Values(ats, map[])), stack) by {
      InnerScans(name, ats, tail, "", rest);
      assert "<" + t + "" + ">" + rest == "<" + t + ">" + rest;
    }
    TagUnfolds("<" + t + "/>" + rest, Scan(false, true, t, rest), Tag(name, Values(ats, map[])), stack) by {
      InnerScans(name, ats, tail, "/", rest);
      assert "<" + t + "/" + ">" + rest == "<" + t + "/>" + rest;
    }
    var tag := Start(name, Values(ats, map[]));
    assert [tag] + [] == [tag] && [tag] + [End(name)] == [tag, End(name)];
  }

  lemma EndScans(name: string, tail: string, rest: string)
    requires R.WfName(name) && Blank(tail)
    ensures var s := "</" + name + tail + ">" + rest;
      ScanTag(s) == Some(Scan(true, false, name + tail, rest)) && !IsComment(s) && AtTag(s)
  {
    hide IndexOf;
    var t := name + tail;
    var s := "</" + name + tail + ">" + rest;
    var n := 2 + |t|;
    assert forall i :: 0 <= i < |t| ==> s[2 + i] == t[i];
    assert forall i :: 0 <= i < |t| ==> t[i] != '>' && t[i] != '/';
    IndexOfIs(s, '>', n);
    assert s[2..n] == t && s[n + 1..] == rest && s[1] == '/' && s[n - 1] == t[|t| - 1];
    assert |s| >= 4 ==> s[..4][1] == s[1];
  }

  lemma TagUnfolds(s: string, scan: Scan, tag: Tag, stack: seq<string>)
    requires s != "" && AtTag(s) && !IsComment(s) && ScanTag(s) == Some(scan) && ParseTag(scan.text) == Some(tag)
    ensures Elements(s, stack) ==
      match TagStack(tag, scan, stack)
      case None => Parse(false, [])
      case Some(inner) => After(TagEvents(tag, scan), TextThen(scan.rest, inner))
  {
    hide TextThen, ParseTag, Find, ScanTag, IsComment, TagStack, TagEvents;
  }

  /** An end tag, with blanks behind its name, closes the innermost element if that has its name, else the parse fails. */
  lemma EndTagReads(name: string, tail: string, rest: string, stack: seq<string>)
    requires R.WfName(name) && Blank(tail)
    ensures Elements("</" + name + tail + ">" + rest, stack + [name]) == After([End(name)], TextThen(rest, stack))
    ensures stack == [] || stack[|stack| - 1] != name ==>
      Elements("</" + name + tail + ">" + rest, stack) == Parse(false, [])
  {
    hide TextThen, ParseTag, ScanTag, IsComment, R.WfName, Elements, After;
    assert name + Texts([]) + tail == name + tail;
    TagWithAttributes(name, [], tail);
    EndScans(name, tail, rest);
    var s, scan, tag := "</" + name + tail + ">" + rest, Scan(true, false, name + tail, rest), Tag(name, map[]);
    TagUnfolds(s, scan, tag, stack + [name]);
    TagUnfolds(s, scan, tag, stack);
    var open := stack + [name];
    assert open[..|stack|] == stack && open[|open| - 1] == name;
  }

  /** The text in front of a tag is given with its entities read, and as it is if it has none. */
  lemma RawTextReads(t: string, rest: string, stack: seq<string>)
    requires t != "" && '<' !in t && rest != "" && rest[0] == '<'
    ensures TextThen(t + rest, stack) == After([Chars(E.Unquoted(t))], Elements(rest, stack))
    ensures '&' !in t ==> TextThen(t + rest, stack) == After([Chars(t)], Elements(rest, stack))
  {
    hide Elements, IndexOf, E.Unquoted;
    var s := t + rest;
    assert forall i :: 0 <= i < |t| ==> s[i] == t[i];
    IndexOfIs(s, '<', |t|);
    assert s[..|t|] == t && s[|t|..] == rest;
    if '&' !in t { NothingToUnquote(t); }
  }

  // ----- What is refused -----

  /** Text in front of the first tag, and a declaration without end. */
  lemma BadPrologs(ws: string, c: char, x: string)
    requires Blank(ws) && c !in WS && c != '<'
    ensures Document(ws + ([c] + x)) == Parse(false, [])
    ensures (forall i :: 0 <= i < |"<?" + x| ==> !Occurs("<?" + x, "?>", i)) ==> Document(ws + ("<?" + x)) == Parse(false, [])
    ensures Document(ws) == Parse(true, [])
  {
    hide SkipWS, Find;
    SkipsBlank(ws, [c] + x);
    SkipsBlank(ws, "<?" + x);
    SkipsBlank(ws, "");
    assert ws + "" == ws;
    if forall i :: 0 <= i < |"<?" + x| ==> !Occurs("<?" + x, "?>", i) { FindIs("<?" + x, "?>", |"<?" + x|); }
  }

  /** A comment without end, and a tag without end or with nothing in it. */
  lemma BadMarkup(t: string, stack: seq<string>)
    ensures (forall i :: 0 <= i < |"<!--" + t| ==> !Occurs("<!--" + t, "-->", i)) ==>
      Elements("<!--" + t, stack) == Parse(false, [])
    ensures '>' !in t && !IsComment("<" + t) ==> Elements("<" + t, stack) == Parse(false, [])
    ensures Elements("<>" + t, stack) == Parse(false, [])
    ensures stack != [] ==> Elements("", stack) == Parse(false, [])
  {
    hide Find, IndexOf, ParseTag;
    if forall i :: 0 <= i < |"<!--" + t| ==> !Occurs("<!--" + t, "-->", i) { FindIs("<!--" + t, "-->", |"<!--" + t|); }
    IndexOfIs("<>" + t, '>', 1);
    if '>' !in t { IndexOfIs("<" + t, '>', |t| + 1); }
    assert |"<>" + t| >= 4 ==> ("<>" + t)[..4][1] == '>';
  }

  /** An attribute without a name, an equal sign, a quote, or a second quote. */
  lemma BadAttributes(name: string, an: string, b: string, c: string, v: string, quote: char)
    requires R.WfName(name) && R.WfName(an) && Blank(b) && Blank(c) && quote in "\"'" && v != "" && v[|v| - 1] !in WS
    ensures '=' !in v && v[0] !in WS ==> ParseTag(name + " " + v) == None
    ensures v[0] == '=' ==> ParseTag(name + " " + v) == None
    ensures v[0] !in WS && v[0] !in "\"'" ==> ParseTag(name + " " + (an + b + "=" + c + v)) == None
    ensures quote !in v ==> ParseTag(name + " " + (an + b + "=" + c + [quote] + v)) == None
  {
    hide ParseTag, AttrName, AttrValue, SkipWS;
    if '=' !in v && v[0] !in WS {
      TagRefused(name, v);
      NoEqualSign(v);
    }
    if v[0] == '=' {
      TagRefused(name, v);
      NoName(v);
    }
    if v[0] !in WS {
      var t := an + b + "=" + c + v;
      assert t[0] == an[0] && t[|t| - 1] == v[|v| - 1];
      TagRefused(name, t);
      ValueRefused(an, b, c, v);
    }
    var u := [quote] + v;
    var t := an + b + "=" + c + [quote] + v;
    assert t == an + b + "=" + c + u;
    assert t[0] == an[0] && t[|t| - 1] == v[|v| - 1];
    TagRefused(name, t);
    ValueRefused(an, b, c, u);
    if quote !in v { OpenQuote(quote, v); }
  }

  lemma TagRefused(name: string, t: string)
    requires R.WfName(name) && t != "" && t[0] !in WS && t[|t| - 1] !in WS
    ensures Attr1(t).None? ==> ParseTag(name + " " + t) == None
  {
    hide Attr1, FindFirstOf, FindFirstNotOf, RTrim;
    var s := name + " " + t;
    assert s[|s| - 1] == t[|t| - 1];
    TrimsBlank(s, "");
    assert s + "" == s;
    assert forall i :: 0 <= i < |name| ==> s[i] == name[i];
    FindFirstOfIs(s, WS, 0, |name|);
    assert s[|name|..] == " " + t;
    SkipsBlank(" ", t);
  }

  lemma NoEqualSign(v: string)
    requires v != "" && '=' !in v
    ensures Attr1(v).None?
  {
    hide AttrValue;
    var e := FindFirstOf(v, " \t\n\r=", 0);
    var eq := SkipWS(v[e..]);
    assert forall i :: 0 <= i < |eq| ==> eq[i] in v;
  }

  lemma NoName(v: string)
    requires v != "" && v[0] == '='
    ensures Attr1(v).None?
  {
    FindFirstOfIs(v, " \t\n\r=", 0, 0);
  }

  lemma ValueRefused(an: string, b: string, c: string, v: string)
    requires R.WfName(an) && Blank(b) && Blank(c) && v != "" && v[0] !in WS
    ensures AttrValue(v).None? || v[0] !in "\"'" ==> Attr1(an + b + "=" + c + v).None?
  {
    hide SkipWS, FindFirstOf, FindFirstNotOf, E.Unquoted, IndexOf;
    var t := an + (b + ("=" + (c + v)));
    assert an + b + "=" + c + v == t;
    assert forall i :: 0 <= i < |an| ==> t[i] == an[i];
    assert t[|an|] == (b + ("=" + (c + v)))[0];
    if b != "" { assert (b + ("=" + (c + v)))[0] == b[0]; }
    FindFirstOfIs(t, " \t\n\r=", 0, |an|);
    assert t[|an|..] == b + ("=" + (c + v));
    SkipsBlank(b, "=" + (c + v));
    assert ("=" + (c + v))[1..] == c + v;
    SkipsBlank(c, v);
  }

  lemma OpenQuote(quote: char, v: string)
    requires quote !in v
    ensures AttrValue([quote] + v).None?
  {
    hide E.Unquoted;
    assert ([quote] + v)[1..] == v;
    IndexOfIs(v, quote, |v|);
  }

  /** A tag that cannot be read ends the parse. */
  lemma BadTagFails(t: string, rest: string, stack: seq<string>)
    requires t != "" && '>' !in t && t[0] !in "/!" && t[|t| - 1] != '/' && ParseTag(t).None?
    ensures Elements("<" + t + ">" + rest, stack) == Parse(false, [])
  {
    hide ParseTag, Find, IndexOf;
    var s := "<" + t + ">" + rest;
    assert forall i :: 0 <= i < |t| ==> s[1 + i] == t[i];
    IndexOfIs(s, '>', 1 + |t|);
    assert s[1..1 + |t|] == t && s[1] == t[0] && s[|t|] == t[|t| - 1];
    assert |s| >= 4 ==> s[..4][1] == s[1];
  }
}
