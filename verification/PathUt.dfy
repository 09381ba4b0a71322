/** Path normalization: path_canon, path_getfather, path_catslash and path_isdesc of src/pathut.cpp, as compiled
    for systems other than Windows. */
module PathUt {
  import opened Strings
  import opened Tokens

  // ----- What a path means -----

  function Segments(s: string): (r: seq<string>)
    ensures r != []
  {
    var k := IndexOf(s, '/');
    if k == |s| then [s] else [s[..k]] + Segments(s[k + 1..])
  }

  /** One segment after the directories of at. */
  function Into(at: seq<string>, e: string): seq<string> {
    if e == ".." then (if at == [] then [] else at[..|at| - 1])
    else if e == "" || e == "." then at
    else at + [e]
  }

  function Walk(segments: seq<string>, at: seq<string>): seq<string> {
    if segments == [] then at else Walk(segments[1..], Into(at, segments[0]))
  }

  /** The directories from the root that a path goes through. */
  function Components(s: string): seq<string> { Walk(Segments(s), []) }

  predicate Proper(e: string) { e != "" && e != "." && e != ".." && '/' !in e }

  ghost predicate AllProper(cs: seq<string>) { forall k :: 0 <= k < |cs| ==> Proper(cs[k]) }

  function Joined(cs: seq<string>): string { if cs == [] then "" else "/" + cs[0] + Joined(cs[1..]) }

  /** The one way to write some directories. */
  function Canonical(cs: seq<string>): string { if cs == [] then "/" else Joined(cs) }

  /** The same, as a directory. */
  function Slashed(cs: seq<string>): string { Joined(cs) + "/" }

  function Absolute(s: string, cwd: string): string {
    if s != "" && s[0] == '/' then s else PathCat(cwd, s)
  }

  function PathCat(s1: string, s2: string): string {
    var res := if s1 == "" then "./" else s1;
    if s2 == "" then res else CatSlash(res) + s2
  }

  function CatSlash(s: string): string { if s == "" || s[|s| - 1] != '/' then s + "/" else s }

  // ----- Segments and tokens -----

  lemma {:induction false} SegmentsHaveNoSlash(s: string)
    ensures forall k :: 0 <= k < |Segments(s)| ==> '/' !in Segments(s)[k]
  {
    var k := IndexOf(s, '/');
    if k < |s| { SegmentsHaveNoSlash(s[k + 1..]); }
  }

  lemma {:induction false} WalkAppend(a: seq<string>, b: seq<string>, at: seq<string>)
    ensures Walk(a + b, at) == Walk(b, Walk(a, at))
    decreases |a|
  {
    if a == [] {
      assert a + b == b;
    } else {
      assert (a + b)[1..] == a[1..] + b;
      WalkAppend(a[1..], b, Into(at, a[0]));
    }
  }

  lemma {:induction false} WalkIsProper(segments: seq<string>, at: seq<string>)
    requires AllProper(at) && forall k :: 0 <= k < |segments| ==> '/' !in segments[k]
    ensures AllProper(Walk(segments, at))
    decreases |segments|
  {
    if segments != [] { WalkIsProper(segments[1..], Into(at, segments[0])); }
  }

  lemma {:induction false} WalkProper(cs: seq<string>, at: seq<string>)
    requires AllProper(cs)
    ensures Walk(cs, at) == at + cs
    decreases |cs|
  {
    if cs == [] {
      assert at + [] == at;
    } else {
      WalkProper(cs[1..], at + [cs[0]]);
      assert at + [cs[0]] + cs[1..] == at + cs;
    }
  }

  /** The tokens leave out only segments that go nowhere. */
  lemma {:induction false} TokensWalk(s: string, start: nat, found: seq<string>)
    requires start <= |s|
    ensures Walk(TokensFrom(s, "/", start, found, false), []) == Walk(found + Segments(s[start..]), [])
    decreases |s| - start
  {
    hide FindFirstOf, Segments, IndexOf, TokensFrom, Walk, NextFound;
    var pos := FindFirstOf(s, "/", start);
    if pos < |s| {
      var e, more := s[start..pos], Segments(s[pos + 1..]);
      assert Segments(s[start..]) == [e] + more by { SegmentsAt(s, start, pos); }
      assert TokensFrom(s, "/", start, found, false) == TokensFrom(s, "/", pos + 1, NextFound(found, e), false) by {
        TokensStep(s, start, found);
      }
      TokensWalk(s, pos + 1, NextFound(found, e));
      NextFoundWalks(found, e, more);
    } else {
      LastTokenWalks(s, start, found);
    }
  }

  lemma LastTokenWalks(s: string, start: nat, found: seq<string>)
    requires start <= |s| && forall i :: start <= i < |s| ==> s[i] != '/'
    ensures Walk(TokensFrom(s, "/", start, found, false), []) == Walk(found + Segments(s[start..]), [])
  {
    SegmentsAt(s, start, |s|);
    FindFirstOfIs(s, "/", start, |s|);
    hide FindFirstOf, Segments, IndexOf, Walk;
    if start == |s| {
      WalkAppend(found, [""], []);
      EmptyStep(Walk(found, []));
    }
  }

  /** The tokens with one more; an empty one is kept only in front. */
  function NextFound(found: seq<string>, e: string): seq<string> {
    if e == "" && found != [] then found else found + [e]
  }

  lemma NextFoundWalks(found: seq<string>, e: string, more: seq<string>)
    ensures Walk(NextFound(found, e) + more, []) == Walk(found + ([e] + more), [])
  {
    hide Walk;
    Regroup(found, [e], more);
    if e == "" { EmptyGoesNowhere(found, more); }
  }

  lemma TokensStep(s: string, start: nat, found: seq<string>)
    requires start <= |s|
    ensures var pos := FindFirstOf(s, "/", start);
      TokensFrom(s, "/", start, found, false) ==
      if start == |s| then found
      else if pos == |s| then found + [s[start..]]
      else TokensFrom(s, "/", pos + 1, NextFound(found, s[start..pos]), false)
  {
    hide FindFirstOf;
    assert s[start..start] == "";
  }

  /** The first segment behind a place. */
  lemma SegmentsAt(s: string, start: nat, pos: nat)
    requires start <= pos <= |s| && (pos < |s| ==> s[pos] == '/') && forall i :: start <= i < pos ==> s[i] != '/'
    ensures Segments(s[start..]) == if pos == |s| then [s[start..]] else [s[start..pos]] + Segments(s[pos + 1..])
  {
    var rest := s[start..];
    assert forall i :: 0 <= i < |rest| ==> rest[i] == s[start + i];
    IndexOfIs(rest, '/', pos - start);
    hide IndexOf;
    assert rest[..pos - start] == s[start..pos];
    if pos < |s| { assert rest[pos - start + 1..] == s[pos + 1..]; }
  }

  lemma EmptyStep(at: seq<string>)
    ensures Walk([""], at) == at
  {
    assert Walk([""][1..], at) == at;
  }

  lemma EmptyGoesNowhere(found: seq<string>, more: seq<string>)
    ensures Walk((found + [""]) + more, []) == Walk(found + more, [])
  {
    WalkAppend(found + [""], more, []);
    WalkAppend(found, [""], []);
    WalkAppend(found, more, []);
    EmptyStep(Walk(found, []));
  }

  lemma TokenizeWalks(s: string)
    ensures Walk(Tokenize(s, "/"), []) == Components(s)
  {
    hide FindFirstOf, FindFirstNotOf;
    var start := FindFirstNotOf(s, "/", 0);
    TokensWalk(s, start, []);
    assert [] + Segments(s[start..]) == Segments(s[start..]);
    LeadingSlashes(s, start);
  }

  lemma {:induction false} LeadingSlashes(s: string, n: nat)
    requires n <= |s| && forall i :: 0 <= i < n ==> s[i] == '/'
    ensures Walk(Segments(s[n..]), []) == Components(s)
  {
    if n == 0 {
      assert s[0..] == s;
    } else {
      IndexOfIs(s, '/', 0);
      assert Segments(s) == [""] + Segments(s[1..]);
      assert ([""] + Segments(s[1..]))[1..] == Segments(s[1..]);
      LeadingSlashes(s[1..], n - 1);
      assert s[1..][n - 1..] == s[n..];
    }
  }

  // ----- Canonical paths -----

  /** The segments of a written path: an empty one in front, and one behind a slash at the end. */
  lemma JoinedSegments(cs: seq<string>, tail: string)
    requires (forall k :: 0 <= k < |cs| ==> '/' !in cs[k]) && (tail == "" || tail == "/")
    ensures Segments(Joined(cs) + tail) ==
            if cs == [] && tail == "" then [""] else [""] + (cs + if tail == "" then [] else [""])
  {
    hide Segments;
    SlashSegments();
    if cs == [] {
      assert Joined(cs) + tail == tail;
    } else {
      var rest := cs[0] + (Joined(cs[1..]) + tail);
      assert Joined(cs) == "/" + cs[0] + Joined(cs[1..]);
      hide Joined;
      assert Joined(cs) + tail == "" + ("/" + rest);
      SegmentsCut("", rest);
      SegmentsBehind(cs, tail);
    }
  }

  lemma {:induction false} SegmentsBehind(cs: seq<string>, tail: string)
    requires cs != [] && (forall k :: 0 <= k < |cs| ==> '/' !in cs[k]) && (tail == "" || tail == "/")
    ensures Segments(cs[0] + (Joined(cs[1..]) + tail)) == cs + if tail == "" then [] else [""]
  {
    hide Segments;
    if |cs| == 1 {
      assert Joined(cs[1..]) + tail == tail;
      if tail == "" {
        assert cs[0] + tail == cs[0];
        SegmentsWhole(cs[0]);
      } else {
        SlashSegments();
        assert "/" + "" == "/";
        SegmentsCut(cs[0], "");
      }
    } else {
      var rest := cs[1] + (Joined(cs[1..][1..]) + tail);
      assert Joined(cs[1..]) + tail == "/" + rest;
      SegmentsCut(cs[0], rest);
      SegmentsBehind(cs[1..], tail);
    }
  }

  lemma SlashSegments()
    ensures Segments("") == [""] && Segments("/") == ["", ""]
  {
    SegmentsWhole("");
    SegmentsCut("", "");
    assert "" + ("/" + "") == "/";
  }

  lemma SegmentsWhole(s: string)
    requires '/' !in s
    ensures Segments(s) == [s]
  {
    IndexOfIs(s, '/', |s|);
  }

  lemma SegmentsCut(head: string, rest: string)
    requires '/' !in head
    ensures Segments(head + ("/" + rest)) == [head] + Segments(rest)
  {
    var s := head + ("/" + rest);
    assert forall i :: 0 <= i < |head| ==> s[i] == head[i];
    IndexOfIs(s, '/', |head|);
    assert s[..|head|] == head && s[|head| + 1..] == rest;
  }

  /** A canonical path leads to its own directories, and is not changed by another normalization. */
  lemma CanonicalComponents(s: string)
    ensures AllProper(Components(s))
    ensures Components(Canonical(Components(s))) == Components(s)
    ensures Components(Slashed(Components(s))) == Components(s)
  {
    SegmentsHaveNoSlash(s);
    WalkIsProper(Segments(s), []);
    ProperComponents(Components(s));
  }

  lemma ProperComponents(cs: seq<string>)
    requires AllProper(cs)
    ensures Components(Canonical(cs)) == cs && Components(Slashed(cs)) == cs
  {
    JoinedSegments(cs, "");
    JoinedSegments(cs, "/");
    WalkProper(cs, []);
    assert [] + cs == cs;
    WalkAppend([""], cs, []);
    WalkAppend([""] + cs, [""], []);
    assert Joined(cs) + "" == Joined(cs);
    assert cs + [] == cs;
    assert [""] + (cs + [""]) == ([""] + cs) + [""];
  }

  /** Idempotence, for every path and working directory. */
  lemma CanonTwice(s: string, cwd: string, cwd2: string)
    ensures var c := Canonical(Components(Absolute(s, cwd)));
      Canonical(Components(Absolute(c, cwd2))) == c
  {
    CanonicalComponents(Absolute(s, cwd));
  }

  // ----- What the segments of a path do -----

  lemma {:induction false} SegmentsConcat(a: string, x: string)
    ensures Segments(a + ("/" + x)) == Segments(a) + Segments(x)
    decreases |a|
  {
    hide Segments, IndexOf;
    var k := IndexOf(a, '/');
    if k == |a| {
      SegmentsCut(a, x);
      SegmentsWhole(a) by { NotIn(a, '/'); }
    } else {
      var head, rest := a[..k], a[k + 1..];
      NotIn(head, '/') by { assert forall i :: 0 <= i < k ==> head[i] == a[i]; }
      assert a == head + ("/" + rest);
      SegmentsCut(head, rest);
      SegmentsConcat(rest, x);
      assert a + ("/" + x) == head + ("/" + (rest + ("/" + x)));
      SegmentsCut(head, rest + ("/" + x));
      Regroup([head], Segments(rest), Segments(x));
    }
  }

  lemma NotIn(s: string, c: char)
    requires forall i :: 0 <= i < |s| ==> s[i] != c
    ensures c !in s
  {
  }

  /** A path behind another one. */
  lemma ComponentsConcat(p: string, x: string)
    ensures Components(p + ("/" + x)) == Walk(Segments(x), Components(p))
  {
    hide Segments;
    SegmentsConcat(p, x);
    WalkAppend(Segments(p), Segments(x), []);
  }

  /** One segment more: a name goes down, two dots go up, staying at the root, and a dot or nothing goes nowhere. */
  lemma OneSegment(p: string, e: string)
    requires '/' !in e
    ensures e == ".." && Components(p) == [] ==> Components(p + ("/" + e)) == []
    ensures e == ".." && Components(p) != [] ==> Components(p + ("/" + e)) == Components(p)[..|Components(p)| - 1]
    ensures e == "." || e == "" ==> Components(p + ("/" + e)) == Components(p)
    ensures Proper(e) ==> Components(p + ("/" + e)) == Components(p) + [e]
  {
    ComponentsConcat(p, e);
    SegmentsWhole(e);
    assert Walk([e], Components(p)) == Walk([e][1..], Into(Components(p), e));
  }

  /** A name and two dots behind it cancel out, anywhere in a path. */
  lemma UpUndoesDown(p: string, e: string, s: string)
    requires Proper(e)
    ensures Components(p + "/" + e + "/../" + s) == Components(p + "/" + s)
  {
    hide Components;
    var down, up := p + ("/" + e), p + ("/" + e) + ("/" + "..");
    OneSegment(p, e);
    OneSegment(down, "..");
    var here := Components(p);
    assert (here + [e])[..|here + [e]| - 1] == here;
    ComponentsConcat(up, s);
    ComponentsConcat(p, s);
    assert p + "/" + e + "/../" + s == up + ("/" + s);
    assert p + "/" + s == p + ("/" + s);
  }

  /** So a normalized path does not depend on such pairs. */
  lemma CanonUp(cs: seq<string>, e: string, s: string, cwd: string)
    requires Proper(e)
    ensures Canonical(Components(Absolute(Slashed(cs) + e + "/../" + s, cwd))) == Canonical(Components(Absolute(Slashed(cs) + s, cwd)))
  {
    UpUndoesDown(Joined(cs), e, s);
    assert Joined(cs) + "/" + e + "/../" + s == Slashed(cs) + e + "/../" + s;
    assert Joined(cs) != "" ==> Joined(cs)[0] == '/';
  }

  /** There is nothing above the root. */
  lemma AboveRoot(s: string)
    ensures Components("") == [] && Components("/") == [] && Components("/../" + s) == Components("/" + s)
  {
    hide Segments;
    SlashSegments();
    EmptyStep([]);
    assert "" + ("/" + "") == "/";
    ComponentsConcat("", "");
    OneSegment("", "..");
    ComponentsConcat("" + ("/" + ".."), s);
    ComponentsConcat("", s);
    assert "/../" + s == "" + ("/" + "..") + ("/" + s);
    assert "/" + s == "" + ("/" + s);
  }

  lemma CatSlashBehind(base: string, s: string)
    ensures Components(CatSlash(base) + s) == Walk(Segments(s), Components(base))
  {
    hide Segments, Components;
    if base == "" || base[|base| - 1] != '/' {
      ComponentsConcat(base, s);
      assert base + "/" + s == base + ("/" + s);
    } else {
      var b := base[..|base| - 1];
      assert base == b + ("/" + "");
      OneSegment(b, "");
      ComponentsConcat(b, s);
      assert base + s == b + ("/" + s);
    }
  }

  /** A relative path goes on from the working directory, and one that starts with a slash does not need it. */
  lemma FromWhere(s: string, cwd: string)
    ensures s != "" && s[0] == '/' ==> Components(Absolute(s, cwd)) == Components(s)
    ensures s == "" || s[0] != '/' ==> Components(Absolute(s, cwd)) == Components(cwd + "/" + s)
  {
    hide Components, Segments, CatSlash;
    Base(cwd);
    assert cwd + "/" + s == cwd + ("/" + s);
    if s == "" {
      OneSegment(cwd, "");
    } else if s[0] != '/' {
      ComponentsConcat(cwd, s);
      CatSlashBehind(if cwd == "" then "./" else cwd, s);
    }
  }

  /** An empty working directory is taken for a dot. */
  lemma Base(cwd: string)
    ensures Components(if cwd == "" then "./" else cwd) == Components(cwd)
  {
    hide Segments;
    if cwd == "" {
      AboveRoot("");
      SegmentsWhole(".");
      assert Walk(["."], []) == Walk(["."][1..], []);
      assert "." + ("/" + "") == "./";
      OneSegment(".", "");
    }
  }

  method PathCanon(path: string, cwd: string) returns (ret: string)
    ensures ret == Canonical(Components(Absolute(path, cwd)))
  {
    var s := Absolute(path, cwd);
    var elems := StringToTokens(s, "/", true, false);
    TokenizeWalks(s);
    var cleaned: seq<string> := [];
    for i := 0 to |elems|
      invariant Walk(elems[i..], cleaned) == Walk(elems, [])
    {
      var elem := elems[i];
      assert elems[i..][1..] == elems[i + 1..];
      if elem == ".." {
        if cleaned != [] { cleaned := cleaned[..|cleaned| - 1]; }
      } else if elem != "" && elem != "." {
        cleaned := cleaned + [elem];
      }
    }
    if cleaned == [] { return "/"; }
    ret := WriteJoined(cleaned);
  }

  method WriteJoined(cleaned: seq<string>) returns (ret: string)
    ensures ret == Joined(cleaned)
  {
    ret := "";
    for i := 0 to |cleaned|
      invariant ret + Joined(cleaned[i..]) == Joined(cleaned)
    {
      var rest := cleaned[i..];
      assert rest[1..] == cleaned[i + 1..];
      assert ret + ("/" + rest[0] + Joined(rest[1..])) == ret + "/" + rest[0] + Joined(rest[1..]);
      ret := ret + "/";
      ret := ret + cleaned[i];
    }
  }

  // ----- Descendants -----

  function LastSlash(s: string): (r: int)
    ensures -1 <= r < |s| && (r >= 0 ==> s[r] == '/') && forall i :: r < i < |s| ==> s[i] != '/'
  {
    if s == "" then -1 else if s[|s| - 1] == '/' then |s| - 1 else LastSlash(s[..|s| - 1])
  }

  method PathGetFather(s: string) returns (father: string)
    ensures father == FatherOf(s)
  {
    father := s;
    if father == "" { return "./"; }
    if |father| == 1 && father[0] == '/' { return father; }
    if father[|father| - 1] == '/' { father := father[..|father| - 1]; }
    var slp := LastSlash(father);
    if slp == -1 { return "./"; }
    father := father[..slp];
    father := CatSlash(father);
  }

  function FatherOf(s: string): string {
    if s == "" then "./"
    else if s == "/" then s
    else
      var t := if s[|s| - 1] == '/' then s[..|s| - 1] else s;
      var slp := LastSlash(t);
      if slp == -1 then "./" else CatSlash(t[..slp])
  }

  lemma {:induction false} JoinedAppend(cs: seq<string>, e: string)
    ensures Joined(cs + [e]) == Joined(cs) + ("/" + e)
  {
    if cs == [] {
      assert [] + [e] == [e] && [e][1..] == [];
      assert Joined([e]) == "/" + e + "";
    } else {
      JoinedAppend(cs[1..], e);
      assert (cs + [e])[1..] == cs[1..] + [e];
      assert "/" + cs[0] + (Joined(cs[1..]) + ("/" + e)) == ("/" + cs[0] + Joined(cs[1..])) + ("/" + e);
    }
  }

  /** A slash at the end makes no difference. */
  lemma FatherStep(t: string)
    requires t != "" && t[|t| - 1] != '/'
    ensures FatherOf(t + "/") == FatherOf(t) == if LastSlash(t) == -1 then "./" else CatSlash(t[..LastSlash(t)])
  {
    hide LastSlash, CatSlash;
    assert (t + "/")[..|t|] == t;
    assert |t + "/"| > 1;
  }

  lemma NameEnds(d: string, e: string)
    requires e != "" && '/' !in e
    ensures var t := d + e; t[|t| - 1] != '/'
  {
    assert (d + e)[|d + e| - 1] == e[|e| - 1];
    assert e[|e| - 1] in e;
  }

  /** The father of any path with a name at its end: what is in front of the name, as a directory. */
  lemma FatherText(d: string, e: string)
    requires e != "" && '/' !in e && (d != "" ==> d[|d| - 1] != '/')
    ensures FatherOf(e) == "./" && FatherOf(e + "/") == "./"
    ensures FatherOf(d + "/" + e) == d + "/" && FatherOf(d + "/" + e + "/") == d + "/"
    ensures FatherOf("/") == "/" && FatherOf("") == "./"
  {
    hide LastSlash, FatherOf;
    FatherOfName(e);
    FatherBehind(d, e);
    FatherEnds();
  }

  lemma FatherOfName(e: string)
    requires e != "" && '/' !in e
    ensures FatherOf(e) == "./" && FatherOf(e + "/") == "./"
  {
    hide LastSlash, FatherOf;
    NoSlash(e);
    NameEnds("", e);
    assert "" + e == e;
    FatherStep(e);
  }

  lemma FatherBehind(d: string, e: string)
    requires e != "" && '/' !in e && (d != "" ==> d[|d| - 1] != '/')
    ensures FatherOf(d + "/" + e) == d + "/" && FatherOf(d + "/" + e + "/") == d + "/"
  {
    hide LastSlash, FatherOf;
    SlashBeforeLast(d, e);
    NameEnds(d + "/", e);
    var t := d + ("/" + e);
    assert t == d + "/" + e && t[..|d|] == d;
    FatherStep(t);
  }

  lemma FatherEnds()
    ensures FatherOf("/") == "/" && FatherOf("") == "./"
  {
  }

  lemma NoSlash(s: string)
    requires '/' !in s
    ensures LastSlash(s) == -1
  {
  }

  /** The father of a directory: one component less. */
  lemma FatherIsShorter(cs: seq<string>, e: string)
    requires AllProper(cs) && Proper(e)
    ensures FatherOf(Slashed(cs + [e])) == Slashed(cs) && |Slashed(cs)| < |Slashed(cs + [e])|
  {
    hide Joined;
    JoinedAppend(cs, e);
    var t := Joined(cs) + ("/" + e);
    assert Slashed(cs + [e])[..|t|] == t;
    SlashBeforeLast(Joined(cs), e);
    assert t[..|Joined(cs)|] == Joined(cs);
    if cs == [] { JoinedNone(cs); } else { JoinedEnds(cs); }
  }

  lemma LastSlashIs(s: string, k: nat)
    requires k < |s| && s[k] == '/' && forall i :: k < i < |s| ==> s[i] != '/'
    ensures LastSlash(s) == k
  {
    hide LastSlash;
  }

  lemma SlashBeforeLast(a: string, e: string)
    requires '/' !in e
    ensures LastSlash(a + ("/" + e)) == |a|
  {
    hide LastSlash;
    var t := a + ("/" + e);
    forall i | |a| < i < |t| ensures t[i] != '/' { assert t[i] == e[i - |a| - 1]; }
    LastSlashIs(t, |a|);
  }

  lemma JoinedNone(cs: seq<string>)
    requires cs == []
    ensures Joined(cs) == ""
  {
  }

  lemma JoinedEnds(cs: seq<string>)
    requires cs != [] && AllProper(cs)
    ensures Joined(cs) != "" && Joined(cs)[|Joined(cs)| - 1] != '/'
  {
    var a, e := cs[..|cs| - 1], cs[|cs| - 1];
    assert cs == a + [e];
    JoinedAppend(a, e);
    assert Proper(e);
    assert Joined(cs)[|Joined(cs)| - 1] == e[|e| - 1];
  }

  /** A prefix is not longer as a text either. */
  lemma {:induction false} PrefixIsShorter(cs: seq<string>, n: nat)
    requires n <= |cs|
    ensures |Slashed(cs[..n])| <= |Slashed(cs)|
  {
    if n < |cs| {
      var a := cs[..|cs| - 1];
      assert cs == a + [cs[|cs| - 1]];
      JoinedAppend(a, cs[|cs| - 1]);
      PrefixIsShorter(a, n);
      assert a[..n] == cs[..n];
    } else {
      assert cs[..n] == cs;
    }
  }

  lemma SlashedIsCanonical(cs: seq<string>)
    requires AllProper(cs)
    ensures CatSlash(Canonical(cs)) == Slashed(cs)
  {
    if cs != [] { JoinedEnds(cs); }
  }

  lemma SlashedApart(a: seq<string>, b: seq<string>)
    requires AllProper(a) && AllProper(b)
    ensures Slashed(a) == Slashed(b) <==> a == b
  {
    ProperComponents(a);
    ProperComponents(b);
  }

  /** Comparing directories, and going up to the father. */
  lemma Descent(tc: seq<string>, at: seq<string>)
    requires AllProper(tc) && AllProper(at)
    ensures Slashed(at) == Slashed(tc) <==> at == tc
    ensures tc <= at ==> |Slashed(tc)| <= |Slashed(at)|
    ensures at == [] ==> FatherOf(Slashed(at)) == Slashed(at)
    ensures at != [] ==>
      var up := at[..|at| - 1];
      AllProper(up) && FatherOf(Slashed(at)) == Slashed(up) && |Slashed(up)| < |Slashed(at)| &&
      (at != tc ==> (tc <= at <==> tc <= up))
  {
    hide Slashed, FatherOf;
    SlashedApart(at, tc);
    if tc <= at {
      PrefixIsShorter(at, |tc|);
      assert at[..|tc|] == tc;
    }
    if at == [] {
      RootStays();
    } else {
      var up := at[..|at| - 1];
      assert at == up + [at[|at| - 1]];
      FatherIsShorter(up, at[|at| - 1]);
    }
  }

  /** The loop of path_isdesc. */
  method Climb(top: string, sub: string, ghost tc: seq<string>, ghost sc: seq<string>) returns (desc: bool)
    requires AllProper(tc) && AllProper(sc) && top == Slashed(tc) && sub == Slashed(sc)
    ensures desc <==> tc <= sc
  {
    hide Slashed, FatherOf, AllProper;
    var s := sub;
    ghost var at := sc;
    while true
      invariant AllProper(at) && s == Slashed(at) && (tc <= sc <==> tc <= at)
      decreases |at|
    {
      Descent(tc, at);
      if s == top { return true; }
      var l := |s|;
      s := PathGetFather(s);
      if at != [] { at := at[..|at| - 1]; }
      Descent(tc, at);
      if |s| == l || |s| < |top| { return s == top; }
    }
  }

  /** True exactly if the components of the top path are a prefix of those of the other one. */
  method PathIsDesc(top: string, sub: string, cwd: string) returns (desc: bool)
    ensures desc <==> top != "" && sub != "" && Components(Absolute(top, cwd)) <= Components(Absolute(sub, cwd))
  {
    hide Components, Canonical, Slashed, AllProper, Absolute, CatSlash;
    if top == "" || sub == "" { return false; }
    ghost var tc, sc := Components(Absolute(top, cwd)), Components(Absolute(sub, cwd));
    CanonicalComponents(Absolute(top, cwd));
    CanonicalComponents(Absolute(sub, cwd));
    SlashedIsCanonical(tc);
    SlashedIsCanonical(sc);
    var t := PathCanon(top, cwd);
    var s := PathCanon(sub, cwd);
    desc := Climb(CatSlash(t), CatSlash(s), tc, sc);
  }

  lemma RootStays()
    ensures Slashed([]) == "/" == FatherOf("/")
  {
  }
}
