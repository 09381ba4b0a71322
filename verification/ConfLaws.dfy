/** What a configuration file means, said without the parser: a list of lines, in which the last definition of a name
    in a section counts. */
module ConfLaws {
  import opened Strings
  import opened ConfStore
  import opened ConfInvariants
  import opened ConfRoundTrip

  ghost predicate Blank(s: string) { forall c :: c in s ==> c in BLANKS }

  lemma BlankHasNo(s: string)
    requires Blank(s)
    ensures '=' !in s && '\n' !in s && '\r' !in s
  {
  }

  // ----- One line -----

  /** A definition on one line, with blanks anywhere around the name and the value. */
  function DefinitionText(a: string, n: string, b: string, c: string, v: string, d: string): string {
    a + n + b + "=" + c + v + d
  }

  ghost predicate Blanks4(a: string, b: string, c: string, d: string) { Blank(a) && Blank(b) && Blank(c) && Blank(d) }

  /** The line as it is after trimming. */
  function DefinitionCore(n: string, b: string, c: string, v: string): string {
    if v == "" then n + b + "=" else n + b + "=" + c + v
  }

  lemma CoreIsTrimmed(a: string, n: string, b: string, c: string, v: string, d: string)
    requires Blanks4(a, b, c, d) && WfName(n) && WfValue(v)
    ensures Trim(DefinitionText(a, n, b, c, v, d), BLANKS) == DefinitionCore(n, b, c, v)
    ensures var line := DefinitionCore(n, b, c, v); line != "" && line[0] == n[0] != '#' && line[|line| - 1] != '\\'
  {
    hide Trim;
    var core := DefinitionCore(n, b, c, v);
    if v == "" {
      TrimAround(a, core, c + d, BLANKS);
      assert a + core + (c + d) == DefinitionText(a, n, b, c, v, d);
    } else {
      TrimAround(a, core, d, BLANKS);
      assert a + core + d == DefinitionText(a, n, b, c, v, d);
    }
  }

  lemma CoreDefines(p: ParseState, n: string, b: string, c: string, v: string)
    requires SectionsListed(p.store) && Blank(b) && Blank(c) && WfName(n) && WfValue(v)
    ensures var q := Define(p, DefinitionCore(n, b, c, v));
      q.store == ISet(p.store, n, v, p.section, true) && q.section == p.section && !q.appending
    ensures DefinesVar(DefinitionCore(n, b, c, v))
  {
    hide Trim, IndexOf, ISet, SectionsListed;
    var line := DefinitionCore(n, b, c, v);
    var eq := |n + b|;
    BlankHasNo(b);
    assert forall i :: 0 <= i < eq ==> line[i] == (n + b)[i];
    IndexOfIs(line, '=', eq);
    TrimAround("", n, b, BLANKS);
    assert line[..eq] == "" + n + b;
    if v == "" {
      assert line[eq + 1..] == "";
      TrimmedStays("", BLANKS);
    } else {
      TrimAround(c, v, "", BLANKS);
      assert line[eq + 1..] == c + v + "";
    }
    assert line[0] == n[0];
  }

  /** A line ends in a newline, perhaps behind carriage returns. */
  ghost predicate Returns(r: string) { forall i :: 0 <= i < |r| ==> r[i] == '\r' }

  lemma {:induction false} ReturnsGo(text: string, r: string)
    requires Returns(r) && (text != "" ==> text[|text| - 1] !in "\n\r")
    ensures RTrim(text + r, "\n\r") == text
    decreases |r|
  {
    hide RTrim;
    if r == "" {
      assert text + r == text;
      RTrimKeeps(text);
    } else {
      var less := r[..|r| - 1];
      assert text + r == (text + less) + "\r" by { assert r == less + "\r"; }
      RTrimReturn(text + less);
      ReturnsGo(text, less);
    }
  }

  lemma RTrimKeeps(s: string)
    requires s != "" ==> s[|s| - 1] !in "\n\r"
    ensures RTrim(s, "\n\r") == s
  {
  }

  lemma RTrimReturn(s: string)
    ensures RTrim(s + "\r", "\n\r") == RTrim(s, "\n\r")
  {
    assert (s + "\r")[..|s|] == s;
  }

  lemma DefinitionIsOneLine(a: string, n: string, b: string, c: string, v: string, d: string)
    requires Blanks4(a, b, c, d) && WfName(n) && WfValue(v)
    ensures var text := DefinitionText(a, n, b, c, v, d);
      '\n' !in text && text != "" && text[|text| - 1] !in "\n\r"
  {
    BlankHasNo(a); BlankHasNo(b); BlankHasNo(c); BlankHasNo(d);
    var text := DefinitionText(a, n, b, c, v, d);
    if d != "" { assert text[|text| - 1] == d[|d| - 1]; }
    else if v != "" { assert text[|text| - 1] == v[|v| - 1]; }
    else if c != "" { assert text[|text| - 1] == c[|c| - 1]; }
    else { assert text[|text| - 1] == '='; }
  }

  /** A definition sets its name in the section in force, whatever was there before, and nothing else. */
  lemma DefinitionSets(p: ParseState, a: string, n: string, b: string, c: string, v: string, d: string, r: string, eof: bool)
    requires SectionsListed(p.store) && !p.appending && Blanks4(a, b, c, d) && WfName(n) && WfValue(v) && Returns(r)
    ensures var (q, stop) := Step(p, DefinitionText(a, n, b, c, v, d) + r, eof);
      q.section == p.section && !q.appending && stop == eof &&
      Lookup(q.store.submaps, n, p.section) == Some(v) &&
      forall m, s :: (m, s) != (n, p.section) ==> Lookup(q.store.submaps, m, s) == Lookup(p.store.submaps, m, s)
  {
    hide Define, SectionsListed, Trim, RTrim, DefinesVar, ISet, DefinitionText, DefinitionCore, WfName, WfValue;
    var text := DefinitionText(a, n, b, c, v, d);
    DefinitionIsOneLine(a, n, b, c, v, d);
    ReturnsGo(text, r);
    assert Carried(p) + text == text;
    CoreIsTrimmed(a, n, b, c, v, d);
    CoreDefines(p, n, b, c, v);
    NoBreak(v);
    ISetSets(p.store, n, v, p.section);
  }

  lemma NoBreak(v: string)
    requires WfValue(v)
    ensures !HasLineBreak(v)
  {
  }

  lemma ISetSets(st: Store, n: string, v: string, sk: string)
    requires SectionsListed(st) && !HasLineBreak(v)
    ensures var m := ISet(st, n, v, sk, true).submaps;
      Lookup(m, n, sk) == Some(v) && forall k, s :: (k, s) != (n, sk) ==> Lookup(m, k, s) == Lookup(st.submaps, k, s)
  {
    hide SectionsListed;
  }

  /** The same for a text of one line. */
  lemma RedefinitionWins(p: ParseState, n: string, v: string)
    requires SectionsListed(p.store) && !p.appending && WfName(n) && WfValue(v)
    ensures var q := Feed(p, n + " = " + v + "\n");
      q.section == p.section && !q.appending && Lookup(q.store.submaps, n, p.section) == Some(v) &&
      forall m, s :: (m, s) != (n, p.section) ==> Lookup(q.store.submaps, m, s) == Lookup(p.store.submaps, m, s)
  {
    hide SectionsListed, Step, Feed, WfName, WfValue;
    DefinitionSets(p, "", n, " ", " ", v, "", "", false);
    DefinitionIsOneLine("", n, " ", " ", v, "");
    assert DefinitionText("", n, " ", " ", v, "") + "" == n + " = " + v;
    FeedOneLine(p, n + " = " + v);
  }

  // ----- Continued lines -----

  /** A backslash, blanks and a newline join two lines, as if they were one. */
  lemma BackslashJoins(p: ParseState, x: string, d: string, y: string)
    requires SectionsListed(p.store) && !p.appending && '\n' !in x && '\n' !in y && Blank(d)
    requires x != "" && x[0] !in BLANKS && x[0] != '#' && (x + y)[|x + y| - 1] !in "\n\r"
    ensures Feed(p, (x + "\\" + d) + "\n" + (y + "\n")) == Feed(p, (x + y) + "\n")
  {
    hide SectionsListed, Feed, Step;
    BlankHasNo(d);
    FeedFirst(p, x + "\\" + d, y + "\n");
    FirstPart(p, x, d, false);
    var q := p.(appending := true, line := x);
    FeedOneLine(q, y);
    FeedOneLine(p, x + y);
    SecondPart(p, q, x, y, false);
  }

  /** At the end of the file, a backslash joins nothing. */
  lemma BackslashAtTheEnd(p: ParseState, x: string, d: string)
    requires SectionsListed(p.store) && !p.appending && '\n' !in x && Blank(d)
    requires x != "" && x[0] !in BLANKS && x[0] != '#' && x[|x| - 1] !in "\n\r"
    ensures Run(p, x + "\\" + d) == Run(p, x)
  {
    hide SectionsListed, Run, Step, AtEof;
    BlankHasNo(d);
    var text := x + "\\" + d;
    var q := p.(appending := true, line := x);
    IndexOfIs(text, '\n', |text|);
    IndexOfIs(x, '\n', |x|);
    RunUnfolds(p, text);
    RunUnfolds(p, x);
    AtEofUnfolds(p, text);
    AtEofUnfolds(p, x);
    AtEofUnfolds(q, "");
    FirstPart(p, x, d, true);
    SecondPart(p, q, x, "", true);
    assert x + "" == x;
  }

  lemma FirstPart(p: ParseState, x: string, d: string, eof: bool)
    requires SectionsListed(p.store) && !p.appending && Blank(d) && x != "" && x[0] !in BLANKS && x[0] != '#'
    ensures Step(p, x + "\\" + d, eof) == (p.(appending := true, line := x), false)
  {
    hide SectionsListed, Trim, RTrim, Define, CommentLine;
    var core := x + "\\";
    BlankHasNo(d);
    RTrimKeeps(core + d) by { if d != "" { assert (core + d)[|core + d| - 1] == d[|d| - 1]; } }
    assert Carried(p) + (core + d) == "" + core + d;
    TrimAround("", core, d, BLANKS);
    assert core[..|x|] == x;
  }

  lemma SecondPart(p: ParseState, q: ParseState, x: string, y: string, eof: bool)
    requires SectionsListed(p.store) && !p.appending && q == p.(appending := true, line := x)
    requires x != "" && x[0] !in BLANKS && x[0] != '#' && (x + y)[|x + y| - 1] !in "\n\r"
    ensures Step(q, y, eof).1 == Step(p, x + y, eof).1 && Step(q, y, eof).0 == Step(p, x + y, eof).0
  {
    hide SectionsListed, Trim, RTrim, Define, CommentLine, Step;
    RTrimKeeps(y) by { assert y != "" ==> (x + y)[|x + y| - 1] == y[|y| - 1]; }
    RTrimKeeps(x + y);
    assert Carried(p) + (x + y) == x + y;
    TrimKeepsHead(x + y, BLANKS);
    StepUnfolds(p, x + y, eof);
    StepUnfolds(q, y, eof);
    DefineForgets(p, q, Trim(x + y, BLANKS));
  }

  // ----- Where a long value breaks -----

  /** The printer may break the value behind the character at i, of a line that started at from. */
  predicate MayBreak(v: string, from: int, i: nat)
    requires i < |v|
  {
    v[i] in BLANKS && i - from >= 50 && |v| - i > 10
  }

  /** A value with no blank after 50 characters, and before the last 10, stays in one piece... */
  lemma {:induction false} FoldWhole(v: string, from: int, pos: nat)
    requires from <= pos <= |v| && forall i :: pos <= i < |v| ==> !MayBreak(v, from, i)
    ensures Fold(v, pos, pos - from) == v[pos..]
    decreases |v| - pos
  {
    if pos < |v| {
      assert !MayBreak(v, from, pos);
      FoldWhole(v, from, pos + 1);
      assert v[pos..] == [v[pos]] + v[pos + 1..];
    }
  }

  /** ...and otherwise breaks behind the first such blank, with a backslash and a newline. */
  lemma {:induction false} FoldBreaks(v: string, from: int, pos: nat, k: nat)
    requires from <= pos <= k < |v| && MayBreak(v, from, k) && forall i :: pos <= i < k ==> !MayBreak(v, from, i)
    ensures Fold(v, pos, pos - from) == v[pos..k + 1] + "\\\n" + Fold(v, k + 1, 0)
    decreases k - pos
  {
    assert v[pos..k + 1] == [v[pos]] + v[pos + 1..k + 1];
    if pos < k {
      assert !MayBreak(v, from, pos);
      FoldBreaks(v, from, pos + 1, k);
      FoldStep(v, from, pos);
      hide Fold;
      assert [v[pos]] + (v[pos + 1..k + 1] + "\\\n" + Fold(v, k + 1, 0)) == ([v[pos]] + v[pos + 1..k + 1]) + "\\\n" + Fold(v, k + 1, 0);
    }
  }

  lemma FoldStep(v: string, from: int, pos: nat)
    requires from <= pos < |v| && !MayBreak(v, from, pos)
    ensures Fold(v, pos, pos - from) == [v[pos]] + Fold(v, pos + 1, pos + 1 - from)
  {
  }

  /** A printed variable of 75 characters or more is broken at the first such place. */
  lemma LongLine(nm: string, v: string, k: nat)
    requires nm != "" && |nm| + |v| >= 75 && k < |v| && MayBreak(v, 0, k) && forall i :: 0 <= i < k ==> !MayBreak(v, 0, i)
    ensures nm + " = " + v[..k + 1] + "\\\n" <= PrintVar(nm, v)
  {
    hide Fold;
    FoldBreaks(v, 0, 0, k);
    assert PrintVar(nm, v) == nm + " = " + v[..k + 1] + "\\\n" + (Fold(v, k + 1, 0) + "\n");
  }

  // ----- A file -----

  /** A line, with the blanks around its parts and the carriage returns at its end. */
  datatype Line =
    | Definition(a: string, n: string, b: string, c: string, v: string, d: string, r: string)
    | Header(a: string, x: string, sk: string, y: string, d: string, r: string)
    | Note(t: string)
  {
    function Text(): string {
      match this
      case Definition(a, n, b, c, v, d, r) => DefinitionText(a, n, b, c, v, d) + r
      case Header(a, x, sk, y, d, r) => a + ("[" + x + sk + y + "]") + d + r
      case Note(t) => t
    }

    /** A note is blank, a # comment, or a line that defines nothing and does not end in a backslash. */
    ghost predicate Wf() {
      match this
      case Definition(a, n, b, c, v, d, r) => Blanks4(a, b, c, d) && WfName(n) && WfValue(v) && Returns(r)
      case Header(a, x, sk, y, d, r) =>
        Blank(a) && (forall c :: c in x + y ==> c in "[] \t") && WfSection(sk) && Blank(d) && Returns(r)
      case Note(t) => CommentOk(t)
    }
  }

  ghost predicate WfLines(ls: seq<Line>) { forall l :: l in ls ==> l.Wf() }

  function FileText(ls: seq<Line>): string {
    if ls == [] then "" else FileText(ls[..|ls| - 1]) + (ls[|ls| - 1].Text() + "\n")
  }

  /** The section of what follows. */
  function SectionOf(ls: seq<Line>): string {
    if ls == [] then "" else if ls[|ls| - 1].Header? then ls[|ls| - 1].sk else SectionOf(ls[..|ls| - 1])
  }

  /** The value of the last definition of nm in section sk. */
  function LastValue(ls: seq<Line>, nm: string, sk: string): Option<string> {
    if ls == [] then None
    else
      var l, before := ls[|ls| - 1], ls[..|ls| - 1];
      if l.Definition? && l.n == nm && SectionOf(before) == sk then Some(l.v) else LastValue(before, nm, sk)
  }

  /** The parser state stands for the lines read. */
  ghost predicate Means(q: ParseState, ls: seq<Line>) {
    SectionsListed(q.store) && !q.appending && q.section == SectionOf(ls) &&
    forall nm, sk :: Lookup(q.store.submaps, nm, sk) == LastValue(ls, nm, sk)
  }

  lemma HeaderIsOneLine(l: Line)
    requires l.Header? && l.Wf()
    ensures var text := l.a + ("[" + l.x + l.sk + l.y + "]") + l.d;
      '\n' !in text && text[|text| - 1] !in "\n\r" && Trim(text, BLANKS) == "[" + l.x + l.sk + l.y + "]"
    ensures Trim("[" + l.x + l.sk + l.y + "]", "[] \t") == l.sk
  {
    hide Trim;
    BlankHasNo(l.a); BlankHasNo(l.d);
    var core := "[" + l.x + l.sk + l.y + "]";
    assert forall c :: c in l.x ==> c in l.x + l.y;
    assert forall c :: c in l.y ==> c in l.x + l.y;
    assert '\n' !in l.x + l.y;
    var text := l.a + core + l.d;
    if l.d != "" { assert text[|text| - 1] == l.d[|l.d| - 1]; } else { assert text[|text| - 1] == ']'; }
    TrimAround(l.a, core, l.d, BLANKS);
    if l.sk == "" {
      TrimBlank(core, "[] \t");
    } else {
      TrimAround("[" + l.x, l.sk, l.y + "]", "[] \t");
      assert core == "[" + l.x + l.sk + (l.y + "]");
    }
  }

  /** A section header sets the section, and changes no value. */
  lemma HeaderSets(p: ParseState, l: Line, eof: bool)
    requires SectionsListed(p.store) && !p.appending && l.Header? && l.Wf()
    ensures var (q, stop) := Step(p, l.Text(), eof);
      q.section == l.sk && !q.appending && !stop && q.store.submaps == p.store.submaps
  {
    hide SectionsListed, Trim, RTrim, IndexOf, ISet;
    var text := l.a + ("[" + l.x + l.sk + l.y + "]") + l.d;
    HeaderIsOneLine(l);
    ReturnsGo(text, l.r);
    assert text + l.r == l.Text();
    assert Carried(p) + text == text;
  }

  lemma NoteSets(p: ParseState, t: string, eof: bool)
    requires SectionsListed(p.store) && !p.appending && CommentOk(t)
    ensures var (q, stop) := Step(p, t, eof);
      q.section == p.section && !q.appending && q.store.submaps == p.store.submaps
  {
    hide SectionsListed, CommentLine, Trim, RTrim, IndexOf, ISet;
    assert Carried(p) + RTrim(t, "\n\r") == RTrim(t, "\n\r");
  }

  lemma MeansDefined(q: ParseState, ls: seq<Line>, l: Line, q': ParseState)
    requires Means(q, ls) && l.Definition? && SectionsListed(q'.store) && q'.section == q.section && !q'.appending
    requires Lookup(q'.store.submaps, l.n, q.section) == Some(l.v)
    requires forall m, s :: (m, s) != (l.n, q.section) ==> Lookup(q'.store.submaps, m, s) == Lookup(q.store.submaps, m, s)
    ensures Means(q', ls + [l])
  {
    hide SectionsListed, Lookup;
    assert (ls + [l])[..|ls + [l]| - 1] == ls;
  }

  lemma MeansNothing(q: ParseState, ls: seq<Line>, l: Line, q': ParseState)
    requires Means(q, ls) && !l.Definition? && SectionsListed(q'.store) && !q'.appending
    requires q'.section == (if l.Header? then l.sk else q.section) && q'.store.submaps == q.store.submaps
    ensures Means(q', ls + [l])
  {
    hide SectionsListed, Lookup;
    assert (ls + [l])[..|ls + [l]| - 1] == ls;
  }

  /** One more line, whether a newline follows or the end of the file. */
  lemma LineMeans(q: ParseState, ls: seq<Line>, l: Line, eof: bool)
    requires Means(q, ls) && l.Wf()
    ensures Means(Step(q, l.Text(), eof).0, ls + [l]) && '\n' !in l.Text()
  {
    hide SectionsListed, Step, DefinitionText, WfName, WfValue, CommentOk, Lookup;
    var q' := Step(q, l.Text(), eof).0;
    match l
    case Definition(a, n, b, c, v, d, r) =>
      DefinitionSets(q, a, n, b, c, v, d, r, eof);
      DefinitionIsOneLine(a, n, b, c, v, d);
      MeansDefined(q, ls, l, q');
    case Header(a, x, sk, y, d, r) =>
      HeaderSets(q, l, eof);
      HeaderIsOneLine(l);
      MeansNothing(q, ls, l, q');
    case Note(t) =>
      NoteSets(q, t, eof);
      NoteIsOneLine(t);
      MeansNothing(q, ls, l, q');
  }

  lemma NoteIsOneLine(t: string)
    requires CommentOk(t)
    ensures '\n' !in t
  {
  }

  lemma {:induction false} FileFeeds(ls: seq<Line>)
    requires WfLines(ls)
    ensures SectionsListed(EMPTY) && WholeLines(FileText(ls)) && Means(Feed(Fresh(EMPTY), FileText(ls)), ls)
  {
    hide SectionsListed, Feed, Step;
    assert SectionsListed(EMPTY) by { EmptyListed(); }
    if ls == [] {
      FeedNothing(Fresh(EMPTY));
    } else {
      var l, before := ls[|ls| - 1], ls[..|ls| - 1];
      assert WfLines(before) && l in ls;
      FileFeeds(before);
      var q := Feed(Fresh(EMPTY), FileText(before));
      LineMeans(q, before, l, false);
      FeedTwice(Fresh(EMPTY), FileText(before), l.Text() + "\n");
      FeedOneLine(q, l.Text());
      assert before + [l] == ls;
    }
  }

  lemma EmptyListed()
    ensures SectionsListed(EMPTY)
  {
  }

  /** For every file of such lines: what is stored for a name in a section is the value of its last definition there. */
  lemma LastDefinitionCounts(ls: seq<Line>)
    requires WfLines(ls)
    ensures forall nm, sk :: Lookup(Parse(FileText(ls)).submaps, nm, sk) == LastValue(ls, nm, sk)
  {
    hide SectionsListed, Feed, Run;
    FileFeeds(ls);
    RunAfterFeed(Fresh(EMPTY), FileText(ls), "");
    assert FileText(ls) + "" == FileText(ls);
    RunNothing(Feed(Fresh(EMPTY), FileText(ls)));
  }

  /** The same if the last line has no newline. */
  lemma LastLineCounts(ls: seq<Line>, l: Line)
    requires WfLines(ls) && l.Wf()
    ensures forall nm, sk :: Lookup(Parse(FileText(ls) + l.Text()).submaps, nm, sk) == LastValue(ls + [l], nm, sk)
  {
    hide SectionsListed, Feed, Run, Step, AtEof;
    FileFeeds(ls);
    var q := Feed(Fresh(EMPTY), FileText(ls));
    RunAfterFeed(Fresh(EMPTY), FileText(ls), l.Text());
    LineMeans(q, ls, l, true);
    IndexOfIs(l.Text(), '\n', |l.Text()|);
    RunUnfolds(q, l.Text());
    AtEofUnfolds(q, l.Text());
    EndOfFile(Step(q, l.Text(), true).0);
  }

  lemma EndOfFile(q: ParseState)
    requires SectionsListed(q.store) && !q.appending
    ensures AtEof(q, "") == q.store
  {
    hide Define, SectionsListed, Trim, CommentLine;
    TrimmedStays("", BLANKS);
  }
}
