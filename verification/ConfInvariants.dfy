/** What every reachable store keeps: the presentation list covers the maps, whatever mix of
    parsing, set, erase, eraseKey and clear led there. */
module ConfInvariants {
  import opened Strings
  import opened ConfStore

  // ----- Well-formed entries -----

  ghost predicate WfName(nm: string) {
    nm != "" && Trimmed(nm, BLANKS) && '\n' !in nm && '=' !in nm && nm[0] != '#' && nm[0] != '['
  }

  ghost predicate WfSection(sk: string) { Trimmed(sk, "[] \t") && '\n' !in sk }

  ghost predicate WfValue(v: string) {
    Trimmed(v, BLANKS) && !HasLineBreak(v) && (v != "" ==> v[|v| - 1] != '\\')
  }

  /** Every stored entry can stand in a file. */
  ghost predicate WfEntries(m: Submaps) {
    forall nm, sk {:trigger Lookup(m, nm, sk)} :: Lookup(m, nm, sk).Some? ==>
      WfName(nm) && WfSection(sk) && WfValue(Lookup(m, nm, sk).value)
  }

  // ----- Agreement between the maps and the presentation list -----

  ghost predicate LineFor(order: seq<ConfLine>, i: int, nm: string, sk: string) {
    0 <= i < |order| && order[i].IsVar(nm) && SectionAt(order, i) == sk
  }

  ghost predicate HasLine(order: seq<ConfLine>, nm: string, sk: string) {
    exists i :: LineFor(order, i, nm, sk)
  }

  /** Each stored variable has a line in a zone of its section. */
  ghost predicate Indexed(st: Store) {
    forall nm, sk {:trigger Lookup(st.submaps, nm, sk)} :: Lookup(st.submaps, nm, sk).Some? ==>
      HasLine(st.order, nm, sk)
  }

  ghost predicate NoEmptySection(m: Submaps) { forall sk :: sk in m ==> m[sk] != map[] }

  /** A comment line that reads back as a comment, and not as the start of a continued line. */
  ghost predicate CommentOk(t: string) {
    '\n' !in t &&
    var l := Trim(RTrim(t, "\n\r"), BLANKS);
    l == "" || l[0] == '#' || (l[|l| - 1] != '\\' && l[0] != '[' && !DefinesVar(l))
  }

  ghost predicate CommentsOk(order: seq<ConfLine>) {
    forall i :: 0 <= i < |order| && (order[i].Comment? || order[i].VarComment?) ==> CommentOk(order[i].text)
  }

  /** What the parser keeps as a comment: a blank or # line, or a complete logical line that defines nothing. With
      inner, it may hold carriage returns. */
  ghost predicate ReadComment(t: string, inner: bool) {
    '\n' !in t && (inner || '\r' !in t) && Trimmed(t, BLANKS) &&
    (t == "" || t[0] == '#' || (t[0] != '[' && t[|t| - 1] != '\\' && !DefinesVar(t)))
  }

  ghost predicate CommentsRead(order: seq<ConfLine>, inner: bool) {
    forall i :: 0 <= i < |order| && (order[i].Comment? || order[i].VarComment?) ==> ReadComment(order[i].text, inner)
  }

  /** A line that is not a # comment and whose end is a backslash, blanks and carriage returns: the next reading finds
      the backslash. */
  ghost predicate HidesBackslash(t: string) {
    t != "" && t[0] != '#' &&
    var l := Trim(RTrim(t, "\n\r"), BLANKS);
    l != "" && l[|l| - 1] == '\\'
  }

  ghost predicate NoneHidden(order: seq<ConfLine>) {
    forall i :: 0 <= i < |order| && (order[i].Comment? || order[i].VarComment?) ==> !HidesBackslash(order[i].text)
  }

  ghost predicate Sound(st: Store) {
    SectionsListed(st) && NoEmptySection(st.submaps) && Indexed(st)
  }

  // ----- Sections in force -----

  lemma {:induction false} SectionAtAppend(order: seq<ConfLine>, more: seq<ConfLine>, i: nat)
    requires i <= |order|
    ensures SectionAt(order + more, i) == SectionAt(order, i)
  {
    if i > 0 { SectionAtAppend(order, more, i - 1); }
  }

  lemma {:induction false} SectionAtInsert(order: seq<ConfLine>, p: nat, l: ConfLine, i: nat)
    requires p <= |order| && i <= |order| && !l.Section?
    ensures i <= p ==> SectionAt(InsertAt(order, p, l), i) == SectionAt(order, i)
    ensures i >= p ==> SectionAt(InsertAt(order, p, l), i + 1) == SectionAt(order, i)
  {
    if i > 0 { SectionAtInsert(order, p, l, i - 1); }
  }

  lemma {:induction false} SectionInForceIsListed(order: seq<ConfLine>, i: nat)
    requires i <= |order|
    ensures SectionAt(order, i) == "" || Section(SectionAt(order, i)) in order
  {
    if i > 0 && !order[i - 1].Section? { SectionInForceIsListed(order, i - 1); }
  }

  lemma {:induction false} ZoneHasOneSection(order: seq<ConfLine>, start: nat, i: nat)
    requires start <= |order|
    requires start <= i <= NextSection(order, start)
    ensures SectionAt(order, i) == SectionAt(order, start)
    decreases i
  {
    if start < i { ZoneHasOneSection(order, start, i - 1); }
  }

  // ----- Lines survive -----

  lemma AppendKeepsLines(order: seq<ConfLine>, more: seq<ConfLine>, nm: string, sk: string)
    requires HasLine(order, nm, sk)
    ensures HasLine(order + more, nm, sk)
  {
    var i :| LineFor(order, i, nm, sk);
    SectionAtAppend(order, more, i);
    assert LineFor(order + more, i, nm, sk);
  }

  lemma InsertKeepsLines(order: seq<ConfLine>, p: nat, l: ConfLine, nm: string, sk: string)
    requires p <= |order| && !l.Section?
    requires HasLine(order, nm, sk)
    ensures HasLine(InsertAt(order, p, l), nm, sk)
  {
    var i :| LineFor(order, i, nm, sk);
    SectionAtInsert(order, p, l, i);
    assert LineFor(InsertAt(order, p, l), if i < p then i else i + 1, nm, sk);
  }

  lemma InsertKeepsAllLines(order: seq<ConfLine>, p: nat, l: ConfLine)
    requires p <= |order| && !l.Section?
    ensures forall n, s :: HasLine(order, n, s) ==> HasLine(InsertAt(order, p, l), n, s)
  {
    forall n, s | HasLine(order, n, s) ensures HasLine(InsertAt(order, p, l), n, s) {
      InsertKeepsLines(order, p, l, n, s);
    }
  }

  lemma ZoneStartIsInSection(order: seq<ConfLine>, sk: string)
    requires sk == "" || Section(sk) in order
    ensures SectionAt(order, ZoneStart(order, sk)) == sk
  {
  }

  /** The placed variable is in a zone of its section, and nothing else moves to another section. */
  lemma PlaceInZoneCovers(order: seq<ConfLine>, nm: string, start: nat, fin: nat, sk: string)
    requires start <= fin <= |order| && fin <= NextSection(order, start)
    requires SectionAt(order, start) == sk
    ensures HasLine(PlaceInZone(order, nm, start, fin), nm, sk)
    ensures forall n, s :: HasLine(order, n, s) ==> HasLine(PlaceInZone(order, nm, start, fin), n, s)
  {
    var v := FindVar(order, nm, start, fin);
    if v < fin { FoundInZone(order, nm, start, fin, sk, v); } else { InsertedInZone(order, nm, start, fin, sk); }
  }

  lemma FoundInZone(order: seq<ConfLine>, nm: string, start: nat, fin: nat, sk: string, v: nat)
    requires start <= v < fin <= |order| && fin <= NextSection(order, start)
    requires SectionAt(order, start) == sk && order[v].IsVar(nm)
    ensures HasLine(order, nm, sk)
  {
    hide SectionAt, NextSection;
    ZoneHasOneSection(order, start, v);
    assert LineFor(order, v, nm, sk);
  }

  lemma InsertedInZone(order: seq<ConfLine>, nm: string, start: nat, fin: nat, sk: string)
    requires start <= fin <= |order| && fin <= NextSection(order, start)
    requires SectionAt(order, start) == sk && FindVar(order, nm, start, fin) == fin
    ensures HasLine(PlaceInZone(order, nm, start, fin), nm, sk)
    ensures forall n, s :: HasLine(order, n, s) ==> HasLine(PlaceInZone(order, nm, start, fin), n, s)
  {
    hide SectionAt, NextSection, FindVar, FindVarComment, HasLine;
    var vc := FindVarComment(order, nm, start, fin);
    var p := if vc < fin then vc + 1 else fin;
    ZoneHasOneSection(order, start, p);
    InsertedCovers(order, nm, p, sk);
  }

  lemma InsertedCovers(order: seq<ConfLine>, nm: string, p: nat, sk: string)
    requires p <= |order| && SectionAt(order, p) == sk
    ensures HasLine(InsertAt(order, p, Var(nm, "")), nm, sk)
    ensures forall n, s :: HasLine(order, n, s) ==> HasLine(InsertAt(order, p, Var(nm, "")), n, s)
  {
    var l := Var(nm, "");
    InsertKeepsAllLines(order, p, l);
    SectionAtInsert(order, p, l, p);
    hide SectionAt;
    assert LineFor(InsertAt(order, p, l), p, nm, sk);
  }

  lemma PlaceVarCovers(order: seq<ConfLine>, nm: string, sk: string)
    requires sk == "" || Section(sk) in order
    ensures HasLine(PlaceVar(order, nm, sk), nm, sk)
    ensures forall n, s :: HasLine(order, n, s) ==> HasLine(PlaceVar(order, nm, sk), n, s)
  {
    ZoneStartIsInSection(order, sk);
    var start := ZoneStart(order, sk);
    PlaceInZoneCovers(order, nm, start, NextSection(order, start), sk);
  }

  lemma PlaceVarKeepsComments(order: seq<ConfLine>, nm: string, sk: string, inner: bool)
    requires sk == "" || Section(sk) in order
    requires CommentsRead(order, inner)
    ensures CommentsRead(PlaceVar(order, nm, sk), inner)
  {
    hide ReadComment, FindVar, FindVarComment, NextSection, FindSection;
    var start := ZoneStart(order, sk);
    var fin := NextSection(order, start);
    var vc := FindVarComment(order, nm, start, fin);
    InsertKeepsComments(order, if vc < fin then vc + 1 else fin, Var(nm, ""), inner);
  }

  lemma InsertKeepsComments(order: seq<ConfLine>, p: nat, l: ConfLine, inner: bool)
    requires p <= |order| && l.Var? && CommentsRead(order, inner)
    ensures CommentsRead(InsertAt(order, p, l), inner)
  {
  }

  // ----- Preservation by the operations -----

  lemma Recovered(st: Store, m: Submaps, order: seq<ConfLine>, nm: string, sk: string)
    requires Indexed(st)
    requires forall n, s :: HasLine(st.order, n, s) ==> HasLine(order, n, s)
    requires HasLine(order, nm, sk)
    requires forall n, s :: (n, s) != (nm, sk) ==> Lookup(m, n, s) == Lookup(st.submaps, n, s)
    ensures Indexed(Store(m, order))
  {
    forall n, s | Lookup(m, n, s).Some? ensures HasLine(order, n, s) {
      if (n, s) != (nm, sk) { assert Lookup(st.submaps, n, s).Some?; }
    }
  }

  lemma AppendKeepsAllLines(order: seq<ConfLine>, more: seq<ConfLine>)
    ensures forall n, s :: HasLine(order, n, s) ==> HasLine(order + more, n, s)
  {
    forall n, s | HasLine(order, n, s) ensures HasLine(order + more, n, s) {
      AppendKeepsLines(order, more, n, s);
    }
  }

  /** While parsing, the section is the one in force at the end of the list. */
  lemma ISetInitIsIndexed(st: Store, nm: string, val: string, sk: string)
    requires Sound(st) && SectionAt(st.order, |st.order|) == sk
    ensures Indexed(ISet(st, nm, val, sk, true))
    ensures SectionAt(ISet(st, nm, val, sk, true).order, |ISet(st, nm, val, sk, true).order|) == sk
  {
    if HasLineBreak(val) { return; }
    var m := Assign(st.submaps, nm, val, sk);
    if Lookup(st.submaps, nm, sk).Some? {
      Recovered(st, m, st.order, nm, sk);
    } else {
      SectionInForceIsListed(st.order, |st.order|);
      var line := [Var(nm, val)];
      AppendKeepsAllLines(st.order, line);
      SectionAtAppend(st.order, line, |st.order|);
      assert LineFor(st.order + line, |st.order|, nm, sk);
      Recovered(st, m, st.order + line, nm, sk);
    }
  }

  lemma ISetIsIndexed(st: Store, nm: string, val: string, sk: string)
    requires Sound(st)
    ensures Indexed(ISet(st, nm, val, sk, false))
  {
    if HasLineBreak(val) { return; }
    var m := Assign(st.submaps, nm, val, sk);
    if Lookup(st.submaps, nm, sk).Some? {
      Recovered(st, m, st.order, nm, sk);
    } else {
      var order1 := WithSectionLine(st, sk);
      AppendKeepsAllLines(st.order, [Section(sk)]);
      PlaceVarCovers(order1, nm, sk);
      Recovered(st, m, PlaceVar(order1, nm, sk), nm, sk);
    }
  }

  /** i_set keeps the agreement, for any arguments whatever. */
  lemma ISetKeepsSound(st: Store, nm: string, val: string, sk: string, init: bool)
    requires Sound(st)
    requires init ==> SectionAt(st.order, |st.order|) == sk
    ensures Sound(ISet(st, nm, val, sk, init))
  {
    if init { ISetInitIsIndexed(st, nm, val, sk); } else { ISetIsIndexed(st, nm, val, sk); }
    ISetKeepsNames(st, nm, val, sk, init);
    hide ISet, Indexed, NoEmptySection;
  }

  lemma ISetKeepsNames(st: Store, nm: string, val: string, sk: string, init: bool)
    requires SectionsListed(st) && NoEmptySection(st.submaps)
    ensures NoEmptySection(ISet(st, nm, val, sk, init).submaps)
  {
    hide SectionsListed, WithSectionLine, PlaceVar;
  }

  lemma ISetKeepsComments(st: Store, nm: string, val: string, sk: string, init: bool, inner: bool)
    requires SectionsListed(st) && CommentsRead(st.order, inner)
    ensures CommentsRead(ISet(st, nm, val, sk, init).order, inner)
  {
    hide ReadComment;
    var order1 := WithSectionLine(st, sk);
    assert CommentsRead(order1, inner);
    PlaceVarKeepsComments(order1, nm, sk, inner);
  }

  lemma EraseKeepsSound(st: Store, nm: string, sk: string)
    requires Sound(st)
    ensures Sound(Erase(st, nm, sk))
  {
    var st' := Erase(st, nm, sk);
    forall n, s | Lookup(st'.submaps, n, s).Some? ensures HasLine(st'.order, n, s) {
      assert Lookup(st.submaps, n, s).Some?;
    }
  }

  lemma EraseKeyKeepsSound(st: Store, sk: string)
    requires Sound(st)
    ensures Sound(EraseKey(st, sk))
  {
    var st' := EraseKey(st, sk);
    forall n, s | Lookup(st'.submaps, n, s).Some? ensures HasLine(st'.order, n, s) {
      assert Lookup(st.submaps, n, s).Some?;
    }
  }

  // ----- What parsing establishes -----

  /** The parser state between two lines, for any text. */
  ghost predicate Parsing(p: ParseState) {
    Sound(p.store) && WfEntries(p.store.submaps) && WfSection(p.section) &&
    SectionAt(p.store.order, |p.store.order|) == p.section && '\n' !in Carried(p)
  }

  lemma AppendCommentKeepsSound(st: Store, l: ConfLine)
    requires Sound(st) && !l.Section?
    ensures Sound(st.(order := st.order + [l]))
    ensures SectionAt(st.order + [l], |st.order| + 1) == SectionAt(st.order, |st.order|)
  {
    SectionAtAppend(st.order, [l], |st.order|);
    forall n, s | Lookup(st.submaps, n, s).Some? ensures HasLine(st.order + [l], n, s) {
      AppendKeepsLines(st.order, [l], n, s);
    }
  }

  lemma AppendSectionKeepsSound(st: Store, sk: string)
    requires Sound(st)
    ensures Sound(st.(order := st.order + [Section(sk)]))
  {
    forall n, s | Lookup(st.submaps, n, s).Some? ensures HasLine(st.order + [Section(sk)], n, s) {
      AppendKeepsLines(st.order, [Section(sk)], n, s);
    }
  }

  /** A complete logical line yields a well-formed name... */
  lemma DefinedNameIsWf(line: string)
    requires Trimmed(line, BLANKS) && '\n' !in line && DefinesVar(line) && line[0] != '#'
    ensures WfName(Trim(line[..IndexOf(line, '=')], BLANKS))
  {
    var head := line[..IndexOf(line, '=')];
    assert head != "" && head[0] == line[0];
    TrimKeepsHead(head, BLANKS);
    assert '=' !in head && '\n' !in head;
    TrimHasNoOther(head, BLANKS, '=');
    TrimHasNoOther(head, BLANKS, '\n');
  }

  /** ...and a value that does not end in a backslash. */
  lemma DefinedValueIsWf(line: string)
    requires Trimmed(line, BLANKS) && '\n' !in line && DefinesVar(line) && line[|line| - 1] != '\\'
    ensures var v := Trim(line[IndexOf(line, '=') + 1..], BLANKS);
      HasLineBreak(v) || WfValue(v)
  {
    var rest := line[IndexOf(line, '=') + 1..];
    if rest != "" {
      assert rest[|rest| - 1] == line[|line| - 1];
      TrimKeepsLast(rest, BLANKS);
    }
  }

  lemma ISetKeepsWf(st: Store, nm: string, val: string, sk: string, init: bool)
    requires SectionsListed(st) && WfEntries(st.submaps)
    requires WfName(nm) && WfSection(sk) && (HasLineBreak(val) || WfValue(val))
    ensures WfEntries(ISet(st, nm, val, sk, init).submaps)
  {
    var m := ISet(st, nm, val, sk, init).submaps;
    forall n, s | Lookup(m, n, s).Some? ensures WfName(n) && WfSection(s) && WfValue(Lookup(m, n, s).value) {
      if (n, s) != (nm, sk) || HasLineBreak(val) {
        assert Lookup(m, n, s) == Lookup(st.submaps, n, s);
      }
    }
  }

  lemma DefineVarKeeps(p: ParseState, line: string)
    requires Parsing(p)
    requires Trimmed(line, BLANKS) && '\n' !in line && DefinesVar(line) && line[0] != '#' && line[|line| - 1] != '\\'
    ensures Parsing(Define(p, line))
  {
    hide ISet, Trim, IndexOf, SectionAt, SectionsListed, NoEmptySection, Indexed, WfEntries, WfName, WfValue;
    DefinedNameIsWf(line);
    DefinedValueIsWf(line);
    var eq := IndexOf(line, '=');
    var nm, v := Trim(line[..eq], BLANKS), Trim(line[eq + 1..], BLANKS);
    ISetInitIsIndexed(p.store, nm, v, p.section);
    ISetKeepsSound(p.store, nm, v, p.section, true);
    ISetKeepsWf(p.store, nm, v, p.section, true);
  }

  lemma DefineKeeps(p: ParseState, line: string)
    requires Parsing(p)
    requires line != "" && Trimmed(line, BLANKS) && '\n' !in line && line[0] != '#' && line[|line| - 1] != '\\'
    ensures Parsing(Define(p, line))
  {
    hide ISet, IndexOf, Sound, WfEntries, RTrim, LTrim;
    if line[0] == '[' {
      AppendSectionKeepsSound(p.store, Trim(line, "[] \t"));
      TrimHasNoOther(line, "[] \t", '\n');
    } else if !DefinesVar(line) {
      AppendCommentKeepsSound(p.store, Comment(line));
    } else {
      DefineVarKeeps(p, line);
    }
  }

  lemma LogicalHasNoOther(p: ParseState, cline: string, c: char)
    requires c !in Carried(p) && c !in cline
    ensures c !in Logical(p, cline)
  {
    TrimHasNoOther(cline, "\n\r", c);
    TrimHasNoOther(Carried(p) + RTrim(cline, "\n\r"), BLANKS, c);
  }

  lemma StepKeeps(p: ParseState, cline: string, eof: bool)
    requires Parsing(p) && '\n' !in cline
    ensures Parsing(Step(p, cline, eof).0)
  {
    hide Define, Logical, Sound, WfEntries, CommentLine;
    var line := Logical(p, cline);
    LogicalHasNoOther(p, cline, '\n');
    if line == "" || line[0] == '#' {
      AppendCommentKeepsSound(p.store, CommentLine(line));
    } else if line[|line| - 1] == '\\' {
    } else {
      DefineKeeps(p, line);
    }
  }

  lemma {:induction false} AtEofKeeps(p: ParseState, cline: string)
    requires Parsing(p) && '\n' !in cline
    ensures Sound(AtEof(p, cline)) && WfEntries(AtEof(p, cline).submaps)
    decreases |Carried(p)| + |cline|
  {
    StepKeeps(p, cline, true);
    var (q, stop) := Step(p, cline, true);
    if !stop { AtEofKeeps(q, ""); }
  }

  lemma {:induction false} RunKeeps(p: ParseState, text: string)
    requires Parsing(p)
    ensures Sound(Run(p, text)) && WfEntries(Run(p, text).submaps)
    decreases |text|
  {
    var e := IndexOf(text, '\n');
    if e < |text| {
      StepKeeps(p, text[..e], false);
      RunKeeps(Step(p, text[..e], false).0, text[e + 1..]);
    } else {
      AtEofKeeps(p, text);
    }
  }

  /** Any text at all parses to a store whose list covers its maps and whose entries are well formed. */
  lemma ParseIsSound(text: string)
    ensures Sound(Parse(text)) && WfEntries(Parse(text).submaps)
  {
    RunKeeps(Fresh(EMPTY), text);
  }

  // ----- Comments -----

  /** Every physical line keeps its carriage returns at its end. */
  ghost predicate ReturnsAtEnds(text: string)
    decreases |text|
  {
    var e := IndexOf(text, '\n');
    '\r' !in RTrim(text[..e], "\n\r") && (e < |text| ==> ReturnsAtEnds(text[e + 1..]))
  }

  lemma StepKeepsComments(p: ParseState, cline: string, eof: bool, inner: bool)
    requires SectionsListed(p.store) && CommentsRead(p.store.order, inner) && '\n' !in Carried(p) && '\n' !in cline
    requires inner || ('\r' !in Carried(p) && '\r' !in RTrim(cline, "\n\r"))
    ensures var q := Step(p, cline, eof).0;
      CommentsRead(q.store.order, inner) && '\n' !in Carried(q) && (inner || '\r' !in Carried(q))
  {
    hide Define, CommentsRead, ReadComment, Logical, SectionsListed, CommentLine;
    var line := Logical(p, cline);
    LogicalHasNoOther(p, cline, '\n');
    if !inner { TrimmedHasNoReturn(p, cline); }
    if line == "" || line[0] == '#' {
      BlankOrHash(line, inner);
      AppendKeepsComments(p.store.order, CommentLine(line), inner);
    } else if line[|line| - 1] != '\\' {
      DefineKeepsComments(p, line, inner);
    }
  }

  lemma TrimmedHasNoReturn(p: ParseState, cline: string)
    requires '\r' !in Carried(p) && '\r' !in RTrim(cline, "\n\r")
    ensures '\r' !in Logical(p, cline)
  {
    TrimHasNoOther(Carried(p) + RTrim(cline, "\n\r"), BLANKS, '\r');
  }

  lemma BlankOrHash(line: string, inner: bool)
    requires (line == "" || line[0] == '#') && Trimmed(line, BLANKS) && '\n' !in line && (inner || '\r' !in line)
    ensures ReadComment(line, inner)
  {
  }

  lemma AppendKeepsComments(order: seq<ConfLine>, l: ConfLine, inner: bool)
    requires CommentsRead(order, inner) && (l.Comment? || l.VarComment? ==> ReadComment(l.text, inner))
    ensures CommentsRead(order + [l], inner)
  {
  }

  lemma DefineKeepsComments(p: ParseState, line: string, inner: bool)
    requires SectionsListed(p.store) && CommentsRead(p.store.order, inner)
    requires line != "" && Trimmed(line, BLANKS) && '\n' !in line && (inner || '\r' !in line) && line[|line| - 1] != '\\'
    ensures CommentsRead(Define(p, line).store.order, inner)
  {
    hide ISet, Trim, IndexOf, SectionsListed;
    if line[0] == '[' {
    } else if !DefinesVar(line) {
      AppendKeepsComments(p.store.order, Comment(line), inner);
    } else {
      var eq := IndexOf(line, '=');
      ISetKeepsComments(p.store, Trim(line[..eq], BLANKS), Trim(line[eq + 1..], BLANKS), p.section, true, inner);
    }
  }

  lemma {:induction false} AtEofKeepsComments(p: ParseState, cline: string, inner: bool)
    requires SectionsListed(p.store) && CommentsRead(p.store.order, inner) && '\n' !in Carried(p) && '\n' !in cline
    requires inner || ('\r' !in Carried(p) && '\r' !in RTrim(cline, "\n\r"))
    ensures CommentsRead(AtEof(p, cline).order, inner)
    decreases |Carried(p)| + |cline|
  {
    StepKeepsComments(p, cline, true, inner);
    var (q, stop) := Step(p, cline, true);
    if !stop { AtEofKeepsComments(q, "", inner); }
  }

  lemma {:induction false} RunKeepsComments(p: ParseState, text: string, inner: bool)
    requires SectionsListed(p.store) && CommentsRead(p.store.order, inner) && '\n' !in Carried(p)
    requires inner || ('\r' !in Carried(p) && ReturnsAtEnds(text))
    ensures CommentsRead(Run(p, text).order, inner)
    decreases |text|
  {
    hide Step, AtEof, CommentsRead, SectionsListed, Carried;
    var e := IndexOf(text, '\n');
    assert text[..|text|] == text;
    if e < |text| {
      StepKeepsComments(p, text[..e], false, inner);
      RunKeepsComments(Step(p, text[..e], false).0, text[e + 1..], inner);
    } else {
      AtEofKeepsComments(p, text, inner);
    }
  }

  /** What any text leaves as comments, and what a text leaves whose carriage returns are all at line ends. */
  lemma ParseKeepsComments(text: string)
    ensures CommentsRead(Parse(text).order, true)
    ensures ReturnsAtEnds(text) ==> CommentsRead(Parse(text).order, false)
  {
    RunKeepsComments(Fresh(EMPTY), text, true);
    if ReturnsAtEnds(text) { RunKeepsComments(Fresh(EMPTY), text, false); }
  }

  /** A comment that was read is read as a comment again if and only if it hides no backslash. */
  lemma ReadAgainExactly(t: string)
    requires ReadComment(t, true)
    ensures CommentOk(t) <==> !HidesBackslash(t)
  {
    hide Trim, RTrim, IndexOf;
    var r := RTrim(t, "\n\r");
    if t != "" && r != "" {
      TrimKeepsHead(r, BLANKS);
      var l := Trim(r, BLANKS);
      assert l <= t && l[0] == t[0];
      if t[0] != '#' && DefinesVar(l) { DefinesMore(t, l); }
    } else {
      TrimmedStays("", BLANKS);
    }
  }

  lemma DefinesMore(t: string, l: string)
    requires l <= t && DefinesVar(l)
    ensures DefinesVar(t)
  {
    hide Trim, IndexOf;
    var eq := IndexOf(l, '=');
    IndexOfIs(t, '=', eq);
    assert t[..eq] == l[..eq];
  }

  lemma CommentsOkExactly(order: seq<ConfLine>)
    requires CommentsRead(order, true)
    ensures CommentsOk(order) <==> NoneHidden(order)
  {
    hide CommentOk, HidesBackslash, ReadComment;
    forall i | 0 <= i < |order| && (order[i].Comment? || order[i].VarComment?)
      ensures CommentOk(order[i].text) <==> !HidesBackslash(order[i].text)
    {
      ReadAgainExactly(order[i].text);
    }
  }

  /** Without carriage returns in the comments, nothing is hidden. */
  lemma NoReturnsNoneHidden(order: seq<ConfLine>)
    requires CommentsRead(order, false)
    ensures NoneHidden(order)
  {
    forall i | 0 <= i < |order| && (order[i].Comment? || order[i].VarComment?) ensures !HidesBackslash(order[i].text) {
      var t := order[i].text;
      assert RTrim(t, "\n\r") == t;
      TrimmedStays(t, BLANKS);
    }
  }
}
