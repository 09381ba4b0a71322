/** Reading back what write() prints. */
module ConfRoundTrip {
  import opened Strings
  import opened ConfStore
  import opened ConfInvariants

  // ----- Parsing complete lines -----

  /** The parser state after the complete lines of text. */
  function Feed(p: ParseState, text: string): (r: ParseState)
    requires SectionsListed(p.store)
    ensures SectionsListed(r.store)
    decreases |text|
  {
    var e := IndexOf(text, '\n');
    if e < |text| then Feed(Step(p, text[..e], false).0, text[e + 1..]) else p
  }

  ghost predicate WholeLines(text: string) { text != "" ==> text[|text| - 1] == '\n' }

  lemma FirstLineOfConcat(a: string, b: string)
    requires a != "" && WholeLines(a)
    ensures IndexOf(a + b, '\n') == IndexOf(a, '\n') < |a|
    ensures (a + b)[..IndexOf(a, '\n')] == a[..IndexOf(a, '\n')]
    ensures (a + b)[IndexOf(a, '\n') + 1..] == a[IndexOf(a, '\n') + 1..] + b
  {
    IndexOfIs(a + b, '\n', IndexOf(a, '\n'));
  }

  lemma {:induction false} RunAfterFeed(p: ParseState, a: string, b: string)
    requires SectionsListed(p.store) && WholeLines(a)
    ensures Run(p, a + b) == Run(Feed(p, a), b)
    decreases |a|
  {
    hide Step, SectionsListed;
    if a == "" {
      assert a + b == b;
    } else {
      FirstLineOfConcat(a, b);
      var e := IndexOf(a, '\n');
      RunAfterFeed(Step(p, a[..e], false).0, a[e + 1..], b);
    }
  }

  lemma {:induction false} FeedTwice(p: ParseState, a: string, b: string)
    requires SectionsListed(p.store) && WholeLines(a)
    ensures Feed(p, a + b) == Feed(Feed(p, a), b)
    decreases |a|
  {
    hide Step, SectionsListed;
    if a == "" {
      assert a + b == b;
    } else {
      FirstLineOfConcat(a, b);
      var e := IndexOf(a, '\n');
      FeedTwice(Step(p, a[..e], false).0, a[e + 1..], b);
    }
  }

  lemma FeedOneLine(p: ParseState, line: string)
    requires SectionsListed(p.store) && '\n' !in line
    ensures Feed(p, line + "\n") == Step(p, line, false).0
  {
    hide Step, SectionsListed;
    IndexOfIs(line + "\n", '\n', |line|);
    assert (line + "\n")[..|line|] == line;
    assert (line + "\n")[|line| + 1..] == "";
  }

  lemma FeedFirst(p: ParseState, line: string, rest: string)
    requires SectionsListed(p.store) && '\n' !in line
    ensures Feed(p, line + "\n" + rest) == Feed(Step(p, line, false).0, rest)
  {
    hide Step, SectionsListed, Feed;
    FeedTwice(p, line + "\n", rest);
    FeedOneLine(p, line);
  }

  // ----- A printed variable reads back -----

  /** What may stand in front of the equal sign of a line that is not a # comment: a name, or a name behind the text that
      an earlier line carries over. */
  ghost predicate Heads(h: string) { h != "" && h[0] !in BLANKS && h[0] != '#' && '\n' !in h }

  lemma NamesHead(nm: string)
    requires WfName(nm)
    ensures Heads(nm)
  {
  }

  /** The trimmed text of a printed variable. */
  function Defining(h: string, v: string): string { h + (if v == "" then " =" else " = " + v) }

  lemma DefiningIsTrimmed(h: string, v: string)
    requires Heads(h) && WfValue(v)
    ensures Trim(h + " = " + v, BLANKS) == Defining(h, v)
    ensures var line := Defining(h, v); line[0] == h[0] && line[|line| - 1] != '\\'
  {
    hide Trim;
    var line := Defining(h, v);
    if v == "" {
      TrimAround("", line, " ", BLANKS);
      assert "" + line + " " == h + " = " + v;
    } else {
      TrimmedStays(line, BLANKS);
      assert line == h + " = " + v;
    }
  }

  lemma DefiningSplits(nm: string, v: string)
    requires WfName(nm) && WfValue(v)
    ensures var line := Defining(nm, v); var eq := IndexOf(line, '=');
      eq == |nm| + 1 && Trim(line[..eq], BLANKS) == nm && Trim(line[eq + 1..], BLANKS) == v
  {
    hide Trim, IndexOf;
    var line := Defining(nm, v);
    var eq := |nm| + 1;
    IndexOfIs(line, '=', eq);
    TrimAround("", nm, " ", BLANKS);
    assert line[..eq] == "" + nm + " ";
    if v == "" {
      assert line[eq + 1..] == "";
      TrimmedStays("", BLANKS);
    } else {
      TrimAround(" ", v, "", BLANKS);
      assert line[eq + 1..] == " " + v + "";
    }
  }

  lemma DefinitionOf(p: ParseState, nm: string, v: string)
    requires SectionsListed(p.store) && WfName(nm) && WfValue(v)
    ensures var line := Defining(nm, v);
      Define(p, line) == ParseState(ISet(p.store, nm, v, p.section, true), p.section, false, line)
  {
    hide ISet, SectionsListed, Trim, IndexOf;
    DefiningSplits(nm, v);
    assert Defining(nm, v)[0] == nm[0];
  }

  /** The last physical line of a printed variable. */
  lemma LastPieceReads(p: ParseState, pre: string, h: string, v: string)
    requires SectionsListed(p.store) && Heads(h) && WfValue(v)
    requires Carried(p) + pre == h + " = " + v && '\n' !in pre
    ensures Step(p, pre, false).0 == Define(p, Defining(h, v))
  {
    hide SectionsListed, Define, Trim, Carried, Heads;
    RTrimNothing(p, pre, h, v);
    DefiningIsTrimmed(h, v);
    assert Defining(h, v)[0] != '#' by { NotHash(h, v); }
  }

  lemma NotHash(h: string, v: string)
    requires Heads(h)
    ensures Defining(h, v)[0] == h[0] != '#'
  {
  }

  lemma RTrimNothing(p: ParseState, pre: string, h: string, v: string)
    requires Carried(p) + pre == h + " = " + v && WfValue(v)
    ensures RTrim(pre, "\n\r") == pre
  {
    hide Carried, Trimmed;
    var whole := h + " = " + v;
    if pre != "" {
      assert pre[|pre| - 1] == whole[|whole| - 1];
      assert v != "" ==> whole[|whole| - 1] == v[|v| - 1];
    }
  }

  /** A physical line that the printer ended with a backslash. */
  lemma FoldedPieceReads(p: ParseState, pre: string, whole: string)
    requires SectionsListed(p.store)
    requires Carried(p) + pre == whole && whole != "" && whole[0] !in BLANKS && whole[0] != '#'
    ensures Step(p, pre + "\\", false).0 == p.(appending := true, line := whole)
  {
    hide SectionsListed, Define, Trim;
    assert RTrim(pre + "\\", "\n\r") == pre + "\\";
    assert Carried(p) + (pre + "\\") == whole + "\\";
    TrimmedStays(whole + "\\", BLANKS);
    assert (whole + "\\")[..|whole|] == whole;
  }

  /** Feeding text sets the variable, and nothing else. */
  ghost predicate ReadsAs(p: ParseState, text: string, nm: string, v: string)
    requires SectionsListed(p.store)
  {
    var q := Feed(p, text);
    q.store == ISet(p.store, nm, v, p.section, true) && q.section == p.section && !q.appending
  }

  predicate Breaks(v: string, pos: nat, ll: nat)
    requires pos < |v|
  {
    ll + 1 > 50 && |v| - pos > 10 && v[pos] in BLANKS
  }

  lemma RejoinBroken(pre: string, c: char, f: string)
    ensures pre + ([c] + "\\\n" + f) + "\n" == (pre + [c] + "\\") + "\n" + ("" + f + "\n")
  {
  }

  lemma RejoinPlain(pre: string, c: char, f: string)
    ensures pre + ([c] + f) + "\n" == (pre + [c]) + f + "\n"
  {
  }

  lemma FoldTexts(carried: string, pre: string, nm: string, v: string, pos: nat, ll: nat)
    requires pos < |v| && carried + pre == nm + " = " + v[..pos]
    ensures carried + (pre + [v[pos]]) == nm + " = " + v[..pos + 1]
    ensures Breaks(v, pos, ll) ==>
      pre + Fold(v, pos, ll) + "\n" == (pre + [v[pos]] + "\\") + "\n" + ("" + Fold(v, pos + 1, 0) + "\n")
    ensures !Breaks(v, pos, ll) ==>
      pre + Fold(v, pos, ll) + "\n" == (pre + [v[pos]]) + Fold(v, pos + 1, ll + 1) + "\n"
  {
    assert v[..pos + 1] == v[..pos] + [v[pos]];
    assert carried + (pre + [v[pos]]) == carried + pre + [v[pos]];
    if Breaks(v, pos, ll) {
      RejoinBroken(pre, v[pos], Fold(v, pos + 1, 0));
    } else {
      RejoinPlain(pre, v[pos], Fold(v, pos + 1, ll + 1));
    }
  }

  /** However the printer broke the value, the pieces are one logical line again. */
  lemma {:induction false} FoldReads(p: ParseState, pre: string, h: string, v: string, pos: nat, ll: nat)
    requires SectionsListed(p.store) && Heads(h) && WfValue(v) && pos <= |v|
    requires Carried(p) + pre == h + " = " + v[..pos] && '\n' !in pre
    ensures Feed(p, pre + Fold(v, pos, ll) + "\n") == Define(p, Defining(h, v))
    decreases |v| - pos
  {
    hide Define, SectionsListed, Step, Feed, Heads, WfValue;
    if pos == |v| {
      assert v[..pos] == v;
      assert pre + Fold(v, pos, ll) + "\n" == pre + "\n";
      FeedOneLine(p, pre);
      LastPieceReads(p, pre, h, v);
      return;
    }
    hide Fold;
    FoldTexts(Carried(p), pre, h, v, pos, ll);
    ValueHasNoBreak(v);
    var piece := pre + [v[pos]];
    if Breaks(v, pos, ll) {
      var whole := h + " = " + v[..pos + 1];
      WholeHeads(h, whole);
      FeedFirst(p, piece + "\\", "" + Fold(v, pos + 1, 0) + "\n");
      FoldedPieceReads(p, piece, whole);
      var q := p.(appending := true, line := whole);
      FoldReads(q, "", h, v, pos + 1, 0);
      DefineForgets(p, q, Defining(h, v));
    } else {
      FoldReads(p, piece, h, v, pos + 1, ll + 1);
    }
  }

  lemma ValueHasNoBreak(v: string)
    requires WfValue(v)
    ensures '\n' !in v
  {
  }

  lemma WholeHeads(h: string, whole: string)
    requires Heads(h) && h <= whole
    ensures whole != "" && whole[0] !in BLANKS && whole[0] != '#'
  {
  }

  /** A complete line does the same whatever was carried. */
  lemma DefineForgets(p: ParseState, q: ParseState, line: string)
    requires SectionsListed(p.store) && q.store == p.store && q.section == p.section && line != ""
    ensures Define(p, line) == Define(q, line)
  {
  }

  /** A printed variable, behind what is carried over, is one logical line. */
  lemma PrintedVarJoins(p: ParseState, nm: string, v: string)
    requires SectionsListed(p.store) && WfName(nm) && WfValue(v) && Heads(Carried(p) + nm)
    ensures Feed(p, PrintVar(nm, v)) == Define(p, Defining(Carried(p) + nm, v))
  {
    hide Define, SectionsListed, Feed, Fold, Heads, WfValue;
    var start := nm + " = ";
    var h := Carried(p) + nm;
    if |nm| + |v| < 75 {
      assert v[..|v|] == v;
      ValueHasNoBreak(v);
      FoldReads(p, start + v, h, v, |v|, 0) by { assert Carried(p) + (start + v) == h + " = " + v[..|v|]; }
      FoldAtEnd(v);
      assert start + v + Fold(v, |v|, 0) + "\n" == PrintVar(nm, v);
    } else {
      FoldReads(p, start, h, v, 0, 0) by { assert Carried(p) + start == h + " = " + v[..0]; }
      assert start + Fold(v, 0, 0) + "\n" == PrintVar(nm, v);
    }
  }

  /** Whatever the folding, a well-formed variable reads back as itself. */
  lemma PrintedVarReads(p: ParseState, nm: string, v: string)
    requires SectionsListed(p.store) && WfName(nm) && WfValue(v) && !p.appending
    ensures ReadsAs(p, PrintVar(nm, v), nm, v)
  {
    hide ISet, SectionsListed, Feed, Define, WfName, WfValue;
    NamesHead(nm);
    assert Carried(p) + nm == nm;
    PrintedVarJoins(p, nm, v);
    DefinitionOf(p, nm, v);
  }

  lemma FoldAtEnd(v: string)
    ensures Fold(v, |v|, 0) == ""
  {
  }

  lemma PrintedCommentReads(p: ParseState, t: string)
    requires SectionsListed(p.store) && CommentOk(t) && !p.appending
    ensures var q := Feed(p, t + "\n");
      q.store.submaps == p.store.submaps && q.section == p.section && !q.appending
  {
    hide SectionsListed, Feed, CommentLine, Trim, RTrim, IndexOf, ISet;
    FeedOneLine(p, t);
    assert Carried(p) + RTrim(t, "\n\r") == RTrim(t, "\n\r");
  }

  lemma PrintedSectionReads(p: ParseState, sk: string)
    requires SectionsListed(p.store) && WfSection(sk) && !p.appending
    ensures var q := Feed(p, "[" + sk + "]\n");
      q.store.submaps == p.store.submaps && q.section == sk && !q.appending
  {
    hide SectionsListed, Feed, Trim, IndexOf, ISet;
    var line := "[" + sk + "]";
    assert line + "\n" == "[" + sk + "]\n";
    FeedOneLine(p, line);
    assert RTrim(line, "\n\r") == line;
    assert Carried(p) + line == line;
    TrimmedStays(line, BLANKS);
    if sk == "" { TrimBlank(line, "[] \t"); } else { TrimAround("[", sk, "]", "[] \t"); }
  }

  // ----- A written store reads back -----

  /** The maps read back so far hold nothing foreign... */
  ghost predicate Within(m: Submaps, of: Submaps) {
    forall nm, sk {:trigger Lookup(m, nm, sk)} :: Lookup(m, nm, sk).Some? ==> Lookup(m, nm, sk) == Lookup(of, nm, sk)
  }

  /** ...and miss nothing that the first k lines print. */
  ghost predicate Covered(m: Submaps, st: Store, k: nat)
    requires k <= |st.order|
  {
    forall i, nm, sk :: i < k && LineFor(st.order, i, nm, sk) ==> Lookup(m, nm, sk) == Lookup(st.submaps, nm, sk)
  }

  /** The parser state after reading back the first k lines. Sections that are gone are not printed,
      so the section of the parser only matters when it still exists. */
  ghost predicate Tracks(q: ParseState, st: Store, k: nat)
    requires k <= |st.order|
  {
    !q.appending && SectionsListed(q.store) && NoEmptySection(q.store.submaps) &&
    (SectionAt(st.order, k) in st.submaps || k == 0 ==> q.section == SectionAt(st.order, k)) &&
    Within(q.store.submaps, st.submaps) && Covered(q.store.submaps, st, k)
  }

  lemma ISetReadBack(q: ParseState, st: Store, nm: string, v: string, sk: string)
    requires SectionsListed(q.store) && NoEmptySection(q.store.submaps)
    requires Within(q.store.submaps, st.submaps)
    requires Lookup(st.submaps, nm, sk) == Some(v) && !HasLineBreak(v)
    ensures var r := ISet(q.store, nm, v, sk, true).submaps;
      Within(r, st.submaps) && NoEmptySection(r) && Lookup(r, nm, sk) == Some(v) &&
      forall n, s :: (n, s) != (nm, sk) ==> Lookup(r, n, s) == Lookup(q.store.submaps, n, s)
  {
    var r := ISet(q.store, nm, v, sk, true).submaps;
    forall n, s | Lookup(r, n, s).Some? ensures Lookup(r, n, s) == Lookup(st.submaps, n, s) {
      if (n, s) != (nm, sk) { assert Lookup(r, n, s) == Lookup(q.store.submaps, n, s); }
    }
  }

  lemma PrintLineIsWhole(m: Submaps, l: ConfLine, sk: string)
    ensures WholeLines(PrintLine(m, l, sk))
  {
  }

  lemma VarLineTracks(q: ParseState, st: Store, k: nat, nm: string, v: string)
    requires k < |st.order| && Tracks(q, st, k) && WfEntries(st.submaps)
    requires st.order[k].IsVar(nm) && Lookup(st.submaps, nm, SectionAt(st.order, k)) == Some(v)
    ensures Tracks(Feed(q, PrintVar(nm, v)), st, k + 1)
  {
    hide Feed, PrintVar, ISet, SectionsListed;
    var sk := SectionAt(st.order, k);
    assert SectionAt(st.order, k + 1) == sk;
    assert sk in st.submaps;
    PrintedVarReads(q, nm, v);
    ISetReadBack(q, st, nm, v, sk);
    var r := Feed(q, PrintVar(nm, v));
    forall i, n, s | i < k + 1 && LineFor(st.order, i, n, s)
      ensures Lookup(r.store.submaps, n, s) == Lookup(st.submaps, n, s)
    {
      if (n, s) != (nm, sk) { assert i < k; }
    }
  }

  lemma NoNewCover(m: Submaps, st: Store, k: nat)
    requires k < |st.order| && Covered(m, st, k) && Within(m, st.submaps)
    requires st.order[k].Var? ==> Lookup(st.submaps, st.order[k].name, SectionAt(st.order, k)).None?
    ensures Covered(m, st, k + 1)
  {
    forall i, n, s | i < k + 1 && LineFor(st.order, i, n, s)
      ensures Lookup(m, n, s) == Lookup(st.submaps, n, s)
    {
      if i == k { assert Lookup(m, n, s).Some? ==> Lookup(st.submaps, n, s).Some?; }
    }
  }

  lemma LineTracks(q: ParseState, st: Store, k: nat)
    requires k < |st.order| && Tracks(q, st, k)
    requires WfEntries(st.submaps) && NoEmptySection(st.submaps) && CommentsOk(st.order)
    ensures Tracks(Feed(q, PrintLine(st.submaps, st.order[k], SectionAt(st.order, k + 1))), st, k + 1)
  {
    hide Feed, SectionsListed, CommentOk, PrintVar;
    var sk := SectionAt(st.order, k + 1);
    match st.order[k]
    case Comment(t) =>
      PrintedCommentReads(q, t);
      NoNewCover(q.store.submaps, st, k);
    case VarComment(t, _) =>
      PrintedCommentReads(q, t);
      NoNewCover(q.store.submaps, st, k);
    case Section(n) =>
      NoNewCover(q.store.submaps, st, k);
      if n in st.submaps {
        SectionIsWf(st.submaps, n);
        PrintedSectionReads(q, n);
      } else {
        FeedNothing(q);
      }
    case Var(n, _) =>
      match Lookup(st.submaps, n, sk) {
        case Some(v) => VarLineTracks(q, st, k, n, v);
        case None =>
          NoNewCover(q.store.submaps, st, k);
          FeedNothing(q);
      }
  }

  lemma FeedNothing(q: ParseState)
    requires SectionsListed(q.store)
    ensures Feed(q, "") == q
  {
  }

  lemma SectionIsWf(m: Submaps, sk: string)
    requires WfEntries(m) && NoEmptySection(m) && sk in m
    ensures WfSection(sk)
  {
    var nm :| nm in m[sk];
    assert Lookup(m, nm, sk).Some?;
  }

  lemma {:induction false} WrittenTracks(st: Store, k: nat)
    requires k <= |st.order|
    requires WfEntries(st.submaps) && NoEmptySection(st.submaps) && CommentsOk(st.order)
    ensures WholeLines(Written(st, k))
    ensures Tracks(Feed(Fresh(EMPTY), Written(st, k)), st, k)
  {
    hide Feed, PrintLine, CommentsOk, NoEmptySection, WfEntries;
    if k == 0 {
      FeedNothing(Fresh(EMPTY));
      assert NoEmptySection(EMPTY.submaps) by { NothingIsEmpty(); }
    } else {
      WrittenTracks(st, k - 1);
      var line := PrintLine(st.submaps, st.order[k - 1], SectionAt(st.order, k));
      PrintLineIsWhole(st.submaps, st.order[k - 1], SectionAt(st.order, k));
      FeedTwice(Fresh(EMPTY), Written(st, k - 1), line);
      LineTracks(Feed(Fresh(EMPTY), Written(st, k - 1)), st, k - 1);
    }
  }

  lemma NothingIsEmpty()
    ensures NoEmptySection(EMPTY.submaps)
  {
  }

  lemma SameLookupsSameMaps(a: Submaps, b: Submaps)
    requires NoEmptySection(a) && NoEmptySection(b)
    requires forall nm, sk :: Lookup(a, nm, sk) == Lookup(b, nm, sk)
    ensures a == b
  {
    forall sk ensures (sk in a <==> sk in b) && (sk in a ==> a[sk] == b[sk]) {
      if sk in a { var nm :| nm in a[sk]; assert Lookup(a, nm, sk).Some?; assert Lookup(b, nm, sk).Some?; }
      if sk in b { var nm :| nm in b[sk]; assert Lookup(b, nm, sk).Some?; assert Lookup(a, nm, sk).Some?; }
      if sk in a {
        forall nm ensures (nm in a[sk] <==> nm in b[sk]) && (nm in a[sk] ==> a[sk][nm] == b[sk][nm]) {
          assert Lookup(a, nm, sk) == Lookup(b, nm, sk);
        }
        assert a[sk] == b[sk];
      }
    }
  }

  /** Well-formed entries survive a write and a parse. */
  lemma WrittenReadsBack(st: Store)
    requires Sound(st) && CommentsOk(st.order) && WfEntries(st.submaps)
    ensures Parse(Write(st)).submaps == st.submaps
  {
    hide Feed, Run, CommentsOk, WfEntries, Lookup;
    var n := |st.order|;
    WrittenTracks(st, n);
    var q := Feed(Fresh(EMPTY), Write(st));
    RunAfterFeed(Fresh(EMPTY), Write(st), "");
    assert Write(st) + "" == Write(st);
    RunNothing(q);
    forall nm, sk ensures Lookup(q.store.submaps, nm, sk) == Lookup(st.submaps, nm, sk) {
      if Lookup(st.submaps, nm, sk).Some? {
        assert HasLine(st.order, nm, sk);
      }
    }
    SameLookupsSameMaps(q.store.submaps, st.submaps);
  }

  lemma RunNothing(q: ParseState)
    requires SectionsListed(q.store) && !q.appending
    ensures Run(q, "") == q.store
  {
    hide Define, SectionsListed, Trim, CommentLine;
    TrimmedStays("", BLANKS);
  }

  /** The store reads back unchanged exactly when each stored name, section and value is one that can
      stand in a file. */
  lemma RoundTripExactly(st: Store)
    requires Sound(st) && CommentsOk(st.order)
    ensures Parse(Write(st)).submaps == st.submaps <==> WfEntries(st.submaps)
  {
    if WfEntries(st.submaps) { WrittenReadsBack(st); }
    ParseIsSound(Write(st));
  }
}
