/** What write() keeps beside the values: comments, section headers and the order of all lines. */
module ConfKept {
  import opened Strings
  import opened ConfStore
  import opened ConfInvariants
  import opened ConfRoundTrip
  import opened ConfReach

  /** A comment line on its second reading. Without carriage returns it is the line itself. */
  function Again(t: string): string { Trim(RTrim(t, "\n\r"), BLANKS) }

  lemma AgainIsSame(t: string)
    requires ReadComment(t, false)
    ensures Again(t) == t
  {
    assert RTrim(t, "\n\r") == t;
    TrimmedStays(t, BLANKS);
  }

  function KeptComment(t: string): ConfLine {
    var l := Again(t);
    if l == "" || l[0] == '#' then CommentLine(l) else Comment(l)
  }

  /** No line above i is for the variable. */
  ghost predicate FirstLine(order: seq<ConfLine>, i: nat, nm: string, sk: string) {
    forall j :: 0 <= j < i ==> !LineFor(order, j, nm, sk)
  }

  /** Line i of the list, as it is when it has been written and read: comments stay, headers of sections that are gone
      go, and so do lines of variables that are gone, or have a line above. */
  ghost function KeptLine(st: Store, i: nat): seq<ConfLine>
    requires i < |st.order|
  {
    match st.order[i]
    case Comment(t) => [KeptComment(t)]
    case VarComment(t, _) => [KeptComment(t)]
    case Section(n) => if n in st.submaps then [Section(n)] else []
    case Var(n, _) =>
      var sk := SectionAt(st.order, i);
      if Lookup(st.submaps, n, sk).Some? && FirstLine(st.order, i, n, sk) then [Var(n, Lookup(st.submaps, n, sk).value)] else []
  }

  ghost function Kept(st: Store, k: nat): seq<ConfLine>
    requires k <= |st.order|
  {
    if k == 0 then [] else Kept(st, k - 1) + KeptLine(st, k - 1)
  }

  // ----- One line -----

  lemma CommentKept(p: ParseState, t: string)
    requires SectionsListed(p.store) && CommentOk(t) && !p.appending
    ensures Feed(p, t + "\n").store == p.store.(order := p.store.order + [KeptComment(t)])
  {
    hide SectionsListed, Feed, CommentLine, Trim, RTrim, IndexOf, ISet;
    FeedOneLine(p, t);
    assert Carried(p) + RTrim(t, "\n\r") == RTrim(t, "\n\r");
  }

  lemma SectionKept(p: ParseState, sk: string)
    requires SectionsListed(p.store) && WfSection(sk) && !p.appending
    ensures Feed(p, "[" + sk + "]\n").store == p.store.(order := p.store.order + [Section(sk)])
  {
    hide SectionsListed, Feed, Trim, IndexOf, ISet;
    var line := "[" + sk + "]";
    assert line + "\n" == "[" + sk + "]\n";
    FeedOneLine(p, line);
    assert RTrim(line, "\n\r") == line;
    assert Carried(p) + line == line;
    TrimmedStays(line, BLANKS);
    if sk == "" { TrimBlank(line, "[] \t"); } else { TrimAround("[", sk, "]", "[] \t"); }
  }

  // ----- The whole list -----

  /** What was read holds nothing but variables with a line, and its section has a header. */
  ghost predicate Behind(q: ParseState, st: Store, k: nat)
    requires k <= |st.order|
  {
    q.store.order == Kept(st, k) && (q.section != "" ==> Section(q.section) in q.store.order) &&
    forall nm, sk :: Lookup(q.store.submaps, nm, sk).Some? ==> !FirstLine(st.order, k, nm, sk)
  }

  lemma VarKept(q: ParseState, st: Store, k: nat, nm: string, v: string)
    requires k < |st.order| && Tracks(q, st, k) && Behind(q, st, k) && WfEntries(st.submaps)
    requires st.order[k].IsVar(nm) && Lookup(st.submaps, nm, SectionAt(st.order, k)) == Some(v)
    ensures Behind(Feed(q, PrintVar(nm, v)), st, k + 1)
  {
    hide Feed, PrintVar, SectionsListed, WfEntries;
    var sk := SectionAt(st.order, k);
    assert sk in st.submaps && q.section == sk;
    assert WfName(nm) && WfValue(v) by { StoredIsWf(st.submaps, nm, sk); }
    PrintedVarReads(q, nm, v);
    assert !HasLineBreak(v);
    var r := Feed(q, PrintVar(nm, v));
    assert r.store == ISet(q.store, nm, v, sk, true);
    assert LineFor(st.order, k, nm, sk);
    if FirstLine(st.order, k, nm, sk) {
      assert Lookup(q.store.submaps, nm, sk).None?;
    } else {
      var j :| 0 <= j < k && LineFor(st.order, j, nm, sk);
    }
    forall n, s | Lookup(r.store.submaps, n, s).Some? ensures !FirstLine(st.order, k + 1, n, s) {
      if (n, s) != (nm, sk) { assert Lookup(q.store.submaps, n, s).Some?; }
    }
  }

  lemma StoredIsWf(m: Submaps, nm: string, sk: string)
    requires WfEntries(m) && Lookup(m, nm, sk).Some?
    ensures WfName(nm) && WfSection(sk) && WfValue(Lookup(m, nm, sk).value)
  {
  }

  /** A line that defines nothing. */
  lemma BehindOther(q: ParseState, st: Store, k: nat, q': ParseState, more: seq<ConfLine>)
    requires k < |st.order| && Behind(q, st, k) && q'.store.submaps == q.store.submaps
    requires q'.store.order == q.store.order + more && more == KeptLine(st, k)
    requires q'.section == q.section || Section(q'.section) in more
    ensures Behind(q', st, k + 1)
  {
    hide KeptLine, LineFor;
  }

  lemma LineKept(q: ParseState, st: Store, k: nat)
    requires k < |st.order| && Tracks(q, st, k) && Behind(q, st, k)
    requires WfEntries(st.submaps) && NoEmptySection(st.submaps) && CommentsOk(st.order)
    ensures Behind(Feed(q, PrintLine(st.submaps, st.order[k], SectionAt(st.order, k + 1))), st, k + 1)
  {
    hide Feed, SectionsListed, CommentOk, PrintVar, Behind, KeptComment, WfEntries;
    var sk := SectionAt(st.order, k + 1);
    match st.order[k]
    case Comment(t) =>
      CommentKept(q, t);
      PrintedCommentReads(q, t);
      BehindOther(q, st, k, Feed(q, t + "\n"), [KeptComment(t)]);
    case VarComment(t, _) =>
      CommentKept(q, t);
      PrintedCommentReads(q, t);
      BehindOther(q, st, k, Feed(q, t + "\n"), [KeptComment(t)]);
    case Section(n) =>
      if n in st.submaps {
        SectionIsWf(st.submaps, n);
        SectionKept(q, n);
        PrintedSectionReads(q, n);
        BehindOther(q, st, k, Feed(q, "[" + n + "]\n"), [Section(n)]);
      } else {
        FeedNothing(q);
        BehindOther(q, st, k, q, []);
      }
    case Var(n, _) =>
      assert SectionAt(st.order, k) == sk;
      match Lookup(st.submaps, n, sk) {
        case Some(v) => VarKept(q, st, k, n, v);
        case None =>
          FeedNothing(q);
          BehindOther(q, st, k, q, []);
      }
  }

  lemma {:induction false} WrittenKept(st: Store, k: nat)
    requires k <= |st.order|
    requires WfEntries(st.submaps) && NoEmptySection(st.submaps) && CommentsOk(st.order)
    ensures SectionsListed(EMPTY) && Behind(Feed(Fresh(EMPTY), Written(st, k)), st, k)
  {
    hide Feed, PrintLine, CommentsOk, NoEmptySection, WfEntries, Behind, Tracks, SectionsListed;
    EmptyIsListed();
    if k == 0 {
      FeedNothing(Fresh(EMPTY));
      NothingBehind(st);
    } else {
      WrittenKept(st, k - 1);
      WrittenTracks(st, k - 1);
      var line := PrintLine(st.submaps, st.order[k - 1], SectionAt(st.order, k));
      FeedTwice(Fresh(EMPTY), Written(st, k - 1), line);
      LineKept(Feed(Fresh(EMPTY), Written(st, k - 1)), st, k - 1);
    }
  }

  lemma NothingBehind(st: Store)
    ensures Behind(Fresh(EMPTY), st, 0)
  {
  }

  /** Reading back gives the same values, and the list with all its comments and with what is stored, in its order. */
  lemma WrittenReadsExactly(st: Store)
    requires Sound(st) && CommentsOk(st.order) && WfEntries(st.submaps)
    ensures Parse(Write(st)) == Store(st.submaps, Kept(st, |st.order|))
  {
    hide Feed, Run, CommentsOk, WfEntries, Tracks;
    var n := |st.order|;
    WrittenReadsBack(st);
    WrittenKept(st, n);
    WrittenTracks(st, n);
    var q := Feed(Fresh(EMPTY), Write(st));
    assert Tracks(q, st, n);
    RunAfterFeed(Fresh(EMPTY), Write(st), "");
    assert Write(st) + "" == Write(st);
    TracksIsDone(q, st);
    RunNothing(q);
  }

  lemma TracksIsDone(q: ParseState, st: Store)
    requires Tracks(q, st, |st.order|)
    ensures SectionsListed(q.store) && !q.appending
  {
  }

  // ----- Comments -----

  function CommentTexts(order: seq<ConfLine>): seq<string> {
    if order == [] then []
    else
      var l := order[|order| - 1];
      CommentTexts(order[..|order| - 1]) + if l.Comment? || l.VarComment? then [l.text] else []
  }

  function AgainAll(ts: seq<string>): (r: seq<string>)
    ensures |r| == |ts| && forall i :: 0 <= i < |ts| ==> r[i] == Again(ts[i])
  {
    seq(|ts|, i requires 0 <= i < |ts| => Again(ts[i]))
  }

  lemma {:induction false} CommentTextsConcat(a: seq<ConfLine>, b: seq<ConfLine>)
    ensures CommentTexts(a + b) == CommentTexts(a) + CommentTexts(b)
    decreases |b|
  {
    if b == [] {
      assert a + b == a;
    } else {
      var n := |b| - 1;
      CommentTextsConcat(a, b[..n]);
      assert (a + b)[..|a + b| - 1] == a + b[..n];
    }
  }

  lemma {:induction false} KeptComments(st: Store, k: nat)
    requires k <= |st.order|
    ensures CommentTexts(Kept(st, k)) == AgainAll(CommentTexts(st.order[..k]))
  {
    if k > 0 {
      hide Again;
      KeptComments(st, k - 1);
      CommentTextsConcat(Kept(st, k - 1), KeptLine(st, k - 1));
      assert st.order[..k][..k - 1] == st.order[..k - 1];
      OneKept(st, k - 1);
      hide KeptLine;
    }
  }

  lemma OneKept(st: Store, i: nat)
    requires i < |st.order|
    ensures CommentTexts(KeptLine(st, i)) ==
      if st.order[i].Comment? || st.order[i].VarComment? then [Again(st.order[i].text)] else []
  {
    hide Again;
    var l := KeptLine(st, i);
    if l != [] { assert l[..|l| - 1] == []; }
  }

  lemma {:induction false} CommentTextsRead(order: seq<ConfLine>)
    requires CommentsRead(order, false)
    ensures AgainAll(CommentTexts(order)) == CommentTexts(order)
  {
    if order != [] {
      hide Again, ReadComment;
      var n := |order| - 1;
      CommentTextsRead(order[..n]);
      if order[n].Comment? || order[n].VarComment? { AgainIsSame(order[n].text); }
    }
  }

  /** A reached store keeps its comments when it is written and read: the same texts in the same order, but for the
      carriage returns and blanks at their ends. */
  lemma CommentsSurvive(st: Store, text: string, ops: seq<Op>)
    requires Reached(st, text, ops) && NoneHidden(st.order) && WfEntries(st.submaps)
    ensures CommentTexts(Parse(Write(st)).order) == AgainAll(CommentTexts(st.order))
    ensures LineEndsOnly(text, ops) ==> CommentTexts(Parse(Write(st)).order) == CommentTexts(st.order)
  {
    hide Reached, LineEndsOnly, CommentsRead, NoneHidden, WfEntries, CommentsOk, Parse, Write, Sound, Kept, Again;
    ReachedIsSound(st, text, ops);
    CommentsOkExactly(st.order);
    WrittenReadsExactly(st);
    KeptComments(st, |st.order|);
    assert st.order[..|st.order|] == st.order;
    if LineEndsOnly(text, ops) { CommentTextsRead(st.order); }
  }

  // ----- Where the lines stand in the file -----

  /** Line i of the list starts here in the file. */
  function Place(st: Store, i: nat): nat
    requires i <= |st.order|
  {
    |Written(st, i)|
  }

  lemma {:induction false} WrittenGrows(st: Store, i: nat, k: nat)
    requires i <= k <= |st.order|
    ensures Place(st, i) <= Place(st, k) && Written(st, i) == Written(st, k)[..Place(st, i)]
    decreases k
  {
    if i < k { WrittenGrows(st, i, k - 1); }
  }

  /** In the file, comments and stored variables stand one behind the other in list order: a comment as it is, a variable
      from its name on, the value with it when the line is short. */
  lemma StandsInFile(st: Store, i: nat)
    requires i < |st.order|
    ensures Place(st, i) <= Place(st, i + 1) <= |Write(st)|
    ensures var piece := Write(st)[Place(st, i)..Place(st, i + 1)];
      match st.order[i]
      case Comment(t) => piece == t + "\n"
      case VarComment(t, _) => piece == t + "\n"
      case Section(n) => piece == if n in st.submaps then "[" + n + "]\n" else ""
      case Var(n, _) =>
        match Lookup(st.submaps, n, SectionAt(st.order, i))
        case None => piece == ""
        case Some(v) => n != "" ==> n + " = " <= piece && (|n| + |v| < 75 ==> piece == n + " = " + v + "\n")
  {
    hide Fold;
    WrittenGrows(st, i, |st.order|);
    WrittenGrows(st, i + 1, |st.order|);
    assert Written(st, i + 1) == Written(st, i) + PrintLine(st.submaps, st.order[i], SectionAt(st.order, i + 1));
    assert Write(st)[Place(st, i)..Place(st, i + 1)] == Written(st, i + 1)[Place(st, i)..];
  }
}
