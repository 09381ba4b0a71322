/** Comments that hide a backslash behind carriage returns: how a written store loses the variable that stands behind
    one. */
module ConfHidden {
  import opened Strings
  import opened ConfStore
  import opened ConfInvariants
  import opened ConfRoundTrip
  import opened ConfReach

  /** What such a comment carries over when it is read again. */
  function CarriedOver(t: string): string {
    var l := Trim(RTrim(t, "\n\r"), BLANKS);
    if l == "" then "" else l[..|l| - 1]
  }

  lemma CarriedHeads(t: string, nm: string)
    requires ReadComment(t, true) && HidesBackslash(t) && CarriedOver(t) != "" && WfName(nm)
    ensures Heads(CarriedOver(t) + nm) && CarriedOver(t) <= t && CarriedOver(t)[0] == t[0]
  {
    TrimKeepsHead(RTrim(t, "\n\r"), BLANKS);
  }

  /** The comment, as the next reading sees it. */
  lemma ReadAgain(q: ParseState, t: string)
    requires !q.appending && ReadComment(t, true) && HidesBackslash(t)
    ensures Logical(q, t) == CarriedOver(t) + "\\" && Logical(q, t)[0] != '#'
  {
    hide Trim, RTrim, DefinesVar;
    var r := RTrim(t, "\n\r");
    assert Carried(q) + r == r;
    TrimmedStays("", BLANKS);
    assert r != "" && r[0] == t[0];
    TrimKeepsHead(r, BLANKS);
  }

  /** The parser takes the comment for the start of a line. */
  lemma HiddenReads(q: ParseState, t: string)
    requires SectionsListed(q.store) && !q.appending && ReadComment(t, true) && HidesBackslash(t)
    ensures Feed(q, t + "\n") == q.(appending := true, line := CarriedOver(t))
  {
    hide SectionsListed, Feed, Step, CarriedOver, HidesBackslash, Logical;
    FeedOneLine(q, t);
    ReadAgain(q, t);
    StepUnfolds(q, t, false);
    assert (CarriedOver(t) + "\\")[..|CarriedOver(t)|] == CarriedOver(t);
  }

  /** What is defined behind the comment has a longer name, or none. */
  lemma OtherName(t: string, n: string, v: string)
    requires ReadComment(t, true) && HidesBackslash(t) && CarriedOver(t) != "" && WfName(n) && WfValue(v)
    ensures var line := Defining(CarriedOver(t) + n, v); var name := Trim(line[..IndexOf(line, '=')], BLANKS);
      line[0] != '[' && (name == "" || |name| > |n|)
  {
    hide Trim, RTrim, IndexOf, WfValue;
    CarriedHeads(t, n);
    var x := CarriedOver(t);
    var line := Defining(x + n, v);
    NotHash(x + n, v);
    if '=' in x {
      var eq := IndexOf(t, '=');
      IndexOfPrefix(t, x, '=');
      IndexOfIs(line, '=', eq);
      assert line[..eq] == t[..eq];
    } else {
      var eq := |x + n| + 1;
      IndexOfIs(line, '=', eq);
      TrimAround("", x + n, " ", BLANKS);
      assert line[..eq] == "" + (x + n) + " ";
    }
  }

  lemma IndexOfPrefix(t: string, x: string, c: char)
    requires x <= t && c in x
    ensures IndexOf(t, c) < |x|
  {
  }

  /** The variable n behind the comment is not read, nor is any other whose name is not longer, and the parser is where
      it was. */
  lemma VariableJoined(q: ParseState, t: string, n: string, v: string, nm: string, sk: string)
    requires SectionsListed(q.store) && !q.appending && ReadComment(t, true) && HidesBackslash(t) && CarriedOver(t) != ""
    requires WfName(n) && WfValue(v) && nm != "" && |nm| <= |n| && Lookup(q.store.submaps, nm, sk).None?
    ensures var r := Feed(q, t + "\n" + PrintVar(n, v));
      Lookup(r.store.submaps, nm, sk).None? && r.section == q.section && !r.appending
  {
    hide SectionsListed, Feed, PrintVar, Trim, IndexOf, HidesBackslash, WfName, WfValue;
    HiddenReads(q, t);
    FeedTwice(q, t + "\n", PrintVar(n, v));
    CarriedHeads(t, n);
    OtherName(t, n, v);
    PrintedVarJoins(Feed(q, t + "\n"), n, v);
  }

  // ----- The rest of the list -----

  /** The parser state before line k, as far as it matters for a variable that has not been read. */
  ghost predicate Without(q: ParseState, st: Store, k: nat, nm: string, sk: string)
    requires k <= |st.order|
  {
    !q.appending && SectionsListed(q.store) && Lookup(q.store.submaps, nm, sk).None? &&
    (SectionAt(st.order, k) in st.submaps || k == 0 ==> q.section == SectionAt(st.order, k))
  }

  lemma LineStaysWithout(q: ParseState, st: Store, k: nat, nm: string, sk: string)
    requires k < |st.order| && Without(q, st, k, nm, sk) && WfEntries(st.submaps) && NoEmptySection(st.submaps)
    requires !LineFor(st.order, k, nm, sk)
    requires st.order[k].Comment? || st.order[k].VarComment? ==> CommentOk(st.order[k].text)
    ensures Without(Feed(q, PrintLine(st.submaps, st.order[k], SectionAt(st.order, k + 1))), st, k + 1, nm, sk)
  {
    hide Feed, SectionsListed, CommentOk, PrintVar, ISet;
    var s := SectionAt(st.order, k + 1);
    match st.order[k]
    case Comment(t) => PrintedCommentReads(q, t);
    case VarComment(t, _) => PrintedCommentReads(q, t);
    case Section(n) =>
      if n in st.submaps {
        SectionIsWf(st.submaps, n);
        PrintedSectionReads(q, n);
      } else {
        FeedNothing(q);
      }
    case Var(n, _) =>
      match Lookup(st.submaps, n, s) {
        case Some(v) =>
          PrintedVarReads(q, n, v);
          ISetElsewhere(q.store, n, v, s, nm, sk);
        case None => FeedNothing(q);
      }
  }

  lemma ISetElsewhere(st: Store, n: string, v: string, s: string, nm: string, sk: string)
    requires SectionsListed(st) && (n, s) != (nm, sk)
    ensures Lookup(ISet(st, n, v, s, true).submaps, nm, sk) == Lookup(st.submaps, nm, sk)
  {
  }

  predicate IsComment(l: ConfLine) { l.Comment? || l.VarComment? }

  ghost predicate HiddenAt(order: seq<ConfLine>, i: int) {
    0 <= i < |order| && IsComment(order[i]) && HidesBackslash(order[i].text)
  }

  /** Line i carries some text over to line i + 1, which is the only line of a stored variable. */
  ghost predicate BeforeVariable(st: Store, i: int) {
    0 <= i < |st.order| - 1 && IsComment(st.order[i]) && CarriedOver(st.order[i].text) != "" && st.order[i + 1].Var? &&
    var nm, sk := st.order[i + 1].name, SectionAt(st.order, i + 1);
    Lookup(st.submaps, nm, sk).Some? && forall j :: LineFor(st.order, j, nm, sk) ==> j == i + 1
  }

  function NameBehind(st: Store, i: int): string {
    if 0 <= i < |st.order| - 1 && st.order[i + 1].Var? then st.order[i + 1].name else ""
  }

  /** The variable nm has no line but those behind hidden backslashes, and none of the variables there has a shorter
      name. */
  ghost predicate Shortest(st: Store, nm: string, sk: string) {
    nm != "" && forall i :: HiddenAt(st.order, i) ==> BeforeVariable(st, i) && |nm| <= |NameBehind(st, i)|
  }

  ghost predicate OnlyBehind(st: Store, nm: string, sk: string) {
    forall j :: LineFor(st.order, j, nm, sk) ==> HiddenAt(st.order, j - 1)
  }

  /** What was written of the first k lines leaves the variable unread. */
  ghost predicate Unread(st: Store, k: nat, nm: string, sk: string)
    requires k <= |st.order|
  {
    EmptyIsListed();
    WholeLines(Written(st, k)) && Without(Feed(Fresh(EMPTY), Written(st, k)), st, k, nm, sk)
  }

  lemma OtherLine(st: Store, k: nat, nm: string, sk: string)
    requires k < |st.order| && CommentsRead(st.order, true) && WfEntries(st.submaps) && NoEmptySection(st.submaps)
    requires Unread(st, k, nm, sk) && !HiddenAt(st.order, k) && !LineFor(st.order, k, nm, sk)
    ensures Unread(st, k + 1, nm, sk)
  {
    hide Feed, WfEntries, NoEmptySection, HidesBackslash, CommentsRead, SectionsListed, Without, PrintLine;
    EmptyIsListed();
    var line := PrintLine(st.submaps, st.order[k], SectionAt(st.order, k + 1));
    PrintLineIsWhole(st.submaps, st.order[k], SectionAt(st.order, k + 1));
    FeedTwice(Fresh(EMPTY), Written(st, k), line);
    OtherComment(st, k);
    LineStaysWithout(Feed(Fresh(EMPTY), Written(st, k)), st, k, nm, sk);
  }

  lemma OtherComment(st: Store, k: nat)
    requires k < |st.order| && CommentsRead(st.order, true) && !HiddenAt(st.order, k)
    ensures IsComment(st.order[k]) ==> CommentOk(st.order[k].text)
  {
    hide CommentOk, HidesBackslash, ReadComment;
    if IsComment(st.order[k]) { ReadAgainExactly(st.order[k].text); }
  }

  /** Two lines that are read as one. */
  lemma JoinedPair(st: Store, i: nat, nm: string, sk: string)
    requires HiddenAt(st.order, i) && BeforeVariable(st, i) && WfEntries(st.submaps) && CommentsRead(st.order, true)
    requires nm != "" && |nm| <= |NameBehind(st, i)| && Unread(st, i, nm, sk)
    ensures Unread(st, i + 2, nm, sk)
  {
    hide Feed, HidesBackslash, ReadComment, PrintVar, SectionsListed, CarriedOver;
    EmptyIsListed();
    var t, n, s := st.order[i].text, st.order[i + 1].name, SectionAt(st.order, i + 1);
    assert SectionAt(st.order, i + 1) == SectionAt(st.order, i) && SectionAt(st.order, i + 2) == s;
    var v := Lookup(st.submaps, n, s).value;
    var two := t + "\n" + PrintVar(n, v);
    PrintVarIsWhole(n, v);
    assert Written(st, i + 1) == Written(st, i) + (t + "\n");
    assert Written(st, i + 2) == Written(st, i + 1) + PrintVar(n, v);
    assert Written(st, i + 2) == Written(st, i) + two;
    FeedTwice(Fresh(EMPTY), Written(st, i), two);
    VariableJoined(Feed(Fresh(EMPTY), Written(st, i)), t, n, v, nm, sk);
  }

  lemma PrintVarIsWhole(nm: string, v: string)
    ensures WholeLines(PrintVar(nm, v)) && PrintVar(nm, v) != ""
  {
  }

  lemma {:induction false} WrittenWithout(st: Store, nm: string, sk: string, k: nat)
    requires Shortest(st, nm, sk) && OnlyBehind(st, nm, sk) && k <= |st.order| && !HiddenAt(st.order, k - 1)
    requires WfEntries(st.submaps) && NoEmptySection(st.submaps) && CommentsRead(st.order, true)
    ensures Unread(st, k, nm, sk)
  {
    hide Feed, Written, WfEntries, NoEmptySection, CommentsRead, HidesBackslash, SectionsListed, Unread, CarriedOver;
    if k == 0 {
      NothingRead(st, nm, sk);
    } else if HiddenAt(st.order, k - 2) {
      assert BeforeVariable(st, k - 2);
      assert HiddenAt(st.order, k - 3) ==> BeforeVariable(st, k - 3);
      WrittenWithout(st, nm, sk, k - 2);
      JoinedPair(st, k - 2, nm, sk);
    } else {
      WrittenWithout(st, nm, sk, k - 1);
      OtherLine(st, k - 1, nm, sk);
    }
  }

  lemma NothingRead(st: Store, nm: string, sk: string)
    ensures Unread(st, 0, nm, sk)
  {
    FeedNothing(Fresh(EMPTY));
  }

  /** Such a store loses the variable: its written form does not hold it. */
  lemma HiddenLosesVariable(st: Store, nm: string, sk: string)
    requires Sound(st) && WfEntries(st.submaps) && CommentsRead(st.order, true)
    requires Shortest(st, nm, sk) && OnlyBehind(st, nm, sk)
    ensures Lookup(Parse(Write(st)).submaps, nm, sk).None?
  {
    hide Feed, Run, WfEntries, CommentsRead, HidesBackslash, CarriedOver;
    var n := |st.order|;
    assert HiddenAt(st.order, n - 1) ==> BeforeVariable(st, n - 1);
    WrittenWithout(st, nm, sk, n);
    RunAfterFeed(Fresh(EMPTY), Write(st), "");
    assert Write(st) + "" == Write(st);
    RunNothing(Feed(Fresh(EMPTY), Write(st)));
  }

  /** The hidden backslash in front of the shortest name, among the first k lines. */
  lemma {:induction false} FindShortest(st: Store, k: nat, j: nat) returns (i: nat)
    requires j < k && HiddenAt(st.order, j)
    ensures i < k && HiddenAt(st.order, i)
    ensures forall h: nat :: h < k && HiddenAt(st.order, h) ==> |NameBehind(st, i)| <= |NameBehind(st, h)|
  {
    hide HiddenAt, NameBehind;
    if j == k - 1 {
      if h: nat :| h < k - 1 && HiddenAt(st.order, h) {
        i := FindShortest(st, k - 1, h);
        if |NameBehind(st, j)| < |NameBehind(st, i)| { i := j; }
      } else {
        i := j;
      }
    } else {
      i := FindShortest(st, k - 1, j);
      if HiddenAt(st.order, k - 1) && |NameBehind(st, k - 1)| < |NameBehind(st, i)| { i := k - 1; }
    }
  }

  /** Where each comment that hides a backslash stands directly in front of the only line of a stored variable, the store
      reads back exactly when its entries can stand in a file and there is no such comment. */
  lemma HiddenExactly(st: Store)
    requires Sound(st) && CommentsRead(st.order, true)
    requires forall i :: HiddenAt(st.order, i) ==> BeforeVariable(st, i)
    ensures Parse(Write(st)).submaps == st.submaps <==> WfEntries(st.submaps) && NoneHidden(st.order)
  {
    hide Parse, Write, Sound, WfEntries, CommentsRead, CommentsOk, HidesBackslash, CarriedOver;
    if NoneHidden(st.order) {
      CommentsOkExactly(st.order);
      RoundTripExactly(st);
    } else {
      ParseIsSound(Write(st));
      if WfEntries(st.submaps) {
        var j: nat :| j < |st.order| && IsComment(st.order[j]) && HidesBackslash(st.order[j].text);
        var i := FindShortest(st, |st.order|, j);
        var nm, sk := st.order[i + 1].name, SectionAt(st.order, i + 1);
        assert nm != "" by { StoredHasName(st, nm, sk); }
        HiddenLosesVariable(st, nm, sk);
      }
    }
  }

  lemma StoredHasName(st: Store, nm: string, sk: string)
    requires WfEntries(st.submaps) && Lookup(st.submaps, nm, sk).Some?
    ensures nm != ""
  {
  }

  // ----- Texts that get there -----

  /** A text with such a comment, in front of any definition: the carriage return is followed by a blank. */
  function HidingText(x: string, n: string, v: string): string {
    (x + "\\\r ") + "\n" + (n + " = " + v + "\n")
  }

  lemma HidingLine(p: ParseState, x: string)
    requires SectionsListed(p.store) && !p.appending && x != "" && x[0] != '#' && ReadComment(x + "\\\r", true)
    ensures Step(p, x + "\\\r ", false).0 ==
      ParseState(p.store.(order := p.store.order + [Comment(x + "\\\r")]), p.section, false, x + "\\\r")
  {
    hide Trim, RTrim, IndexOf, SectionsListed, CommentLine;
    var t := x + "\\\r";
    assert RTrim(t + " ", "\n\r") == t + " " by { RTrimStays(t + " "); }
    TrimAround("", t, " ", BLANKS);
    assert "" + t + " " == Carried(p) + (t + " ");
    assert x + "\\\r " == t + " ";
    assert t[0] == x[0];
  }

  lemma DefinitionLine(p: ParseState, n: string, v: string)
    requires SectionsListed(p.store) && !p.appending && WfName(n) && WfValue(v)
    ensures ReadsAs(p, n + " = " + v + "\n", n, v)
  {
    hide Step, Define, SectionsListed, Feed, WfName, WfValue, ISet;
    var line := n + " = " + v;
    NamesHead(n);
    NoBreakIn(n, v);
    FeedOneLine(p, line);
    assert Carried(p) + line == line;
    LastPieceReads(p, line, n, v);
    DefinitionOf(p, n, v);
  }

  lemma NoBreakIn(n: string, v: string)
    requires WfName(n) && WfValue(v)
    ensures '\n' !in n + " = " + v
  {
  }

  lemma HidingTextReads(x: string, n: string, v: string)
    requires x != "" && x[0] != '#' && ReadComment(x + "\\\r", true) && WfName(n) && WfValue(v)
    ensures Parse(HidingText(x, n, v)) == Store(map["" := map[n := v]], [Comment(x + "\\\r"), Var(n, v)])
  {
    hide Step, Define, SectionsListed, Feed, Run, WfName, WfValue;
    var p := Fresh(EMPTY);
    EmptyIsListed();
    var first, second := x + "\\\r ", n + " = " + v + "\n";
    RunAfterFeed(p, first + "\n" + second, "");
    assert HidingText(x, n, v) == (first + "\n" + second) + "";
    FeedFirst(p, first, second);
    HidingLine(p, x);
    var p1 := Step(p, first, false).0;
    DefinitionLine(p1, n, v);
    RunNothing(Feed(p1, second));
    assert !HasLineBreak(v) by { ValueIsLine(v); }
  }

  lemma ValueIsLine(v: string)
    requires WfValue(v)
    ensures !HasLineBreak(v)
  {
  }

  /** Whatever the comment says before its backslash, and whatever is defined behind it, the file holds the definition and
      the file written back does not. */
  lemma HidingTextLoses(x: string, n: string, v: string)
    requires x != "" && x[0] != '#' && ReadComment(x + "\\\r", true) && WfName(n) && WfValue(v)
    ensures var st := Parse(HidingText(x, n, v));
      Lookup(st.submaps, n, "") == Some(v) && Lookup(Parse(Write(st)).submaps, n, "") == None
  {
    hide Parse, Write, Sound, WfEntries, CommentsRead, Trim, RTrim, IndexOf, WfName, WfValue;
    var text := HidingText(x, n, v);
    var st := Parse(text);
    HidingTextReads(x, n, v);
    ParseIsSound(text);
    ParseKeepsComments(text);
    Uncovers(x);
    assert SectionAt(st.order, 1) == "";
    assert HiddenAt(st.order, 0) && BeforeVariable(st, 0) && !HiddenAt(st.order, 1);
    assert LineFor(st.order, 1, n, "");
    StoredHasName(st, n, "");
    HiddenLosesVariable(st, n, "");
  }

  /** The shortest of them: x, a backslash, a carriage return and a blank, in front of a = 1. */
  lemma CarriageReturnBreaksRoundTrip(text: string)
    requires text == "x\\\r \na = 1\n"
    ensures Lookup(Parse(text).submaps, "a", "") == Some("1")
    ensures Lookup(Parse(Write(Parse(text))).submaps, "a", "") == None
  {
    hide Parse, Write;
    assert text == HidingText("x", "a", "1");
    NoNameInIt();
    HidingTextLoses("x", "a", "1");
  }

  lemma NoNameInIt()
    ensures ReadComment("x" + "\\\r", true) && WfName("a") && WfValue("1")
  {
    IndexOfIs("x\\\r", '=', 3);
  }

  lemma Uncovers(x: string)
    requires x != "" && x[0] != '#' && ReadComment(x + "\\\r", true)
    ensures HidesBackslash(x + "\\\r") && CarriedOver(x + "\\\r") == x
  {
    hide Trim, RTrim, IndexOf;
    var t := x + "\\\r";
    assert t == (x + "\\") + "\r";
    RTrimOne(x + "\\");
    assert (x + "\\")[0] == t[0];
    TrimmedStays(x + "\\", BLANKS);
  }

  lemma RTrimOne(s: string)
    requires s != "" && s[|s| - 1] !in "\n\r"
    ensures RTrim(s + "\r", "\n\r") == s
  {
    assert (s + "\r")[..|s|] == s;
    RTrimStays(s);
  }
}
