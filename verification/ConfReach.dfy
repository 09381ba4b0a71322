/** The stores a program can reach, and what reading back their file form gives. */
module ConfReach {
  import opened Strings
  import opened ConfStore
  import opened ConfInvariants
  import opened ConfRoundTrip

  /** One call on a writable store. */
  datatype Op =
    | OpSet(nm: string, val: string, sk: string)
    | OpErase(nm: string, sk: string)
    | OpEraseKey(sk: string)
    | OpClear
    | OpReparse(text: string)

  function Apply(st: Store, op: Op): Store
    requires SectionsListed(st)
  {
    match op
    case OpSet(nm, val, sk) => ISet(st, nm, val, sk, false)
    case OpErase(nm, sk) => Erase(st, nm, sk)
    case OpEraseKey(sk) => EraseKey(st, sk)
    case OpClear => EMPTY
    case OpReparse(text) => Parse(text)
  }

  /** A store reached from a file by any calls. */
  ghost predicate Reached(st: Store, text: string, ops: seq<Op>)
    decreases |ops|
  {
    if ops == [] then st == Parse(text)
    else
      exists before: Store ::
        Reached(before, text, ops[..|ops| - 1]) && SectionsListed(before) && st == Apply(before, ops[|ops| - 1])
  }

  /** Carriage returns stand at line ends only, in each text that is parsed. */
  ghost predicate LineEndsOnly(text: string, ops: seq<Op>) {
    ReturnsAtEnds(text) && forall op :: op in ops && op.OpReparse? ==> ReturnsAtEnds(op.text)
  }

  lemma ApplyKeepsSound(st: Store, op: Op, inner: bool)
    requires Sound(st) && CommentsRead(st.order, inner)
    requires inner || !op.OpReparse? || ReturnsAtEnds(op.text)
    ensures Sound(Apply(st, op)) && CommentsRead(Apply(st, op).order, inner)
  {
    hide Sound, CommentsRead, ISet, Erase, EraseKey, Parse, ReturnsAtEnds;
    match op
    case OpSet(nm, val, sk) =>
      ISetKeepsSound(st, nm, val, sk, false);
      SoundIsListed(st);
      ISetKeepsComments(st, nm, val, sk, false, inner);
    case OpErase(nm, sk) =>
      EraseKeepsSound(st, nm, sk);
      ErasuresKeepOrder(st, nm, sk);
    case OpEraseKey(sk) =>
      EraseKeyKeepsSound(st, sk);
      ErasuresKeepOrder(st, "", sk);
    case OpClear => EmptyIsSound(inner);
    case OpReparse(text) =>
      ParseIsSound(text);
      ParseKeepsComments(text);
  }

  lemma SoundIsListed(st: Store)
    requires Sound(st)
    ensures SectionsListed(st)
  {
  }

  lemma ErasuresKeepOrder(st: Store, nm: string, sk: string)
    ensures Erase(st, nm, sk).order == st.order == EraseKey(st, sk).order
  {
  }

  lemma EmptyIsSound(inner: bool)
    ensures Sound(EMPTY) && CommentsRead(EMPTY.order, inner)
  {
  }

  /** In every reachable state the presentation list covers the maps, and its comments are lines that were read as such. */
  lemma {:induction false} ReachedIsSound(st: Store, text: string, ops: seq<Op>)
    requires Reached(st, text, ops)
    ensures Sound(st) && CommentsRead(st.order, true)
    ensures LineEndsOnly(text, ops) ==> CommentsRead(st.order, false)
    decreases |ops|
  {
    hide Sound, CommentsRead, Parse, Apply, SectionsListed, ReturnsAtEnds;
    if ops == [] {
      ParseIsSound(text);
      ParseKeepsComments(text);
    } else {
      var last, most := ops[|ops| - 1], ops[..|ops| - 1];
      var before: Store :| Reached(before, text, most) && SectionsListed(before) && st == Apply(before, last);
      ReachedIsSound(before, text, most);
      ApplyKeepsSound(before, last, true);
      if LineEndsOnly(text, ops) {
        assert last in ops && LineEndsOnly(text, most);
        ApplyKeepsSound(before, last, false);
      }
    }
  }

  /** A reachable store whose comments hide no backslash reads back unchanged exactly when its entries can stand in a
      file. */
  lemma ReachedRoundTrip(st: Store, text: string, ops: seq<Op>)
    requires Reached(st, text, ops) && NoneHidden(st.order)
    ensures Parse(Write(st)).submaps == st.submaps <==> WfEntries(st.submaps)
  {
    hide Parse, Write, Sound, CommentsRead, CommentsOk, NoneHidden, WfEntries, Reached, LineEndsOnly;
    ReachedIsSound(st, text, ops);
    CommentsOkExactly(st.order);
    RoundTripExactly(st);
  }

  /** Files with any line ends, and no carriage return inside a line, leave no comment that hides one. */
  lemma LineEndsNoneHidden(st: Store, text: string, ops: seq<Op>)
    requires Reached(st, text, ops) && LineEndsOnly(text, ops)
    ensures NoneHidden(st.order)
  {
    hide Reached, LineEndsOnly, CommentsRead, NoneHidden, Sound;
    ReachedIsSound(st, text, ops);
    NoReturnsNoneHidden(st.order);
  }

  /** The guard a caller can check before set(). */
  ghost predicate WfOp(op: Op) {
    op.OpSet? ==> WfName(op.nm) && WfSection(op.sk) && (HasLineBreak(op.val) || WfValue(op.val))
  }

  lemma ErasuresKeepWf(st: Store, nm: string, sk: string)
    requires WfEntries(st.submaps)
    ensures WfEntries(Erase(st, nm, sk).submaps) && WfEntries(EraseKey(st, sk).submaps)
  {
    hide WfName, WfSection, WfValue;
    forall n, s | Lookup(Erase(st, nm, sk).submaps, n, s).Some?
      ensures Lookup(Erase(st, nm, sk).submaps, n, s) == Lookup(st.submaps, n, s)
    {
    }
    forall n, s | Lookup(EraseKey(st, sk).submaps, n, s).Some?
      ensures Lookup(EraseKey(st, sk).submaps, n, s) == Lookup(st.submaps, n, s)
    {
    }
  }

  lemma EmptyIsWf()
    ensures WfEntries(EMPTY.submaps)
  {
  }

  lemma {:induction false} WfOpsKeepWf(st: Store, text: string, ops: seq<Op>)
    requires Reached(st, text, ops) && forall op :: op in ops ==> WfOp(op)
    ensures WfEntries(st.submaps)
    decreases |ops|
  {
    hide WfEntries, Parse, ISet, Erase, EraseKey, SectionsListed, WfName, WfSection, WfValue, HasLineBreak;
    if ops == [] {
      ParseIsSound(text);
    } else {
      var before: Store :| Reached(before, text, ops[..|ops| - 1]) && SectionsListed(before) && st == Apply(before, ops[|ops| - 1]);
      WfOpsKeepWf(before, text, ops[..|ops| - 1]);
      var op := ops[|ops| - 1];
      assert WfOp(op);
      match op
      case OpSet(nm, val, sk) => ISetKeepsWf(before, nm, val, sk, false);
      case OpErase(nm, sk) => ErasuresKeepWf(before, nm, sk);
      case OpEraseKey(sk) => ErasuresKeepWf(before, "", sk);
      case OpClear => EmptyIsWf();
      case OpReparse(t) => ParseIsSound(t);
    }
  }

  /** Any run whose set() calls pass well-formed arguments can be written and read back. */
  lemma WfRunsRoundTrip(st: Store, text: string, ops: seq<Op>)
    requires Reached(st, text, ops) && (forall op :: op in ops ==> WfOp(op)) && NoneHidden(st.order)
    ensures Parse(Write(st)).submaps == st.submaps
  {
    hide Parse, Write, WfEntries, WfOp, Reached, NoneHidden;
    WfOpsKeepWf(st, text, ops);
    ReachedRoundTrip(st, text, ops);
  }

  // ----- Where the format loses data -----

  /** A comment met while a line is being continued is itself continued for ever: nothing after it in
      the file counts. */
  lemma {:induction false} ContinuedCommentSwallowsRest(p: ParseState, text: string)
    requires SectionsListed(p.store)
    requires p.appending && p.line != "" && p.line[0] == '#'
    ensures Run(p, text).submaps == p.store.submaps
    decreases |text|
  {
    hide Trim, RTrim, IndexOf, CommentLine, SectionsListed, Define, Step, Run, AtEof;
    var e := IndexOf(text, '\n');
    TrimKeepsHead(p.line + RTrim(text[..e], "\n\r"), BLANKS);
    RunUnfolds(p, text);
    StepUnfolds(p, text[..e], e == |text|);
    if e < |text| {
      ContinuedCommentSwallowsRest(Step(p, text[..e], false).0, text[e + 1..]);
    } else {
      assert text[..e] == text;
      AtEofUnfolds(p, text);
    }
  }

  /** Texts that get there: a line with just a backslash, then a # comment. Whatever follows defines nothing, though
      it may define anything when it stands alone. */
  lemma BackslashThenComment(c: string, rest: string)
    requires '\n' !in c
    ensures Parse("\\" + "\n" + ("#" + c + "\n" + rest)).submaps == map[]
  {
    hide Run, Step, Feed, SectionsListed;
    var p := Fresh(EMPTY);
    EmptyIsListed();
    var first, second := "\\", "#" + c;
    RegroupLines(first, second, rest);
    RunAfterFeed(p, first + "\n" + (second + "\n"), rest);
    FeedFirst(p, first, second + "\n");
    BackslashStep(p);
    var p1 := Step(p, first, false).0;
    FeedOneLine(p1, second);
    CommentStep(p1, c);
    ContinuedCommentSwallowsRest(Step(p1, second, false).0, rest);
  }

  lemma RegroupLines(first: string, second: string, rest: string)
    ensures first + "\n" + (second + "\n" + rest) == (first + "\n" + (second + "\n")) + rest
  {
  }

  lemma BackslashStep(p: ParseState)
    requires SectionsListed(p.store) && !p.appending
    ensures Step(p, "\\", false).0 == p.(appending := true, line := "")
  {
    hide Trim, RTrim, IndexOf, CommentLine, Define, SectionsListed;
    RTrimStays("\\");
    TrimmedStays("\\", BLANKS);
    assert Carried(p) + "\\" == "\\";
    assert "\\"[..0] == "";
  }

  lemma CommentStep(p: ParseState, c: string)
    requires SectionsListed(p.store) && p.appending && p.line == ""
    ensures var q := Step(p, "#" + c, false).0;
      q.appending && q.line != "" && q.line[0] == '#' && q.store.submaps == p.store.submaps
  {
    hide Trim, RTrim, IndexOf, CommentLine, Define, SectionsListed;
    var line := "#" + c;
    TrimKeepsHead(line, "\n\r");
    TrimKeepsHead(RTrim(line, "\n\r"), BLANKS);
    assert Carried(p) + RTrim(line, "\n\r") == RTrim(line, "\n\r");
  }

  lemma EmptyIsListed()
    ensures SectionsListed(EMPTY)
  {
  }

  lemma RTrimStays(s: string)
    requires s != "" && s[|s| - 1] !in "\n\r"
    ensures RTrim(s, "\n\r") == s
  {
  }
}
