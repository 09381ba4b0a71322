/** What stringToStrings reads beside what stringsToString writes: any blanks between the words, separators that are
    words of their own, and escapes inside quotes. */
module QuotingLaws {
  import opened Strings
  import opened Quoting

  /** A character between quotes, written as it is or behind a backslash. */
  datatype QChar = Lit(c: char) | Esc(c: char)
  {
    function Text(): string { if Lit? then [c] else ['\\', c] }
    predicate Wf() { if Lit? then c !in "\"\\" else c !in " \t\n\r" }
  }

  function QText(q: seq<QChar>): string { if q == [] then "" else q[0].Text() + QText(q[1..]) }

  function QValue(q: seq<QChar>): string { if q == [] then "" else [q[0].c] + QValue(q[1..]) }

  datatype Piece = Gap(c: char) | Sep(c: char) | Word(w: string) | Quoted(q: seq<QChar>)
  {
    function Text(): string {
      match this
      case Gap(c) => [c]
      case Sep(c) => [c]
      case Word(w) => w
      case Quoted(q) => "\"" + (QText(q) + "\"")
    }

    function Tokens(): seq<string> {
      match this
      case Gap(_) => []
      case Sep(c) => [[c]]
      case Word(w) => [w]
      case Quoted(q) => [QValue(q)]
    }

    predicate Wf(addseps: string) {
      match this
      case Gap(c) => c in " \t\n\r"
      case Sep(c) => IsSep(c, addseps)
      case Word(w) => w != "" && w[0] != '"' && forall i :: 0 <= i < |w| ==> w[i] !in " \t\n\r" && w[i] !in addseps
      case Quoted(q) => forall i :: 0 <= i < |q| ==> q[i].Wf()
    }
  }

  predicate IsSep(c: char, addseps: string) { c in addseps && c !in "\"\\ \t\n\r" }

  function Texts(ps: seq<Piece>): string { if ps == [] then "" else ps[0].Text() + Texts(ps[1..]) }

  function AllTokens(ps: seq<Piece>): seq<string> { if ps == [] then [] else ps[0].Tokens() + AllTokens(ps[1..]) }

  /** A word ends at a blank, a separator, or the end. */
  predicate WfPieces(ps: seq<Piece>, addseps: string) {
    (forall k :: 0 <= k < |ps| ==> ps[k].Wf(addseps)) &&
    forall k :: 0 <= k < |ps| - 1 && ps[k].Word? ==> ps[k + 1].Gap? || ps[k + 1].Sep?
  }

  lemma {:induction false} StepsAppend(r: Reader, a: string, b: string, addseps: string)
    ensures Steps(r, a + b, addseps) == Steps(Steps(r, a, addseps), b, addseps)
    decreases |a|
  {
    if a == "" {
      assert a + b == b;
    } else {
      assert (a + b)[1..] == a[1..] + b;
      StepsAppend(Step(r, a[0], addseps), a[1..], b, addseps);
    }
  }

  lemma One(r: Reader, c: char, addseps: string)
    ensures Steps(r, [c], addseps) == Step(r, c, addseps)
  {
    assert [c][1..] == "";
    assert Steps(Step(r, c, addseps), "", addseps) == Step(r, c, addseps);
  }

  // ----- Words and quotes -----

  lemma {:induction false} WordGoesOn(r: Reader, w: string, addseps: string)
    requires r.state.TOKEN? && forall i :: 0 <= i < |w| ==> w[i] !in " \t\n\r" && w[i] !in addseps
    ensures Steps(r, w, addseps) == r.Add(w, TOKEN)
    decreases |w|
  {
    if w == "" {
      assert r.current + "" == r.current;
    } else {
      WordGoesOn(Step(r, w[0], addseps), w[1..], addseps);
      assert r.current + [w[0]] + w[1..] == r.current + w;
    }
  }

  lemma WordReads(r: Reader, w: string, addseps: string)
    requires r.state.SPACE? && r.current == "" && Word(w).Wf(addseps)
    ensures Steps(r, w, addseps) == Reader(TOKEN, w, r.tokens)
  {
    hide Steps;
    assert w == [w[0]] + w[1..];
    StepsAppend(r, [w[0]], w[1..], addseps);
    One(r, w[0], addseps);
    assert Step(r, w[0], addseps) == Reader(TOKEN, [w[0]], r.tokens) by { assert "" + [w[0]] == [w[0]]; }
    WordGoesOn(Reader(TOKEN, [w[0]], r.tokens), w[1..], addseps);
  }

  lemma QCharReads(r: Reader, q: QChar, addseps: string)
    requires r.state.INQUOTE? && q.Wf()
    ensures Steps(r, q.Text(), addseps) == r.Add([q.c], INQUOTE)
  {
    hide Steps;
    if q.Lit? {
      One(r, q.c, addseps);
    } else {
      assert q.Text() == ['\\'] + [q.c];
      StepsAppend(r, ['\\'], [q.c], addseps);
      One(r, '\\', addseps);
      One(r.(state := ESCAPE), q.c, addseps);
    }
  }

  lemma {:induction false} QTextReads(r: Reader, q: seq<QChar>, addseps: string)
    requires r.state.INQUOTE? && forall i :: 0 <= i < |q| ==> q[i].Wf()
    ensures Steps(r, QText(q), addseps) == r.Add(QValue(q), INQUOTE)
    decreases |q|
  {
    if q == [] {
      assert r.current + "" == r.current;
    } else {
      hide Step;
      QCharReads(r, q[0], addseps);
      StepsAppend(r, q[0].Text(), QText(q[1..]), addseps);
      QTextReads(r.Add([q[0].c], INQUOTE), q[1..], addseps);
      assert r.current + [q[0].c] + QValue(q[1..]) == r.current + ([q[0].c] + QValue(q[1..]));
    }
  }

  lemma QuotedReads(r: Reader, q: seq<QChar>, addseps: string)
    requires r.state.SPACE? && r.current == "" && Quoted(q).Wf(addseps)
    ensures Steps(r, Quoted(q).Text(), addseps) == Reader(SPACE, "", r.tokens + [QValue(q)])
  {
    hide Steps;
    StepsAppend(r, "\"", QText(q) + "\"", addseps);
    One(r, '"', addseps);
    var inside := r.(state := INQUOTE);
    StepsAppend(inside, QText(q), "\"", addseps);
    QTextReads(inside, q, addseps);
    assert r.current + QValue(q) == QValue(q);
    One(inside.Add(QValue(q), INQUOTE), '"', addseps);
  }

  // ----- Whole texts -----

  /** The reader between two pieces; a word is taken up when its end is seen. */
  lemma {:induction false} PiecesRead(r: Reader, ps: seq<Piece>, addseps: string)
    requires r.state.SPACE? && r.current == "" && WfPieces(ps, addseps)
    ensures Finish(Steps(r, Texts(ps), addseps)) == Some(r.tokens + AllTokens(ps))
    decreases |ps|, 1
  {
    hide Steps, Step, Finish;
    if ps == [] {
      StepsNone(r, addseps);
      AtTheEnd(r);
    } else {
      var p, more := ps[0], ps[1..];
      PiecesBehind(ps, addseps);
      StepsAppend(r, p.Text(), Texts(more), addseps);
      if p.Word? {
        WordReads(r, p.w, addseps);
        BehindWord(r, p.w, more, addseps);
      } else {
        PieceReads(r, p, addseps);
        PiecesRead(Reader(SPACE, "", r.tokens + p.Tokens()), more, addseps);
        Regroup(r.tokens, p.Tokens(), AllTokens(more));
      }
    }
  }

  lemma AtTheEnd(r: Reader)
    requires r.state.SPACE?
    ensures Finish(r) == Some(r.tokens + [])
  {
    assert r.tokens + [] == r.tokens;
  }

  lemma PiecesBehind(ps: seq<Piece>, addseps: string)
    requires ps != [] && WfPieces(ps, addseps)
    ensures ps[0].Wf(addseps) && WfPieces(ps[1..], addseps)
    ensures ps[0].Word? && |ps| > 1 ==> ps[1].Gap? || ps[1].Sep?
  {
    assert forall k :: 0 <= k < |ps[1..]| ==> ps[1..][k] == ps[k + 1];
  }

  lemma StepsNone(r: Reader, addseps: string)
    ensures Steps(r, "", addseps) == r
  {
  }

  lemma PieceReads(r: Reader, p: Piece, addseps: string)
    requires r.state.SPACE? && r.current == "" && p.Wf(addseps) && !p.Word?
    ensures Steps(r, p.Text(), addseps) == Reader(SPACE, "", r.tokens + p.Tokens())
  {
    hide Steps;
    match p
    case Gap(c) => One(r, c, addseps); assert r.tokens + [] == r.tokens;
    case Sep(c) => One(r, c, addseps);
    case Quoted(q) => QuotedReads(r, q, addseps);
  }

  lemma {:induction false} BehindWord(r: Reader, w: string, more: seq<Piece>, addseps: string)
    requires r.state.SPACE? && r.current == "" && WfPieces(more, addseps)
    requires more != [] ==> more[0].Gap? || more[0].Sep?
    ensures Finish(Steps(Reader(TOKEN, w, r.tokens), Texts(more), addseps)) == Some(r.tokens + ([w] + AllTokens(more)))
    decreases |more|, 0
  {
    hide Steps;
    var inword := Reader(TOKEN, w, r.tokens);
    if more == [] {
      StepsNone(inword, addseps);
      assert [w] + [] == [w];
    } else {
      var p, last := more[0], more[1..];
      PiecesBehind(more, addseps);
      StepsAppend(inword, p.Text(), Texts(last), addseps);
      One(inword, p.c, addseps);
      var next := Reader(SPACE, "", r.tokens + [w] + p.Tokens());
      assert r.tokens + [w] + [] == r.tokens + [w];
      PiecesRead(next, last, addseps);
      Regroup(r.tokens + [w], p.Tokens(), AllTokens(last));
      Regroup(r.tokens, [w], p.Tokens() + AllTokens(last));
    }
  }

  /** Every text made of such pieces is read as its words, quoted texts and separators, in order. */
  lemma TextReads(ps: seq<Piece>, addseps: string)
    requires WfPieces(ps, addseps)
    ensures ReadBack(Texts(ps), addseps) == Some(AllTokens(ps))
  {
    PiecesRead(START, ps, addseps);
    assert [] + AllTokens(ps) == AllTokens(ps);
  }

  lemma {:induction false} PiecesEnd(r: Reader, ps: seq<Piece>, addseps: string)
    requires r.state.SPACE? && r.current == "" && WfPieces(ps, addseps) && (ps != [] ==> !ps[|ps| - 1].Word?)
    ensures var e := Steps(r, Texts(ps), addseps); e.state.SPACE? && e.current == ""
    decreases |ps|
  {
    hide Steps, Step;
    if ps == [] {
      StepsNone(r, addseps);
    } else {
      var p, more := ps[0], ps[1..];
      assert p.Wf(addseps);
      assert forall k :: 0 <= k < |more| ==> more[k] == ps[k + 1];
      StepsAppend(r, p.Text(), Texts(more), addseps);
      if p.Word? {
        WordReads(r, p.w, addseps);
        var q, last := more[0], more[1..];
        assert q.Wf(addseps);
        assert forall k :: 0 <= k < |last| ==> last[k] == more[k + 1];
        var inword := Reader(TOKEN, p.w, r.tokens);
        StepsAppend(inword, q.Text(), Texts(last), addseps);
        One(inword, q.c, addseps);
        WordEnds(inword, q, addseps);
        PiecesEnd(Step(inword, q.c, addseps), last, addseps);
      } else {
        PieceReads(r, p, addseps);
        PiecesEnd(Reader(SPACE, "", r.tokens + p.Tokens()), more, addseps);
      }
    }
  }

  lemma WordEnds(r: Reader, q: Piece, addseps: string)
    requires r.state.TOKEN? && q.Wf(addseps) && (q.Gap? || q.Sep?)
    ensures Step(r, q.c, addseps).state.SPACE? && Step(r, q.c, addseps).current == ""
  {
  }

  /** A quote that is opened between two pieces and never closed is an error. */
  lemma UnfinishedQuote(ps: seq<Piece>, q: seq<QChar>, addseps: string)
    requires WfPieces(ps, addseps) && (ps != [] ==> !ps[|ps| - 1].Word?) && Quoted(q).Wf(addseps)
    ensures ReadBack(Texts(ps) + ("\"" + QText(q)), addseps) == None
  {
    hide Steps;
    StepsAppend(START, Texts(ps), "\"" + QText(q), addseps);
    PiecesEnd(START, ps, addseps);
    var e := Steps(START, Texts(ps), addseps);
    StepsAppend(e, "\"", QText(q), addseps);
    One(e, '"', addseps);
    QTextReads(e.(state := INQUOTE), q, addseps);
  }
}
