/** Which lists of strings come back from stringToStrings as they went into stringsToString. */
module QuotingRoundTrip {
  import opened Strings
  import opened Quoting

  /** Tokens with blanks are quoted, but their backslashes are not escaped; the others are not quoted, but their
      quotes are escaped. */
  predicate Good(t: string) { if HasBlanks(t) then '\\' !in t else '"' !in t && '\r' !in t }

  // ----- The reader -----

  function Run(r: Reader, s: string): Reader { Steps(r, s, "") }

  lemma {:induction false} RunAppend(r: Reader, a: string, b: string)
    ensures Run(r, a + b) == Run(Run(r, a), b)
    decreases |a|
  {
    if a == "" {
      assert a + b == b;
    } else {
      assert (a + b)[1..] == a[1..] + b;
      RunAppend(Step(r, a[0], ""), a[1..], b);
    }
  }

  lemma Run1(r: Reader, c: char)
    ensures Run(r, [c]) == Step(r, c, "")
  {
    assert [c][1..] == "";
    assert Steps(Step(r, c, ""), "", "") == Step(r, c, "");
  }

  predicate Sane(r: Reader) { r.state.SPACE? ==> r.current == "" }

  /** Whatever follows, a token that has been started goes on from what was read of it. */
  lemma {:induction false} FinishExtends(r: Reader, s: string)
    requires Sane(r)
    ensures Finish(Run(r, s)).Some? ==>
      var ts := Finish(Run(r, s)).value;
      r.tokens <= ts && (!r.state.SPACE? ==> |ts| > |r.tokens| && r.current <= ts[|r.tokens|])
    decreases |s|
  {
    if s != "" {
      var next := Step(r, s[0], "");
      FinishExtends(next, s[1..]);
      hide Finish, Steps;
    }
  }

  /** A blank at the end changes nothing. */
  lemma LastBlank(r: Reader, s: string)
    ensures Finish(Run(r, s + " ")) == Finish(Run(r, s))
  {
    RunAppend(r, s, " ");
    Run1(Run(r, s), ' ');
  }

  // ----- Good tokens -----

  predicate Plain(c: char) { c !in " \t\n\r" }

  lemma {:induction false} PlainReads(r: Reader, t: string)
    requires r.state.TOKEN? && forall i :: 0 <= i < |t| ==> Plain(t[i])
    ensures Run(r, t) == r.Add(t, TOKEN)
    decreases |t|
  {
    if t == "" {
      assert r.current + "" == r.current;
    } else {
      PlainReads(Step(r, t[0], ""), t[1..]);
      assert r.current + [t[0]] + t[1..] == r.current + t;
    }
  }

  lemma {:induction false} EscapeStays(t: string)
    requires '"' !in t
    ensures Escape(t) == t
  {
    if t != "" { EscapeStays(t[1..]); }
  }

  lemma {:induction false} QuotedReads(r: Reader, t: string)
    requires r.state.INQUOTE? && '\\' !in t
    ensures Run(r, Escape(t)) == r.Add(t, INQUOTE)
    decreases |t|
  {
    if t == "" {
      assert r.current + "" == r.current;
    } else {
      QuotedReads(r.Add([t[0]], INQUOTE), t[1..]);
      assert r.current + [t[0]] + t[1..] == r.current + t;
      RunAppend(r, Escape1(t[0]), Escape(t[1..]));
      if t[0] == '"' {
        RunAppend(r, "\\", "\"");
        assert "\\" + "\"" == "\\\"";
        Run1(r, '\\');
        Run1(r.(state := ESCAPE), '"');
      } else {
        Run1(r, t[0]);
      }
    }
  }

  /** A started token and the blank behind it. */
  lemma PlainRest(r: Reader, t: string)
    requires r.state.TOKEN? && forall i :: 0 <= i < |t| ==> Plain(t[i])
    ensures Run(r, t + " ") == Reader(SPACE, "", r.tokens + [r.current + t])
  {
    PlainReads(r, t);
    RunAppend(r, t, " ");
    Run1(r.Add(t, TOKEN), ' ');
  }

  lemma {:induction false} GoodReads(r: Reader, t: string)
    requires r.state.SPACE? && r.current == "" && Good(t)
    ensures Run(r, Written1(t)) == Reader(SPACE, "", r.tokens + [t])
  {
    hide Steps;
    if t == "" {
      assert Escape("") == "";
      assert Written1(t) == "\"" + Escape(t) + "\"" + " ";
      Quote(r, t);
    } else if HasBlanks(t) {
      assert Written1(t) == "\"" + Escape(t) + "\"" + " ";
      Quote(r, t);
    } else {
      EscapeStays(t);
      var first, rest := [t[0]], t[1..];
      assert forall i :: 0 <= i < |rest| ==> rest[i] == t[i + 1];
      assert Written1(t) == first + (rest + " ");
      RunAppend(r, first, rest + " ");
      Run1(r, t[0]);
      assert r.current + first == first;
      PlainRest(r.Add(first, TOKEN), rest);
      assert first + rest == t;
    }
  }

  lemma Quote(r: Reader, t: string)
    requires r.state.SPACE? && r.current == "" && '\\' !in t
    ensures Run(r, "\"" + Escape(t) + "\"" + " ") == Reader(SPACE, "", r.tokens + [t])
  {
    hide Steps;
    var e := Escape(t);
    var quoted := r.(state := INQUOTE);
    assert "\"" + e + "\"" + " " == "\"" + (e + ("\"" + " "));
    RunAppend(r, "\"", e + ("\"" + " "));
    Run1(r, '"');
    RunAppend(quoted, e, "\"" + " ");
    QuotedReads(quoted, t);
    assert "" + t == t;
    RunAppend(quoted.Add(t, INQUOTE), "\"", " ");
    Run1(quoted.Add(t, INQUOTE), '"');
    Run1(Reader(SPACE, "", r.tokens + [t]), ' ');
  }

  // ----- Bad tokens -----

  /** What is read makes the token at the reader's place differ from t, whatever follows. */
  ghost predicate Spoils(r: Reader, s: string, t: string) {
    Finish(Run(r, s)).Some? ==>
      var ts := Finish(Run(r, s)).value;
      |ts| <= |r.tokens| || ts[|r.tokens|] != t
  }

  /** After a first part of the text the token is already known to differ. */
  lemma SpoiltEarly(r: Reader, a: string, b: string, t: string)
    requires Sane(Run(r, a)) && r.tokens <= Run(r, a).tokens
    requires var q := Run(r, a);
      if |q.tokens| > |r.tokens| then q.tokens[|r.tokens|] != t else !q.state.SPACE? && !(q.current <= t)
    ensures Spoils(r, a + b, t)
  {
    RunAppend(r, a, b);
    FinishExtends(Run(r, a), b);
  }

  lemma EscapeSplits(t: string, p: nat)
    requires p <= |t|
    ensures Escape(t) == Escape(t[..p]) + Escape(t[p..])
  {
    hide Escape;
    var a, b := t[..p], t[p..];
    EscapeConcat(a, b);
    assert a + b == t;
  }

  /** Reading from the start of a token that has no blanks and no quotes up to p. */
  lemma HeadReads(r: Reader, t: string)
    requires r.state.SPACE? && r.current == "" && t != "" && t[0] != '"' && forall i :: 0 <= i < |t| ==> Plain(t[i])
    ensures Run(r, t) == r.Add(t, TOKEN)
  {
    var rest := t[1..];
    assert forall i :: 0 <= i < |rest| ==> rest[i] == t[i + 1];
    assert t == [t[0]] + rest;
    RunAppend(r, [t[0]], rest);
    Run1(r, t[0]);
    PlainReads(r.Add([t[0]], TOKEN), rest);
    assert r.current + [t[0]] + rest == r.current + t;
  }

  /** A token without blanks up to p, where nothing is escaped, and from there. */
  lemma PlainSplits(t: string, p: nat, more: string)
    requires !HasBlanks(t) && p < |t| && forall i :: 0 <= i < p ==> t[i] !in "\"\r"
    ensures Escape(t) + more == t[..p] + (Escape1(t[p]) + (Escape(t[p + 1..]) + more))
    ensures forall i :: 0 <= i < p ==> Plain(t[..p][i]) && t[..p][i] != '"'
  {
    EscapeSplits(t, p);
    assert '"' !in t[..p];
    EscapeStays(t[..p]);
    assert t[p..][1..] == t[p + 1..] && t[p..][0] == t[p];
    forall i | 0 <= i < p ensures Plain(t[..p][i]) { assert t[i] !in BLANK; }
    Regroup4(t[..p], Escape1(t[p]), Escape(t[p + 1..]), more);
  }

  lemma Regroup4(a: string, b: string, c: string, d: string)
    ensures (a + (b + c)) + d == a + (b + (c + d))
  {
  }

  lemma QuoteSplits(t: string, p: nat, more: string)
    requires !HasBlanks(t) && p < |t| && t[p] == '"' && forall i :: 0 <= i < p ==> t[i] !in "\"\r"
    ensures Escape(t) + more == (t[..p] + "\\") + ("\"" + (Escape(t[p + 1..]) + more))
    ensures forall i :: 0 <= i <= p ==> Plain((t[..p] + "\\")[i]) && (t[..p] + "\\")[i] != '"'
  {
    PlainSplits(t, p, more);
    hide Escape, HasBlanks, Plain;
    var rest := Escape(t[p + 1..]) + more;
    EscapedQuote(rest);
    Regroup(t[..p], "\\", "\"" + rest);
    assert Plain('\\') by { PlainBackslash(); }
    forall i | 0 <= i <= p ensures Plain((t[..p] + "\\")[i]) && (t[..p] + "\\")[i] != '"' {
      if i < p { assert (t[..p] + "\\")[i] == t[..p][i]; }
    }
  }

  lemma PlainBackslash()
    ensures Plain('\\')
  {
  }

  lemma EscapedQuote(rest: string)
    ensures Escape1('"') + rest == "\\" + ("\"" + rest)
  {
  }

  /** A quote in a token without blanks gets a backslash that stays. */
  lemma QuoteSpoils(r: Reader, t: string, p: nat, more: string)
    requires r.state.SPACE? && r.current == "" && !HasBlanks(t)
    requires p < |t| && t[p] == '"' && forall i :: 0 <= i < p ==> t[i] !in "\"\r"
    ensures Spoils(r, Escape(t) + more, t)
  {
    hide Steps, Escape, HasBlanks, Spoils, Plain;
    var rest := "\"" + (Escape(t[p + 1..]) + more);
    var a := t[..p] + "\\";
    QuoteSplits(t, p, more);
    assert a[0] != '"' && forall i :: 0 <= i < |a| ==> Plain(a[i]);
    HeadReads(r, a);
    assert (r.current + a)[p] == '\\';
    SpoiltEarly(r, a, rest, t);
  }

  /** A carriage return ends a token. */
  lemma ReturnSpoils(r: Reader, t: string, p: nat, more: string)
    requires r.state.SPACE? && r.current == "" && !HasBlanks(t)
    requires 0 < p < |t| && t[p] == '\r' && forall i :: 0 <= i < p ==> t[i] !in "\"\r"
    ensures Spoils(r, Escape(t) + more, t)
  {
    PlainSplits(t, p, more);
    hide Steps, Escape, HasBlanks, Spoils;
    var head, rest := t[..p], Escape(t[p + 1..]) + more;
    Regroup(head, "\r", rest);
    HeadReads(r, head);
    RunAppend(r, head, "\r");
    Run1(r.Add(head, TOKEN), '\r');
    assert r.current + head == head != t;
    SpoiltEarly(r, head + "\r", rest, t);
  }

  lemma SpoilsLater(r: Reader, a: string, b: string, t: string)
    requires Run(r, a).tokens == r.tokens && Spoils(Run(r, a), b, t)
    ensures Spoils(r, a + b, t)
  {
    RunAppend(r, a, b);
  }

  // ----- Carriage returns in front -----

  predicate Returns(t: string) { forall i :: 0 <= i < |t| ==> t[i] == '\r' }

  lemma {:induction false} ReturnsSkipped(r: Reader, t: string)
    requires r.state.SPACE? && Returns(t)
    ensures Run(r, t) == r && Escape(t) == t
    decreases |t|
  {
    if t != "" { ReturnsSkipped(r, t[1..]); }
  }

  /** Behind carriage returns a token starts with what it does not start with. */
  lemma TokenStarts(r: Reader, t: string, q: nat, more: string)
    requires r.state.SPACE? && r.current == "" && !HasBlanks(t)
    requires q < |t| && Returns(t[..q]) && t[q] != '\r'
    ensures Finish(Run(r, Escape(t) + more)).Some? ==>
      var us := Finish(Run(r, Escape(t) + more)).value;
      |us| > |r.tokens| && us[|r.tokens|] != "" && us[|r.tokens|][0] != '\r'
  {
    hide Steps, Finish, HasBlanks, Escape;
    EscapeSplits(t, q);
    ReturnsSkipped(r, t[..q]);
    EscapeHead(t[q..]);
    var c := Escape1(t[q])[0];
    var rest := Escape(t[q..])[1..] + more;
    assert Escape(t) + more == t[..q] + ([c] + rest);
    RunAppend(r, t[..q], [c] + rest);
    RunAppend(r, [c], rest);
    Run1(r, c);
    assert t[q] !in BLANK by { NoBlank(t, q); }
    FinishExtends(r.Add([c], TOKEN), rest);
  }

  lemma NoBlank(t: string, q: nat)
    requires !HasBlanks(t) && q < |t|
    ensures t[q] !in BLANK
  {
  }

  lemma EscapeHead(t: string)
    requires t != ""
    ensures Escape(t) != "" && Escape(t)[0] == Escape1(t[0])[0] != '"'
  {
  }

  ghost predicate HasOther(t: string) { exists i :: 0 <= i < |t| && t[i] != '\r' }

  lemma OtherExtends(t: string, u: string)
    requires HasOther(t) && t <= u
    ensures HasOther(u)
  {
    var i :| 0 <= i < |t| && t[i] != '\r';
    assert u[i] == t[i];
  }

  /** A quoted token with blanks, or what is left of it, gives at least one other character. */
  lemma {:induction false} QuotedHasOther(r: Reader, t: string, more: string)
    requires (r.state.INQUOTE? || r.state.ESCAPE?) && HasBlanks(t)
    ensures Finish(Run(r, Escape(t) + more)).Some? ==>
      var us := Finish(Run(r, Escape(t) + more)).value;
      |us| > |r.tokens| && HasOther(us[|r.tokens|])
    decreases |t|
  {
    hide Steps, Finish;
    EscapeHead(t);
    var c := Escape1(t[0])[0];
    var rest := Escape(t)[1..] + more;
    assert Escape(t) + more == [c] + rest;
    RunAppend(r, [c], rest);
    Run1(r, c);
    var next := Step(r, c, "");
    if t[0] == '\r' || (t[0] == '\\' && r.state.INQUOTE?) {
      assert Escape(t)[1..] == Escape(t[1..]);
      BlankLater(t);
      QuotedHasOther(next, t[1..], more);
    } else if t[0] == '"' && r.state.INQUOTE? {
      var rest2 := Escape(t[1..]) + more;
      assert rest == ['"'] + rest2;
      RunAppend(next, ['"'], rest2);
      Run1(next, '"');
      var quoted := Step(next, '"', "");
      assert quoted.current[|r.current|] == '"';
      OtherGoesOn(quoted, rest2);
    } else {
      assert next.current[|r.current|] == c;
      OtherGoesOn(next, rest);
    }
  }

  lemma BlankLater(t: string)
    requires HasBlanks(t) && t[0] !in BLANK
    ensures HasBlanks(t[1..])
  {
    var k :| 0 <= k < |t| && t[k] in BLANK;
    assert t[1..][k - 1] == t[k];
  }

  lemma OtherGoesOn(r: Reader, s: string)
    requires !r.state.SPACE? && HasOther(r.current)
    ensures Finish(Run(r, s)).Some? ==>
      var us := Finish(Run(r, s)).value;
      |us| > |r.tokens| && HasOther(us[|r.tokens|])
  {
    FinishExtends(r, s);
    if Finish(Run(r, s)).Some? { OtherExtends(r.current, Finish(Run(r, s)).value[|r.tokens|]); }
  }

  lemma Written1Splits(t: string, more: string)
    ensures HasBlanks(t) ==> Written1(t) + more == "\"" + (Escape(t) + ("\"" + (" " + more)))
    ensures !HasBlanks(t) && t != "" ==> Written1(t) + more == Escape(t) + (" " + more)
  {
    hide Escape;
  }

  /** No text that was written reads as a token of carriage returns. */
  lemma {:induction false} NeverReturns(r: Reader, ts: seq<string>)
    requires r.state.SPACE? && r.current == ""
    ensures Finish(Run(r, Written(ts))).Some? ==>
      var us := Finish(Run(r, Written(ts))).value;
      |us| > |r.tokens| ==> us[|r.tokens|] == "" || HasOther(us[|r.tokens|])
    decreases ts
  {
    if ts == [] { return; }
    hide Steps, Finish, Escape, HasOther, Good;
    var t, more := ts[0], Written(ts[1..]);
    assert Written(ts) == Written1(t) + more;
    hide Written, Written1;
    Written1Splits(t, more);
    if Good(t) {
      GoodReads(r, t);
      RunAppend(r, Written1(t), more);
      FinishExtends(Run(r, Written1(t)), more);
      GoodHasOther(t);
    } else if HasBlanks(t) {
      var rest := "\"" + (" " + more);
      RunAppend(r, "\"", Escape(t) + rest);
      Run1(r, '"');
      QuotedHasOther(r.(state := INQUOTE), t, rest);
    } else {
      BadIsNotEmpty(t);
      var q := FindFirstNotOf(t, "\r", 0);
      if q < |t| {
        TokenStarts(r, t, q, " " + more);
      } else {
        ReturnsSkipped(r, t);
        RunAppend(r, Escape(t), " " + more);
        RunAppend(r, " ", more);
        Run1(r, ' ');
        NeverReturns(r, ts[1..]);
      }
    }
  }

  lemma BadIsNotEmpty(t: string)
    requires !Good(t)
    ensures t != "" && (!HasBlanks(t) ==> FindFirstOf(t, "\"\r", 0) < |t|)
  {
    if !HasBlanks(t) {
      var c :| c in t && c in "\"\r";
      assert exists i :: 0 <= i < |t| && t[i] == c;
    }
  }

  lemma GoodHasOther(t: string)
    requires Good(t)
    ensures t == "" || HasOther(t)
  {
    if HasBlanks(t) {
      var k :| 0 <= k < |t| && t[k] in BLANK;
      assert t[k] != '\r';
    } else if t != "" {
      assert t[0] != '\r';
    }
  }

  // ----- Backslashes in quoted tokens -----

  function Backslashes(n: nat): string { seq(n, _ => '\\') }

  /** Each two give one. */
  lemma {:induction false} BackslashesRead(r: Reader, n: nat)
    requires r.state.INQUOTE?
    ensures Run(r, Backslashes(n)) == r.Add(Backslashes(n / 2), if n % 2 == 0 then INQUOTE else ESCAPE)
    decreases n
  {
    if n == 0 {
      assert r.current + Backslashes(0) == r.current;
    } else if n == 1 {
      assert Backslashes(1) == ['\\'] && r.current + Backslashes(0) == r.current;
      Run1(r, '\\');
    } else {
      hide Steps;
      assert Backslashes(n) == ['\\'] + (['\\'] + Backslashes(n - 2));
      RunAppend(r, ['\\'], ['\\'] + Backslashes(n - 2));
      Run1(r, '\\');
      RunAppend(r.(state := ESCAPE), ['\\'], Backslashes(n - 2));
      Run1(r.(state := ESCAPE), '\\');
      BackslashesRead(r.Add(['\\'], INQUOTE), n - 2);
      assert r.current + ['\\'] + Backslashes(n / 2 - 1) == r.current + Backslashes(n / 2);
    }
  }

  /** Inside its quotes, from the first run of backslashes on, the token is read differently. */
  lemma RunSpoils(r: Reader, a: string, n: nat, c: string, more: string, t: string)
    requires r.state.INQUOTE? && r.current == a && n > 0 && (c != "" ==> c[0] != '\\')
    requires t == a + (Backslashes(n) + c)
    ensures Spoils(r, Backslashes(n) + (Escape(c) + ("\"" + more)), t)
  {
    hide Steps, Spoils, Escape, Backslashes;
    var back := Backslashes(n);
    BackslashesRead(r, n);
    var q := Run(r, back);
    BackslashesAre(n);
    BackslashesAre(n / 2);
    var h := |a| + n / 2;
    assert |q.current| == h < |a| + n <= |t| && t[h] == back[n / 2] == '\\';
    if c == "" {
      EscapeNone(c);
      assert Escape(c) + ("\"" + more) == ['"'] + more;
      NextSpoils(q, '"', more, t);
    } else {
      EscapeHead(c);
      var d := Escape1(c[0])[0];
      var rest := Escape(c)[1..] + ("\"" + more);
      assert Escape(c) + ("\"" + more) == [d] + rest;
      if c[0] != '"' {
        NextSpoils(q, d, rest, t);
      } else {
        EscapedQuoteHead(c);
        var rest2 := Escape(c[1..]) + ("\"" + more);
        assert rest == ['"'] + rest2;
        Run1(q, d);
        NextSpoils(Step(q, d, ""), '"', rest2, t);
        SpoilsLater(q, [d], rest, t);
      }
    }
    SpoilsLater(r, back, Escape(c) + ("\"" + more), t);
  }

  lemma BackslashesAre(n: nat)
    ensures |Backslashes(n)| == n && forall i :: 0 <= i < n ==> Backslashes(n)[i] == '\\'
  {
  }

  lemma EscapeNone(t: string)
    requires t == ""
    ensures Escape(t) == ""
  {
  }

  lemma EscapedQuoteHead(t: string)
    requires t != "" && t[0] == '"'
    ensures Escape(t)[0] == '\\' && Escape(t)[1..] == ['"'] + Escape(t[1..])
  {
  }

  /** The next character closes a token that is too short, or makes it differ from t. */
  lemma NextSpoils(q: Reader, c: char, more: string, t: string)
    requires (q.state.INQUOTE? && c == '"' && |q.current| < |t|) ||
             (!q.state.SPACE? && !q.state.TOKEN? && |q.current| < |t| && t[|q.current|] != c &&
              (q.state.ESCAPE? || c !in "\"\\"))
    ensures Spoils(q, [c] + more, t)
  {
    hide Steps;
    Run1(q, c);
    if !(q.state.INQUOTE? && c == '"') { assert (q.current + [c])[|q.current|] == c; }
    SpoiltEarly(q, [c], more, t);
  }

  lemma BackslashSpoils(r: Reader, t: string, more: string)
    requires r.state.SPACE? && r.current == "" && HasBlanks(t) && '\\' in t
    ensures Spoils(r, "\"" + (Escape(t) + ("\"" + more)), t)
  {
    hide Steps, Spoils, Escape, Backslashes, HasBlanks;
    var a, n, c := FirstRun(t);
    Run1(r, '"');
    QuotedSpoils(r.(state := INQUOTE), a, n, c, more);
    SpoilsLater(r, "\"", Escape(t) + ("\"" + more), t);
  }

  /** The first run of backslashes. */
  lemma FirstRun(t: string) returns (a: string, n: nat, c: string)
    requires '\\' in t
    ensures t == a + (Backslashes(n) + c) && '\\' !in a && n > 0 && (c != "" ==> c[0] != '\\')
  {
    var p := IndexOf(t, '\\');
    var e := FindFirstNotOf(t, "\\", p);
    a, n, c := t[..p], e - p, t[e..];
  }

  lemma QuotedSpoils(r: Reader, a: string, n: nat, c: string, more: string)
    requires r.state.INQUOTE? && r.current == "" && '\\' !in a && n > 0 && (c != "" ==> c[0] != '\\')
    ensures var t := a + (Backslashes(n) + c); Spoils(r, Escape(t) + ("\"" + more), t)
  {
    hide Steps, Spoils, Escape, Backslashes;
    var t := a + (Backslashes(n) + c);
    QuotedReads(r, a);
    assert "" + a == a;
    RunSpoils(r.Add(a, INQUOTE), a, n, c, more, t);
    SpoilsLater(r, Escape(a), Backslashes(n) + (Escape(c) + ("\"" + more)), t);
    RunSplits(a, n, c);
    Regroup4(Escape(a), Backslashes(n), Escape(c), "\"" + more);
  }

  /** A text cut around a run of backslashes. */
  lemma RunSplits(a: string, n: nat, b: string)
    ensures Escape(a + (Backslashes(n) + b)) == Escape(a) + (Backslashes(n) + Escape(b))
  {
    hide Escape, Backslashes;
    EscapeConcat(a, Backslashes(n) + b);
    EscapeConcat(Backslashes(n), b);
    RunIsPlain(n);
  }

  lemma {:induction false} EscapeConcat(a: string, b: string)
    ensures Escape(a + b) == Escape(a) + Escape(b)
  {
    if a == "" {
      assert a + b == b;
    } else {
      EscapeConcat(a[1..], b);
      assert (a + b)[1..] == a[1..] + b;
      Regroup(Escape1(a[0]), Escape(a[1..]), Escape(b));
    }
  }

  lemma {:induction false} RunIsPlain(n: nat)
    ensures Escape(Backslashes(n)) == Backslashes(n)
  {
    if n > 0 {
      RunIsPlain(n - 1);
      assert Backslashes(n) == ['\\'] + Backslashes(n - 1);
      assert Backslashes(n)[1..] == Backslashes(n - 1);
    }
  }

  // ----- The round trip -----

  /** A token that is not good does not come back in its place, whatever the list. */
  lemma BadSpoils(r: Reader, t: string, ts: seq<string>)
    requires r.state.SPACE? && r.current == "" && !Good(t)
    ensures Spoils(r, Written1(t) + Written(ts), t)
  {
    BadIsNotEmpty(t);
    Written1Splits(t, Written(ts));
    var more := " " + Written(ts);
    if HasBlanks(t) {
      assert '\\' in t;
      hide Steps, Spoils, Escape, Written, Written1, Good, HasBlanks;
      BackslashSpoils(r, t, more);
    } else {
      hide Steps, Spoils, Escape, Written, Written1, Good;
      var p := FindFirstOf(t, "\"\r", 0);
      if t[p] == '"' {
        QuoteSpoils(r, t, p, more);
      } else if p > 0 {
        ReturnSpoils(r, t, p, more);
      } else {
        ReturnFirstSpoils(r, t, ts);
      }
    }
  }

  lemma ReturnFirstSpoils(r: Reader, t: string, ts: seq<string>)
    requires r.state.SPACE? && r.current == "" && !HasBlanks(t) && t != "" && t[0] == '\r'
    ensures Spoils(r, Escape(t) + (" " + Written(ts)), t)
  {
    hide Steps, Escape, Written, Finish;
    var q := FindFirstNotOf(t, "\r", 0);
    if q < |t| {
      TokenStarts(r, t, q, " " + Written(ts));
    } else {
      ReturnsSkipped(r, t);
      RunAppend(r, Escape(t), " " + Written(ts));
      RunAppend(r, " ", Written(ts));
      Run1(r, ' ');
      NeverReturns(r, ts);
    }
  }

  lemma {:induction false} WrittenReads(r: Reader, ts: seq<string>)
    requires r.state.SPACE? && r.current == ""
    ensures Finish(Run(r, Written(ts))) == Some(r.tokens + ts) <==> forall t :: t in ts ==> Good(t)
    decreases ts
  {
    hide Written1, Good;
    if ts == [] {
      assert r.tokens + [] == r.tokens;
    } else {
      var t, more := ts[0], Written(ts[1..]);
      assert ts == [t] + ts[1..];
      if Good(t) {
        GoodReads(r, t);
        RunAppend(r, Written1(t), more);
        WrittenReads(Reader(SPACE, "", r.tokens + [t]), ts[1..]);
        assert r.tokens + [t] + ts[1..] == r.tokens + ts;
      } else {
        BadSpoils(r, t, ts[1..]);
        assert (r.tokens + ts)[|r.tokens|] == t;
      }
    }
  }

  /** A list of strings is read back exactly if all its tokens are good. */
  lemma ListRoundTrip(ts: seq<string>, s: string)
    requires if ts == [] then s == "" else s + " " == Written(ts)
    ensures ReadBack(s, "") == Some(ts) <==> forall t :: t in ts ==> Good(t)
  {
    WrittenReads(START, ts);
    assert [] + ts == ts;
    LastBlank(START, s);
  }
}
