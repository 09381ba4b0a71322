/** stringToTokens of src/smallut.cpp. */
module Tokens {
  import opened Strings

  /** The tokens of str from startPos on, after those already found. */
  function TokensFrom(str: string, delims: string, startPos: nat, found: seq<string>, allowempty: bool): seq<string>
    requires startPos <= |str|
    decreases |str| - startPos
  {
    if startPos == |str| then found
    else
      var pos := FindFirstOf(str, delims, startPos);
      if pos == |str| then found + [str[startPos..]]
      else if pos == startPos then
        TokensFrom(str, delims, pos + 1, if allowempty || found == [] then found + [""] else found, allowempty)
      else TokensFrom(str, delims, pos + 1, found + [str[startPos..pos]], allowempty)
  }

  /** The tokens of str with the default flags: initial delimiters skipped, no empty token. */
  function Tokenize(str: string, delims: string): seq<string> {
    TokensFrom(str, delims, FindFirstNotOf(str, delims, 0), [], false)
  }

  method StringToTokens(str: string, delims: string, skipinit: bool, allowempty: bool) returns (tokens: seq<string>)
    ensures tokens == TokensFrom(str, delims, if skipinit then FindFirstNotOf(str, delims, 0) else 0, [], allowempty)
    ensures skipinit && !allowempty ==> tokens == Tokenize(str, delims)
  {
    tokens := [];
    var startPos: nat := 0;
    if skipinit {
      startPos := FindFirstNotOf(str, delims, 0);
      if startPos == |str| {
        return;
      }
    }
    ghost var all := TokensFrom(str, delims, startPos, tokens, allowempty);
    while startPos < |str|
      invariant startPos <= |str|
      invariant TokensFrom(str, delims, startPos, tokens, allowempty) == all
    {
      var pos := FindFirstOf(str, delims, startPos);
      if pos == |str| {
        tokens := tokens + [str[startPos..]];
        break;
      }
      if pos == startPos {
        if allowempty || tokens == [] {
          tokens := tokens + [""];
        }
      } else {
        tokens := tokens + [str[startPos..pos]];
      }
      startPos := pos + 1;
    }
  }

  predicate FreeOf(s: string, chars: string) { forall i :: 0 <= i < |s| ==> s[i] !in chars }

  /** Two words separated by one delimiter. */
  lemma TwoTokens(a: string, d: char, b: string, delims: string)
    requires a != "" && b != "" && d in delims && FreeOf(a, delims) && FreeOf(b, delims)
    ensures Tokenize(a + [d] + b, delims) == [a, b]
  {
    hide FindFirstOf, FindFirstNotOf;
    var s := a + [d] + b;
    assert s[0] == a[0];
    assert FindFirstNotOf(s, delims, 0) == 0;
    assert forall i :: 0 <= i < |a| ==> s[i] == a[i];
    FindFirstOfIs(s, delims, 0, |a|);
    assert s[0..|a|] == a;
    assert forall i :: |a| + 1 <= i < |s| ==> s[i] == b[i - |a| - 1];
    FindFirstOfIs(s, delims, |a| + 1, |s|);
    assert s[|a| + 1..] == b;
    assert TokensFrom(s, delims, |a| + 1, [a], false) == [a] + [b];
    assert TokensFrom(s, delims, 0, [], false) == TokensFrom(s, delims, |a| + 1, [] + [a], false);
    assert [] + [a] == [a];
  }

  // ----- Any number of words -----

  ghost predicate Only(g: string, delims: string) { forall i :: 0 <= i < |g| ==> g[i] in delims }

  /** Words, each with the delimiters behind it. */
  function Spread(ws: seq<string>, gaps: seq<string>): string
    requires |gaps| == |ws|
  {
    if ws == [] then "" else ws[0] + (gaps[0] + Spread(ws[1..], gaps[1..]))
  }

  /** A delimiter at least between two words. */
  ghost predicate WfSpread(ws: seq<string>, gaps: seq<string>, delims: string) {
    |gaps| == |ws| &&
    (forall k :: 0 <= k < |ws| ==> ws[k] != "" && FreeOf(ws[k], delims) && Only(gaps[k], delims)) &&
    forall k :: 0 <= k < |ws| - 1 ==> gaps[k] != ""
  }

  /** Behind a word, and in front of any text if empty tokens do not start it, delimiters are skipped. */
  lemma {:induction false} GapSkipped(str: string, delims: string, start: nat, g: string, found: seq<string>)
    requires start <= |str| && g <= str[start..] && Only(g, delims) && found != []
    ensures start + |g| <= |str|
    ensures TokensFrom(str, delims, start, found, false) == TokensFrom(str, delims, start + |g|, found, false)
    decreases |g|
  {
    if g != "" {
      assert str[start] == g[0];
      FindFirstOfIs(str, delims, start, start);
      assert str[start + 1..] == str[start..][1..];
      GapSkipped(str, delims, start + 1, g[1..], found);
    }
  }

  lemma WordTaken(str: string, delims: string, start: nat, w: string, found: seq<string>, allowempty: bool)
    requires start <= |str| && w <= str[start..] && w != "" && FreeOf(w, delims)
    requires start + |w| < |str| ==> str[start + |w|] in delims
    ensures TokensFrom(str, delims, start, found, allowempty) ==
      if start + |w| == |str| then found + [w] else TokensFrom(str, delims, start + |w| + 1, found + [w], allowempty)
  {
    hide FindFirstOf;
    assert str[start..start + |w|] == w;
    assert forall i :: start <= i < start + |w| ==> str[i] == w[i - start];
    FindFirstOfIs(str, delims, start, start + |w|);
    if start + |w| == |str| { assert str[start..] == w; }
  }

  lemma SpreadStart(ws: seq<string>, gaps: seq<string>, delims: string)
    requires WfSpread(ws, gaps, delims) && ws != []
    ensures Spread(ws, gaps) != "" && Spread(ws, gaps)[0] !in delims && WfSpread(ws[1..], gaps[1..], delims)
    ensures FreeOf(ws[0], delims) && ws[0] != "" && Only(gaps[0], delims)
    ensures |ws| > 1 ==> gaps[0] != ""
  {
    assert FreeOf(ws[0], delims);
    assert Spread(ws, gaps)[0] == ws[0][0];
  }

  lemma {:induction false} WordsTaken(
    str: string, delims: string, start: nat, ws: seq<string>, gaps: seq<string>, found: seq<string>)
    requires start <= |str| && WfSpread(ws, gaps, delims) && str[start..] == Spread(ws, gaps)
    ensures TokensFrom(str, delims, start, found, false) == found + ws
    decreases |ws|
  {
    hide TokensFrom, FindFirstOf;
    if ws == [] {
      NothingLeft(str, delims, found, false);
      assert found + [] == found;
    } else {
      SpreadStart(ws, gaps, delims);
      var w, g, more := ws[0], gaps[0], Spread(ws[1..], gaps[1..]);
      var end := start + |w|;
      assert str[end..] == str[start..][|w|..] == g + more;
      assert end < |str| ==> str[end] == (g + more)[0];
      if |ws| == 1 { assert more == ""; }
      WordTaken(str, delims, start, w, found, false);
      if end < |str| {
        assert g != "";
        assert str[end + 1..] == str[end..][1..] == g[1..] + more;
        GapSkipped(str, delims, end + 1, g[1..], found + [w]);
        assert str[end + |g|..] == str[end..][|g|..] == more;
        WordsTaken(str, delims, end + |g|, ws[1..], gaps[1..], found + [w]);
        assert found + [w] + ws[1..] == found + ws;
      } else {
        assert |g + more| == 0;
        assert found + [w] == found + ws;
      }
    }
  }

  lemma NothingLeft(str: string, delims: string, found: seq<string>, allowempty: bool)
    ensures TokensFrom(str, delims, |str|, found, allowempty) == found
  {
  }

  /** Words with any delimiters around them are the tokens. */
  lemma WordsAreTokens(lead: string, ws: seq<string>, gaps: seq<string>, delims: string)
    requires Only(lead, delims) && WfSpread(ws, gaps, delims)
    ensures Tokenize(lead + Spread(ws, gaps), delims) == ws
  {
    hide FindFirstNotOf, TokensFrom;
    var s := lead + Spread(ws, gaps);
    assert s[|lead|..] == Spread(ws, gaps);
    if ws != [] { SpreadStart(ws, gaps, delims); assert s[|lead|] == Spread(ws, gaps)[0]; }
    assert forall i :: 0 <= i < |lead| ==> s[i] == lead[i];
    FirstNotOfIs(s, delims, |lead|);
    WordsTaken(s, delims, |lead|, ws, gaps, []);
    assert [] + ws == ws;
  }

  lemma FirstNotOfIs(s: string, chars: string, k: nat)
    requires k <= |s| && (k < |s| ==> s[k] !in chars) && forall i :: 0 <= i < k ==> s[i] in chars
    ensures FindFirstNotOf(s, chars, 0) == k
  {
  }

  /** Fields with one delimiter between them. */
  function Fields(fs: seq<string>, d: char): string {
    if fs == [] then "" else if |fs| == 1 then fs[0] else fs[0] + ([d] + Fields(fs[1..], d))
  }

  /** With empty tokens allowed, the fields are the tokens, but for an empty one at the end. */
  lemma {:induction false} FieldsAreTokens(str: string, d: char, start: nat, fs: seq<string>, found: seq<string>)
    requires start <= |str| && fs != [] && str[start..] == Fields(fs, d)
    requires forall k :: 0 <= k < |fs| ==> d !in fs[k]
    ensures TokensFrom(str, [d], start, found, true) == found + if fs[|fs| - 1] == "" then fs[..|fs| - 1] else fs
    decreases |fs|
  {
    hide TokensFrom, FindFirstOf;
    var f := fs[0];
    assert FreeOf(f, [d]);
    if |fs| == 1 {
      LastField(str, d, start, f, found);
      assert fs == [f] && fs[..0] == [];
    } else {
      var more := Fields(fs[1..], d);
      FieldTaken(str, d, start, f, more, found);
      FieldsAreTokens(str, d, start + |f| + 1, fs[1..], found + [f]);
      assert fs == [f] + fs[1..];
      assert fs[..|fs| - 1] == [f] + fs[1..][..|fs[1..]| - 1];
      Regroup(found, [f], if fs[|fs| - 1] == "" then fs[1..][..|fs[1..]| - 1] else fs[1..]);
    }
  }

  lemma LastField(str: string, d: char, start: nat, f: string, found: seq<string>)
    requires start <= |str| && str[start..] == f && FreeOf(f, [d])
    ensures TokensFrom(str, [d], start, found, true) == found + if f == "" then [] else [f]
  {
    hide TokensFrom, FindFirstOf;
    if f == "" {
      NothingLeft(str, [d], found, true);
      assert found + [] == found;
    } else {
      WordTaken(str, [d], start, f, found, true);
    }
  }

  lemma FieldTaken(str: string, d: char, start: nat, f: string, more: string, found: seq<string>)
    requires start <= |str| && str[start..] == f + ([d] + more) && FreeOf(f, [d])
    ensures start + |f| < |str| && str[start + |f| + 1..] == more
    ensures TokensFrom(str, [d], start, found, true) == TokensFrom(str, [d], start + |f| + 1, found + [f], true)
  {
    hide TokensFrom, FindFirstOf;
    var end := start + |f|;
    assert str[end..] == str[start..][|f|..] == [d] + more;
    assert str[end] == str[end..][0] == d;
    assert str[end + 1..] == str[end..][1..];
    if f == "" { EmptyTaken(str, d, start, found); } else { WordTaken(str, [d], start, f, found, true); }
  }

  lemma EmptyTaken(str: string, d: char, start: nat, found: seq<string>)
    requires start < |str| && str[start] == d
    ensures TokensFrom(str, [d], start, found, true) == TokensFrom(str, [d], start + 1, found + [""], true)
  {
    FindFirstOfIs(str, [d], start, start);
  }

  /** Without empty tokens, but with the delimiters in front not skipped, one empty token stands for all of those. */
  lemma OneEmptyInFront(lead: string, ws: seq<string>, gaps: seq<string>, delims: string)
    requires lead != "" && Only(lead, delims) && WfSpread(ws, gaps, delims)
    ensures TokensFrom(lead + Spread(ws, gaps), delims, 0, [], false) == [""] + ws
  {
    hide FindFirstOf, Spread;
    var s := lead + Spread(ws, gaps);
    assert s[0] == lead[0];
    FindFirstOfIs(s, delims, 0, 0);
    assert TokensFrom(s, delims, 0, [], false) == TokensFrom(s, delims, 1, [""], false) by { assert [] + [""] == [""]; }
    hide TokensFrom;
    assert s[1..] == lead[1..] + Spread(ws, gaps);
    GapSkipped(s, delims, 1, lead[1..], [""]);
    assert s[|lead|..] == Spread(ws, gaps);
    WordsTaken(s, delims, |lead|, ws, gaps, [""]);
  }
}
