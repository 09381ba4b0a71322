/** Markup escapes: escapeHtml of src/smallut.cpp and the unQuote of cfgui/picoxml.h that reads them (predefined
    entities, section 4.6 of XML 1.0). */
module Escapes {
  import opened Strings

  function Escape1(c: char): string {
    match c
    case '<' => "&lt;"
    case '>' => "&gt;"
    case '&' => "&amp;"
    case '"' => "&quot;"
    case _ => [c]
  }

  function Escaped(s: string): string { if s == "" then "" else Escape1(s[0]) + Escaped(s[1..]) }

  /** Other codes give nothing. */
  function Entity(code: string): string {
    if code == "quot" then "\"" else if code == "amp" then "&" else if code == "apos" then "'"
    else if code == "lt" then "<" else if code == "gt" then ">" else ""
  }

  /** An entity without end loses the rest of the text. */
  function Unquoted(s: string): string {
    if s == "" then ""
    else if s[0] != '&' then [s[0]] + Unquoted(s[1..])
    else
      var k := IndexOf(s[1..], ';');
      if k == |s[1..]| then "" else Entity(s[1..][..k]) + Unquoted(s[1..][k + 1..])
  }

  method EscapeHtml(s: string) returns (out: string)
    ensures out == Escaped(s)
  {
    hide Escaped;
    out := "";
    EscapedAt(s, 0);
    assert s[0..] == s;
    for i := 0 to |s|
      invariant out + Escaped(s[i..]) == Escaped(s)
    {
      EscapedAt(s, i);
      Regroup(out, Escape1(s[i]), Escaped(s[i + 1..]));
      match s[i]
      case '<' => out := out + "&lt;";
      case '>' => out := out + "&gt;";
      case '&' => out := out + "&amp;";
      case '"' => out := out + "&quot;";
      case _ => out := out + [s[i]];
    }
    EscapedAt(s, |s|);
  }

  lemma EscapedAt(s: string, i: nat)
    requires i <= |s|
    ensures Escaped(s[i..]) == if i == |s| then "" else Escape1(s[i]) + Escaped(s[i + 1..])
  {
    if i < |s| { assert s[i..][1..] == s[i + 1..]; }
  }

  method UnQuote(s: string) returns (out: string)
    ensures out == Unquoted(s)
  {
    hide Unquoted, Entity;
    out := "";
    var it := 0;
    assert s[0..] == s;
    while it < |s|
      invariant 0 <= it <= |s| && out + Unquoted(s[it..]) == Unquoted(s)
      decreases |s| - it
    {
      UnquotedAt(s, it);
      if s[it] != '&' {
        Regroup(out, [s[it]], Unquoted(s[it + 1..]));
        out := out + [s[it]];
        it := it + 1;
        continue;
      }
      it := it + 1;
      ghost var start := it;
      var code := "";
      while it < |s| && s[it] != ';'
        invariant start <= it <= |s| && code == s[start..it] && forall i :: start <= i < it ==> s[i] != ';'
      {
        code := code + [s[it]];
        it := it + 1;
      }
      IndexOfIs(s[start..], ';', it - start);
      assert s[start..][..it - start] == s[start..it];
      if it == |s| { return; }
      it := it + 1;
      Regroup(out, Entity(code), Unquoted(s[it..]));
      out := out + Entity(code);
    }
    UnquotedAt(s, it);
  }

  lemma UnquotedAt(s: string, i: nat)
    requires i <= |s|
    ensures Unquoted(s[i..]) ==
      if i == |s| then ""
      else if s[i] != '&' then [s[i]] + Unquoted(s[i + 1..])
      else
        var k := IndexOf(s[i + 1..], ';');
        if i + 1 + k == |s| then "" else Entity(s[i + 1..][..k]) + Unquoted(s[i + k + 2..])
  {
    hide Entity, IndexOf;
    if i < |s| {
      assert s[i..][1..] == s[i + 1..];
      var k := IndexOf(s[i + 1..], ';');
      if i + 1 + k < |s| { assert s[i + 1..][k + 1..] == s[i + k + 2..]; }
    }
  }

  lemma {:induction false} EscapedHasNo(s: string)
    ensures '<' !in Escaped(s) && '>' !in Escaped(s) && '"' !in Escaped(s)
    ensures s != "" ==> Escaped(s) != ""
  {
    if s != "" { EscapedHasNo(s[1..]); }
  }

  lemma {:induction false} EscapedConcat(a: string, b: string)
    ensures Escaped(a + b) == Escaped(a) + Escaped(b)
  {
    hide Escape1;
    if a == "" {
      assert a + b == b;
    } else {
      EscapedConcat(a[1..], b);
      assert (a + b)[0] == a[0] && (a + b)[1..] == a[1..] + b;
      Regroup(Escape1(a[0]), Escaped(a[1..]), Escaped(b));
    }
  }

  /** Angle brackets, ampersands and double quotes have their escapes, and nothing else changes. */
  lemma {:induction false} EscapedTable(plain: string)
    requires '<' !in plain && '>' !in plain && '&' !in plain && '"' !in plain
    ensures Escaped("<") == "&lt;" && Escaped(">") == "&gt;" && Escaped("&") == "&amp;" && Escaped("\"") == "&quot;"
    ensures Escaped(plain) == plain
  {
    if plain != "" {
      EscapedTable(plain[1..]);
      assert [plain[0]] + plain[1..] == plain;
    }
  }

  lemma {:induction false} UnquoteUndoesEscape(s: string)
    ensures Unquoted(Escaped(s)) == s
  {
    if s != "" {
      UnquoteUndoesEscape(s[1..]);
      UnquotedFirst(s[0], Escaped(s[1..]));
    }
  }

  function Code(c: char): string {
    if c == '<' then "lt" else if c == '>' then "gt" else if c == '&' then "amp" else "quot"
  }

  lemma EscapedByCode(c: char)
    requires c in "<>&\""
    ensures Escape1(c) == "&" + Code(c) + ";" && Entity(Code(c)) == [c] && ';' !in Code(c)
  {
  }

  lemma UnquotedFirst(c: char, rest: string)
    ensures Unquoted(Escape1(c) + rest) == [c] + Unquoted(rest)
  {
    if c in "<>&\"" {
      EscapedByCode(c);
      EntityFirst(Code(c), rest);
    } else {
      assert ([c] + rest)[1..] == rest;
    }
  }

  lemma EntityFirst(code: string, rest: string)
    requires ';' !in code
    ensures Unquoted("&" + code + ";" + rest) == Entity(code) + Unquoted(rest)
  {
    var t := "&" + code + ";" + rest;
    var u := code + (";" + rest);
    assert t[0] == '&' && t[1..] == u;
    CodeEnds(code, rest);
    hide Entity, IndexOf;
  }

  lemma CodeEnds(code: string, rest: string)
    requires ';' !in code
    ensures var u := code + (";" + rest);
      IndexOf(u, ';') == |code| && u[..|code|] == code && u[|code| + 1..] == rest
  {
    var u := code + (";" + rest);
    assert forall i :: 0 <= i < |code| ==> u[i] == code[i];
    IndexOfIs(u, ';', |code|);
  }
}
