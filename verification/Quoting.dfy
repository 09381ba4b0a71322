/** Lists of strings written as one: stringsToString and stringToStrings of src/smallut.cpp. */
module Quoting {
  import opened Strings

  // ----- Writing -----

  const BLANK := " \t\n"

  predicate HasBlanks(t: string) { exists k :: 0 <= k < |t| && t[k] in BLANK }

  function Escape1(c: char): string { if c == '"' then "\\\"" else [c] }

  function Escape(t: string): string { if t == "" then "" else Escape1(t[0]) + Escape(t[1..]) }

  /** One token, and the blank behind it. */
  function Written1(t: string): string {
    (if t == "" then "\"\"" else if HasBlanks(t) then "\"" + Escape(t) + "\"" else Escape(t)) + " "
  }

  function Written(ts: seq<string>): string { if ts == [] then "" else Written1(ts[0]) + Written(ts[1..]) }

  /** The last blank is taken off again. */
  method StringsToString(tokens: seq<string>) returns (s: string)
    ensures if tokens == [] then s == "" else s + " " == Written(tokens)
  {
    hide Written1;
    s := "";
    if tokens == [] { return; }
    for i := 0 to |tokens|
      invariant s + Written(tokens[i..]) == Written(tokens)
      invariant i > 0 ==> s != "" && s[|s| - 1] == ' '
    {
      var one := WriteToken(tokens[i]);
      WrittenEnds(tokens[i]);
      assert tokens[i..][1..] == tokens[i + 1..];
      assert (s + one) + Written(tokens[i + 1..]) == s + (one + Written(tokens[i + 1..]));
      s := s + one;
    }
    s := s[..|s| - 1];
  }

  lemma WrittenEnds(t: string)
    ensures Written1(t) != "" && Written1(t)[|Written1(t)| - 1] == ' '
  {
  }

  method WriteToken(t: string) returns (s: string)
    ensures s == Written1(t)
  {
    if t == "" { return "\"\" "; }
    var hasblanks := FindFirstOf(t, BLANK, 0) < |t|;
    assert hasblanks == HasBlanks(t);
    s := "";
    for i := 0 to |t|
      invariant s + Escape(t[i..]) == Escape(t)
    {
      assert t[i..][1..] == t[i + 1..];
      assert (s + Escape1(t[i])) + Escape(t[i + 1..]) == s + (Escape1(t[i]) + Escape(t[i + 1..]));
      s := s + if t[i] == '"' then "\\" + [t[i]] else [t[i]];
    }
    if hasblanks { s := "\"" + s + "\""; }
    s := s + " ";
  }

  // ----- Reading -----

  datatype State = SPACE | TOKEN | INQUOTE | ESCAPE

  datatype Reader = Reader(state: State, current: string, tokens: seq<string>)
  {
    function Add(c: string, s: State): Reader { Reader(s, current + c, tokens) }
    function Push(): Reader { Reader(SPACE, "", tokens + [current]) }
  }

  /** One character; the separators of addseps are tokens of their own. */
  function Step(r: Reader, c: char, addseps: string): Reader {
    if c == '"' then
      match r.state
      case SPACE => r.(state := INQUOTE)
      case TOKEN => r.Add([c], TOKEN)
      case INQUOTE => r.Push()
      case ESCAPE => r.Add([c], INQUOTE)
    else if c == '\\' then
      match r.state
      case SPACE => r.Add([c], TOKEN)
      case TOKEN => r.Add([c], TOKEN)
      case INQUOTE => r.(state := ESCAPE)
      case ESCAPE => r.Add([c], INQUOTE)
    else if c in " \t\n\r" then
      match r.state
      case SPACE => r
      case TOKEN => r.Push()
      case _ => r.Add([c], r.state)
    else if c in addseps && r.state.SPACE? then r.(tokens := r.tokens + [[c]])
    else if c in addseps && r.state.TOKEN? then Reader(SPACE, "", r.tokens + [r.current] + [[c]])
    else
      r.Add([c], match r.state case ESCAPE => INQUOTE case SPACE => TOKEN case s => s)
  }

  function Steps(r: Reader, s: string, addseps: string): Reader
    decreases |s|
  {
    if s == "" then r else Steps(Step(r, s[0], addseps), s[1..], addseps)
  }

  /** A quote without end is an error. */
  function Finish(r: Reader): Option<seq<string>> {
    match r.state
    case SPACE => Some(r.tokens)
    case TOKEN => Some(r.tokens + [r.current])
    case _ => None
  }

  const START := Reader(SPACE, "", [])

  function ReadBack(s: string, addseps: string): Option<seq<string>> { Finish(Steps(START, s, addseps)) }

  method StringToStrings(s: string, addseps: string) returns (ok: bool, tokens: seq<string>)
    ensures ReadBack(s, addseps) == if ok then Some(tokens) else None
  {
    tokens := [];
    var current := "";
    var state := SPACE;
    for k := 0 to |s|
      invariant Steps(Reader(state, current, tokens), s[k..], addseps) == Steps(START, s, addseps)
    {
      var i := s[k];
      assert s[k..][1..] == s[k + 1..];
      if i == '"' {
        match state {
          case SPACE => state := INQUOTE;
          case TOKEN => current := current + "\"";
          case INQUOTE =>
            tokens := tokens + [current];
            current := "";
            state := SPACE;
          case ESCAPE =>
            current := current + "\"";
            state := INQUOTE;
        }
      } else if i == '\\' {
        match state {
          case SPACE =>
            current := current + "\\";
            state := TOKEN;
          case TOKEN => current := current + "\\";
          case INQUOTE => state := ESCAPE;
          case ESCAPE =>
            current := current + "\\";
            state := INQUOTE;
        }
      } else if i == ' ' || i == '\t' || i == '\n' || i == '\r' {
        match state {
          case SPACE =>
          case TOKEN =>
            tokens := tokens + [current];
            current := "";
            state := SPACE;
          case _ => current := current + [i];
        }
      } else if i in addseps && state == SPACE {
        tokens := tokens + [[i]];
      } else if i in addseps && state == TOKEN {
        tokens := tokens + [current];
        current := "";
        tokens := tokens + [[i]];
        state := SPACE;
      } else {
        match state {
          case ESCAPE => state := INQUOTE;
          case SPACE => state := TOKEN;
          case _ =>
        }
        current := current + [i];
      }
    }
    match state {
      case SPACE => ok := true;
      case TOKEN =>
        tokens := tokens + [current];
        ok := true;
      case _ => ok := false;
    }
  }
}
