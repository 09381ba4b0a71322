/** The configuration store of src/conftree.cpp: the section/name/value maps, the presentation list
    of lines, and what the parser, the printer and the updates do to the pair.
    Case-sensitive keys, trimmed values, no tilde expansion. */
module ConfStore {
  import opened Strings

  /** A presentation line (class ConfLine). */
  datatype ConfLine =
    | Comment(text: string)
    | Section(name: string)
    | Var(name: string, value: string)
    | VarComment(text: string, name: string)
  {
    predicate IsVar(nm: string) { Var? && name == nm }
  }

  type Submaps = map<string, map<string, string>>

  datatype Store = Store(submaps: Submaps, order: seq<ConfLine>)

  const EMPTY: Store := Store(map[], [])

  function Lookup(m: Submaps, nm: string, sk: string): Option<string> {
    if sk in m && nm in m[sk] then Some(m[sk][nm]) else None
  }

  // ----- Updates -----

  function Assign(m: Submaps, nm: string, val: string, sk: string): (r: Submaps)
    ensures Lookup(r, nm, sk) == Some(val)
    ensures forall n, s :: (n, s) != (nm, sk) ==> Lookup(r, n, s) == Lookup(m, n, s)
  {
    m[sk := (if sk in m then m[sk] else map[])[nm := val]]
  }

  predicate HasLineBreak(s: string) { '\n' in s || '\r' in s }

  /** The section in force just before line i: the last section line above it. */
  function SectionAt(order: seq<ConfLine>, i: nat): string
    requires i <= |order|
  {
    if i == 0 then "" else if order[i - 1].Section? then order[i - 1].name else SectionAt(order, i - 1)
  }

  /** First line at or after start for which std::find_if would stop, |order| if none. */
  function FindSection(order: seq<ConfLine>, sk: string, start: nat): (r: nat)
    requires start <= |order|
    ensures start <= r <= |order|
    ensures r < |order| ==> order[r] == Section(sk)
    ensures forall i :: start <= i < r ==> order[i] != Section(sk)
    decreases |order| - start
  {
    if start == |order| || order[start] == Section(sk) then start else FindSection(order, sk, start + 1)
  }

  function FindVar(order: seq<ConfLine>, nm: string, start: nat, fin: nat): (r: nat)
    requires start <= fin <= |order|
    ensures start <= r <= fin
    ensures r < fin ==> order[r].IsVar(nm)
    ensures forall i :: start <= i < r ==> !order[i].IsVar(nm)
    decreases fin - start
  {
    if start == fin || order[start].IsVar(nm) then start else FindVar(order, nm, start + 1, fin)
  }

  function NextSection(order: seq<ConfLine>, start: nat): (r: nat)
    requires start <= |order|
    ensures start <= r <= |order|
    ensures r < |order| ==> order[r].Section?
    ensures forall i :: start <= i < r ==> !order[i].Section?
    decreases |order| - start
  {
    if start == |order| || order[start].Section? then start else NextSection(order, start + 1)
  }

  function FindVarComment(order: seq<ConfLine>, nm: string, start: nat, fin: nat): (r: nat)
    requires start <= fin <= |order|
    ensures start <= r <= fin
    ensures r < fin ==> order[r].VarComment? && order[r].name == nm
    ensures forall i :: start <= i < r ==> !(order[i].VarComment? && order[i].name == nm)
    decreases fin - start
  {
    if start == fin || (order[start].VarComment? && order[start].name == nm) then start
    else FindVarComment(order, nm, start + 1, fin)
  }

  function InsertAt(order: seq<ConfLine>, i: nat, l: ConfLine): seq<ConfLine>
    requires i <= |order|
  {
    order[..i] + [l] + order[i..]
  }

  /** First line of the zone of sk: the top of the list, or just below the first line of section sk. */
  function ZoneStart(order: seq<ConfLine>, sk: string): (r: nat)
    requires sk == "" || Section(sk) in order
    ensures r <= |order|
  {
    if sk == "" then 0 else FindSection(order, sk, 0) + 1
  }

  /** Where a new variable goes: after its commented-out form in the first zone of its section, or
      at the end of that zone; nowhere if the zone still has a line for it. */
  function PlaceInZone(order: seq<ConfLine>, nm: string, start: nat, fin: nat): (r: seq<ConfLine>)
    requires start <= fin <= |order|
    ensures forall l :: l in order ==> l in r
  {
    if FindVar(order, nm, start, fin) < fin then order
    else
      var vc := FindVarComment(order, nm, start, fin);
      InsertAt(order, if vc < fin then vc + 1 else fin, Var(nm, ""))
  }

  function PlaceVar(order: seq<ConfLine>, nm: string, sk: string): (r: seq<ConfLine>)
    requires sk == "" || Section(sk) in order
    ensures forall l :: l in order ==> l in r
  {
    var start := ZoneStart(order, sk);
    PlaceInZone(order, nm, start, NextSection(order, start))
  }

  /** i_set makes sure that a section it creates has a line. */
  function WithSectionLine(st: Store, sk: string): (r: seq<ConfLine>)
    requires SectionsListed(st)
    ensures st.order <= r
    ensures sk == "" || Section(sk) in r
  {
    if sk !in st.submaps && sk != "" && Section(sk) !in st.order then st.order + [Section(sk)] else st.order
  }

  /** Every stored non-empty section has a line, so that i_set never reaches its abort(). */
  ghost predicate SectionsListed(st: Store) {
    forall sk :: sk in st.submaps && sk != "" ==> Section(sk) in st.order
  }

  /** i_set, while parsing (init) or on a parsed store. */
  function ISet(st: Store, nm: string, val: string, sk: string, init: bool): (r: Store)
    requires SectionsListed(st)
    ensures SectionsListed(r)
  {
    if HasLineBreak(val) then st
    else
      var m := Assign(st.submaps, nm, val, sk);
      if Lookup(st.submaps, nm, sk).Some? then Store(m, st.order)
      else if init then Store(m, WithSectionLine(st, sk) + [Var(nm, val)])
      else Store(m, PlaceVar(WithSectionLine(st, sk), nm, sk))
  }

  /** erase: the presentation list is left alone, and an emptied section disappears. */
  function Erase(st: Store, nm: string, sk: string): (r: Store)
    ensures Lookup(r.submaps, nm, sk) == None
    ensures forall n, s :: (n, s) != (nm, sk) ==> Lookup(r.submaps, n, s) == Lookup(st.submaps, n, s)
  {
    if sk !in st.submaps then st
    else
      var rest := st.submaps[sk] - {nm};
      assert forall n :: n in st.submaps[sk] && n != nm ==> n in rest;
      st.(submaps := if rest == map[] then st.submaps - {sk} else st.submaps[sk := rest])
  }

  function EraseKey(st: Store, sk: string): Store {
    st.(submaps := st.submaps - {sk})
  }

  // ----- Printer -----

  /** The value as varprinter writes it when the line would be long: a backslash and a newline after
      a blank, once more than 50 characters are out and more than 10 remain. */
  function Fold(v: string, pos: nat, ll: nat): string
    requires pos <= |v|
    decreases |v| - pos
  {
    if pos == |v| then ""
    else if ll + 1 > 50 && |v| - pos > 10 && v[pos] in BLANKS then [v[pos]] + "\\\n" + Fold(v, pos + 1, 0)
    else [v[pos]] + Fold(v, pos + 1, ll + 1)
  }

  function PrintVar(nm: string, v: string): string {
    if nm == "" then "\n[" + v + "]\n"
    else nm + " = " + (if |nm| + |v| < 75 then v else Fold(v, 0, 0)) + "\n"
  }

  function PrintLine(m: Submaps, l: ConfLine, sk: string): string {
    match l
    case Comment(t) => t + "\n"
    case VarComment(t, _) => t + "\n"
    case Section(n) => if n in m then "[" + n + "]\n" else ""
    case Var(n, _) => match Lookup(m, n, sk) case Some(v) => PrintVar(n, v) case None => ""
  }

  /** What write() has output after k lines of the presentation list. */
  function Written(st: Store, k: nat): string
    requires k <= |st.order|
  {
    if k == 0 then ""
    else Written(st, k - 1) + PrintLine(st.submaps, st.order[k - 1], SectionAt(st.order, k))
  }

  function Write(st: Store): string { Written(st, |st.order|) }

  // ----- Parser -----

  /** The locals of parseinput that live across lines. */
  datatype ParseState = ParseState(store: Store, section: string, appending: bool, line: string)

  predicate IsAlnum(c: char) { 'a' <= c <= 'z' || 'A' <= c <= 'Z' || '0' <= c <= '9' }

  function SkipAlnum(s: string, start: nat): (r: nat)
    requires start <= |s|
    ensures start <= r <= |s|
    decreases |s| - start
  {
    if start < |s| && IsAlnum(s[start]) then SkipAlnum(s, start + 1) else start
  }

  /** The sub-match of [ \t]*#[ \t]*([a-zA-Z0-9]+)[ \t]*= in line, searched from start on. */
  function CommentedVar(line: string, start: nat): Option<string>
    requires start <= |line|
    decreases |line| - start
  {
    if start == |line| then None
    else if line[start] != '#' then CommentedVar(line, start + 1)
    else
      var b := FindFirstNotOf(line, BLANKS, start + 1);
      var e := SkipAlnum(line, b);
      var q := FindFirstNotOf(line, BLANKS, e);
      if b < e && q < |line| && line[q] == '=' then Some(line[b..e]) else CommentedVar(line, start + 1)
  }

  function CommentLine(line: string): (r: ConfLine)
    ensures (r.Comment? || r.VarComment?) && r.text == line
  {
    match CommentedVar(line, 0)
    case Some(nm) => VarComment(line, nm)
    case None => Comment(line)
  }

  /** The text a physical line is joined to. */
  function Carried(p: ParseState): string { if p.appending then p.line else "" }

  /** The logical line so far, once the physical line cline is in. */
  function Logical(p: ParseState, cline: string): (r: string)
    ensures Trimmed(r, BLANKS)
  {
    Trim(Carried(p) + RTrim(cline, "\n\r"), BLANKS)
  }

  /** What a complete logical line does. It is not blank, not a # comment and not continued. */
  function Define(p: ParseState, line: string): (r: ParseState)
    requires SectionsListed(p.store)
    requires line != ""
    ensures SectionsListed(r.store) && !r.appending
  {
    var eq := IndexOf(line, '=');
    var nm := if eq < |line| then Trim(line[..eq], BLANKS) else "";
    if line[0] == '[' then
      var sk := Trim(line, "[] \t");
      ParseState(p.store.(order := p.store.order + [Section(sk)]), sk, false, line)
    else if nm == "" then
      ParseState(p.store.(order := p.store.order + [Comment(line)]), p.section, false, line)
    else
      ParseState(ISet(p.store, nm, Trim(line[eq + 1..], BLANKS), p.section, true), p.section, false, line)
  }

  predicate DefinesVar(line: string) {
    line != "" && line[0] != '[' && IndexOf(line, '=') < |line| && Trim(line[..IndexOf(line, '=')], BLANKS) != ""
  }

  /** One turn of the parseinput loop. The boolean tells that the loop ends. */
  function Step(p: ParseState, cline: string, eof: bool): (r: (ParseState, bool))
    requires SectionsListed(p.store)
    ensures eof && !r.1 ==> |Carried(r.0)| < |Carried(p)| + |cline|
    ensures SectionsListed(r.0.store)
  {
    var line := Logical(p, cline);
    if line == "" || line[0] == '#' then
      if eof then (p.(line := line), true)
      else (p.(store := p.store.(order := p.store.order + [CommentLine(line)]), line := line), false)
    else if line[|line| - 1] == '\\' then
      (p.(appending := true, line := line[..|line| - 1]), false)
    else
      (Define(p, line), eof && DefinesVar(line))
  }

  /** The turns of the loop once the input is exhausted: cline is what was read last. */
  function AtEof(p: ParseState, cline: string): Store
    requires SectionsListed(p.store)
    decreases |Carried(p)| + |cline|
  {
    var (q, stop) := Step(p, cline, true);
    if stop then q.store else AtEof(q, "")
  }

  function Run(p: ParseState, text: string): Store
    requires SectionsListed(p.store)
    decreases |text|
  {
    var e := IndexOf(text, '\n');
    if e < |text| then Run(Step(p, text[..e], false).0, text[e + 1..]) else AtEof(p, text)
  }

  function Fresh(st: Store): ParseState { ParseState(st, "", false, "") }

  function Parse(text: string): Store { Run(Fresh(EMPTY), text) }

  // ----- The loop, one turn at a time -----

  lemma StepUnfolds(p: ParseState, cline: string, eof: bool)
    requires SectionsListed(p.store)
    ensures var line := Logical(p, cline); var r := Step(p, cline, eof);
      if line == "" || line[0] == '#' then
        if eof then r == (p.(line := line), true)
        else r == (p.(store := p.store.(order := p.store.order + [CommentLine(line)]), line := line), false)
      else if line[|line| - 1] == '\\' then r == (p.(appending := true, line := line[..|line| - 1]), false)
      else r == (Define(p, line), eof && DefinesVar(line))
  {
  }

  lemma AtEofUnfolds(p: ParseState, cline: string)
    requires SectionsListed(p.store)
    ensures var r := Step(p, cline, true);
      AtEof(p, cline) == if r.1 then r.0.store else AtEof(r.0, "")
  {
  }

  lemma RunUnfolds(p: ParseState, text: string)
    requires SectionsListed(p.store)
    ensures var e := IndexOf(text, '\n');
      Run(p, text) == if e < |text| then Run(Step(p, text[..e], false).0, text[e + 1..]) else AtEof(p, text)
  {
  }
}
