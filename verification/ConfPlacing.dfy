/** Where set() puts a new variable, and which comments it takes for commented-out definitions. */
module ConfPlacing {
  import opened Strings
  import opened ConfStore
  import opened ConfInvariants
  import opened ConfLaws

  // ----- Where a new variable goes -----

  ghost predicate NoSection(z: seq<ConfLine>) { forall i :: 0 <= i < |z| ==> !z[i].Section? }

  ghost predicate NoVar(z: seq<ConfLine>, nm: string) { forall i :: 0 <= i < |z| ==> !z[i].IsVar(nm) }

  ghost predicate NoVarComment(z: seq<ConfLine>, nm: string) {
    forall i :: 0 <= i < |z| ==> !(z[i].VarComment? && z[i].name == nm)
  }

  /** A list cut at the first zone of a section: what stands above it, the zone, and what follows. */
  ghost predicate Zone(above: seq<ConfLine>, zone: seq<ConfLine>, below: seq<ConfLine>, sk: string) {
    NoSection(zone) && (below != [] ==> below[0].Section?) &&
    if sk == "" then above == []
    else above != [] && above[|above| - 1] == Section(sk) && Section(sk) !in above[..|above| - 1]
  }

  lemma ZoneIs(above: seq<ConfLine>, zone: seq<ConfLine>, below: seq<ConfLine>, sk: string)
    requires Zone(above, zone, below, sk)
    ensures var order := above + zone + below;
      (sk == "" || Section(sk) in order) && ZoneStart(order, sk) == |above| &&
      NextSection(order, |above|) == |above + zone|
  {
    var order := above + zone + below;
    if sk != "" {
      var i := |above| - 1;
      assert order[i] == Section(sk);
      assert forall j :: 0 <= j < i ==> order[j] == above[..i][j];
    }
    assert forall j :: |above| <= j < |above + zone| ==> order[j] == zone[j - |above|];
    assert below != [] ==> order[|above + zone|] == below[0];
  }

  /** The zone as PlaceInZone sees it. */
  lemma ZoneCut(above: seq<ConfLine>, zone: seq<ConfLine>, below: seq<ConfLine>)
    ensures var order := above + zone + below;
      |above| <= |above + zone| <= |order| && order[..|above + zone|] == above + zone && order[|above + zone|..] == below
    ensures forall j :: 0 <= j < |zone| ==> (above + zone + below)[|above| + j] == zone[j]
  {
  }

  lemma FoundAlready(above: seq<ConfLine>, zone: seq<ConfLine>, below: seq<ConfLine>, nm: string)
    requires !NoVar(zone, nm)
    ensures var order := above + zone + below;
      |above| <= |above + zone| <= |order| && PlaceInZone(order, nm, |above|, |above + zone|) == order
  {
    ZoneCut(above, zone, below);
    var i :| 0 <= i < |zone| && zone[i].IsVar(nm);
    assert (above + zone + below)[|above| + i].IsVar(nm);
  }

  lemma NotFound(above: seq<ConfLine>, zone: seq<ConfLine>, below: seq<ConfLine>, nm: string)
    requires NoVar(zone, nm)
    ensures var order := above + zone + below;
      |above| <= |above + zone| <= |order| && FindVar(order, nm, |above|, |above + zone|) == |above + zone|
  {
    ZoneCut(above, zone, below);
    var order := above + zone + below;
    assert forall j :: |above| <= j < |above + zone| ==> order[j] == zone[j - |above|];
  }

  lemma AtTheEnd(above: seq<ConfLine>, zone: seq<ConfLine>, below: seq<ConfLine>, nm: string)
    requires NoVar(zone, nm) && NoVarComment(zone, nm)
    ensures var order := above + zone + below;
      |above| <= |above + zone| <= |order| &&
      PlaceInZone(order, nm, |above|, |above + zone|) == above + zone + [Var(nm, "")] + below
  {
    hide FindVar, FindVarComment;
    ZoneCut(above, zone, below);
    NotFound(above, zone, below, nm);
    var order := above + zone + below;
    assert forall j :: |above| <= j < |above + zone| ==> order[j] == zone[j - |above|];
  }

  lemma BehindItsComment(above: seq<ConfLine>, zone: seq<ConfLine>, below: seq<ConfLine>, nm: string, i: nat)
    requires NoVar(zone, nm) && i < |zone| && zone[i].VarComment? && zone[i].name == nm && NoVarComment(zone[..i], nm)
    ensures var order := above + zone + below;
      |above| <= |above + zone| <= |order| &&
      PlaceInZone(order, nm, |above|, |above + zone|) == above + zone[..i + 1] + [Var(nm, "")] + zone[i + 1..] + below
  {
    hide FindVar, FindVarComment;
    ZoneCut(above, zone, below);
    NotFound(above, zone, below, nm);
    var order := above + zone + below;
    var p := |above| + i;
    var r := FindVarComment(order, nm, |above|, |above + zone|);
    assert order[p] == zone[i];
    assert forall j :: |above| <= j < p ==> order[j] == zone[..i][j - |above|];
    assert r == p;
    assert order[..p + 1] == above + zone[..i + 1];
    assert order[p + 1..] == zone[i + 1..] + below;
  }

  /** The variable goes right behind its commented-out line in the first zone of its section, else to the end of that
      zone; and nowhere if that zone has a line for it. */
  lemma PlacedExactly(above: seq<ConfLine>, zone: seq<ConfLine>, below: seq<ConfLine>, nm: string, sk: string)
    requires Zone(above, zone, below, sk)
    ensures sk == "" || Section(sk) in above + zone + below
    ensures !NoVar(zone, nm) ==> PlaceVar(above + zone + below, nm, sk) == above + zone + below
    ensures NoVar(zone, nm) && NoVarComment(zone, nm) ==>
      PlaceVar(above + zone + below, nm, sk) == above + zone + [Var(nm, "")] + below
    ensures NoVar(zone, nm) ==>
      forall i :: 0 <= i < |zone| && zone[i].VarComment? && zone[i].name == nm && NoVarComment(zone[..i], nm) ==>
        PlaceVar(above + zone + below, nm, sk) == above + zone[..i + 1] + [Var(nm, "")] + zone[i + 1..] + below
  {
    hide ZoneStart, NextSection, PlaceInZone;
    ZoneIs(above, zone, below, sk);
    ZoneCut(above, zone, below);
    if NoVar(zone, nm) {
      if NoVarComment(zone, nm) { AtTheEnd(above, zone, below, nm); }
      forall i | 0 <= i < |zone| && zone[i].VarComment? && zone[i].name == nm && NoVarComment(zone[..i], nm)
        ensures PlaceVar(above + zone + below, nm, sk) == above + zone[..i + 1] + [Var(nm, "")] + zone[i + 1..] + below
      {
        BehindItsComment(above, zone, below, nm, i);
      }
    } else {
      FoundAlready(above, zone, below, nm);
    }
  }

  /** set() of a stored name changes no line; of a new name in a section that the list does not have, it adds a header and
      the variable below it; else the variable gets its place in the list as it is. */
  lemma SetPlaces(st: Store, nm: string, val: string, sk: string)
    requires SectionsListed(st) && !HasLineBreak(val)
    ensures Lookup(st.submaps, nm, sk).Some? ==> ISet(st, nm, val, sk, false).order == st.order
    ensures Lookup(st.submaps, nm, sk).None? && sk != "" && Section(sk) !in st.order ==>
      ISet(st, nm, val, sk, false).order == st.order + [Section(sk), Var(nm, "")]
    ensures Lookup(st.submaps, nm, sk).None? && (sk == "" || Section(sk) in st.order) ==>
      ISet(st, nm, val, sk, false).order == PlaceVar(st.order, nm, sk)
  {
    hide PlaceVar;
    if Lookup(st.submaps, nm, sk).None? && sk != "" && Section(sk) !in st.order {
      var above := st.order + [Section(sk)];
      assert above[..|above| - 1] == st.order;
      PlacedExactly(above, [], [], nm, sk);
      assert above + [] + [] == above;
      assert above + [] + [Var(nm, "")] + [] == st.order + [Section(sk), Var(nm, "")];
    }
  }

  // ----- Commented-out variables -----

  /** At i the line goes on as a commented-out definition of nm. */
  ghost predicate CommentedAt(line: string, i: nat, nm: string, b: string, c: string) {
    i < |line| && line[i] == '#' && Blank(b) && Blank(c) && nm != "" && (forall k :: 0 <= k < |nm| ==> IsAlnum(nm[k])) &&
    b + nm + c + "=" <= line[i + 1..]
  }

  lemma SkipBlanks(s: string, start: nat, b: string, rest: string)
    requires start <= |s| && s[start..] == b + rest && Blank(b) && (rest != "" ==> rest[0] !in BLANKS)
    ensures FindFirstNotOf(s, BLANKS, start) == start + |b|
  {
    var k := start + |b|;
    assert forall i :: start <= i < k ==> s[i] == s[start..][i - start] == b[i - start];
    assert k < |s| ==> s[k] == s[start..][|b|];
  }

  lemma SkipName(s: string, start: nat, nm: string, rest: string)
    requires start <= |s| && s[start..] == nm + rest && (forall k :: 0 <= k < |nm| ==> IsAlnum(nm[k]))
    requires rest != "" ==> !IsAlnum(rest[0])
    ensures SkipAlnum(s, start) == start + |nm|
    decreases |nm|
  {
    if nm == "" {
      assert start < |s| ==> s[start] == s[start..][0];
    } else {
      assert s[start] == s[start..][0] == nm[0];
      assert s[start + 1..] == s[start..][1..] == nm[1..] + rest;
      SkipName(s, start + 1, nm[1..], rest);
    }
  }

  /** At the first # of a line, a commented-out definition gives its name. */
  lemma {:induction false} CommentedVarFound(line: string, start: nat, i: nat, nm: string, b: string, c: string)
    requires start <= i && CommentedAt(line, i, nm, b, c)
    requires forall j: nat :: start <= j < i ==> line[j] != '#'
    ensures CommentedVar(line, start) == Some(nm)
    decreases i - start
  {
    if start < i { CommentedVarFound(line, start + 1, i, nm, b, c); } else { CommentedVarHere(line, i, nm, b, c); }
  }

  lemma CommentedVarHere(line: string, i: nat, nm: string, b: string, c: string)
    requires CommentedAt(line, i, nm, b, c)
    ensures CommentedVar(line, i) == Some(nm)
  {
    hide FindFirstNotOf, SkipAlnum, CommentedVar, IsAlnum;
    var s := line[i + 1..];
    var d := s[|b + nm + c + "="|..];
    var p1, p2, p3 := i + 1 + |b|, i + 1 + |b| + |nm|, i + 1 + |b| + |nm| + |c|;
    Parts(s, b, nm, c, d);
    NameIsNoBlank(nm);
    SkipBlanks(line, i + 1, b, nm + (c + ("=" + d)));
    assert line[p1..] == s[|b|..] && line[p2..] == s[|b| + |nm|..] && line[p3..] == s[|b| + |nm| + |c|..];
    BehindName(c, d);
    SkipName(line, p1, nm, c + ("=" + d));
    SkipBlanks(line, p2, c, "=" + d);
    assert line[p3] == line[p3..][0] == '=';
    assert line[p1..p2] == line[p1..][..|nm|] == nm;
    FoundHere(line, i, p1, p2, p3);
  }

  lemma FoundHere(line: string, i: nat, p1: nat, p2: nat, p3: nat)
    requires i < |line| && line[i] == '#' && i + 1 <= p1 < p2 <= p3 < |line| && line[p3] == '='
    requires p1 == FindFirstNotOf(line, BLANKS, i + 1) && p2 == SkipAlnum(line, p1) && p3 == FindFirstNotOf(line, BLANKS, p2)
    ensures CommentedVar(line, i) == Some(line[p1..p2])
  {
    hide FindFirstNotOf, SkipAlnum;
  }

  lemma BehindName(c: string, d: string)
    requires Blank(c)
    ensures !IsAlnum((c + ("=" + d))[0])
  {
    BlankNoAlnum(c);
  }

  lemma Parts(s: string, b: string, nm: string, c: string, d: string)
    requires b + nm + c + "=" <= s && d == s[|b + nm + c + "="|..]
    ensures s == b + (nm + (c + ("=" + d))) && s[|b|..] == nm + (c + ("=" + d))
    ensures s[|b| + |nm|..] == c + ("=" + d) && s[|b| + |nm| + |c|..] == "=" + d
  {
    assert s == (b + nm + c + "=") + d;
  }

  lemma NameIsNoBlank(nm: string)
    requires nm != "" && forall k :: 0 <= k < |nm| ==> IsAlnum(nm[k])
    ensures nm[0] !in BLANKS
  {
    assert IsAlnum(nm[0]);
  }

  lemma BlankNoAlnum(c: string)
    requires Blank(c)
    ensures c != "" ==> !IsAlnum(c[0])
  {
    if c != "" { assert c[0] in c; assert c[0] == ' ' || c[0] == '\t'; }
  }

  /** Only such a place gives a name. */
  lemma {:induction false} CommentedVarOnly(line: string, start: nat) returns (i: nat, b: string, c: string)
    requires start <= |line| && CommentedVar(line, start).Some?
    ensures start <= i && CommentedAt(line, i, CommentedVar(line, start).value, b, c)
    decreases |line| - start
  {
    hide FindFirstNotOf, SkipAlnum, IsAlnum;
    if line[start] == '#' {
      var p1 := FindFirstNotOf(line, BLANKS, start + 1);
      var p2 := SkipAlnum(line, p1);
      var p3 := FindFirstNotOf(line, BLANKS, p2);
      if p1 < p2 && p3 < |line| && line[p3] == '=' {
        i, b, c := start, line[start + 1..p1], line[p2..p3];
        SkippedAreAlnum(line, p1);
        assert line[start + 1..p1] + line[p1..p2] + line[p2..p3] + "=" == line[start + 1..p3 + 1];
        return;
      }
    }
    i, b, c := CommentedVarOnly(line, start + 1);
  }

  lemma {:induction false} SkippedAreAlnum(s: string, start: nat)
    requires start <= |s|
    ensures forall k :: start <= k < SkipAlnum(s, start) ==> IsAlnum(s[k])
    decreases |s| - start
  {
    if start < |s| && IsAlnum(s[start]) { SkippedAreAlnum(s, start + 1); }
  }
}
