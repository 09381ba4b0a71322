/** The std::string searches and the trimming functions of src/smallut.cpp that the parsers share.
    A search that std::string answers with npos answers here with the length of the string. */
module Strings {

  const BLANKS := " \t"

  datatype Option<+T> = None | Some(value: T)

  /** Position of the first character of s, at or after start, that is in chars. */
  function FindFirstOf(s: string, chars: string, start: nat): (r: nat)
    requires start <= |s|
    ensures start <= r <= |s|
    ensures r < |s| ==> s[r] in chars
    ensures forall i :: start <= i < r ==> s[i] !in chars
    decreases |s| - start
  {
    if start == |s| || s[start] in chars then start else FindFirstOf(s, chars, start + 1)
  }

  /** Position of the first character of s, at or after start, that is not in chars. */
  function FindFirstNotOf(s: string, chars: string, start: nat): (r: nat)
    requires start <= |s|
    ensures start <= r <= |s|
    ensures r < |s| ==> s[r] !in chars
    ensures forall i :: start <= i < r ==> s[i] in chars
    decreases |s| - start
  {
    if start == |s| || s[start] !in chars then start else FindFirstNotOf(s, chars, start + 1)
  }

  /** Position of the first c in s. */
  function IndexOf(s: string, c: char): (r: nat)
    ensures r <= |s|
    ensures r < |s| ==> s[r] == c
    ensures forall i :: 0 <= i < r ==> s[i] != c
  {
    FindFirstOf(s, [c], 0)
  }

  lemma IndexOfIs(s: string, c: char, k: nat)
    requires k <= |s|
    requires forall i :: 0 <= i < k ==> s[i] != c
    requires k < |s| ==> s[k] == c
    ensures IndexOf(s, c) == k
  {
  }

  lemma FindFirstOfIs(s: string, chars: string, start: nat, k: nat)
    requires start <= k <= |s|
    requires forall i :: start <= i < k ==> s[i] !in chars
    requires k < |s| ==> s[k] in chars
    ensures FindFirstOf(s, chars, start) == k
  {
  }

  lemma FindFirstNotOfIs(s: string, chars: string, k: nat)
    requires k <= |s| && (k < |s| ==> s[k] !in chars) && forall i :: 0 <= i < k ==> s[i] in chars
    ensures FindFirstNotOf(s, chars, 0) == k
  {
  }

  lemma Regroup<T>(a: seq<T>, b: seq<T>, c: seq<T>)
    ensures a + (b + c) == (a + b) + c
  {
  }

  function LTrim(s: string, ws: string): (r: string)
    ensures |r| <= |s| && r == s[|s| - |r|..]
    ensures r != "" ==> r[0] !in ws
  {
    s[FindFirstNotOf(s, ws, 0)..]
  }

  function RTrim(s: string, ws: string): (r: string)
    ensures |r| <= |s| && r == s[..|r|]
    ensures r != "" ==> r[|r| - 1] !in ws
  {
    if s != "" && s[|s| - 1] in ws then RTrim(s[..|s| - 1], ws) else s
  }

  ghost predicate Trimmed(s: string, ws: string) {
    s != "" ==> s[0] !in ws && s[|s| - 1] !in ws
  }

  /** trimstring: right side first, then left side. */
  function Trim(s: string, ws: string): (r: string)
    ensures Trimmed(r, ws)
    ensures |r| <= |s|
  {
    LTrim(RTrim(s, ws), ws)
  }

  lemma {:induction false} RTrimDrops(s: string, ws: string)
    ensures forall i :: |RTrim(s, ws)| <= i < |s| ==> s[i] in ws
  {
    if s != "" && s[|s| - 1] in ws { RTrimDrops(s[..|s| - 1], ws); }
  }

  /** Trimming brings in no new character. */
  lemma TrimHasNoOther(s: string, ws: string, c: char)
    requires c !in s
    ensures c !in Trim(s, ws) && c !in RTrim(s, ws)
  {
  }

  lemma TrimmedStays(s: string, ws: string)
    requires Trimmed(s, ws)
    ensures Trim(s, ws) == s
  {
  }

  /** A string that ends outside ws keeps its last character. */
  lemma TrimKeepsLast(s: string, ws: string)
    requires s != "" && s[|s| - 1] !in ws
    ensures Trim(s, ws) != "" && Trim(s, ws)[|Trim(s, ws)| - 1] == s[|s| - 1]
  {
  }

  /** A string that starts outside ws loses only characters at its end. */
  lemma TrimKeepsHead(s: string, ws: string)
    requires s != "" && s[0] !in ws
    ensures Trim(s, ws) == RTrim(s, ws) != "" && Trim(s, ws)[0] == s[0]
  {
    RTrimDrops(s, ws);
    var r := RTrim(s, ws);
    assert r != "" && r[0] == s[0];
    assert FindFirstNotOf(r, ws, 0) == 0;
  }

  /** What is trimmed off when the middle is already trimmed. */
  lemma TrimAround(a: string, s: string, b: string, ws: string)
    requires forall c :: c in a ==> c in ws
    requires forall c :: c in b ==> c in ws
    requires s != "" && Trimmed(s, ws)
    ensures Trim(a + s + b, ws) == s
  {
    var t := a + s + b;
    var r := RTrim(t, ws);
    RTrimDrops(t, ws);
    assert t[|a + s| - 1] == s[|s| - 1];
    assert forall i :: |a + s| <= i < |t| ==> t[i] in b;
    assert r == a + s;
    var l := LTrim(r, ws);
    assert r[|a|] == s[0];
    assert forall i :: 0 <= i < |a| ==> r[i] in a;
    assert l == s;
  }

  lemma TrimBlank(s: string, ws: string)
    requires forall c :: c in s ==> c in ws
    ensures Trim(s, ws) == ""
  {
    assert forall i :: 0 <= i < |s| ==> s[i] in ws;
  }
}
