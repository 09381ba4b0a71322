/** The file that keeps the metadata cache: encode, decode, dmcacheSaveWorker and dmcacheRestore of
    src/ohmetacache.cxx. A line is an address and its metadata, joined by '='. */
module MetaStore {
  import opened Strings

  type Meta = map<string, string>

  const HEX := "0123456789ABCDEF"
  const SPECIAL := "%=\n\r"
  const NUL := '\0'

  // ----- The codec -----

  function Escaped(c: char): string
    requires c in SPECIAL
  {
    ['%', HEX[c as int / 16], HEX[c as int % 16]]
  }

  function Encoded(s: string): string {
    if s == "" then "" else Encoded1(s[0]) + Encoded(s[1..])
  }

  function H2d(c: char): int {
    if '0' <= c <= '9' then c as int - '0' as int
    else if 'A' <= c <= 'F' then 10 + c as int - 'A' as int
    else -1
  }

  /** A % among the last two characters is an ordinary one, and one without two hexadecimal digits is lost with
      what follows it. */
  function Decoded(s: string): string {
    if |s| <= 2 then s
    else if s[0] == '%' then
      Pair(s[1], s[2]) + Decoded(s[3..])
    else [s[0]] + Decoded(s[1..])
  }

  function Encoded1(c: char): string { if c in SPECIAL then Escaped(c) else [c] }

  method Encode(s: string) returns (out: string)
    ensures out == Encoded(s)
  {
    hide Encoded;
    out := "";
    var i := 0;
    assert s[0..] == s;
    while i < |s|
      invariant 0 <= i <= |s| && out + Encoded(s[i..]) == Encoded(s)
    {
      EncodedAt(s, i);
      Regroup(out, Encoded1(s[i]), Encoded(s[i + 1..]));
      var c := s[i];
      if c == '%' || c == '=' || c == '\n' || c == '\r' {
        Regroup(out, ['%'], [HEX[c as int / 16], HEX[c as int % 16]]);
        out := out + ['%'];
        out := out + [HEX[c as int / 16 % 16], HEX[c as int % 16]];
      } else {
        out := out + [c];
      }
      i := i + 1;
    }
    assert s[i..] == "";
    EncodedEmpty();
  }

  lemma EncodedAt(s: string, i: nat)
    requires i < |s|
    ensures Encoded(s[i..]) == Encoded1(s[i]) + Encoded(s[i + 1..])
  {
    assert s[i..][1..] == s[i + 1..];
  }

  lemma EncodedEmpty()
    ensures Encoded("") == ""
  {
  }

  function Pair(c: char, d: char): string {
    if H2d(c) != -1 && H2d(d) != -1 then [(H2d(c) * 16 + H2d(d)) as char] else ""
  }

  method Decode(s: string) returns (out: string)
    ensures out == Decoded(s)
  {
    if |s| <= 2 { return s; }
    hide Decoded;
    out := "";
    var i := 0;
    assert s[0..] == s;
    while i < |s| - 2
      invariant 0 <= i <= |s| && out + Decoded(s[i..]) == Decoded(s)
    {
      DecodedAt(s, i);
      Regroup(out, if s[i] == '%' then Pair(s[i + 1], s[i + 2]) else [s[i]], Decoded(s[if s[i] == '%' then i + 3 else i + 1..]));
      if s[i] == '%' {
        i := i + 1;
        var d1 := s[i];
        i := i + 1;
        var d2 := s[i];
        out := out + Pair(d1, d2);
      } else {
        out := out + [s[i]];
      }
      i := i + 1;
    }
    DecodedShort(s[i..]);
    while i < |s|
      invariant 0 <= i <= |s| && out + s[i..] == Decoded(s)
    {
      Regroup(out, [s[i]], s[i + 1..]);
      assert s[i..] == [s[i]] + s[i + 1..];
      out := out + [s[i]];
      i := i + 1;
    }
  }

  lemma DecodedAt(s: string, i: nat)
    requires i + 2 < |s|
    ensures Decoded(s[i..]) ==
      if s[i] == '%' then Pair(s[i + 1], s[i + 2]) + Decoded(s[i + 3..]) else [s[i]] + Decoded(s[i + 1..])
  {
    assert s[i..][3..] == s[i + 3..] && s[i..][1..] == s[i + 1..];
  }

  lemma DecodedShort(s: string)
    requires |s| <= 2
    ensures Decoded(s) == s
  {
  }

  lemma EscapeReads(c: char)
    requires c in SPECIAL
    ensures H2d(Escaped(c)[1]) * 16 + H2d(Escaped(c)[2]) == c as int
    ensures H2d(Escaped(c)[1]) != -1 && H2d(Escaped(c)[2]) != -1
    ensures '=' !in Escaped(c) && '\n' !in Escaped(c) && '\r' !in Escaped(c) && NUL !in Escaped(c)
  {
  }

  lemma {:induction false} DecodeUndoesEncode(s: string)
    ensures Decoded(Encoded(s)) == s
  {
    if s != "" {
      var rest := Encoded(s[1..]);
      DecodeUndoesEncode(s[1..]);
      if s[0] in SPECIAL {
        EscapeReads(s[0]);
        var e := Escaped(s[0]) + rest;
        assert e[3..] == rest;
      } else {
        var e := [s[0]] + rest;
        assert e[1..] == rest;
        if |e| > 2 { assert e[0] != '%'; }
        else { assert Decoded(rest) == rest; }
      }
    }
  }

  lemma {:induction false} EncodedHasNo(s: string)
    ensures '=' !in Encoded(s) && '\n' !in Encoded(s) && '\r' !in Encoded(s)
    ensures NUL in Encoded(s) <==> NUL in s
  {
    if s != "" {
      EncodedHasNo(s[1..]);
      if s[0] in SPECIAL { EscapeReads(s[0]); }
    }
  }

  // ----- The file -----

  /** The part of a char array that C reads as a string. */
  function Cut(s: string): string { s[..IndexOf(s, NUL)] }

  const LINE_MAX := 10238

  function Line(k: string, v: string): string { Encoded(k) + "=" + Encoded(v) }

  function FileOf(ks: seq<string>, m: Meta): string
    requires forall k :: k in ks ==> k in m
  {
    if ks == [] then "" else Line(ks[0], m[ks[0]]) + "\n" + FileOf(ks[1..], m)
  }

  /** What one line adds to the cache. */
  function AddLine(line: string, cache: Meta): Option<Meta> {
    var s := Cut(line);
    var eq := IndexOf(s, '=');
    if |line| > LINE_MAX || eq == |s| then None
    else Some(cache[Decoded(s[..eq]) := Decoded(s[eq + 1..])])
  }

  /** A last line without end is ignored, if it is short enough. */
  function RestoredFrom(text: string, cache: Meta): Option<Meta> {
    var n := IndexOf(text, '\n');
    if n == |text| then (if n <= LINE_MAX then Some(cache) else None)
    else match AddLine(text[..n], cache)
         case None => None
         case Some(c) => RestoredFrom(text[n + 1..], c)
  }

  method Restore(text: string) returns (ok: bool, cache: Meta)
    ensures RestoredFrom(text, map[]) == if ok then Some(cache) else None
  {
    hide RestoredFrom, Cut, IndexOf;
    cache := map[];
    var pos := 0;
    assert text[0..] == text;
    while true
      invariant 0 <= pos <= |text| && RestoredFrom(text[pos..], cache) == RestoredFrom(text, map[])
      decreases |text| - pos
    {
      var line, end, state := GetLine(text, pos);
      RestoredStep(text, pos, line, state, cache);
      if state.Eof? { return true, cache; }
      if state.Bad? { return false, cache; }
      pos := end;
      var s := Cut(line);
      var eq := IndexOf(s, '=');
      if eq == |s| { return false, cache; }
      var k := Decode(s[..eq]);
      var v := Decode(s[eq + 1..]);
      cache := cache[k := v];
    }
  }

  datatype ReadState = Good | Eof | Bad

  ghost predicate Reads(text: string, pos: nat, line: string, state: ReadState)
    requires pos <= |text|
  {
    var n := IndexOf(text[pos..], '\n');
    pos + |line| <= |text| && line == text[pos..pos + |line|] &&
    state == (if n > LINE_MAX then Bad else if pos + n == |text| then Eof else Good) &&
    (state.Good? ==> |line| == n)
  }

  /** istream::getline into an array of 10239: it stores characters up to the end of the line, and one too many
      is an error. */
  method GetLine(text: string, pos: nat) returns (line: string, end: nat, state: ReadState)
    requires pos <= |text|
    ensures Reads(text, pos, line, state)
    ensures state.Good? ==> end == pos + |line| + 1 <= |text|
  {
    line, end := "", pos;
    while true
      invariant pos <= end <= |text| && line == text[pos..end] && |line| <= LINE_MAX
      invariant forall i :: pos <= i < end ==> text[i] != '\n'
      decreases |text| - end
    {
      if end == |text| {
        IndexOfIs(text[pos..], '\n', end - pos);
        state := Eof;
        return;
      }
      if text[end] == '\n' {
        IndexOfIs(text[pos..], '\n', end - pos);
        end, state := end + 1, Good;
        return;
      }
      if |line| == LINE_MAX {
        assert forall i :: 0 <= i <= end - pos ==> text[pos..][i] == text[pos + i];
        state := Bad;
        return;
      }
      line := line + [text[end]];
      end := end + 1;
    }
  }

  lemma RestoredStep(text: string, pos: nat, line: string, state: ReadState, cache: Meta)
    requires pos <= |text| && Reads(text, pos, line, state)
    ensures RestoredFrom(text[pos..], cache) ==
      match state
      case Eof => Some(cache)
      case Bad => None
      case Good =>
        match AddLine(line, cache)
        case None => None
        case Some(c) => RestoredFrom(text[pos + |line| + 1..], c)
  {
    hide IndexOf, Cut, Decoded;
    var n := IndexOf(text[pos..], '\n');
    if n < |text[pos..]| {
      assert text[pos..][..n] == text[pos..pos + n];
      assert text[pos..][n + 1..] == text[pos + n + 1..];
    }
  }

  // ----- Save, then restore -----

  /** All the keys of the map, each once. */
  ghost predicate Lists(ks: seq<string>, m: Meta) {
    (forall k :: k in ks <==> k in m) && forall i, j :: 0 <= i < j < |ks| ==> ks[i] != ks[j]
  }

  /** The map may be walked in any order. */
  method Save(m: Meta) returns (out: string)
    ensures exists ks :: Lists(ks, m) && out == FileOf(ks, m)
  {
    out := "";
    ghost var ks: seq<string> := [];
    var left := m.Keys;
    while left != {}
      invariant left <= m.Keys && (forall k :: k in ks <==> k in m && k !in left)
      invariant forall i, j :: 0 <= i < j < |ks| ==> ks[i] != ks[j]
      invariant out == FileOf(ks, m)
      decreases left
    {
      var k :| k in left;
      left := left - {k};
      var key := Encode(k);
      var value := Encode(m[k]);
      FileAppend(ks, k, m);
      out := out + key + "=" + value + "\n";
      ks := ks + [k];
    }
  }

  lemma {:induction false} FileAppend(ks: seq<string>, k: string, m: Meta)
    requires k in m && forall j :: j in ks ==> j in m
    ensures FileOf(ks + [k], m) == FileOf(ks, m) + Encoded(k) + "=" + Encoded(m[k]) + "\n"
  {
    if ks == [] {
      assert [k][1..] == [];
      assert FileOf([] + [k], m) == Line(k, m[k]) + "\n" + "";
    } else {
      FileAppend(ks[1..], k, m);
      assert (ks + [k])[1..] == ks[1..] + [k];
      hide Encoded, Line;
      RegroupLine(Line(ks[0], m[ks[0]]) + "\n", FileOf(ks[1..], m), Encoded(k), Encoded(m[k]));
    }
  }

  lemma RegroupLine(a: string, b: string, k: string, v: string)
    ensures a + (b + k + "=" + v + "\n") == (a + b) + k + "=" + v + "\n"
  {
  }

  /** The line of an entry can be read back. */
  predicate Readable(k: string, v: string) { NUL !in k && |Line(k, v)| <= LINE_MAX }

  lemma {:induction false} CutEncoded(s: string)
    ensures Cut(Encoded(s)) == Encoded(Cut(s))
  {
    if s != "" {
      CutEncoded(s[1..]);
      var head := if s[0] in SPECIAL then Escaped(s[0]) else [s[0]];
      if s[0] in SPECIAL { EscapeReads(s[0]); }
      if s[0] != NUL {
        CutAfter(head, Encoded(s[1..]));
        CutAfter([s[0]], s[1..]);
        assert [s[0]] + s[1..] == s;
        assert ([s[0]] + Cut(s[1..]))[1..] == Cut(s[1..]);
      }
    }
  }

  lemma CutAfter(a: string, b: string)
    requires NUL !in a
    ensures Cut(a + b) == a + Cut(b)
  {
    IndexOfIs(a + b, NUL, |a| + IndexOf(b, NUL));
  }

  /** One line read back: the value only up to its first NUL. */
  lemma LineReads(k: string, v: string, cache: Meta)
    ensures AddLine(Line(k, v), cache) == if Readable(k, v) then Some(cache[k := Cut(v)]) else None
  {
    hide Cut, IndexOf, Decoded;
    EncodedHasNo(k);
    if NUL in k {
      EncodedHasNo(Cut(k));
      CutEncoded(k);
      CutStops(Encoded(k), "=" + Encoded(v));
      assert Line(k, v) == Encoded(k) + ("=" + Encoded(v));
      assert forall i :: 0 <= i < |Encoded(Cut(k))| ==> Encoded(Cut(k))[i] != '=';
      IndexOfIs(Encoded(Cut(k)), '=', |Encoded(Cut(k))|);
    } else {
      CutAfter(Encoded(k) + "=", Encoded(v));
      CutEncoded(v);
      var s := Encoded(k) + "=" + Encoded(Cut(v));
      assert forall i :: 0 <= i < |Encoded(k)| ==> s[i] == Encoded(k)[i];
      IndexOfIs(s, '=', |Encoded(k)|);
      assert s[..|Encoded(k)|] == Encoded(k) && s[|Encoded(k)| + 1..] == Encoded(Cut(v));
      DecodeUndoesEncode(k);
      DecodeUndoesEncode(Cut(v));
    }
  }

  lemma CutStops(a: string, b: string)
    requires NUL in a
    ensures Cut(a + b) == Cut(a)
  {
    assert IndexOf(a, NUL) < |a|;
    IndexOfIs(a + b, NUL, IndexOf(a, NUL));
  }

  /** The cache after reading the lines of some keys. */
  function CutAll(ks: seq<string>, m: Meta, cache: Meta): Meta
    requires forall k :: k in ks ==> k in m
  {
    if ks == [] then cache else CutAll(ks[1..], m, cache[ks[0] := Cut(m[ks[0]])])
  }

  lemma {:induction false} FileReads(ks: seq<string>, m: Meta, cache: Meta)
    requires forall k :: k in ks ==> k in m
    ensures RestoredFrom(FileOf(ks, m), cache) ==
      if forall k :: k in ks ==> Readable(k, m[k]) then Some(CutAll(ks, m, cache)) else None
  {
    hide Cut, IndexOf, Decoded, AddLine, Readable;
    if ks == [] {
      IndexOfIs("", '\n', 0);
    } else {
      var line, rest := Line(ks[0], m[ks[0]]), FileOf(ks[1..], m);
      var text := line + "\n" + rest;
      EncodedHasNo(ks[0]);
      EncodedHasNo(m[ks[0]]);
      assert forall i :: 0 <= i < |line| ==> text[i] == line[i];
      IndexOfIs(text, '\n', |line|);
      assert text[..|line|] == line && text[|line| + 1..] == rest;
      LineReads(ks[0], m[ks[0]], cache);
      if Readable(ks[0], m[ks[0]]) { FileReads(ks[1..], m, cache[ks[0] := Cut(m[ks[0]])]); }
    }
  }

  lemma {:induction false} CutAllIs(ks: seq<string>, m: Meta, cache: Meta)
    requires forall k :: k in ks ==> k in m
    ensures CutAll(ks, m, cache).Keys == cache.Keys + set k | k in ks
    ensures forall k :: k in CutAll(ks, m, cache) ==> CutAll(ks, m, cache)[k] == if k in ks then Cut(m[k]) else cache[k]
  {
    if ks != [] {
      hide Cut;
      CutAllIs(ks[1..], m, cache[ks[0] := Cut(m[ks[0]])]);
      assert ks == [ks[0]] + ks[1..];
    }
  }

  /** A saved map is restored unless an entry is too long for a line or has a NUL. */
  lemma SaveRestores(ks: seq<string>, m: Meta)
    requires Lists(ks, m)
    ensures RestoredFrom(FileOf(ks, m), map[]) == Some(m) <==> forall k :: k in m ==> Readable(k, m[k]) && NUL !in m[k]
  {
    hide RestoredFrom, FileOf, CutAll, Readable;
    FileReads(ks, m, map[]);
    CutAllIs(ks, m, map[]);
    forall k | k in m ensures Cut(m[k]) == m[k] <==> NUL !in m[k] { CutIsAll(m[k]); }
    hide Cut;
    var c := CutAll(ks, m, map[]);
    assert c.Keys == m.Keys;
    if k :| k in m && NUL in m[k] {
      assert c[k] != m[k];
    } else {
      assert c == m;
    }
  }

  lemma CutIsAll(s: string)
    ensures Cut(s) == s <==> NUL !in s
  {
    if NUL in s { assert IndexOf(s, NUL) < |s|; }
  }
}
