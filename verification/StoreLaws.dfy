/** The format of the cache file of src/ohmetacache.cxx, and what its reader does with lines that it did not write. */
module StoreLaws {
  import opened Strings
  import opened MetaStore

  // ----- The codec -----

  lemma {:induction false} EncodedConcat(a: string, b: string)
    ensures Encoded(a + b) == Encoded(a) + Encoded(b)
  {
    if a == "" {
      assert a + b == b;
    } else {
      EncodedConcat(a[1..], b);
      assert (a + b)[1..] == a[1..] + b;
      Regroup(Encoded1(a[0]), Encoded(a[1..]), Encoded(b));
    }
  }

  /** Percent and equal signs and line ends are escaped, each by its two hexadecimal digits, and nothing else is. */
  lemma {:induction false} EncodedTable(plain: string)
    requires '%' !in plain && '=' !in plain && '\n' !in plain && '\r' !in plain
    ensures Encoded("%") == "%25" && Encoded("=") == "%3D" && Encoded("\n") == "%0A" && Encoded("\r") == "%0D"
    ensures Encoded(plain) == plain
  {
    assert Escaped('%') == "%25" && Escaped('=') == "%3D" && Escaped('\n') == "%0A" && Escaped('\r') == "%0D";
    if plain != "" {
      EncodedTable(plain[1..]);
      assert [plain[0]] + plain[1..] == plain;
    }
  }

  /** Plain characters stay, wherever an escape comes next. */
  lemma {:induction false} DecodedPlain(a: string, x: string)
    requires '%' !in a && |x| >= 2
    ensures Decoded(a + x) == a + Decoded(x)
    decreases |a|
  {
    if a == "" {
      assert a + x == x;
    } else {
      DecodedPlain(a[1..], x);
      assert (a + x)[1..] == a[1..] + x;
      DecodedStep(a + x);
      hide Decoded;
      assert [a[0]] + (a[1..] + Decoded(x)) == a + Decoded(x);
    }
  }

  lemma DecodedStep(s: string)
    requires |s| > 2 && s[0] != '%'
    ensures Decoded(s) == [s[0]] + Decoded(s[1..])
  {
  }

  ghost predicate HexDigit(c: char, v: int) { 0 <= v < 16 && c == "0123456789ABCDEF"[v] }

  lemma HexValue(c: char)
    ensures forall v :: HexDigit(c, v) ==> H2d(c) == v
    ensures (forall v :: !HexDigit(c, v)) ==> H2d(c) == -1
  {
    assert '0' <= c <= '9' ==> HexDigit(c, c as int - '0' as int);
    assert 'A' <= c <= 'F' ==> HexDigit(c, 10 + c as int - 'A' as int);
  }

  /** An escape is the character of its two upper-case hexadecimal digits; with anything else behind it, the percent sign
      is lost with both characters. */
  lemma EscapesRead(a: string, c: char, d: char, x: string)
    requires '%' !in a
    ensures forall h, l :: HexDigit(c, h) && HexDigit(d, l) ==>
      Decoded(a + "%" + [c, d] + x) == a + [(16 * h + l) as char] + Decoded(x)
    ensures (forall h :: !HexDigit(c, h)) || (forall l :: !HexDigit(d, l)) ==>
      Decoded(a + "%" + [c, d] + x) == a + Decoded(x)
  {
    hide H2d;
    HexValue(c);
    HexValue(d);
    EscapeAt(a, c, d, x);
    assert a + "" + Decoded(x) == a + Decoded(x);
    forall h, l | HexDigit(c, h) && HexDigit(d, l)
      ensures Decoded(a + "%" + [c, d] + x) == a + [(16 * h + l) as char] + Decoded(x)
    {
      assert H2d(c) == h && H2d(d) == l;
    }
  }

  lemma EscapeAt(a: string, c: char, d: char, x: string)
    requires '%' !in a
    ensures Decoded(a + "%" + [c, d] + x) == a + Pair(c, d) + Decoded(x)
  {
    hide Pair;
    var e := "%" + [c, d] + x;
    DecodedPlain(a, e);
    assert a + "%" + [c, d] + x == a + e;
    assert e[3..] == x;
    assert Decoded(e) == Pair(c, d) + Decoded(x);
    assert a + (Pair(c, d) + Decoded(x)) == a + Pair(c, d) + Decoded(x);
  }

  // ----- Lines -----

  /** A line is cut at its first newline. */
  lemma FirstLine(line: string, rest: string, cache: Meta)
    requires '\n' !in line
    ensures RestoredFrom(line + "\n" + rest, cache) ==
      match AddLine(line, cache) case None => None case Some(c) => RestoredFrom(rest, c)
  {
    hide IndexOf, AddLine;
    var text := line + "\n" + rest;
    assert forall i :: 0 <= i < |line| ==> text[i] == line[i];
    IndexOfIs(text, '\n', |line|);
    assert text[..|line|] == line && text[|line| + 1..] == rest;
  }

  /** Key and value are what is in front of the first equal sign and what is behind it. */
  lemma EntryReads(k: string, v: string, rest: string, cache: Meta)
    requires '=' !in k && '\n' !in k && '\n' !in v && NUL !in k && NUL !in v && |k| + 1 + |v| <= 10238
    ensures RestoredFrom(k + "=" + v + "\n" + rest, cache) == RestoredFrom(rest, cache[Decoded(k) := Decoded(v)])
  {
    hide Decoded, IndexOf, RestoredFrom;
    var line := k + "=" + v;
    FirstLine(line, rest, cache);
    CutIsAll(line);
    assert forall i :: 0 <= i < |k| ==> line[i] == k[i];
    IndexOfIs(line, '=', |k|);
    assert line[..|k|] == k && line[|k| + 1..] == v;
  }

  /** A line without an equal sign, or too long for the buffer, ends the reading with an error. */
  lemma BadLines(line: string, rest: string, cache: Meta)
    requires '\n' !in line && (|line| > 10238 || ('=' !in line && NUL !in line))
    ensures RestoredFrom(line + "\n" + rest, cache) == None
  {
    hide Decoded, IndexOf, RestoredFrom;
    FirstLine(line, rest, cache);
    if |line| <= 10238 {
      CutIsAll(line);
      IndexOfIs(line, '=', |line|);
    }
  }

  /** A last line without a newline is not read, and is an error only if it is too long. */
  lemma UnfinishedLine(line: string, cache: Meta)
    requires '\n' !in line
    ensures RestoredFrom(line, cache) == if |line| <= 10238 then Some(cache) else None
  {
    IndexOfIs(line, '\n', |line|);
  }

  /** One entry in the file, byte for byte. */
  lemma FileFormat(k: string, v: string)
    requires forall c :: c in k + v ==> c !in "%=\n\r"
    ensures FileOf([k], map[k := v]) == k + "=" + v + "\n"
    ensures FileOf([k], map[k := v + "="]) == k + "=" + v + "%3D\n"
  {
    hide Encoded;
    assert '%' in "%=\n\r" && '=' in "%=\n\r" && '\n' in "%=\n\r" && '\r' in "%=\n\r";
    assert forall c :: c in k ==> c in k + v;
    assert forall c :: c in v ==> c in k + v;
    EncodedTable(k);
    EncodedTable(v);
    EncodedConcat(v, "=");
    assert [k][1..] == [];
    assert v + "%3D" + "\n" == v + "%3D\n";
  }
}
