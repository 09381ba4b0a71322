/** Decimal numbers as an output stream prints them and as sscanf("%d") reads them. */
module Numbers {
  import opened Strings

  predicate IsDigit(c: char) { '0' <= c <= '9' }

  /** The blanks that isspace() knows in the C locale. */
  const SPACES := " \t\n\r\U{0B}\U{0C}"

  const INT_MAX: nat := 0x7fff_ffff

  predicate AllDigits(s: string) { forall i :: 0 <= i < |s| ==> IsDigit(s[i]) }

  function Decimal(n: nat): (s: string)
    ensures s != "" && AllDigits(s)
  {
    (if n < 10 then "" else Decimal(n / 10)) + [('0' as int + n % 10) as char]
  }

  function SkipDigits(s: string, start: nat): (r: nat)
    requires start <= |s|
    ensures start <= r <= |s|
    ensures forall i :: start <= i < r ==> IsDigit(s[i])
    ensures r < |s| ==> !IsDigit(s[r])
    decreases |s| - start
  {
    if start < |s| && IsDigit(s[start]) then SkipDigits(s, start + 1) else start
  }

  function Value(digits: string): nat
    requires AllDigits(digits)
  {
    if digits == "" then 0
    else
      assert IsDigit(digits[|digits| - 1]);
      Value(digits[..|digits| - 1]) * 10 + (digits[|digits| - 1] as int - '0' as int)
  }

  /** The number sscanf("%d") stores, if it stores one. */
  function ScanInt(s: string): Option<int> {
    var p := FindFirstNotOf(s, SPACES, 0);
    var signed := p < |s| && (s[p] == '-' || s[p] == '+');
    var start := if signed then p + 1 else p;
    var end := SkipDigits(s, start);
    if end == start then None
    else
      assert AllDigits(s[start..end]);
      var v: int := Value(s[start..end]);
      Some(if signed && s[p] == '-' then -v else v)
  }

  lemma {:induction false} DecimalValue(n: nat)
    ensures Value(Decimal(n)) == n
  {
    var front := if n < 10 then "" else Decimal(n / 10);
    var c := ('0' as int + n % 10) as char;
    if n >= 10 { DecimalValue(n / 10); }
    ValueOfOneMore(front, c);
  }

  lemma ValueOfOneMore(front: string, c: char)
    requires AllDigits(front) && IsDigit(c)
    ensures AllDigits(front + [c]) && Value(front + [c]) == Value(front) * 10 + (c as int - '0' as int)
  {
    assert (front + [c])[..|front|] == front;
  }

  lemma {:induction false} SkipDigitsStops(s: string, start: nat, end: nat)
    requires start <= end <= |s|
    requires forall i :: start <= i < end ==> IsDigit(s[i])
    requires end < |s| ==> !IsDigit(s[end])
    ensures SkipDigits(s, start) == end
    decreases end - start
  {
    if start < end { SkipDigitsStops(s, start + 1, end); }
  }

  /** Whatever is printed is read back, if no digit follows it. */
  lemma ScanPrinted(n: nat, tail: string)
    requires tail != "" ==> !IsDigit(tail[0])
    ensures ScanInt(Decimal(n) + tail) == Some(n)
  {
    hide Decimal, Value, SkipDigits;
    var s := Decimal(n) + tail;
    assert s[0] == Decimal(n)[0];
    assert IsDigit(s[0]);
    assert forall i :: 0 <= i < |Decimal(n)| ==> s[i] == Decimal(n)[i];
    SkipDigitsStops(s, 0, |Decimal(n)|);
    assert FindFirstNotOf(s, SPACES, 0) == 0;
    assert s[0..|Decimal(n)|] == Decimal(n);
    DecimalValue(n);
  }

  /** Blanks, a sign or none, and digits. */
  lemma ScanReads(b: string, sign: string, digits: string, tail: string)
    requires (forall i :: 0 <= i < |b| ==> b[i] in SPACES) && sign in ["", "-", "+"] && digits != "" && AllDigits(digits)
    requires tail != "" ==> !IsDigit(tail[0])
    ensures var v: int := Value(digits); ScanInt(b + sign + digits + tail) == Some(if sign == "-" then -v else v)
  {
    hide Value, SkipDigits, FindFirstNotOf;
    var s := b + sign + digits + tail;
    Signs(sign);
    var p, start, end := |b|, |b| + |sign|, |b| + |sign| + |digits|;
    assert IsDigit(digits[0]);
    assert forall i :: 0 <= i < p ==> s[i] == b[i];
    assert s[p] == if sign == "" then digits[0] else sign[0];
    FindFirstNotOfIs(s, SPACES, p);
    assert forall i :: start <= i < end ==> s[i] == digits[i - start];
    SkipDigitsStops(s, start, end);
    assert s[start..end] == digits;
    ScanIs(s, p, start, end);
  }

  lemma ScanIs(s: string, p: nat, start: nat, end: nat)
    requires p <= start < end <= |s| && p == FindFirstNotOf(s, SPACES, 0) && end == SkipDigits(s, start)
    requires start == if s[p] == '-' || s[p] == '+' then p + 1 else p
    ensures AllDigits(s[start..end])
    ensures var v: int := Value(s[start..end]); ScanInt(s) == Some(if s[p] == '-' then -v else v)
  {
    hide Value, FindFirstNotOf;
  }

  lemma Signs(sign: string)
    requires sign in ["", "-", "+"]
    ensures sign == "" || sign == "-" || sign == "+"
  {
    var all := ["", "-", "+"];
    assert all[0] == "" && all[1] == "-" && all[2] == "+";
  }

  /** No digit behind the blanks and the sign, no number. */
  lemma ScanFails(b: string, sign: string, tail: string)
    requires (forall i :: 0 <= i < |b| ==> b[i] in SPACES) && sign in ["", "-", "+"]
    requires tail != "" ==> !IsDigit(tail[0])
    requires sign == "" && tail != "" ==> tail[0] !in SPACES && tail[0] !in "-+"
    ensures ScanInt(b + sign + tail) == None
  {
    hide Value, SkipDigits, FindFirstNotOf;
    var s := b + sign + tail;
    Signs(sign);
    assert forall i :: 0 <= i < |b| ==> s[i] == b[i];
    assert |b| < |s| ==> s[|b|] == if sign == "" then tail[0] else sign[0];
    FindFirstNotOfIs(s, SPACES, |b|);
    SkipDigitsStops(s, |b| + |sign|, |b| + |sign|);
  }

  /** Digits are decimal. */
  lemma DigitValue(front: string, d: nat)
    requires AllDigits(front) && d < 10
    ensures var s := front + ["0123456789"[d]]; AllDigits(s) && Value(s) == 10 * Value(front) + d
    ensures Value("") == 0
  {
    ValueOfOneMore(front, "0123456789"[d]);
  }
}
