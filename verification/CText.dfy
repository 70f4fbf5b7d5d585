/** The C conversions the manager relies on: `%d`/`%ld` printing, `strtol` and
    `sscanf` number reading, `strstr`, and narrowing of `long` to `int`. */
module CText {
  const INT_MAX := 0x7fff_ffff
  const INT_MIN := -0x8000_0000
  const LONG_MAX := 0x7fff_ffff_ffff_ffff
  const LONG_MIN := -0x8000_0000_0000_0000
  const ULONG_MAX := 0xffff_ffff_ffff_ffff

  type int32 = x: int | INT_MIN <= x <= INT_MAX
  type int64 = x: int | LONG_MIN <= x <= LONG_MAX
  type uint64 = x: int | 0 <= x <= ULONG_MAX

  datatype Option<+T> = None | Some(value: T)

  /** Conversion of a wide integer to a 32-bit two's complement `int`. */
  function Wrap32(x: int): (r: int32)
    ensures INT_MIN <= x <= INT_MAX ==> r == x
    ensures (x - r) % 0x1_0000_0000 == 0
  {
    var m := x % 0x1_0000_0000;
    if m <= INT_MAX then m else m - 0x1_0000_0000
  }

  /** `strtol` clamps a value that does not fit a `long`. */
  function Saturate(x: int): (r: int64)
    ensures LONG_MIN <= x <= LONG_MAX ==> r == x
  {
    if x < LONG_MIN then LONG_MIN else if x > LONG_MAX then LONG_MAX else x
  }

  predicate IsSpace(c: char) {
    c == ' ' || c == '\t' || c == '\n' || c == '\r' || c == '\U{0B}' || c == '\U{0C}'
  }

  predicate IsDigit(c: char) { '0' <= c <= '9' }

  predicate AllDigits(s: string) { forall i :: 0 <= i < |s| ==> IsDigit(s[i]) }

  function DigitChar(d: nat): (c: char)
    requires d < 10
    ensures IsDigit(c)
    ensures c as int == '0' as int + d
  {
    ('0' as int + d) as char
  }

  /** `%lu` of a natural number. */
  function PrintNat(n: nat): (s: string)
    ensures s != "" && AllDigits(s)
  {
    if n < 10 then [DigitChar(n)] else PrintNat(n / 10) + [DigitChar(n % 10)]
  }

  /** `%d` and `%ld`. */
  function PrintInt(n: int): (s: string)
    ensures s != "" && (IsDigit(s[0]) || s[0] == '-')
    ensures forall i :: 0 <= i < |s| ==> IsDigit(s[i]) || s[i] == '-'
  {
    if n < 0 then "-" + PrintNat(-n) else PrintNat(n)
  }

  function SkipSpace(s: string): (r: string)
    ensures |r| <= |s| && r == s[|s| - |r|..]
  {
    if s != "" && IsSpace(s[0]) then SkipSpace(s[1..]) else s
  }

  /** The longest leading run of digits. */
  function Digits(s: string): (r: string)
    ensures r <= s && AllDigits(r)
  {
    if s != "" && IsDigit(s[0]) then [s[0]] + Digits(s[1..]) else ""
  }

  function Value(ds: string): (v: nat)
    requires AllDigits(ds)
  {
    if ds == "" then 0
    else 10 * Value(ds[..|ds| - 1]) + (ds[|ds| - 1] as int - '0' as int)
  }

  /** Digits behind an optional sign: the value and the unread text, or `None`
      when there is no digit. */
  function ScanDigits(neg: bool, s: string): (r: Option<(int, string)>) {
    var ds := Digits(s);
    var v: int := Value(ds);
    if ds == "" then None else Some((if neg then -v else v, s[|ds|..]))
  }

  function ScanSigned(s: string): (r: Option<(int, string)>) {
    if s != "" && (s[0] == '-' || s[0] == '+') then ScanDigits(s[0] == '-', s[1..])
    else ScanDigits(false, s)
  }

  /** What `strtol`, `strtoul` and `%d` share: blanks, an optional sign, digits. */
  function ScanNumber(s: string): (r: Option<(int, string)>) {
    ScanSigned(SkipSpace(s))
  }

  /** `strtol(s, &end, 10)`: the clamped value and the text at `end`. */
  function Strtol(s: string): (r: (int64, string)) {
    match ScanNumber(s)
    case None => (0, s)
    case Some((v, rest)) => (Saturate(v), rest)
  }

  /** `strtoul(s, &end, 10)`: a negative number is negated as unsigned. */
  function Strtoul(s: string): (r: (uint64, string)) {
    match ScanNumber(s)
    case None => (0, s)
    case Some((v, rest)) =>
      (if v < -ULONG_MAX || v > ULONG_MAX then ULONG_MAX else if v < 0 then v + ULONG_MAX + 1 else v, rest)
  }

  predicate MatchesAt(s: string, sub: string, i: nat) {
    i + |sub| <= |s| && s[i..i + |sub|] == sub
  }

  /** `strstr(s, sub) != nullptr`. */
  predicate Contains(s: string, sub: string) {
    exists i | 0 <= i <= |s| :: MatchesAt(s, sub, i)
  }

  lemma {:induction false} PrintNatValue(n: nat)
    ensures Value(PrintNat(n)) == n
  {
    if n >= 10 {
      var s := PrintNat(n);
      PrintNatValue(n / 10);
      assert s[..|s| - 1] == PrintNat(n / 10);
    }
  }

  function Pow10(k: nat): (r: nat) { if k == 0 then 1 else 10 * Pow10(k - 1) }

  lemma {:induction false} PrintedLength(n: nat, digits: nat)
    requires digits > 0 && n < Pow10(digits)
    ensures |PrintNat(n)| <= digits
  {
    if digits > 1 && n >= 10 {
      PrintedLength(n / 10, digits - 1);
    }
  }

  lemma {:induction false} DigitsOfRun(ds: string, tail: string)
    requires AllDigits(ds)
    requires tail == "" || !IsDigit(tail[0])
    ensures Digits(ds + tail) == ds
  {
    if ds == "" {
      assert ds + tail == tail;
    } else {
      assert (ds + tail)[1..] == ds[1..] + tail;
      DigitsOfRun(ds[1..], tail);
    }
  }

  lemma {:induction false} ScanPrintedNat(neg: bool, n: nat, tail: string)
    requires tail == "" || !IsDigit(tail[0])
    ensures ScanDigits(neg, PrintNat(n) + tail) == Some((if neg then -(n as int) else n, tail))
  {
    PrintNatValue(n);
    DigitsOfRun(PrintNat(n), tail);
    assert (PrintNat(n) + tail)[|PrintNat(n)|..] == tail;
  }

  lemma ScanPrintedSigned(n: int, tail: string)
    requires tail == "" || !IsDigit(tail[0])
    ensures ScanSigned(PrintInt(n) + tail) == Some((n, tail))
  {
    hide ScanDigits, PrintNat;
    if n < 0 {
      assert (PrintInt(n) + tail)[1..] == PrintNat(-n) + tail;
      ScanPrintedNat(true, -n, tail);
    } else {
      assert IsDigit(PrintNat(n)[0]);
      ScanPrintedNat(false, n, tail);
    }
  }

  /** Reading a printed number returns it and stops right behind it. */
  lemma {:induction false} ScanPrinted(n: int, tail: string)
    requires tail == "" || !IsDigit(tail[0])
    ensures ScanNumber(PrintInt(n) + tail) == Some((n, tail))
  {
    hide PrintInt, ScanSigned;
    SkipSpaceRun("", PrintInt(n) + tail);
    assert "" + (PrintInt(n) + tail) == PrintInt(n) + tail;
    ScanPrintedSigned(n, tail);
  }

  lemma {:induction false} SkipSpaceRun(blanks: string, rest: string)
    requires forall i :: 0 <= i < |blanks| ==> IsSpace(blanks[i])
    requires rest == "" || !IsSpace(rest[0])
    ensures SkipSpace(blanks + rest) == rest
  {
    if blanks == "" {
      assert blanks + rest == rest;
    } else {
      assert (blanks + rest)[1..] == blanks[1..] + rest;
      SkipSpaceRun(blanks[1..], rest);
    }
  }

  lemma {:induction false} SkippedAreSpaces(s: string, i: nat)
    requires i < |s| - |SkipSpace(s)|
    ensures IsSpace(s[i])
  {
    if i > 0 {
      SkippedAreSpaces(s[1..], i - 1);
    }
  }

  /** A text read to its end as a number holds only blanks, signs and digits. */
  lemma NumberChars(s: string)
    requires s == "" || (ScanNumber(s).Some? && ScanNumber(s).value.1 == "")
    ensures forall i :: 0 <= i < |s| ==> IsSpace(s[i]) || IsDigit(s[i]) || s[i] == '-' || s[i] == '+'
  {
    hide SkipSpace, Digits, Value;
    var t := SkipSpace(s);
    forall i | 0 <= i < |s|
      ensures IsSpace(s[i]) || IsDigit(s[i]) || s[i] == '-' || s[i] == '+'
    {
      if i < |s| - |t| {
        SkippedAreSpaces(s, i);
      } else {
        assert s[i] == t[i - (|s| - |t|)];
        SignedChars(t, i - (|s| - |t|));
      }
    }
  }

  lemma SignedChars(t: string, i: nat)
    requires i < |t| && ScanSigned(t).Some? && ScanSigned(t).value.1 == ""
    ensures IsDigit(t[i]) || t[i] == '-' || t[i] == '+'
  {
    hide Digits, Value;
    var u := if t[0] == '-' || t[0] == '+' then t[1..] else t;
    assert u == Digits(u);
  }

  /** Reading skips a blank before the printed number. */
  lemma {:induction false} ScanPrintedAfterBlank(n: int, tail: string)
    requires tail == "" || !IsDigit(tail[0])
    ensures ScanNumber(" " + (PrintInt(n) + tail)) == Some((n, tail))
  {
    SkipSpaceRun(" ", PrintInt(n) + tail);
    ScanPrintedSigned(n, tail);
  }

  lemma ScanDigitRun(neg: bool, ds: string, tail: string)
    requires ds != "" && AllDigits(ds) && (tail == "" || !IsDigit(tail[0]))
    ensures ScanDigits(neg, ds + tail) == Some((if neg then -(Value(ds) as int) else Value(ds), tail))
  {
    hide Value, Digits;
    DigitsOfRun(ds, tail);
    assert (ds + tail)[|ds|..] == tail;
  }

  lemma ScanSignedRun(sign: string, ds: string, tail: string)
    requires sign == "" || sign == "+" || sign == "-"
    requires ds != "" && AllDigits(ds) && (tail == "" || !IsDigit(tail[0]))
    ensures sign + (ds + tail) != "" && !IsSpace((sign + (ds + tail))[0])
    ensures ScanSigned(sign + (ds + tail)) == Some((if sign == "-" then -(Value(ds) as int) else Value(ds), tail))
  {
    hide Value, ScanDigits;
    ScanDigitRun(sign == "-", ds, tail);
    if sign == "" {
      assert sign + (ds + tail) == ds + tail && (ds + tail)[0] == ds[0];
    } else {
      assert (sign + (ds + tail))[1..] == ds + tail;
    }
  }

  /** What all number readers take: blanks, a sign, digits, and nothing of the rest. */
  lemma ScanDecimal(blanks: string, sign: string, ds: string, tail: string)
    requires forall c <- blanks :: IsSpace(c)
    requires sign == "" || sign == "+" || sign == "-"
    requires ds != "" && AllDigits(ds) && (tail == "" || !IsDigit(tail[0]))
    ensures ScanNumber(blanks + (sign + (ds + tail))) ==
      Some((if sign == "-" then -(Value(ds) as int) else Value(ds), tail))
  {
    hide Value, ScanSigned, SkipSpace, IsSpace;
    ScanSignedRun(sign, ds, tail);
    SkipSpaceRun(blanks, sign + (ds + tail));
  }

  lemma ContainsFirst(s: string, sub: string)
    requires sub != "" && Contains(s, sub)
    ensures sub[0] in s
  {
  }

  lemma ContainsChar(s: string, c: char)
    ensures Contains(s, [c]) <==> c in s
  {
    if c in s {
      var i :| 0 <= i < |s| && s[i] == c;
      assert MatchesAt(s, [c], i);
    }
    if i :| 0 <= i <= |s| && MatchesAt(s, [c], i) {
      assert s[i] == s[i..i + 1][0];
    }
  }
}
