/** The two JavaScript string built-ins the core relies on, as ECMAScript
    defines them: `String.prototype.split` with a one-character separator
    (the holiday CSV reader) and the global `parseInt` without a radix (the
    holiday CSV reader and the GTFS-Realtime start date). */
module JsText {
  import opened Util

  // ---------------------------------------------------------------- split

  /** `s.split(sep)`: the maximal separator-free pieces between occurrences
      of `sep`; the empty string splits into one empty piece. */
  function Split(s: string, sep: char): (r: seq<string>)
    ensures |r| >= 1
    ensures forall i :: 0 <= i < |r| ==> sep !in r[i]
  {
    if s == [] then [""]
    else
      var rest := Split(s[1..], sep);
      if s[0] == sep then [""] + rest
      else [[s[0]] + rest[0]] + rest[1..]
  }

  /** `parts.join(sep)`, the inverse of `Split`. */
  function Join(parts: seq<string>, sep: char): string
    requires |parts| >= 1
  {
    if |parts| == 1 then parts[0] else parts[0] + [sep] + Join(parts[1..], sep)
  }

  /** Joining the pieces again gives back the line. */
  lemma {:induction false} JoinSplit(s: string, sep: char)
    ensures Join(Split(s, sep), sep) == s
  {
    if s != [] {
      var rest := Split(s[1..], sep);
      JoinSplit(s[1..], sep);
      if s[0] != sep {
        if |rest| == 1 {
          assert Split(s, sep) == [[s[0]] + rest[0]];
        } else {
          assert Split(s, sep)[1..] == rest[1..];
        }
      }
    }
  }

  lemma {:induction false} SplitPiece(a: string, b: string, sep: char)
    requires sep !in a
    ensures Split(a + [sep] + b, sep) == [a] + Split(b, sep)
  {
    if a == [] {
      assert [] + [sep] + b == [sep] + b;
      assert ([sep] + b)[1..] == b;
    } else {
      var s := a + [sep] + b;
      assert s[0] == a[0] && s[1..] == a[1..] + [sep] + b;
      SplitPiece(a[1..], b, sep);
      assert [a[0]] + a[1..] == a;
    }
  }

  lemma {:induction false} SplitWhole(a: string, sep: char)
    requires sep !in a
    ensures Split(a, sep) == [a]
  {
    if a != [] {
      SplitWhole(a[1..], sep);
      assert [a[0]] + a[1..] == a;
    }
  }

  /** Splitting a joined row gives back its fields, when no field holds the
      separator. */
  lemma {:induction false} SplitJoin(parts: seq<string>, sep: char)
    requires |parts| >= 1
    requires forall i :: 0 <= i < |parts| ==> sep !in parts[i]
    ensures Split(Join(parts, sep), sep) == parts
  {
    if |parts| == 1 {
      SplitWhole(parts[0], sep);
    } else {
      SplitJoin(parts[1..], sep);
      SplitPiece(parts[0], Join(parts[1..], sep), sep);
      assert [parts[0]] + parts[1..] == parts;
    }
  }

  // ------------------------------------------------------------- parseInt

  /** StrWhiteSpaceChar of ECMAScript: the WhiteSpace code points (tab,
      vertical tab, form feed, space, no-break space, byte order mark and the
      Unicode "Zs" spaces) and the LineTerminator code points. */
  predicate IsJsSpace(c: char) {
    c == '\t' || c == '\U{000B}' || c == '\U{000C}' || c == ' ' || c == '\U{00A0}' || c == '\U{FEFF}'
    || c == '\n' || c == '\r' || c == '\U{2028}' || c == '\U{2029}'
    || c == '\U{1680}' || ('\U{2000}' <= c <= '\U{200A}') || c == '\U{202F}' || c == '\U{205F}' || c == '\U{3000}'
  }

  function TrimStart(s: string): (r: string)
    ensures r == [] || !IsJsSpace(r[0])
    ensures exists k :: 0 <= k <= |s| && r == s[k..] && forall i :: 0 <= i < k ==> IsJsSpace(s[i])
  {
    if s != [] && IsJsSpace(s[0]) then
      var r := TrimStart(s[1..]);
      var k :| 0 <= k <= |s[1..]| && r == s[1..][k..] && forall i :: 0 <= i < k ==> IsJsSpace(s[1..][i]);
      assert r == s[k + 1..];
      assert forall i :: 0 <= i < k + 1 ==> IsJsSpace(s[i]) by {
        forall i | 0 < i < k + 1 ensures IsJsSpace(s[i]) { assert s[i] == s[1..][i - 1]; }
      }
      r
    else
      assert s == s[0..];
      s
  }

  /** The value of a digit in any radix up to 36; 36 for a non-digit. */
  function DigitValue(c: char): (v: nat)
    ensures v <= 36
  {
    if '0' <= c <= '9' then c as int - '0' as int
    else if 'a' <= c <= 'z' then c as int - 'a' as int + 10
    else if 'A' <= c <= 'Z' then c as int - 'A' as int + 10
    else 36
  }

  predicate IsDigit(c: char, radix: nat) {
    DigitValue(c) < radix
  }

  /** The longest prefix of `s` made of radix-`radix` digits. */
  function DigitPrefix(s: string, radix: nat): (r: string)
    ensures |r| <= |s| && r == s[..|r|]
    ensures forall i :: 0 <= i < |r| ==> IsDigit(r[i], radix)
    ensures |r| < |s| ==> !IsDigit(s[|r|], radix)
  {
    if s != [] && IsDigit(s[0], radix) then
      var rest := DigitPrefix(s[1..], radix);
      assert forall i :: 1 <= i < |rest| + 1 ==> ([s[0]] + rest)[i] == rest[i - 1];
      [s[0]] + rest
    else []
  }

  /** The number a digit string denotes, most significant digit first. */
  function Value(ds: string, radix: nat): nat
    requires forall i :: 0 <= i < |ds| ==> IsDigit(ds[i], radix)
  {
    if ds == [] then 0
    else
      var high := Value(ds[..|ds| - 1], radix);
      MulNat(high, radix);
      high * radix + DigitValue(ds[|ds| - 1])
  }

  lemma MulNat(a: nat, b: nat)
    ensures a * b >= 0
  {
  }

  /** `parseInt(s)` with no radix; `None` is `NaN`. Leading white space is
      skipped, one sign is taken, a `0x`/`0X` prefix selects radix 16, and the
      longest run of digits that follows is read; no digits gives `NaN`. A
      negative zero is returned as zero (the source compares with `===`). */
  function ParseInt(s: string): Option<int> {
    ParseTrimmed(TrimStart(s))
  }

  /** `parseInt` once the leading white space is gone: an optional sign,
      then the digits. */
  function ParseTrimmed(t: string): Option<int> {
    match ParseUnsigned(Unsigned(t))
    case None => None
    case Some(v) => Some(if |t| > 0 && t[0] == '-' then -(v as int) else v as int)
  }

  /** The text after one leading sign. */
  function Unsigned(t: string): string {
    if |t| > 0 && (t[0] == '-' || t[0] == '+') then t[1..] else t
  }

  predicate HexPrefix(u: string) {
    |u| >= 2 && u[0] == '0' && (u[1] == 'x' || u[1] == 'X')
  }

  /** The digits after the sign: hexadecimal after `0x`, else decimal. */
  function ParseUnsigned(u: string): Option<nat> {
    if HexPrefix(u) then DigitsValue(u[2..], 16) else DigitsValue(u, 10)
  }

  /** The value of the longest run of digits at the start of `s`; `NaN`
      when there is none. */
  function DigitsValue(s: string, radix: nat): Option<nat> {
    var ds := DigitPrefix(s, radix);
    if ds == [] then None else Some(Value(ds, radix))
  }

  // ------------------------------------------------------ decimal printing

  function DigitChar(d: nat): (c: char)
    requires d < 10
    ensures IsDigit(c, 10) && DigitValue(c) == d
  {
    ('0' as int + d) as char
  }

  /** The decimal numeral of a natural number, without leading zeros. */
  function NatDigits(n: nat): (r: string)
    ensures |r| >= 1
    ensures forall i :: 0 <= i < |r| ==> IsDigit(r[i], 10)
  {
    if n < 10 then [DigitChar(n)] else NatDigits(n / 10) + [DigitChar(n % 10)]
  }

  /** The decimal numeral of an integer, with a leading `-` when negative. */
  function DecimalString(n: int): string {
    if n < 0 then "-" + NatDigits(-n) else NatDigits(n)
  }

  lemma {:induction false} ValueOfNatDigits(n: nat)
    ensures Value(NatDigits(n), 10) == n
  {
    if n >= 10 {
      var ds := NatDigits(n);
      assert ds[..|ds| - 1] == NatDigits(n / 10);
      ValueOfNatDigits(n / 10);
    }
  }

  lemma {:induction false} DigitPrefixOfDigits(s: string, radix: nat)
    requires forall i :: 0 <= i < |s| ==> IsDigit(s[i], radix)
    ensures DigitPrefix(s, radix) == s
  {
    if s != [] {
      DigitPrefixOfDigits(s[1..], radix);
    }
  }

  /** `parseInt` of the decimal numeral of an integer gives back that integer. */
  lemma ParseIntDecimal(n: int)
    ensures ParseInt(DecimalString(n)) == Some(n)
  {
    if n < 0 {
      var m: nat := -n;
      assert DecimalString(n) == "-" + NatDigits(m);
      ParseIntNegative(m);
    } else {
      assert DecimalString(n) == NatDigits(n);
      ParseIntNatural(n);
    }
  }

  lemma ParseIntNatural(m: nat)
    ensures ParseInt(NatDigits(m)) == Some(m)
  {
    var ds := NatDigits(m);
    DigitNotSpace(ds[0]);
    NoLeadingSpace(ds);
    ParseDigits(m);
  }

  lemma ParseIntNegative(m: nat)
    ensures ParseInt("-" + NatDigits(m)) == Some(-(m as int))
  {
    var t := "-" + NatDigits(m);
    assert t[0] == '-';
    NoLeadingSpace(t);
    ParseNegativeDigits(m);
  }

  lemma DigitNotSpace(c: char)
    requires IsDigit(c, 10)
    ensures !IsJsSpace(c)
  {
  }

  lemma NoLeadingSpace(s: string)
    requires s != [] && !IsJsSpace(s[0])
    ensures TrimStart(s) == s
  {
  }

  lemma ParseDigits(m: nat)
    ensures ParseTrimmed(NatDigits(m)) == Some(m)
  {
    ValueOfNatDigits(m);
    ParseNumeral(NatDigits(m));
  }

  lemma ParseNegativeDigits(m: nat)
    ensures ParseTrimmed("-" + NatDigits(m)) == Some(-(m as int))
  {
    var ds := NatDigits(m);
    var t := "-" + ds;
    assert t[0] == '-' && t[1..] == ds;
    ValueOfNatDigits(m);
    DecimalRun(ds);
    NegatedRun(t, m);
  }

  /** An unsigned decimal numeral is read whole. */
  lemma ParseNumeral(ds: string)
    requires ds != [] && forall i :: 0 <= i < |ds| ==> IsDigit(ds[i], 10)
    ensures ParseTrimmed(ds) == Some(Value(ds, 10))
  {
    DecimalRun(ds);
    assert ds[0] != '-' && ds[0] != '+' by { assert IsDigit(ds[0], 10); }
    assert Unsigned(ds) == ds;
  }

  lemma NegatedRun(t: string, v: nat)
    requires |t| > 0 && t[0] == '-' && ParseUnsigned(t[1..]) == Some(v)
    ensures ParseTrimmed(t) == Some(-(v as int))
  {
    assert Unsigned(t) == t[1..];
  }

  lemma DecimalRun(ds: string)
    requires ds != [] && forall i :: 0 <= i < |ds| ==> IsDigit(ds[i], 10)
    ensures ParseUnsigned(ds) == Some(Value(ds, 10))
  {
    DigitPrefixOfDigits(ds, 10);
    NotHex(ds);
  }

  /** A decimal numeral has no `0x` prefix. */
  lemma NotHex(ds: string)
    requires forall i :: 0 <= i < |ds| ==> IsDigit(ds[i], 10)
    ensures !HexPrefix(ds)
  {
    if |ds| >= 2 { assert IsDigit(ds[1], 10); }
  }

  /** Leading white space never changes what `parseInt` reads. */
  lemma ParseIntSkipsSpace(w: string, s: string)
    requires forall i :: 0 <= i < |w| ==> IsJsSpace(w[i])
    ensures ParseInt(w + s) == ParseInt(s)
  {
    TrimStartSpace(w, s);
  }

  lemma {:induction false} TrimStartSpace(w: string, s: string)
    requires forall i :: 0 <= i < |w| ==> IsJsSpace(w[i])
    ensures TrimStart(w + s) == TrimStart(s)
  {
    if w != [] {
      assert (w + s)[1..] == w[1..] + s;
      TrimStartSpace(w[1..], s);
    } else {
      assert w + s == s;
    }
  }
}
