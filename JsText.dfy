/** The few JavaScript string built-ins the modelled code relies on:
    `Array.prototype.join`, the decimal rendering of an integer (`String(n)`,
    template literals, `n.toString()`) and `parseInt(s, 10)`. */
module JsText {
  import opened Wrappers

  // ---------------------------------------------------------------------------
  // Array.prototype.join on an array of strings
  // ---------------------------------------------------------------------------

  /** Sum of the lengths of `parts`. */
  function TotalLength(parts: seq<string>): nat
    decreases |parts|
  {
    if parts == [] then 0 else TotalLength(parts[..|parts| - 1]) + |parts[|parts| - 1]|
  }

  /** `parts.join(sep)`: the parts in order with `sep` between neighbours. */
  function Join(parts: seq<string>, sep: string): (r: string)
    ensures parts == [] ==> r == ""
    ensures |r| >= TotalLength(parts)
    decreases |parts|
  {
    if |parts| == 0 then ""
    else if |parts| == 1 then parts[0]
    else Join(parts[..|parts| - 1], sep) + sep + parts[|parts| - 1]
  }

  /** Where `parts[k]` starts inside `Join(parts, sep)`: every earlier part is
      followed by one separator. */
  function Offset(parts: seq<string>, sep: string, k: nat): nat
    requires k <= |parts|
  {
    if k == 0 then 0 else Offset(parts, sep, k - 1) + |parts[k - 1]| + |sep|
  }

  /** `s` holds `parts[k]` at its offset. */
  predicate PartAt(s: string, parts: seq<string>, sep: string, k: nat)
    requires k < |parts|
  {
    Offset(parts, sep, k) + |parts[k]| <= |s| && Slot(s, parts, sep, k) == parts[k]
  }

  /** The slice of `s` where `parts[k]` belongs. */
  function Slot(s: string, parts: seq<string>, sep: string, k: nat): string
    requires k < |parts| && Offset(parts, sep, k) + |parts[k]| <= |s|
  {
    s[Offset(parts, sep, k)..Offset(parts, sep, k) + |parts[k]|]
  }

  /** `s` holds `sep` right after `parts[k]` unless `k` is the last index. */
  predicate SeparatorAfter(s: string, parts: seq<string>, sep: string, k: nat)
    requires k < |parts|
  {
    k + 1 < |parts| ==>
      && Offset(parts, sep, k + 1) == Offset(parts, sep, k) + |parts[k]| + |sep|
      && Offset(parts, sep, k + 1) <= |s|
      && s[Offset(parts, sep, k) + |parts[k]|..Offset(parts, sep, k + 1)] == sep
  }

  lemma JoinSnoc(parts: seq<string>, p: string, sep: string)
    ensures Join(parts + [p], sep) == if parts == [] then p else Join(parts, sep) + sep + p
  {
    assert (parts + [p])[..|parts|] == parts;
  }

  /** Offsets only depend on the parts before them. */
  lemma {:induction false} OffsetPrefix(parts: seq<string>, m: nat, sep: string, k: nat)
    requires k <= m <= |parts|
    ensures Offset(parts[..m], sep, k) == Offset(parts, sep, k)
  {
    if k > 0 {
      OffsetPrefix(parts, m, sep, k - 1);
    }
  }

  /** A joined string ends right after its last part. */
  lemma {:induction false} JoinLength(parts: seq<string>, sep: string)
    requires parts != []
    ensures |Join(parts, sep)| == Offset(parts, sep, |parts| - 1) + |parts[|parts| - 1]|
    decreases |parts|
  {
    var n := |parts|;
    if n > 1 {
      var pre := parts[..n - 1];
      JoinLength(pre, sep);
      OffsetPrefix(parts, n - 1, sep, n - 2);
    }
  }

  /** With the empty separator, joining is concatenation. */
  lemma {:induction false} JoinEmptySeparatorLength(parts: seq<string>)
    ensures |Join(parts, "")| == TotalLength(parts)
    decreases |parts|
  {
    if parts != [] {
      var pre := parts[..|parts| - 1];
      JoinEmptySeparatorLength(pre);
      assert pre + [parts[|parts| - 1]] == parts;
      JoinSnoc(pre, parts[|parts| - 1], "");
    }
  }

  /** Every part occurs verbatim at its offset of the joined string. */
  lemma {:induction false} JoinAt(parts: seq<string>, sep: string, k: nat)
    requires k < |parts|
    ensures PartAt(Join(parts, sep), parts, sep, k)
    decreases |parts|
  {
    var n := |parts|;
    JoinLength(parts, sep);
    if n > 1 {
      var pre := parts[..n - 1];
      var jp := Join(pre, sep);
      assert Join(parts, sep) == jp + sep + parts[n - 1];
      JoinLength(pre, sep);
      OffsetPrefix(parts, n - 1, sep, n - 2);
      if k < n - 1 {
        JoinAt(pre, sep, k);
        OffsetPrefix(parts, n - 1, sep, k);
      }
    }
  }

  /** Between neighbouring parts of the joined string stands exactly one
      separator. Together with JoinAt this says the joined string is
      `parts[0] + sep + parts[1] + ... + sep + parts[n-1]`. */
  lemma {:induction false} JoinSeparatorAt(parts: seq<string>, sep: string, k: nat)
    requires k + 1 < |parts|
    ensures SeparatorAfter(Join(parts, sep), parts, sep, k)
    decreases |parts|
  {
    var n := |parts|;
    var pre := parts[..n - 1];
    var jp := Join(pre, sep);
    assert Join(parts, sep) == jp + sep + parts[n - 1];
    JoinLength(parts, sep);
    JoinLength(pre, sep);
    OffsetPrefix(parts, n - 1, sep, k);
    if k + 1 < n - 1 {
      JoinSeparatorAt(pre, sep, k);
      OffsetPrefix(parts, n - 1, sep, k + 1);
    } else {
      OffsetPrefix(parts, n - 1, sep, n - 2);
    }
  }

  // ---------------------------------------------------------------------------
  // Decimal digits, String(n) for an integer n, parseInt(s, 10)
  // ---------------------------------------------------------------------------

  predicate IsDigit(c: char) {
    '0' <= c <= '9'
  }

  function DigitValue(c: char): nat
    requires IsDigit(c)
  {
    c as int - '0' as int
  }

  function DigitChar(d: nat): (c: char)
    requires d < 10
    ensures IsDigit(c) && DigitValue(c) == d
  {
    ('0' as int + d) as char
  }

  predicate AllDigits(s: string) {
    forall i :: 0 <= i < |s| ==> IsDigit(s[i])
  }

  /** Decimal rendering of a natural number, most significant digit first,
      without leading zeros. */
  function NatToString(n: nat): (s: string)
    ensures |s| > 0 && AllDigits(s)
    ensures |s| > 1 ==> s[0] != '0'
    decreases n
  {
    if n < 10 then [DigitChar(n)] else NatToString(n / 10) + [DigitChar(n % 10)]
  }

  /** `String(n)` for an integer-valued number. */
  function IntToString(n: int): (s: string)
    ensures |s| > 0 && (s[0] == '-' || IsDigit(s[0]))
    ensures (s[0] == '-') == (n < 0)
  {
    if n < 0 then "-" + NatToString(-n) else NatToString(n)
  }

  /** Value of a string of decimal digits. */
  function DigitsValue(ds: string): nat
    requires AllDigits(ds)
    decreases |ds|
  {
    if ds == [] then 0 else 10 * DigitsValue(ds[..|ds| - 1]) + DigitValue(ds[|ds| - 1])
  }

  /** ECMAScript's StrWhiteSpaceChar: WhiteSpace and LineTerminator code points,
      which `parseInt` skips before the number. */
  predicate IsJsWhiteSpace(c: char) {
    || c == '\t' || c == '\U{000B}' || c == '\U{000C}' || c == ' '
    || c == '\U{00A0}' || c == '\U{FEFF}' || c == '\U{1680}'
    || ('\U{2000}' <= c <= '\U{200A}') || c == '\U{202F}' || c == '\U{205F}' || c == '\U{3000}'
    || c == '\n' || c == '\r' || c == '\U{2028}' || c == '\U{2029}'
  }

  /** `s` with its leading white space removed. */
  function TrimStart(s: string): (r: string)
    ensures |r| <= |s| && r == s[|s| - |r|..]
    ensures forall i :: 0 <= i < |s| - |r| ==> IsJsWhiteSpace(s[i])
    ensures r == [] || !IsJsWhiteSpace(r[0])
    decreases |s|
  {
    if s != [] && IsJsWhiteSpace(s[0]) then TrimStart(s[1..]) else s
  }

  /** The longest prefix of `s` made of decimal digits. */
  function LeadingDigits(s: string): (ds: string)
    ensures |ds| <= |s| && ds == s[..|ds|] && AllDigits(ds)
    ensures |ds| == |s| || !IsDigit(s[|ds|])
    decreases |s|
  {
    if s != [] && IsDigit(s[0]) then [s[0]] + LeadingDigits(s[1..]) else []
  }

  /** `parseInt(s, 10)`, with `None` for NaN: skip leading white space, read an
      optional sign, then the longest run of decimal digits; no digits is NaN.
      (A `-0` result is the integer 0 here.) */
  function ParseInt(s: string): (r: Option<int>)
    ensures AllNonDigits(s) ==> r.None?
  {
    var t := TrimStart(s);
    var ds := LeadingDigits(Unsigned(t));
    if ds == [] then None
    else if IsNegative(t) then Some(-(DigitsValue(ds) as int))
    else Some(DigitsValue(ds))
  }

  predicate IsNegative(t: string) {
    t != [] && t[0] == '-'
  }

  /** `t` without its leading sign character, if any. */
  function Unsigned(t: string): (u: string)
    ensures u == t || (t != [] && (t[0] == '-' || t[0] == '+') && u == t[1..])
  {
    if t != [] && (t[0] == '-' || t[0] == '+') then t[1..] else t
  }

  predicate AllNonDigits(s: string) {
    forall i :: 0 <= i < |s| ==> !IsDigit(s[i])
  }

  lemma {:induction false} DigitsValueOfNatToString(n: nat)
    ensures DigitsValue(NatToString(n)) == n
    decreases n
  {
    if n >= 10 {
      DigitsValueOfNatToString(n / 10);
      var s := NatToString(n);
      assert s[..|s| - 1] == NatToString(n / 10);
    }
  }

  /** A run of digits followed by a non-digit is exactly what LeadingDigits reads. */
  lemma LeadingDigitsOfDigitRun(ds: string, rest: string)
    requires AllDigits(ds)
    requires rest == [] || !IsDigit(rest[0])
    ensures LeadingDigits(ds + rest) == ds
  {
    var s := ds + rest;
    assert s[..|ds|] == ds;
  }

  lemma TrimStartOfNonSpace(s: string)
    requires s != [] && !IsJsWhiteSpace(s[0])
    ensures TrimStart(s) == s
  {
  }

  /** `parseInt` reads back the decimal rendering of an integer, also when the
      rendering is followed by text that does not start with a digit. */
  lemma ParseIntOfIntToString(n: int, rest: string)
    requires rest == [] || !IsDigit(rest[0])
    ensures ParseInt(IntToString(n) + rest) == Some(n)
  {
    var s := IntToString(n) + rest;
    TrimStartOfNonSpace(s);
    var ds := NatToString(if n < 0 then -n else n);
    assert Unsigned(s) == ds + rest by {
      if n < 0 {
        assert s == "-" + ds + rest;
      } else {
        assert s == ds + rest;
      }
    }
    LeadingDigitsOfDigitRun(ds, rest);
    DigitsValueOfNatToString(if n < 0 then -n else n);
    assert IsNegative(s) == (n < 0);
  }

  /** Distinct integers have distinct decimal renderings. */
  lemma IntToStringInjective(a: int, b: int)
    ensures IntToString(a) == IntToString(b) <==> a == b
  {
    ParseIntOfIntToString(a, "");
    ParseIntOfIntToString(b, "");
    assert IntToString(a) + "" == IntToString(a);
    assert IntToString(b) + "" == IntToString(b);
  }
}
