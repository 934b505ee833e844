/** String helpers shared by the UI modules. Case mapping is ASCII only. */
module Text {
  import opened Wrappers

  predicate IsDigit(c: char) {
    '0' <= c <= '9'
  }

  predicate IsAsciiLetter(c: char) {
    ('a' <= c <= 'z') || ('A' <= c <= 'Z')
  }

  function UpperChar(c: char): (u: char)
    ensures 'a' <= c <= 'z' ==> 'A' <= u <= 'Z' && u as int == c as int - 32
    ensures !('a' <= c <= 'z') ==> u == c
  {
    if 'a' <= c <= 'z' then (c as int - 32) as char else c
  }

  function LowerChar(c: char): (l: char)
    ensures 'A' <= c <= 'Z' ==> 'a' <= l <= 'z' && l as int == c as int + 32
    ensures !('A' <= c <= 'Z') ==> l == c
  {
    if 'A' <= c <= 'Z' then (c as int + 32) as char else c
  }

  /** `String.prototype.toLowerCase`, restricted to ASCII letters. */
  function Lower(s: string): (r: string)
    ensures |r| == |s|
    ensures forall i :: 0 <= i < |s| ==> r[i] == LowerChar(s[i])
  {
    if s == [] then [] else [LowerChar(s[0])] + Lower(s[1..])
  }

  predicate StartsWith(s: string, prefix: string) {
    |prefix| <= |s| && s[..|prefix|] == prefix
  }

  predicate EndsWith(s: string, suffix: string) {
    |suffix| <= |s| && s[|s| - |suffix|..] == suffix
  }

  predicate AllDigits(s: string) {
    forall i :: 0 <= i < |s| ==> IsDigit(s[i])
  }

  /** `String.prototype.slice(start)` for a non-negative start: everything from `start` on, or "" past the end. */
  function SliceFrom(s: string, start: nat): (r: string)
    ensures start <= |s| ==> r == s[start..]
    ensures start > |s| ==> r == ""
  {
    if start <= |s| then s[start..] else ""
  }

  /** The longest prefix of `s` made of decimal digits. */
  function DigitPrefix(s: string): (r: string)
    ensures |r| <= |s| && r == s[..|r|] && AllDigits(r)
    ensures |r| < |s| ==> !IsDigit(s[|r|])
  {
    if s != [] && IsDigit(s[0]) then [s[0]] + DigitPrefix(s[1..]) else []
  }

  /** The value of a string of decimal digits, most significant first. */
  function DecimalValue(ds: string): nat
    requires AllDigits(ds)
  {
    if ds == [] then 0 else DecimalValue(ds[..|ds| - 1]) * 10 + (ds[|ds| - 1] as int - '0' as int)
  }

  /**
   * The characters `parseInt` skips before the number: the white space and line terminators
   * of ECMAScript (tab, line feed, vertical tab, form feed, carriage return, the byte-order
   * mark, the two Unicode line separators and every space separator).
   */
  predicate IsJsWhiteSpace(c: char) {
    c == '\t' || c == '\n' || c == '\U{B}' || c == '\U{C}' || c == '\r' || c == ' '
    || c == '\U{A0}' || c == '\U{1680}' || ('\U{2000}' <= c <= '\U{200A}')
    || c == '\U{2028}' || c == '\U{2029}' || c == '\U{202F}' || c == '\U{205F}'
    || c == '\U{3000}' || c == '\U{FEFF}'
  }

  /** `s` without its leading white space. */
  function TrimStart(s: string): string {
    if s != [] && IsJsWhiteSpace(s[0]) then TrimStart(s[1..]) else s
  }

  /** What `TrimStart` removes is a run of white space at the front, and all of it. */
  lemma {:induction false} TrimStartSpec(s: string)
    ensures |TrimStart(s)| <= |s| && TrimStart(s) == s[|s| - |TrimStart(s)|..]
    ensures forall i :: 0 <= i < |s| - |TrimStart(s)| ==> IsJsWhiteSpace(s[i])
    ensures TrimStart(s) == [] || !IsJsWhiteSpace(TrimStart(s)[0])
  {
    if s != [] && IsJsWhiteSpace(s[0]) {
      var r := TrimStart(s);
      TrimStartSpec(s[1..]);
      assert r == TrimStart(s[1..]);
      assert s[1..][|s| - 1 - |r|..] == s[|s| - |r|..];
      forall i | 0 <= i < |s| - |r|
        ensures IsJsWhiteSpace(s[i])
      {
        if i > 0 {
          assert s[i] == s[1..][i - 1];
        }
      }
    }
  }

  predicate IsHexDigit(c: char) {
    IsDigit(c) || ('a' <= c <= 'f') || ('A' <= c <= 'F')
  }

  predicate AllHexDigits(s: string) {
    forall i :: 0 <= i < |s| ==> IsHexDigit(s[i])
  }

  /** The longest prefix of `s` made of hexadecimal digits. */
  function HexDigitPrefix(s: string): (r: string)
    ensures |r| <= |s| && r == s[..|r|] && AllHexDigits(r)
    ensures |r| < |s| ==> !IsHexDigit(s[|r|])
  {
    if s != [] && IsHexDigit(s[0]) then [s[0]] + HexDigitPrefix(s[1..]) else []
  }

  function HexDigitValue(c: char): (v: nat)
    requires IsHexDigit(c)
    ensures v < 16
  {
    if IsDigit(c) then c as int - '0' as int
    else if 'a' <= c <= 'f' then c as int - 'a' as int + 10
    else c as int - 'A' as int + 10
  }

  /** The value of a string of hexadecimal digits, most significant first. */
  function HexValue(ds: string): nat
    requires AllHexDigits(ds)
  {
    if ds == [] then 0 else HexValue(ds[..|ds| - 1]) * 16 + HexDigitValue(ds[|ds| - 1])
  }

  /** A `0x` or `0X` prefix, which makes `parseInt` read hexadecimal. */
  predicate HasHexPrefix(b: string) {
    |b| >= 2 && b[0] == '0' && (b[1] == 'x' || b[1] == 'X')
  }

  /** The digits `parseInt` reads from unsigned text: hexadecimal after `0x`, decimal otherwise. */
  function NumeralDigits(b: string): (ds: string)
    ensures HasHexPrefix(b) ==> ds == HexDigitPrefix(b[2..])
    ensures !HasHexPrefix(b) ==> ds == DigitPrefix(b) && AllDigits(ds)
  {
    if HasHexPrefix(b) then HexDigitPrefix(b[2..]) else DigitPrefix(b)
  }

  /** The value of the digits `NumeralDigits(b)`, in the base the prefix chooses. */
  function NumeralValue(b: string): nat {
    if HasHexPrefix(b) then HexValue(HexDigitPrefix(b[2..])) else DecimalValue(DigitPrefix(b))
  }

  /** After the white space, a minus sign makes the number negative. */
  predicate StartsWithMinus(t: string) {
    t != [] && t[0] == '-'
  }

  /** Text after its optional sign. */
  function Unsigned(t: string): string {
    if t != [] && (t[0] == '-' || t[0] == '+') then t[1..] else t
  }

  /**
   * `parseInt(s)` without a radix argument: leading white space is skipped, then an optional
   * sign, then the leading hexadecimal digits after a `0x` prefix or the leading decimal digits
   * otherwise; `None` stands for `NaN` (no digit there). A negative zero is `0`.
   */
  function ParseInt(s: string): (r: Option<int>)
    ensures r.None? <==> NumeralDigits(Unsigned(TrimStart(s))) == []
  {
    ReadNumber(TrimStart(s))
  }

  /** `parseInt` after the white space: the optional sign, then the numeral. */
  function ReadNumber(t: string): (r: Option<int>)
    ensures r.None? <==> NumeralDigits(Unsigned(t)) == []
  {
    var b := Unsigned(t);
    if NumeralDigits(b) == [] then None
    else if StartsWithMinus(t) then Some(-(NumeralValue(b) as int))
    else Some(NumeralValue(b))
  }

  /** A number read is the numeral's value, negated after a minus sign. */
  lemma ParseIntValue(s: string)
    requires ParseInt(s).Some?
    ensures var v := ParseInt(s).value;
      (if StartsWithMinus(TrimStart(s)) then -v else v) == NumeralValue(Unsigned(TrimStart(s)))
  {
  }

  /** `parseInt` sees only what is left after the white space. */
  lemma ParseIntReadsTrimmed(a: string, b: string)
    requires TrimStart(a) == TrimStart(b)
    ensures ParseInt(a) == ParseInt(b)
  {
  }

  lemma TrimStartOfNonSpace(s: string)
    requires s != [] && !IsJsWhiteSpace(s[0])
    ensures TrimStart(s) == s
  {
  }

  /** Leading white space does not change what `TrimStart` leaves. */
  lemma {:induction false} TrimStartSkips(w: string, s: string)
    requires forall i :: 0 <= i < |w| ==> IsJsWhiteSpace(w[i])
    ensures TrimStart(w + s) == TrimStart(s)
  {
    if w == [] {
      assert w + s == s;
    } else {
      assert (w + s)[0] == w[0];
      assert (w + s)[1..] == w[1..] + s;
      TrimStartSkips(w[1..], s);
    }
  }

  /** `parseInt` reads past any leading white space. */
  lemma {:induction false} ParseIntIgnoresLeadingWhiteSpace(w: string, s: string)
    requires forall i :: 0 <= i < |w| ==> IsJsWhiteSpace(w[i])
    ensures ParseInt(w + s) == ParseInt(s)
  {
    TrimStartSkips(w, s);
    ParseIntReadsTrimmed(w + s, s);
  }

  /** Leading white space is skipped: `parseInt(" 3") == 3`. */
  lemma ParseIntSkipsSpace()
    ensures ParseInt(" 3") == Some(3)
  {
    assert TrimStart(" 3") == "3" by { assert " 3"[1..] == "3"; }
    assert TrimStart("3") == "3";
    assert DigitPrefix("3") == "3" by { assert "3"[1..] == []; }
    assert DecimalValue("3") == 3 by { assert "3"[..0] == []; }
  }

  /** A `0x` prefix reads hexadecimal: `parseInt("0x1f") == 31`. */
  lemma ParseIntReadsHex()
    ensures ParseInt("0x1f") == Some(31)
  {
    assert TrimStart("0x1f") == "0x1f";
    assert "0x1f"[2..] == "1f";
    assert HexDigitPrefix("1f") == "1f" by { assert "1f"[1..] == "f" && "f"[1..] == []; }
    assert HexValue("1f") == 31 by { assert "1f"[..1] == "1" && "1"[..0] == []; }
  }

  /** A `0x` prefix without hexadecimal digits is `NaN`. */
  lemma ParseIntHexPrefixAlone()
    ensures ParseInt("0x") == None
  {
    assert TrimStart("0x") == "0x";
    assert "0x"[2..] == [];
  }

  /** Text that starts with a decimal digit and no `0x` prefix reads as its leading digits. */
  lemma ParseIntDecimal(s: string)
    requires s != [] && IsDigit(s[0]) && !HasHexPrefix(s)
    ensures ParseInt(s) == Some(DecimalValue(DigitPrefix(s)))
  {
    TrimStartOfNonSpace(s);
    assert Unsigned(s) == s;
    assert NumeralDigits(s) == DigitPrefix(s) != [];
  }

  /** Reading stops at the first character that is not a digit: `parseInt("-12a") == -12`. */
  lemma ParseIntStopsAtLetter()
    ensures ParseInt("-12a") == Some(-12)
  {
    var b := "12a";
    assert TrimStart("-12a") == "-12a";
    assert "-12a"[1..] == b;
    assert DigitPrefix(b) == "12" by {
      assert DigitPrefix("a") == [];
      assert "2a"[1..] == "a" && DigitPrefix("2a") == "2";
      assert b[1..] == "2a";
    }
    assert DecimalValue("12") == 12 by { assert "12"[..1] == "1" && "1"[..0] == []; }
    assert Unsigned("-12a") == b && NumeralDigits(b) == "12" && NumeralValue(b) == 12;
  }

  /** The decimal numeral of `n`, the way `String(n)` writes it. */
  function NatToString(n: nat): (r: string)
    ensures r != [] && AllDigits(r)
  {
    if n < 10 then [('0' as int + n) as char]
    else NatToString(n / 10) + [('0' as int + n % 10) as char]
  }

  lemma {:induction false} DecimalValueOfNatToString(n: nat)
    ensures DecimalValue(NatToString(n)) == n
  {
    if n >= 10 {
      var r := NatToString(n);
      assert r[..|r| - 1] == NatToString(n / 10);
      DecimalValueOfNatToString(n / 10);
    }
  }

  lemma {:induction false} DigitPrefixOfDigits(ds: string, rest: string)
    requires AllDigits(ds)
    requires rest == [] || !IsDigit(rest[0])
    ensures DigitPrefix(ds + rest) == ds
  {
    if ds != [] {
      assert (ds + rest)[1..] == ds[1..] + rest;
      DigitPrefixOfDigits(ds[1..], rest);
    } else {
      assert ds + rest == rest;
    }
  }

  /**
   * The numeral of an index reads back as that index, whatever follows it that is not a
   * digit (nor an `x` after the numeral `0`, which would make it a hexadecimal prefix):
   * `parseInt(String(n) + rest) == n`.
   */
  lemma {:induction false} ParseIntOfNatToString(n: nat, rest: string)
    requires rest == [] || (!IsDigit(rest[0]) && (n == 0 ==> rest[0] != 'x' && rest[0] != 'X'))
    ensures ParseInt(NatToString(n) + rest) == Some(n)
  {
    var numeral := NatToString(n);
    var s := numeral + rest;
    assert s[0] == numeral[0];
    if n >= 10 {
      assert numeral == NatToString(n / 10) + [('0' as int + n % 10) as char];
      assert |numeral| >= 2 && s[1] == numeral[1];
    } else if n == 0 {
      assert rest != [] ==> s[1] == rest[0];
    }
    assert !HasHexPrefix(s);
    ParseIntDecimal(s);
    DigitPrefixOfDigits(numeral, rest);
    DecimalValueOfNatToString(n);
  }
}
