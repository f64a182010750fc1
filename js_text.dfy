/**
 * The JavaScript string primitives the proxy's address and configuration code is
 * built from (indexOf, lastIndexOf, substring, split, join, trim, parseInt and the
 * decimal and hexadecimal rendering of integers), with the semantics of ECMAScript
 * for the argument ranges the proxy uses.
 */
module JsText {
  import opened JsBase

  /** `sub` occurs in `s` at index i. */
  predicate OccursAt(s: string, sub: string, i: int) {
    0 <= i && i + |sub| <= |s| && s[i..i + |sub|] == sub
  }

  /** The first index j >= i where `sub` occurs, or -1. */
  function IndexOfFrom(s: string, sub: string, i: nat): (r: int)
    decreases |s| - i
    ensures r == -1 || (i <= r && OccursAt(s, sub, r))
    ensures forall j :: i <= j && (r == -1 || j < r) ==> !OccursAt(s, sub, j)
  {
    if i + |sub| > |s| then -1
    else if s[i..i + |sub|] == sub then i
    else IndexOfFrom(s, sub, i + 1)
  }

  /** String.prototype.indexOf. */
  function IndexOf(s: string, sub: string): (r: int)
    ensures r == -1 || OccursAt(s, sub, r)
    ensures forall j :: 0 <= j && (r == -1 || j < r) ==> !OccursAt(s, sub, j)
  {
    IndexOfFrom(s, sub, 0)
  }

  /** The last index j <= i where `sub` occurs, or -1. */
  function LastIndexOfUpTo(s: string, sub: string, i: int): (r: int)
    decreases i + 1
    ensures r == -1 || (r <= i && OccursAt(s, sub, r))
    ensures forall j :: r < j <= i ==> !OccursAt(s, sub, j)
  {
    if i < 0 then -1
    else if OccursAt(s, sub, i) then i
    else LastIndexOfUpTo(s, sub, i - 1)
  }

  /** String.prototype.lastIndexOf. */
  function LastIndexOf(s: string, sub: string): (r: int)
    ensures r == -1 || OccursAt(s, sub, r)
    ensures forall j :: r < j ==> !OccursAt(s, sub, j)
  {
    LastIndexOfUpTo(s, sub, |s|)
  }

  predicate Contains(s: string, sub: string) {
    IndexOf(s, sub) != -1
  }

  lemma ContainsChar(s: string, c: char)
    ensures Contains(s, [c]) <==> c in s
  {
    var r := IndexOf(s, [c]);
    if c in s {
      var i :| 0 <= i < |s| && s[i] == c;
      assert OccursAt(s, [c], i);
    }
    if r != -1 {
      assert s[r..r + 1] == [c];
      assert s[r] == c;
    }
  }

  /** Clamps a substring argument into 0..n. */
  function Clamp(x: int, n: nat): (r: nat)
    ensures r <= n
  {
    if x < 0 then 0 else if x > n then n else x
  }

  /** String.prototype.substring: both ends clamped, swapped when reversed. */
  function Substring(s: string, a: int, b: int): (r: string)
    ensures |r| <= |s|
  {
    var i := Clamp(a, |s|);
    var j := Clamp(b, |s|);
    if i <= j then s[i..j] else s[j..i]
  }

  /** String.prototype.split with a non-empty separator. */
  function Split(s: string, sep: string): (r: seq<string>)
    requires sep != []
    decreases |s|
    ensures |r| >= 1
  {
    var k := IndexOf(s, sep);
    if k == -1 then [s] else [s[..k]] + Split(s[k + |sep|..], sep)
  }

  /** The first part of a split is a prefix of the text. */
  lemma SplitFirst(s: string, sep: string)
    requires sep != []
    ensures Split(s, sep)[0] <= s
  {
  }

  /** Array.prototype.join. */
  function Join(parts: seq<string>, sep: string): string {
    if |parts| == 0 then ""
    else if |parts| == 1 then parts[0]
    else parts[0] + sep + Join(parts[1..], sep)
  }

  lemma {:induction false} SplitJoin(parts: seq<string>, c: char)
    requires |parts| >= 1
    requires forall i :: 0 <= i < |parts| ==> c !in parts[i]
    ensures Split(Join(parts, [c]), [c]) == parts
  {
    var s := Join(parts, [c]);
    if |parts| == 1 {
      ContainsChar(s, c);
    } else {
      var p := parts[0];
      assert s == p + [c] + Join(parts[1..], [c]);
      assert OccursAt(s, [c], |p|);
      forall j | 0 <= j < |p| ensures !OccursAt(s, [c], j) {
        assert s[j] == p[j];
      }
      assert IndexOf(s, [c]) == |p|;
      assert s[|p| + 1..] == Join(parts[1..], [c]);
      assert s[..|p|] == p;
      SplitJoin(parts[1..], c);
    }
  }

  lemma {:induction false} SplitNoSeparator(s: string, c: char)
    requires c !in s
    ensures Split(s, [c]) == [s]
  {
    ContainsChar(s, c);
  }

  lemma OccursAtChar(s: string, c: char, j: int)
    ensures OccursAt(s, [c], j) <==> 0 <= j < |s| && s[j] == c
  {
    if 0 <= j < |s| && s[j] == c {
      assert s[j..j + 1] == [c];
    }
  }

  /** The first occurrence of a character is its index in the first part that holds it. */
  lemma IndexOfChar(s: string, c: char)
    ensures IndexOf(s, [c]) == -1 <==> c !in s
    ensures IndexOf(s, [c]) != -1 ==> s[IndexOf(s, [c])] == c && c !in s[..IndexOf(s, [c])]
  {
    ContainsChar(s, c);
    var k := IndexOf(s, [c]);
    if k != -1 {
      OccursAtChar(s, c, k);
      forall j | 0 <= j < k ensures s[j] != c {
        OccursAtChar(s, c, j);
      }
    }
  }

  /** An occurrence whose first character appears nowhere before it is the first one. */
  lemma IndexOfAt(s: string, sub: string, k: nat)
    requires |sub| > 0 && OccursAt(s, sub, k) && sub[0] !in s[..k]
    ensures IndexOf(s, sub) == k
  {
    forall j | 0 <= j < k
      ensures !OccursAt(s, sub, j)
    {
      assert s[..k][j] == s[j];
      if j + |sub| <= |s| {
        assert s[j..j + |sub|][0] == s[j];
      }
    }
  }

  /** An occurrence whose first character appears nowhere after it is the last one. */
  lemma LastIndexOfAt(s: string, sub: string, k: nat)
    requires |sub| > 0 && OccursAt(s, sub, k) && sub[0] !in s[k + 1..]
    ensures LastIndexOf(s, sub) == k
  {
    forall j | k < j
      ensures !OccursAt(s, sub, j)
    {
      if j + |sub| <= |s| {
        assert s[k + 1..][j - k - 1] == s[j];
        assert s[j..j + |sub|][0] == s[j];
      }
    }
  }

  /** No part of a split on a character holds that character. */
  lemma {:induction false} SplitPartsNoSep(s: string, c: char)
    decreases |s|
    ensures forall i :: 0 <= i < |Split(s, [c])| ==> c !in Split(s, [c])[i]
  {
    IndexOfChar(s, c);
    var k := IndexOf(s, [c]);
    if k != -1 {
      SplitPartsNoSep(s[k + 1..], c);
    }
  }

  /** Splitting around one separator splits each side independently. */
  lemma {:induction false} SplitAppendSep(x: string, y: string, c: char)
    decreases |x|
    ensures Split(x + [c] + y, [c]) == Split(x, [c]) + Split(y, [c])
  {
    var s := x + [c] + y;
    IndexOfChar(x, c);
    var k := IndexOf(x, [c]);
    if k == -1 {
      assert s[..|x|] == x && s[|x| + 1..] == y;
      SplitAt(s, c, |x|);
      SplitNoSeparator(x, c);
    } else {
      assert s[..k] == x[..k];
      assert s[k + 1..] == x[k + 1..] + [c] + y;
      SplitAt(s, c, k);
      SplitAt(x, c, k);
      SplitAppendSep(x[k + 1..], y, c);
    }
  }

  /** A split on a character cuts at its first occurrence. */
  lemma SplitAt(s: string, c: char, k: nat)
    requires k < |s| && s[k] == c && c !in s[..k]
    ensures Split(s, [c]) == [s[..k]] + Split(s[k + 1..], [c])
  {
    OccursAtChar(s, c, k);
    IndexOfAt(s, [c], k);
  }

  /** The whitespace String.prototype.trim removes (WhiteSpace and LineTerminator). */
  predicate IsJsSpace(ch: char) {
    var c := ch as int;
    (0x09 <= c <= 0x0D) || c == 0x20 || c == 0xA0 || c == 0x1680 || (0x2000 <= c <= 0x200A)
    || c == 0x2028 || c == 0x2029 || c == 0x202F || c == 0x205F || c == 0x3000 || c == 0xFEFF
  }

  function TrimStart(s: string): (r: string)
    ensures |r| <= |s| && r == s[|s| - |r|..]
    ensures r == [] || !IsJsSpace(r[0])
  {
    if |s| > 0 && IsJsSpace(s[0]) then TrimStart(s[1..]) else s
  }

  function TrimEnd(s: string): (r: string)
    ensures |r| <= |s| && r == s[..|r|]
    ensures r == [] || !IsJsSpace(r[|r| - 1])
  {
    if |s| > 0 && IsJsSpace(s[|s| - 1]) then TrimEnd(s[..|s| - 1]) else s
  }

  /** String.prototype.trim. */
  function Trim(s: string): string {
    TrimEnd(TrimStart(s))
  }

  // ---- integers as text ----

  function DecDigit(d: nat): char
    requires d < 10
  {
    "0123456789"[d]
  }

  function HexDigit(d: nat): char
    requires d < 16
  {
    "0123456789abcdef"[d]
  }

  /** Number.prototype.toString() of a non-negative integer. */
  function NatToDec(n: nat): (r: string)
    ensures |r| >= 1
  {
    if n < 10 then [DecDigit(n)] else NatToDec(n / 10) + [DecDigit(n % 10)]
  }

  /** Number.prototype.toString() (or a template literal) of an integer. */
  function IntToDec(n: int): string {
    if n < 0 then "-" + NatToDec(-n) else NatToDec(n)
  }

  /** Number.prototype.toString(16) of a non-negative integer. */
  function NatToHex(n: nat): (r: string)
    ensures |r| >= 1
  {
    if n < 16 then [HexDigit(n)] else NatToHex(n / 16) + [HexDigit(n % 16)]
  }

  /** The value of a character as a digit in the given radix, or -1. */
  function DigitValue(ch: char, radix: nat): (v: int)
    ensures -1 <= v < radix
  {
    var d :=
      if '0' <= ch <= '9' then ch as int - '0' as int
      else if 'a' <= ch <= 'z' then ch as int - 'a' as int + 10
      else if 'A' <= ch <= 'Z' then ch as int - 'A' as int + 10
      else -1;
    if d < radix then d else -1
  }

  /** The length of the run of radix digits at the head of s. */
  function DigitRun(s: string, radix: nat): (n: nat)
    ensures n <= |s|
    ensures forall i :: 0 <= i < n ==> DigitValue(s[i], radix) >= 0
    ensures n < |s| ==> DigitValue(s[n], radix) < 0
  {
    if |s| > 0 && DigitValue(s[0], radix) >= 0 then 1 + DigitRun(s[1..], radix) else 0
  }

  /** The value of a string of radix digits, most significant first (used on digit runs only). */
  function DigitsValue(ds: string, radix: nat): nat {
    if |ds| == 0 then 0
    else
      var d := DigitValue(ds[|ds| - 1], radix);
      DigitsValue(ds[..|ds| - 1], radix) * radix + (if d < 0 then 0 else d)
  }

  /**
   * parseInt(s, radix) for radix 10 or 16: leading whitespace, an optional sign, for
   * radix 16 an optional 0x, then the longest run of digits; None is NaN.
   */
  function ParseInt(s: string, radix: nat): Option<int>
    requires radix == 10 || radix == 16
  {
    var t := TrimStart(s);
    var neg := |t| > 0 && t[0] == '-';
    var u := if |t| > 0 && (t[0] == '-' || t[0] == '+') then t[1..] else t;
    var v := if radix == 16 && |u| >= 2 && u[0] == '0' && (u[1] == 'x' || u[1] == 'X') then u[2..] else u;
    var n := DigitRun(v, radix);
    if n == 0 then None
    else
      var m: int := DigitsValue(v[..n], radix);
      Some(if neg then -m else m)
  }

  lemma {:induction false} NatToDecDigits(n: nat)
    ensures forall i :: 0 <= i < |NatToDec(n)| ==> '0' <= NatToDec(n)[i] <= '9'
    ensures forall i :: 0 <= i < |NatToDec(n)| ==> DigitValue(NatToDec(n)[i], 10) >= 0
    ensures DigitsValue(NatToDec(n), 10) == n
  {
    var s := NatToDec(n);
    if n >= 10 {
      NatToDecDigits(n / 10);
      assert s[..|s| - 1] == NatToDec(n / 10);
    }
  }

  lemma DigitRunAll(s: string, radix: nat)
    requires forall i :: 0 <= i < |s| ==> DigitValue(s[i], radix) >= 0
    ensures DigitRun(s, radix) == |s|
  {
  }

  /** Rendering a non-negative integer in decimal and parsing it back gives the integer. */
  lemma ParseIntNatToDec(n: nat)
    ensures ParseInt(NatToDec(n), 10) == Some(n)
  {
    var s := NatToDec(n);
    NatToDecDigits(n);
    assert !IsJsSpace(s[0]);
    assert TrimStart(s) == s;
    DigitRunAll(s, 10);
    assert s[..|s|] == s;
  }

  lemma NoCharInDec(n: nat, c: char)
    requires !('0' <= c <= '9')
    ensures c !in NatToDec(n)
  {
    NatToDecDigits(n);
  }

  /** The string is a non-empty run of radix digits. */
  predicate AllDigits(s: string, radix: nat) {
    |s| > 0 && forall i :: 0 <= i < |s| ==> DigitValue(s[i], radix) >= 0
  }

  /**
   * Number(s) where the result is an integer written in decimal (with an optional sign)
   * or in hex after 0x; None stands for NaN and for the forms this model does not read.
   */
  function StringToNumber(s: string): (r: Option<int>)
  {
    var t := Trim(s);
    if t == "" then Some(0)
    else if |t| > 2 && t[0] == '0' && (t[1] == 'x' || t[1] == 'X') && AllDigits(t[2..], 16) then
      Some(DigitsValue(t[2..], 16))
    else
      var u := if t[0] == '-' || t[0] == '+' then t[1..] else t;
      if AllDigits(u, 10) then
        var m: int := DigitsValue(u, 10);
        Some(if t[0] == '-' then -m else m)
      else None
  }

  /** Number() reads the decimal text of a natural number back as that number. */
  lemma StringToNumberNatToDec(n: nat)
    ensures StringToNumber(NatToDec(n)) == Some(n)
  {
    NatToDecDigits(n);
    StringToNumberDigits(NatToDec(n));
  }

  /** Number() of a non-empty run of decimal digits is their value. */
  lemma StringToNumberDigits(s: string)
    requires |s| > 0 && forall i :: 0 <= i < |s| ==> '0' <= s[i] <= '9'
    ensures StringToNumber(s) == Some(DigitsValue(s, 10))
  {
    DecimalAllDigits(s);
    UnsignedDecimal(s);
  }

  /** Number() of an unsigned run of decimal digits with no whitespace at either end. */
  lemma UnsignedDecimal(s: string)
    requires AllDigits(s, 10) && !IsJsSpace(s[0]) && !IsJsSpace(s[|s| - 1])
    requires '0' <= s[0] <= '9' && (|s| > 2 ==> '0' <= s[1] <= '9')
    ensures StringToNumber(s) == Some(DigitsValue(s, 10))
  {
    assert TrimStart(s) == s;
    assert TrimEnd(s) == s;
  }

  lemma DecimalAllDigits(s: string)
    requires |s| > 0 && forall i :: 0 <= i < |s| ==> '0' <= s[i] <= '9'
    ensures AllDigits(s, 10)
  {
    forall i | 0 <= i < |s| ensures DigitValue(s[i], 10) >= 0 {
      DecimalDigitValue(s[i]);
    }
  }

  lemma DecimalDigitValue(ch: char)
    requires '0' <= ch <= '9'
    ensures DigitValue(ch, 10) == ch as int - '0' as int
  {
  }

  /** radix to the power n. */
  function RadixPower(radix: nat, n: nat): (r: nat)
    requires radix >= 1
    ensures r >= 1
  {
    if n == 0 then 1 else radix * RadixPower(radix, n - 1)
  }

  /** Zero digits have the value 0. */
  lemma {:induction false} ZerosValue(z: string, radix: nat)
    requires forall i :: 0 <= i < |z| ==> z[i] == '0'
    ensures DigitsValue(z, radix) == 0
    decreases |z|
  {
    if |z| > 0 {
      ZerosValue(z[..|z| - 1], radix);
    }
  }

  /** Leading zero digits do not change the value of a digit string. */
  lemma {:induction false} LeadingZerosValue(z: string, ds: string, radix: nat)
    requires forall i :: 0 <= i < |z| ==> z[i] == '0'
    ensures DigitsValue(z + ds, radix) == DigitsValue(ds, radix)
    decreases |ds|
  {
    var s := z + ds;
    if |ds| == 0 {
      assert s == z;
      ZerosValue(z, radix);
    } else {
      assert s[..|s| - 1] == z + ds[..|ds| - 1];
      assert s[|s| - 1] == ds[|ds| - 1];
      LeadingZerosValue(z, ds[..|ds| - 1], radix);
    }
  }

  lemma MulMono(a: nat, b: nat, c: nat)
    requires a <= b
    ensures a * c <= b * c
  {
  }

  /** At most n digits have a value below radix^n. */
  lemma {:induction false} DigitsValueBound(ds: string, radix: nat, n: nat)
    requires radix >= 1 && |ds| <= n
    ensures DigitsValue(ds, radix) < RadixPower(radix, n)
    decreases |ds|
  {
    if |ds| > 0 {
      var init := DigitsValue(ds[..|ds| - 1], radix);
      var d := DigitValue(ds[|ds| - 1], radix);
      var p := RadixPower(radix, n - 1);
      DigitsValueBound(ds[..|ds| - 1], radix, n - 1);
      MulMono(init + 1, p, radix);
      assert (init + 1) * radix == init * radix + radix;
      assert RadixPower(radix, n) == p * radix;
      assert DigitsValue(ds, radix) == init * radix + (if d < 0 then 0 else d);
    }
  }
}
