/**
 * The address helpers of lib/utils.js: classifying an address as IPv4 or IPv6,
 * turning it into the 4 or 16 bytes the SOCKS5 wire format carries, and turning four
 * bytes back into dotted text.
 */
module Utils {
  import opened JsBase
  import opened JsText
  import opened DottedQuad
  import opened Ipv6Expand

  /** The object analyzeIPAddr returns. */
  datatype Analyzed = Analyzed(ip: string, ipv6: bool)

  /**
   * analyzeIPAddr(ip). Text with both ":" and "." counts as IPv4 embedded in IPv6 unless
   * "ffff" starts at index 1; its IPv4 part is what follows the last "ffff:". Text with a
   * "." and no ":" is IPv4; everything else is IPv6.
   */
  function AnalyzeIPAddr(ip: string): (r: Analyzed)
    ensures r.ipv6 <==> '.' !in ip || (':' in ip && IndexOf(ip, "ffff") == 1)
    ensures ':' !in ip || '.' !in ip || r.ipv6 ==> r.ip == ip
  {
    ContainsChar(ip, ':');
    ContainsChar(ip, '.');
    var embedded := Contains(ip, ":") && Contains(ip, ".") && IndexOf(ip, "ffff") != 1;
    var ipBack := if embedded then Substring(ip, LastIndexOf(ip, "ffff:") + 5, |ip|) else ip;
    var ipv6 := !embedded && !(!Contains(ip, ":") && Contains(ip, "."));
    Analyzed(ipBack, ipv6)
  }

  // ---- getIPAsBytes ----

  /** The radix parseInt is given, and the integer range the Buffer write accepts. */
  function Radix(v6: bool): nat {
    if v6 then 16 else 10
  }

  function Limit(v6: bool): int {
    if v6 then 65536 else 256
  }

  /** The number of components the 4- or 16-byte buffer has room for. */
  function Room(v6: bool): nat {
    if v6 then 8 else 4
  }

  /** The value written for one component: parseInt's result, where NaN is written as 0. */
  function ComponentValue(part: string, v6: bool): int {
    match ParseInt(part, Radix(v6))
    case None => 0
    case Some(v) => v
  }

  /** The parsed value of every component. */
  function Values(parts: seq<string>, v6: bool): (vs: seq<int>)
    ensures |vs| == |parts| && forall i :: 0 <= i < |parts| ==> vs[i] == ComponentValue(parts[i], v6)
  {
    seq(|parts|, i requires 0 <= i < |parts| => ComponentValue(parts[i], v6))
  }

  /** writeUInt8 / writeUInt16BE accept the value without throwing a RangeError. */
  predicate Writable(v: int, v6: bool) {
    0 <= v < Limit(v6)
  }

  predicate AllWritable(vs: seq<int>, v6: bool) {
    forall i :: 0 <= i < |vs| ==> Writable(vs[i], v6)
  }

  /** The bytes one value takes: one byte, or two written big-endian. */
  function ValueBytes(v: int, v6: bool): (b: Bytes)
    requires Writable(v, v6)
    ensures |b| == (if v6 then 2 else 1)
  {
    if v6 then [(v / 256) as byte, (v % 256) as byte] else [v as byte]
  }

  /** The bytes the values write, each at the offset just past the previous one. */
  function Written(vs: seq<int>, v6: bool): (b: Bytes)
    requires AllWritable(vs, v6)
    ensures |b| == if v6 then 2 * |vs| else |vs|
  {
    if vs == [] then []
    else Written(vs[..|vs| - 1], v6) + ValueBytes(vs[|vs| - 1], v6)
  }

  function ZeroBytes(n: nat): (b: Bytes)
    ensures |b| == n && forall i :: 0 <= i < n ==> b[i] == 0
  {
    seq(n, _ => 0)
  }

  /** The zero-filled 4- or 16-byte buffer after the values are written into it. */
  function Layout(vs: seq<int>, v6: bool): (b: Bytes)
    requires |vs| <= Room(v6) && AllWritable(vs, v6)
    ensures |b| == if v6 then 16 else 4
  {
    var w := Written(vs, v6);
    w + ZeroBytes((if v6 then 16 else 4) - |w|)
  }

  /** The text getIPAsBytes splits: the expanded form for IPv6, the address itself for IPv4. */
  function BytesText(a: Analyzed): Result<string> {
    if a.ipv6 then Expand(a.ip) else Ok(a.ip)
  }

  function Separator(v6: bool): string {
    if v6 then ":" else "."
  }

  /**
   * getIPAsBytes(ip). A component outside the byte (or 16-bit) range, or one more than
   * the buffer has room for, makes the Buffer write throw a RangeError.
   */
  function IPAsBytes(ip: string): (r: Result<Bytes>)
    ensures r.Ok? ==> |r.value| == if AnalyzeIPAddr(ip).ipv6 then 16 else 4
  {
    var a := AnalyzeIPAddr(ip);
    var text :- BytesText(a);
    ValuesBytes(Values(Split(text, Separator(a.ipv6)), a.ipv6), a.ipv6)
  }

  /** Writing the parsed values into the buffer. */
  function ValuesBytes(vs: seq<int>, v6: bool): Result<Bytes> {
    if |vs| > Room(v6) || !AllWritable(vs, v6) then Throw(RangeError)
    else Ok(Layout(vs, v6))
  }

  /** getIPAsBytes: analyze, expand an IPv6 address, split, and write the components. */
  method GetIPAsBytes(ip: string) returns (r: Result<Bytes>)
    ensures r == IPAsBytes(ip)
  {
    var a := AnalyzeIPAddr(ip);
    var text := a.ip;
    if a.ipv6 {
      var expanded := ExpandIPv6Address(a.ip);
      if expanded.Throw? {
        return Throw(expanded.error);
      }
      text := expanded.value;
    }
    var splits := Split(text, Separator(a.ipv6));
    r := WriteComponents(Values(splits, a.ipv6), a.ipv6);
  }

  /**
   * The loop of getIPAsBytes: each value is written into a zero-filled buffer in turn.
   * parseInt has no side effects, so the values are parsed before the loop.
   */
  method WriteComponents(values: seq<int>, v6: bool) returns (r: Result<Bytes>)
    ensures r == ValuesBytes(values, v6)
  {
    var bytes := new byte[if v6 then 16 else 4](_ => 0);
    for i := 0 to |values|
      invariant i <= Room(v6) && AllWritable(values[..i], v6)
      invariant bytes.Length == (if v6 then 16 else 4)
      invariant bytes[..] == Layout(values[..i], v6)
    {
      var value := values[i];
      if value < 0 || value >= Limit(v6) || i >= Room(v6) {
        return Throw(RangeError);
      }
      assert values[..i + 1] == values[..i] + [value];
      LayoutSnoc(values[..i], value, v6);
      if v6 {
        bytes[2 * i] := (value / 256) as byte;
        bytes[2 * i + 1] := (value % 256) as byte;
      } else {
        bytes[i] := value as byte;
      }
    }
    assert values[..|values|] == values;
    return Ok(bytes[..]);
  }

  /** Writing one more value changes exactly its own bytes of the buffer. */
  lemma LayoutSnoc(vs: seq<int>, v: int, v6: bool)
    requires |vs| < Room(v6) && AllWritable(vs, v6) && Writable(v, v6)
    ensures AllWritable(vs + [v], v6)
    ensures var n := |vs|;
      Layout(vs + [v], v6) ==
        if v6 then Layout(vs, v6)[2 * n := (v / 256) as byte][2 * n + 1 := (v % 256) as byte]
        else Layout(vs, v6)[n := v as byte]
  {
    var ws := vs + [v];
    assert ws[..|ws| - 1] == vs;
    assert forall i :: 0 <= i < |vs| ==> ws[i] == vs[i];
    var w := Written(vs, v6);
    var c := ValueBytes(v, v6);
    assert Written(ws, v6) == w + c;
    var size := if v6 then 16 else 4;
    var before := Layout(vs, v6);
    var after := Layout(ws, v6);
    var updated := if v6 then before[|w| := c[0]][|w| + 1 := c[1]] else before[|w| := c[0]];
    forall i | 0 <= i < size
      ensures after[i] == updated[i]
    {
      if i < |w| {
        assert after[i] == w[i] == before[i];
      } else if i < |w| + |c| {
        assert after[i] == c[i - |w|];
      } else {
        assert after[i] == 0 == before[i];
      }
    }
  }

  // ---- getIPFromBytes ----

  /** The decimal text of each byte. */
  function DecimalParts(b: Bytes): (ps: seq<string>)
    ensures |ps| == |b| && forall i :: 0 <= i < |b| ==> ps[i] == NatToDec(b[i] as nat)
  {
    seq(|b|, i requires 0 <= i < |b| => NatToDec(b[i] as nat))
  }

  /**
   * getIPFromBytes(bytes). Four bytes are joined in decimal with "."; for any other length
   * the 16-byte branch reads the undeclared `retIp` and throws a ReferenceError, or a
   * RangeError first when fewer than two bytes are there to read.
   */
  function GetIPFromBytes(b: Bytes): (r: Result<string>)
    ensures r.Ok? <==> |b| == 4
    ensures r.Ok? ==> Split(r.value, ".") == DecimalParts(b)
  {
    if |b| == 4 then
      DecimalPartsSplit(b);
      Ok(Join(DecimalParts(b), "."))
    else if |b| < 2 then Throw(RangeError)
    else Throw(ReferenceError)
  }

  lemma DecimalPartsSplit(b: Bytes)
    requires |b| >= 1
    ensures Split(Join(DecimalParts(b), "."), ".") == DecimalParts(b)
  {
    var ps := DecimalParts(b);
    forall i | 0 <= i < |ps| ensures '.' !in ps[i] {
      NoCharInDec(b[i] as nat, '.');
    }
    SplitJoin(ps, '.');
  }

  // ---- properties ----

  /** Text of four byte values turns back into those four bytes. */
  lemma IPv4RoundTrip(b: Bytes)
    requires |b| == 4
    ensures IPAsBytes(GetIPFromBytes(b).value) == Ok(b)
  {
    var ps := DecimalParts(b);
    var s := GetIPFromBytes(b).value;
    DottedDecimal(b);
    IPv4Text(s, ps);
    DecimalBytes(b);
  }

  /** Writing the parsed decimal parts of four bytes gives the four bytes. */
  lemma DecimalBytes(b: Bytes)
    requires |b| == 4
    ensures ValuesBytes(Values(DecimalParts(b), false), false) == Ok(b)
  {
    var vs := Values(DecimalParts(b), false);
    DecimalValues(b);
    LayoutValues(vs, false);
    assert Layout(vs, false) == b;
  }

  /** Text with a "." and no ":" is read as IPv4: its "."-separated parts are parsed in decimal. */
  lemma IPv4Text(s: string, parts: seq<string>)
    requires ':' !in s && '.' in s && Split(s, ".") == parts
    ensures IPAsBytes(s) == ValuesBytes(Values(parts, false), false)
  {
  }

  /** The dotted decimal text of bytes has a "." and no ":". */
  lemma DottedDecimal(b: Bytes)
    requires |b| >= 2
    ensures ':' !in Join(DecimalParts(b), ".") && '.' in Join(DecimalParts(b), ".")
  {
    var ps := DecimalParts(b);
    forall i | 0 <= i < |ps| ensures ':' !in ps[i] {
      NoCharInDec(b[i] as nat, ':');
    }
    NotInJoin(ps, ':', ".");
    var s := Join(ps, ".");
    assert s == ps[0] + "." + Join(ps[1..], ".");
    assert s[|ps[0]|] == '.';
  }

  /** parseInt reads each decimal part back as its byte. */
  lemma DecimalValues(b: Bytes)
    ensures forall i :: 0 <= i < |b| ==> Values(DecimalParts(b), false)[i] == b[i] as int
  {
    forall i | 0 <= i < |b| ensures Values(DecimalParts(b), false)[i] == b[i] as int {
      ParseIntNatToDec(b[i] as nat);
    }
  }

  /** Four bytes read back as a dotted quad. */
  lemma BytesQuad(a: byte, b: byte, c: byte, d: byte)
    ensures GetIPFromBytes([a, b, c, d]) == Ok(Quad(a as nat, b as nat, c as nat, d as nat))
  {
    var bs: Bytes := [a, b, c, d];
    assert DecimalParts(bs) == [NatToDec(a as nat), NatToDec(b as nat), NatToDec(c as nat), NatToDec(d as nat)];
  }

  /** The dotted text a.b.c.d of four bytes is what getIPFromBytes writes and what getIPAsBytes reads. */
  lemma QuadBytes(a: byte, b: byte, c: byte, d: byte)
    ensures GetIPFromBytes([a, b, c, d]) == Ok(Quad(a as nat, b as nat, c as nat, d as nat))
    ensures IPAsBytes(Quad(a as nat, b as nat, c as nat, d as nat)) == Ok([a, b, c, d])
  {
    var bs: Bytes := [a, b, c, d];
    assert DecimalParts(bs) == [NatToDec(a as nat), NatToDec(b as nat), NatToDec(c as nat), NatToDec(d as nat)];
    IPv4RoundTrip(bs);
  }

  /** Dotted text of four byte values is read as IPv4 and kept as it is. */
  lemma QuadAnalyzed(a: byte, b: byte, c: byte, d: byte)
    ensures var q := Quad(a as nat, b as nat, c as nat, d as nat);
      AnalyzeIPAddr(q) == Analyzed(q, false)
  {
    var bs: Bytes := [a, b, c, d];
    assert DecimalParts(bs) == [NatToDec(a as nat), NatToDec(b as nat), NatToDec(c as nat), NatToDec(d as nat)];
    DottedDecimal(bs);
  }

  /** An IPv4-mapped IPv6 address is read as the IPv4 address it carries. */
  lemma MappedIPv4(q: string)
    requires '.' in q && ':' !in q
    ensures AnalyzeIPAddr("::ffff:" + q) == Analyzed(q, false)
  {
    var s := "::ffff:" + q;
    assert s[..7] == "::ffff:";
    assert s[2..6] == s[..7][2..6] == "ffff";
    assert s[0] == ':' && s[1] == ':';
    assert OccursAt(s, "ffff", 2) && !OccursAt(s, "ffff", 0) && !OccursAt(s, "ffff", 1);
    assert IndexOf(s, "ffff") == 2 by {
      assert IndexOfFrom(s, "ffff", 0) == IndexOfFrom(s, "ffff", 1) == IndexOfFrom(s, "ffff", 2);
    }
    LastMapped(s, q);
    ContainsChar(s, ':');
    ContainsChar(s, '.');
    assert s[7..] == q;
  }

  /** getIPAsBytes of an IPv4-mapped IPv6 address writes the four bytes of the IPv4 address. */
  lemma MappedQuadBytes(a: byte, b: byte, c: byte, d: byte)
    ensures IPAsBytes("::ffff:" + Quad(a as nat, b as nat, c as nat, d as nat)) == Ok([a, b, c, d])
  {
    var bs: Bytes := [a, b, c, d];
    var q := Quad(a as nat, b as nat, c as nat, d as nat);
    assert DecimalParts(bs) == [NatToDec(a as nat), NatToDec(b as nat), NatToDec(c as nat), NatToDec(d as nat)];
    DottedDecimal(bs);
    MappedIPv4(q);
    DecimalPartsSplit(bs);
    MappedText("::ffff:" + q, q, DecimalParts(bs));
    DecimalBytes(bs);
  }

  /** The parts getIPAsBytes parses for an address read as IPv4 are those of its IPv4 part. */
  lemma MappedText(s: string, q: string, parts: seq<string>)
    requires AnalyzeIPAddr(s) == Analyzed(q, false) && Split(q, ".") == parts
    ensures IPAsBytes(s) == ValuesBytes(Values(parts, false), false)
  {
  }

  /** In ::ffff:q with no ":" in q, the last "ffff:" starts at index 2. */
  lemma LastMapped(s: string, q: string)
    requires s == "::ffff:" + q && ':' !in q
    ensures LastIndexOf(s, "ffff:") == 2
  {
    assert OccursAt(s, "ffff:", 2);
    forall j | 2 < j <= |s| - 5 ensures !OccursAt(s, "ffff:", j) {
      assert s[j + 4] == q[j - 3];
    }
  }

  /** Eight groups written out in full give each group's hex value as two big-endian bytes. */
  lemma IPv6Uncompressed(gs: seq<string>)
    requires |gs| == 8 && GroupList(gs)
    ensures IPAsBytes(Join(gs, ":")) == ValuesBytes(Values(PadAll(gs), true), true)
  {
    JoinText(gs);
    ContainsChar(Join(gs, ":"), '.');
    ExpandUncompressed(gs);
    SplitPadded(gs);
  }

  /** A compressed address gives the groups on each side, with zero bytes for the missing groups between. */
  lemma IPv6Compressed(xs: seq<string>, ys: seq<string>)
    requires GroupList(xs) && GroupList(ys) && |xs| + |ys| <= 8
    ensures IPAsBytes(Join(xs, ":") + "::" + Join(ys, ":"))
      == ValuesBytes(Values(PadAll(FilledGroups(xs, ys)), true), true)
  {
    var a := Join(xs, ":") + "::" + Join(ys, ":");
    var gs := FilledGroups(xs, ys);
    CompressedFacts(xs, ys, a, gs);
    ExpandedBytes(a, gs);
  }

  /** An IPv6 group as hex text: at most four hex digits (the empty side of "::" included). */
  predicate HexGroup(g: string) {
    |g| <= GROUP_SIZE && forall i :: 0 <= i < |g| ==> DigitValue(g[i], 16) >= 0
  }

  /**
   * getIPAsBytes of eight groups of one to four hex digits succeeds, and bytes 2i and
   * 2i + 1 hold group i's hex value, big-endian.
   */
  lemma IPv6UncompressedBytes(gs: seq<string>)
    requires |gs| == 8 && forall i :: 0 <= i < 8 ==> gs[i] != "" && HexGroup(gs[i])
    ensures var r := IPAsBytes(Join(gs, ":"));
      r.Ok? && |r.value| == 16
      && forall i :: 0 <= i < 8 ==> r.value[2 * i] as int * 256 + r.value[2 * i + 1] as int == DigitsValue(gs[i], 16)
  {
    forall i | 0 <= i < 8 ensures IsGroup(gs[i]) {
      HexGroupIsGroup(gs[i]);
    }
    IPv6Uncompressed(gs);
    HexGroupsBytes(gs);
  }

  /**
   * getIPAsBytes of x::y, where every group has at most four hex digits, succeeds: the
   * groups of x come first, the groups of y last, and the bytes between are 0.
   */
  lemma IPv6CompressedBytes(xs: seq<string>, ys: seq<string>)
    requires GroupList(xs) && GroupList(ys) && |xs| + |ys| <= 8
    requires (forall i :: 0 <= i < |xs| ==> HexGroup(xs[i])) && forall j :: 0 <= j < |ys| ==> HexGroup(ys[j])
    ensures var r := IPAsBytes(Join(xs, ":") + "::" + Join(ys, ":"));
      r.Ok? && |r.value| == 16
      && (forall i :: 0 <= i < |xs| ==> r.value[2 * i] as int * 256 + r.value[2 * i + 1] as int == DigitsValue(xs[i], 16))
      && (forall i :: |xs| <= i < 8 - |ys| ==> r.value[2 * i] == 0 && r.value[2 * i + 1] == 0)
      && forall j :: 0 <= j < |ys| ==>
           r.value[2 * (8 - |ys| + j)] as int * 256 + r.value[2 * (8 - |ys| + j) + 1] as int == DigitsValue(ys[j], 16)
  {
    IPv6Compressed(xs, ys);
    FilledGroupsBytes(xs, ys);
  }

  /** The bytes of the eight groups x::y stands for. */
  lemma FilledGroupsBytes(xs: seq<string>, ys: seq<string>)
    requires |xs| + |ys| <= 8
    requires (forall i :: 0 <= i < |xs| ==> HexGroup(xs[i])) && forall j :: 0 <= j < |ys| ==> HexGroup(ys[j])
    ensures var r := ValuesBytes(Values(PadAll(FilledGroups(xs, ys)), true), true);
      r.Ok? && |r.value| == 16
      && (forall i :: 0 <= i < |xs| ==> r.value[2 * i] as int * 256 + r.value[2 * i + 1] as int == DigitsValue(xs[i], 16))
      && (forall i :: |xs| <= i < 8 - |ys| ==> r.value[2 * i] == 0 && r.value[2 * i + 1] == 0)
      && forall j :: 0 <= j < |ys| ==>
           r.value[2 * (8 - |ys| + j)] as int * 256 + r.value[2 * (8 - |ys| + j) + 1] as int == DigitsValue(ys[j], 16)
  {
    var gs := FilledGroups(xs, ys);
    FilledGroupsHex(xs, ys);
    HexGroupsBytes(gs);
    SplicedBytes(xs, ys, gs, ValuesBytes(Values(PadAll(gs), true), true).value);
  }

  /** Sixteen bytes holding the values of x's groups, zero groups and y's groups. */
  lemma SplicedBytes(xs: seq<string>, ys: seq<string>, gs: seq<string>, b: Bytes)
    requires |xs| + |ys| <= 8 && |gs| == 8 && |b| == 16
    requires forall i :: 0 <= i < 8 ==> b[2 * i] as int * 256 + b[2 * i + 1] as int == DigitsValue(gs[i], 16)
    requires (forall i :: 0 <= i < |xs| ==> gs[i] == xs[i])
      && (forall i :: |xs| <= i < 8 - |ys| ==> DigitsValue(gs[i], 16) == 0)
      && forall i :: 8 - |ys| <= i < 8 ==> gs[i] == ys[i - (8 - |ys|)]
    ensures forall i :: 0 <= i < |xs| ==> b[2 * i] as int * 256 + b[2 * i + 1] as int == DigitsValue(xs[i], 16)
    ensures forall i :: |xs| <= i < 8 - |ys| ==> b[2 * i] == 0 && b[2 * i + 1] == 0
    ensures forall j :: 0 <= j < |ys| ==>
      b[2 * (8 - |ys| + j)] as int * 256 + b[2 * (8 - |ys| + j) + 1] as int == DigitsValue(ys[j], 16)
  {
    var m := 8 - |ys|;
    forall i | |xs| <= i < m ensures b[2 * i] == 0 && b[2 * i + 1] == 0 {
      ZeroPair(b[2 * i], b[2 * i + 1]);
    }
    forall j | 0 <= j < |ys|
      ensures b[2 * (m + j)] as int * 256 + b[2 * (m + j) + 1] as int == DigitsValue(ys[j], 16)
    {
      assert gs[m + j] == ys[j];
    }
  }

  /** The groups x::y stands for are hex groups: those of x, groups of value 0, those of y. */
  lemma FilledGroupsHex(xs: seq<string>, ys: seq<string>)
    requires |xs| + |ys| <= 8
    requires (forall i :: 0 <= i < |xs| ==> HexGroup(xs[i])) && forall j :: 0 <= j < |ys| ==> HexGroup(ys[j])
    ensures var gs := FilledGroups(xs, ys);
      (forall i :: 0 <= i < 8 ==> HexGroup(gs[i]))
      && (forall i :: 0 <= i < |xs| ==> gs[i] == xs[i])
      && (forall i :: |xs| <= i < 8 - |ys| ==> DigitsValue(gs[i], 16) == 0)
      && forall i :: 8 - |ys| <= i < 8 ==> gs[i] == ys[i - (8 - |ys|)]
  {
    var gs := FilledGroups(xs, ys);
    var m := 8 - |ys|;
    forall i | 0 <= i < 8
      ensures HexGroup(gs[i])
      ensures i < |xs| ==> gs[i] == xs[i]
      ensures |xs| <= i < m ==> DigitsValue(gs[i], 16) == 0
      ensures m <= i ==> gs[i] == ys[i - m]
    {
      if i >= m {
        assert gs[i] == ys[i - m];
      } else if i >= |xs| {
        assert gs[i] == "0000";
        ZerosValue(gs[i], 16);
      }
    }
  }

  /** Eight hex groups, padded and parsed, are written without a RangeError, each into its own two bytes. */
  lemma HexGroupsBytes(gs: seq<string>)
    requires |gs| == 8 && forall i :: 0 <= i < 8 ==> HexGroup(gs[i])
    ensures var r := ValuesBytes(Values(PadAll(gs), true), true);
      r.Ok? && |r.value| == 16
      && forall i :: 0 <= i < 8 ==> r.value[2 * i] as int * 256 + r.value[2 * i + 1] as int == DigitsValue(gs[i], 16)
  {
    var vs := Values(PadAll(gs), true);
    forall i | 0 <= i < 8 ensures vs[i] == DigitsValue(gs[i], 16) && Writable(vs[i], true) {
      PaddedGroupValue(gs[i]);
    }
    LayoutIPv6(vs);
  }

  /** parseInt(padded group, 16) is the group's hex value, which fits 16 bits. */
  lemma PaddedGroupValue(g: string)
    requires HexGroup(g)
    ensures ComponentValue(Pad(g), true) == DigitsValue(g, 16) < 65536
  {
    var p := Pad(g);
    var z := p[..|p| - |g|];
    assert p == z + g;
    LeadingZerosValue(z, g, 16);
    DigitsValueBound(g, 16, GROUP_SIZE);
    assert RadixPower(16, GROUP_SIZE) == 65536;
    forall i | 0 <= i < |p| ensures DigitValue(p[i], 16) >= 0 {
      if i >= |z| {
        assert p[i] == g[i - |z|];
      }
    }
    ParseHex(p);
  }

  lemma ZeroPair(hi: byte, lo: byte)
    requires hi as int * 256 + lo as int == 0
    ensures hi == 0 && lo == 0
  {
  }

  /** parseInt(p, 16) of two or more hex digits is their value. */
  lemma ParseHex(p: string)
    requires |p| >= 2 && forall i :: 0 <= i < |p| ==> DigitValue(p[i], 16) >= 0
    ensures ParseInt(p, 16) == Some(DigitsValue(p, 16))
  {
    HexDigitChar(p[0]);
    HexDigitChar(p[1]);
    assert TrimStart(p) == p;
    DigitRunAll(p, 16);
    assert p[..|p|] == p;
  }

  /** A hex digit is no whitespace, no sign and no "x" of a 0x prefix. */
  lemma HexDigitChar(ch: char)
    requires DigitValue(ch, 16) >= 0
    ensures !IsJsSpace(ch) && ch != '-' && ch != '+' && ch != 'x' && ch != 'X'
  {
  }

  /** Hex digits are neither ":" nor ".". */
  lemma HexGroupIsGroup(g: string)
    requires HexGroup(g)
    ensures IsGroup(g)
  {
    assert DigitValue(':', 16) < 0 && DigitValue('.', 16) < 0;
  }

  lemma CompressedFacts(xs: seq<string>, ys: seq<string>, a: string, gs: seq<string>)
    requires GroupList(xs) && GroupList(ys) && |xs| + |ys| <= 8
    requires a == Join(xs, ":") + "::" + Join(ys, ":") && gs == FilledGroups(xs, ys)
    ensures AnalyzeIPAddr(a) == Analyzed(a, true) && Expand(a) == Ok(Join(PadAll(gs), ":"))
    ensures Split(Join(PadAll(gs), ":"), ":") == PadAll(gs)
  {
    CompressedNoColon(xs, ys, gs);
    SplitPadded(gs);
    ExpandCompressed(xs, ys);
    CompressedAnalyzed(xs, ys, a);
  }

  /** An address read as IPv6 whose expansion is the given padded groups. */
  lemma ExpandedBytes(a: string, gs: seq<string>)
    requires AnalyzeIPAddr(a) == Analyzed(a, true) && Expand(a) == Ok(Join(PadAll(gs), ":"))
    requires Split(Join(PadAll(gs), ":"), ":") == PadAll(gs)
    ensures IPAsBytes(a) == ValuesBytes(Values(PadAll(gs), true), true)
  {
  }

  /** A compressed address holds no "." and so is read as IPv6, unchanged. */
  lemma CompressedAnalyzed(xs: seq<string>, ys: seq<string>, a: string)
    requires GroupList(xs) && GroupList(ys) && a == Join(xs, ":") + "::" + Join(ys, ":")
    ensures AnalyzeIPAddr(a) == Analyzed(a, true)
  {
    JoinText(xs);
    JoinText(ys);
    assert '.' !in a;
  }

  /** No group of a compressed address's full group list holds ":". */
  lemma CompressedNoColon(xs: seq<string>, ys: seq<string>, gs: seq<string>)
    requires GroupList(xs) && GroupList(ys) && |xs| + |ys| <= 8
    requires gs == FilledGroups(xs, ys)
    ensures |gs| == 8 && forall i :: 0 <= i < |gs| ==> ':' !in gs[i]
  {
    forall i | 0 <= i < |gs| ensures ':' !in gs[i] {
      if i >= 8 - |ys| {
        assert gs[i] == ys[i - (8 - |ys|)];
      } else if i >= |xs| {
        assert gs[i] == "0000";
      }
    }
  }

  /** The padded groups of an expanded address come back from splitting it on ":". */
  lemma SplitPadded(gs: seq<string>)
    requires |gs| >= 1 && forall i :: 0 <= i < |gs| ==> ':' !in gs[i]
    ensures Split(Join(PadAll(gs), ":"), ":") == PadAll(gs)
  {
    var ps := PadAll(gs);
    assert forall i :: 0 <= i < |ps| ==> ':' !in ps[i];
    SplitJoin(ps, ':');
  }

  /** Each IPv6 value lands big-endian in its two bytes; the bytes of missing groups stay 0. */
  lemma LayoutIPv6(vs: seq<int>)
    requires |vs| <= 8 && AllWritable(vs, true)
    ensures var b := Layout(vs, true);
      (forall i :: 0 <= i < |vs| ==> b[2 * i] as int * 256 + b[2 * i + 1] as int == vs[i])
      && forall k :: 2 * |vs| <= k < 16 ==> b[k] == 0
  {
    forall i | 0 <= i < |vs|
      ensures Written(vs, true)[2 * i] as int * 256 + Written(vs, true)[2 * i + 1] as int == vs[i]
    {
      WrittenAt(vs, i, true);
    }
  }

  /** Each IPv4 value lands in its own byte. */
  lemma LayoutValues(vs: seq<int>, v6: bool)
    requires !v6 && |vs| <= 4 && AllWritable(vs, v6)
    ensures forall i :: 0 <= i < |vs| ==> Layout(vs, v6)[i] as int == vs[i]
    ensures |vs| == 4 ==> Layout(vs, v6) == seq(4, i requires 0 <= i < 4 => vs[i] as byte)
  {
    forall i | 0 <= i < |vs| ensures Written(vs, v6)[i] as int == vs[i] {
      WrittenAt(vs, i, v6);
    }
  }

  /** The bytes of value i start at offset i (IPv4) or 2i (IPv6). */
  lemma {:induction false} WrittenAt(vs: seq<int>, i: nat, v6: bool)
    requires AllWritable(vs, v6) && i < |vs|
    ensures var w := Written(vs, v6);
      if v6 then w[2 * i] as int * 256 + w[2 * i + 1] as int == vs[i] else w[i] as int == vs[i]
    decreases |vs|
  {
    var init := vs[..|vs| - 1];
    assert AllWritable(init, v6) by {
      assert forall j :: 0 <= j < |init| ==> init[j] == vs[j];
    }
    if i < |init| {
      WrittenAt(init, i, v6);
      assert init[i] == vs[i];
    }
  }

  /** Text made of parts free of c, joined by a separator free of c, is free of c. */
  lemma {:induction false} NotInJoin(parts: seq<string>, c: char, sep: string)
    requires c !in sep && forall i :: 0 <= i < |parts| ==> c !in parts[i]
    ensures c !in Join(parts, sep)
    decreases |parts|
  {
    if |parts| > 1 {
      NotInJoin(parts[1..], c, sep);
    }
  }
}
