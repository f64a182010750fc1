/**
 * The firewall of lib/firewall.js: a list of allowed address ranges, each an address
 * and a mask, against which the remote address of every incoming client is checked.
 */
module Firewall {
  import opened JsBase
  import opened JsText
  import opened JsBuffer
  import opened DottedQuad
  import opened Utils

  const TWO_31: int := 0x8000_0000
  const TWO_32: int := 0x1_0000_0000

  /** A mask as init stores it: the text after "/", or the default number. */
  datatype Mask = MaskText(text: string) | MaskNumber(n: int)

  /** One entry of conf.__ipChecks. */
  datatype IpCheck = IpCheck(ip: string, mask: Mask)

  /**
   * The check init builds from one entry of ipsAllowed: the address before the first "/",
   * and the non-empty text after it as the mask. Without one the default mask comes from
   * `ip.indexOf(":" != -1)`, which searches for the text "true" and so is falsy (mask 32)
   * only when the entry starts with "true", and truthy (mask 128) otherwise.
   */
  function IpCheckOf(entry: string): (c: IpCheck)
    ensures c.ip <= entry
    ensures c.mask.MaskText? ==> c.mask.text != ""
    ensures c.mask.MaskNumber? ==> c.mask.n == 32 || c.mask.n == 128
  {
    SplitFirst(entry, "/");
    var parts := Split(entry, "/");
    var mask :=
      if |parts| > 1 && parts[1] != "" then MaskText(parts[1])
      else MaskNumber(if IndexOf(entry, "true") == 0 then 32 else 128);
    IpCheck(parts[0], mask)
  }

  function IpChecks(entries: seq<string>): (cs: seq<IpCheck>)
    ensures |cs| == |entries| && forall i :: 0 <= i < |entries| ==> cs[i] == IpCheckOf(entries[i])
  {
    seq(|entries|, i requires 0 <= i < |entries| => IpCheckOf(entries[i]))
  }

  /** The mask as a number: text goes through Number(); None is NaN. */
  function MaskValue(m: Mask): Option<int> {
    match m
    case MaskText(t) => StringToNumber(t)
    case MaskNumber(n) => Some(n)
  }

  // ---- JavaScript shifts ----

  /** ToInt32 of an unsigned 32-bit value. */
  function ToInt32(x: nat): int
    requires x < TWO_32
  {
    if x < TWO_31 then x else x - TWO_32
  }

  /** The count `32 - mask` as `>>` uses it: ToUint32, then the low five bits; NaN counts 0. */
  function Int32ShiftCount(mask: Option<int>): (k: nat)
    ensures k < 32
  {
    match mask
    case None => 0
    case Some(m) => (32 - m) % 32
  }

  /** `x >> k` on a Number: arithmetic shift of ToInt32(x). */
  function Int32Shift(x: nat, k: nat): int
    requires x < TWO_32
  {
    ToInt32(x) / Pow2(k)
  }

  /** `x >> n` on BigInts: a negative count shifts left. */
  function BigIntShift(x: int, n: int): int {
    if n >= 0 then x / Pow2(n) else x * Pow2(-n)
  }

  /** BigInt(128 - mask): a RangeError for NaN. */
  function BigIntShiftCount(mask: Option<int>): Result<int> {
    match mask
    case None => Throw(RangeError)
    case Some(m) => Ok(128 - m)
  }

  /** buf.readUInt32BE(). */
  function ReadUInt32BE(b: Bytes): (r: Result<nat>)
    ensures r.Ok? ==> r.value < TWO_32
  {
    if |b| < 4 then Throw(RangeError)
    else
      assert Pow256(4) == TWO_32;
      Ok(BE(b[..4]))
  }

  /**
   * _getAs128BitInt(buffer): `hi << 64n || lo`, so the upper 64 bits shifted into place
   * when they are not all zero, and otherwise the lower 64 bits alone.
   */
  function As128BitInt(b: Bytes): (r: Result<nat>)
    ensures |b| >= 16 ==> r.Ok?
    ensures r.Ok? ==> r.value < TWO_64 * TWO_64
    ensures r.Ok? && r.value >= TWO_64 ==> r.value % TWO_64 == 0
  {
    if |b| < 8 then Throw(RangeError)
    else
      var hi := BE(b[..8]);
      assert Pow256(8) == TWO_64;
      if hi != 0 then Ok(hi * TWO_64)
      else if |b| < 16 then Throw(RangeError)
      else Ok(BE(b[8..16]))
  }

  /** The integer _checkAgainstThisIPRange compares for an address. */
  function AddressInt(a: Analyzed): Result<nat> {
    var bytes :- IPAsBytes(a.ip);
    if a.ipv6 then As128BitInt(bytes) else ReadUInt32BE(bytes)
  }

  /**
   * _checkAgainstThisIPRange(socket, ip, mask): addresses of different families never
   * match; otherwise both are turned into integers, the remote one first, and compared
   * after shifting out the bits below the mask.
   */
  function CheckRange(remote: string, check: IpCheck): (r: Result<bool>)
    ensures r == Ok(true) ==> AnalyzeIPAddr(remote).ipv6 == AnalyzeIPAddr(check.ip).ipv6
    ensures r == Ok(true) ==> IPAsBytes(AnalyzeIPAddr(remote).ip).Ok? && IPAsBytes(AnalyzeIPAddr(check.ip).ip).Ok?
  {
    var conf := AnalyzeIPAddr(check.ip);
    var peer := AnalyzeIPAddr(remote);
    if peer.ipv6 != conf.ipv6 then Ok(false)
    else
      var x :- AddressInt(peer);
      var y :- AddressInt(conf);
      if conf.ipv6 then
        var n :- BigIntShiftCount(MaskValue(check.mask));
        Ok(BigIntShift(x, n) == BigIntShift(y, n))
      else if x < TWO_32 && y < TWO_32 then
        var k := Int32ShiftCount(MaskValue(check.mask));
        Ok(Int32Shift(x, k) == Int32Shift(y, k))
      else assert false; Ok(false)
  }

  /** What each check says about the remote address. */
  function Outcomes(checks: seq<IpCheck>, remote: string): (rs: seq<Result<bool>>)
    ensures |rs| == |checks| && forall i :: 0 <= i < |checks| ==> rs[i] == CheckRange(remote, checks[i])
  {
    seq(|checks|, i requires 0 <= i < |checks| => CheckRange(remote, checks[i]))
  }

  /**
   * The loop of isAllowed over the outcomes of the checks in order: the first that
   * matches allows, the first that throws throws, and none matching denies.
   */
  function FirstMatch(rs: seq<Result<bool>>): (r: Result<bool>)
    decreases |rs|
    ensures r == Ok(true) ==> Ok(true) in rs
    ensures r.Throw? ==> Throw(r.error) in rs
  {
    if rs == [] then Ok(false)
    else
      var m :- rs[0];
      if m then Ok(true) else FirstMatch(rs[1..])
  }

  function AnyMatch(checks: seq<IpCheck>, remote: string): Result<bool> {
    FirstMatch(Outcomes(checks, remote))
  }

  /** isAllowed(socket) given conf.firewall and conf.__ipChecks. */
  function Allowed(enabled: bool, checks: seq<IpCheck>, remote: string): (r: Result<bool>)
    ensures !enabled ==> r == Ok(true)
    ensures enabled && checks == [] ==> r == Ok(false)
    ensures enabled && r == Ok(true) ==> exists i :: 0 <= i < |checks| && CheckRange(remote, checks[i]) == Ok(true)
  {
    if !enabled then Ok(true) else AnyMatch(checks, remote)
  }

  /** The module's configuration object as init leaves it. */
  class Firewall {
    /** conf.firewall, as a truth value. */
    var enabled: bool
    /** conf.__ipChecks. */
    var checks: seq<IpCheck>

    constructor(enabled: bool)
      ensures this.enabled == enabled && checks == []
    {
      this.enabled := enabled;
      checks := [];
    }

    /**
     * init(confObj). A missing ipsAllowed turns the firewall off and then makes the loop
     * over it throw a TypeError, after __ipChecks has been reset.
     */
    method Init(firewall: bool, ipsAllowed: Option<seq<string>>) returns (r: Result<bool>)
      modifies this
      ensures enabled == (firewall && ipsAllowed.Some?)
      ensures ipsAllowed.None? ==> r == Throw(TypeError) && checks == []
      ensures ipsAllowed.Some? ==> r == Ok(true) && checks == IpChecks(ipsAllowed.value)
    {
      enabled := firewall;
      if ipsAllowed.None? {
        enabled := false;
      }
      checks := [];
      if ipsAllowed.None? {
        return Throw(TypeError);
      }
      var entries := ipsAllowed.value;
      for i := 0 to |entries|
        invariant enabled == firewall && checks == IpChecks(entries[..i])
      {
        checks := checks + [IpCheckOf(entries[i])];
      }
      assert entries[..|entries|] == entries;
      return Ok(true);
    }

    /** isAllowed(socket) for a client whose remote address is `remote`. */
    method IsAllowed(remote: string) returns (r: Result<bool>)
      ensures r == Allowed(enabled, checks, remote)
    {
      if !enabled {
        return Ok(true);
      }
      ghost var rs := Outcomes(checks, remote);
      for i := 0 to |checks|
        invariant FirstMatch(rs[i..]) == AnyMatch(checks, remote)
      {
        assert rs[i..][1..] == rs[i + 1..];
        var m := CheckRange(remote, checks[i]);
        if m.Throw? {
          return Throw(m.error);
        }
        if m.value {
          return Ok(true);
        }
      }
      return Ok(false);
    }
  }

  // ---- properties ----

  /** An entry "ip/mask" keeps the address before "/" and the mask text after it. */
  lemma EntryWithMask(ip: string, m: string)
    requires '/' !in ip && '/' !in m && m != ""
    ensures IpCheckOf(ip + "/" + m) == IpCheck(ip, MaskText(m))
  {
    assert Join([ip, m], "/") == ip + "/" + m;
    SplitJoin([ip, m], '/');
  }

  /** An entry without "/" gets mask 128 unless it starts with "true". */
  lemma EntryWithoutMask(ip: string)
    requires '/' !in ip && !(|ip| >= 4 && ip[..4] == "true")
    ensures IpCheckOf(ip) == IpCheck(ip, MaskNumber(128))
  {
    SplitNoSeparator(ip, '/');
  }

  /** Shifting two unsigned 32-bit values as signed ones keeps equality of their high bits. */
  lemma Int32ShiftEq(x: nat, y: nat, k: nat)
    requires x < TWO_32 && y < TWO_32 && k < 32
    ensures Int32Shift(x, k) == Int32Shift(y, k) <==> x / Pow2(k) == y / Pow2(k)
  {
    ShiftPowers(k);
    QuotientsEq(x, y, Pow2(k), Pow2(32 - k), Pow2(31 - k));
  }

  /** 2^k * 2^(32-k) = 2^32 and 2^k * 2^(31-k) = 2^31. */
  lemma ShiftPowers(k: nat)
    requires k < 32
    ensures Pow2(k) * Pow2(32 - k) == TWO_32 && Pow2(k) * Pow2(31 - k) == TWO_31
    ensures Pow2(32 - k) == 2 * Pow2(31 - k)
  {
    Pow2Add(k, 32 - k);
    Pow2Add(k, 31 - k);
    Pow256IsPow2(4);
    assert Pow256(4) == TWO_32;
    Pow2Add(1, 31);
    assert Pow2(1) == 2;
  }

  lemma QuotientsEq(x: nat, y: nat, d: nat, e: nat, h: nat)
    requires x < TWO_32 && y < TWO_32 && d >= 1
    requires d * e == TWO_32 && d * h == TWO_31 && e == 2 * h
    ensures ToInt32(x) / d == ToInt32(y) / d <==> x / d == y / d
  {
    SignedQuotient(x, d, e);
    SignedQuotient(y, d, e);
    HalfQuotient(x, d, h);
    HalfQuotient(y, d, h);
    Below(x, d, e);
    Below(y, d, e);
  }

  /** The quotient of a 32-bit value by 2^k is below 2^(32-k). */
  lemma Below(x: nat, d: nat, e: nat)
    requires d >= 1 && d * e == TWO_32 && x < TWO_32
    ensures x / d < e
  {
    var q := x / d;
    assert q * d <= x;
    if q >= e {
      MulMono(e, q, d);
    }
  }

  /** Shifting the signed form of x is shifting x, less 2^(32-k) when the sign bit is set. */
  lemma SignedQuotient(x: nat, d: nat, e: nat)
    requires d >= 1 && d * e == TWO_32 && x < TWO_32
    ensures ToInt32(x) / d == if x < TWO_31 then x / d else x / d - e
  {
    if x >= TWO_31 {
      var q, r := x / d, x % d;
      assert x == q * d + r;
      assert x - TWO_32 == (q - e) * d + r;
      DivOfParts(x - TWO_32, d, q - e, r);
    }
  }

  /** Below 2^31 the quotient by 2^k stays below 2^(31-k); from 2^31 up it reaches it. */
  lemma HalfQuotient(x: nat, d: nat, h: nat)
    requires d >= 1 && d * h == TWO_31 && x < TWO_32
    ensures x < TWO_31 <==> x / d < h
  {
    var q, r := x / d, x % d;
    assert x == q * d + r && 0 <= r < d;
    if q >= h {
      MulMono(h, q, d);
    } else {
      MulMono(q, h - 1, d);
      assert (h - 1) * d == h * d - d;
    }
  }

  lemma MulMono(a: int, b: int, d: nat)
    requires a <= b
    ensures a * d <= b * d
  {
    assert b * d - a * d == (b - a) * d;
  }

  lemma DivOfParts(a: int, d: nat, q: int, r: int)
    requires d >= 1 && a == q * d + r && 0 <= r < d
    ensures a / d == q
  {
    var q', r' := a / d, a % d;
    assert a == q' * d + r' && 0 <= r' < d;
    assert (q - q') * d == r' - r;
    if q > q' {
      MulAtLeast(q - q', d);
    } else if q < q' {
      MulAtLeast(q' - q, d);
    }
  }

  lemma MulAtLeast(n: int, d: nat)
    requires n >= 1
    ensures n * d >= d
  {
  }

  /** An IPv4 range with a mask from 1 to 32 allows the addresses that agree in the top mask bits. */
  lemma IPv4Range(x: Bytes, y: Bytes, m: nat)
    requires |x| == 4 && |y| == 4 && 1 <= m <= 32
    ensures var k := 32 - m;
      CheckRange(QuadOf(x), IpCheck(QuadOf(y), MaskText(NatToDec(m))))
        == Ok(BE(x) / Pow2(k) == BE(y) / Pow2(k))
  {
    assert (32 - m) % 32 == 32 - m;
    StringToNumberNatToDec(m);
    IPv4Compare(x, y, MaskText(NatToDec(m)));
  }

  /** An IPv4 entry without a mask gets the default 128, which shifts by 0 bits: only the address itself matches. */
  lemma IPv4DefaultMask(x: Bytes, y: Bytes)
    requires |x| == 4 && |y| == 4
    ensures CheckRange(QuadOf(x), IpCheckOf(QuadOf(y))) == Ok(BE(x) == BE(y))
  {
    var q := QuadOf(y);
    QuadChars(y);
    assert !(|q| >= 4 && q[..4] == "true") by {
      assert q[0] != 't';
    }
    EntryWithoutMask(q);
    DefaultMaskCount();
    IPv4Exact(x, y, MaskNumber(128));
  }

  lemma DefaultMaskCount()
    ensures Int32ShiftCount(MaskValue(MaskNumber(128))) == 0
  {
    assert (32 - 128) % 32 == 0;
  }

  /** A mask of 0 on an IPv4 entry also shifts by 0 bits (32 wraps to 0), so it too matches one address only. */
  lemma IPv4MaskZero(x: Bytes, y: Bytes)
    requires |x| == 4 && |y| == 4
    ensures CheckRange(QuadOf(x), IpCheck(QuadOf(y), MaskText("0"))) == Ok(BE(x) == BE(y))
  {
    ZeroMaskCount();
    IPv4Exact(x, y, MaskText("0"));
  }

  lemma ZeroMaskCount()
    ensures Int32ShiftCount(MaskValue(MaskText("0"))) == 0
  {
    assert NatToDec(0) == "0";
    StringToNumberNatToDec(0);
    assert MaskValue(MaskText("0")) == Some(0);
  }

  /** A mask whose IPv4 shift count is 0 compares the whole address. */
  lemma IPv4Exact(x: Bytes, y: Bytes, mask: Mask)
    requires |x| == 4 && |y| == 4 && Int32ShiftCount(MaskValue(mask)) == 0
    ensures CheckRange(QuadOf(x), IpCheck(QuadOf(y), mask)) == Ok(BE(x) == BE(y))
  {
    var k := Int32ShiftCount(MaskValue(mask));
    assert Pow2(k) == 1;
    assert BE(x) / Pow2(k) == BE(x) && BE(y) / Pow2(k) == BE(y);
    IPv4Compare(x, y, mask);
  }

  /** Two dotted quads are compared as unsigned 32-bit integers shifted by the IPv4 count. */
  lemma IPv4Compare(x: Bytes, y: Bytes, mask: Mask)
    requires |x| == 4 && |y| == 4
    ensures var k := Int32ShiftCount(MaskValue(mask));
      BE(x) < TWO_32 && BE(y) < TWO_32 &&
      CheckRange(QuadOf(x), IpCheck(QuadOf(y), mask)) == Ok(BE(x) / Pow2(k) == BE(y) / Pow2(k))
  {
    QuadText(x);
    QuadText(y);
    assert Pow256(4) == TWO_32;
    CheckIPv4(QuadOf(x), IpCheck(QuadOf(y), mask), x, y);
    Int32ShiftEq(BE(x), BE(y), Int32ShiftCount(MaskValue(mask)));
  }

  /** Two IPv4 addresses are compared through readUInt32BE of their four bytes. */
  lemma CheckIPv4(remote: string, check: IpCheck, x: Bytes, y: Bytes)
    requires AnalyzeIPAddr(remote) == Analyzed(remote, false)
    requires AnalyzeIPAddr(check.ip) == Analyzed(check.ip, false)
    requires IPAsBytes(remote) == Ok(x) && IPAsBytes(check.ip) == Ok(y) && |x| == 4 && |y| == 4
    ensures BE(x) < TWO_32 && BE(y) < TWO_32
    ensures var k := Int32ShiftCount(MaskValue(check.mask));
      CheckRange(remote, check) == Ok(Int32Shift(BE(x), k) == Int32Shift(BE(y), k))
  {
    AddressIntV4(AnalyzeIPAddr(remote), x);
    AddressIntV4(AnalyzeIPAddr(check.ip), y);
  }

  /** An IPv4 address converts to the big-endian value of its four bytes. */
  lemma AddressIntV4(a: Analyzed, x: Bytes)
    requires !a.ipv6 && IPAsBytes(a.ip) == Ok(x) && |x| == 4
    ensures BE(x) < TWO_32 && AddressInt(a) == Ok(BE(x))
  {
    assert Pow256(4) == TWO_32;
    assert x[..4] == x;
  }

  /** The dotted text of four bytes. */
  function QuadOf(b: Bytes): string
    requires |b| == 4
  {
    Quad(b[0] as nat, b[1] as nat, b[2] as nat, b[3] as nat)
  }

  /** The dotted text of four bytes is read as IPv4 and turns back into the four bytes. */
  lemma QuadText(b: Bytes)
    requires |b| == 4
    ensures AnalyzeIPAddr(QuadOf(b)) == Analyzed(QuadOf(b), false)
    ensures IPAsBytes(QuadOf(b)) == Ok(b)
  {
    QuadAnalyzed(b[0], b[1], b[2], b[3]);
    QuadOfBytes(b);
  }

  lemma QuadOfBytes(b: Bytes)
    requires |b| == 4
    ensures IPAsBytes(QuadOf(b)) == Ok(b)
  {
    var x0, x1, x2, x3 := b[0], b[1], b[2], b[3];
    assert [x0, x1, x2, x3] == b;
    assert QuadOf(b) == Quad(x0 as nat, x1 as nat, x2 as nat, x3 as nat);
    QuadBytes(x0, x1, x2, x3);
  }

  /** The dotted text of four bytes starts with a digit and has no "/". */
  lemma QuadChars(b: Bytes)
    requires |b| == 4
    ensures QuadOf(b) != [] && '0' <= QuadOf(b)[0] <= '9' && '/' !in QuadOf(b)
  {
    var ps := [NatToDec(b[0] as nat), NatToDec(b[1] as nat), NatToDec(b[2] as nat), NatToDec(b[3] as nat)];
    forall i | 0 <= i < 4 ensures '/' !in ps[i] && '0' <= ps[i][0] <= '9' {
      NoCharInDec(b[i] as nat, '/');
      NatToDecDigits(b[i] as nat);
    }
    NotInJoin(ps, '/', ".");
    assert QuadOf(b) == ps[0] + "." + Join(ps[1..], ".");
  }

  /**
   * `hi << 64n || lo`: an IPv6 address whose upper 64 bits are not all zero is reduced to
   * them, so two such addresses with the same upper half match whatever the mask.
   */
  lemma IPv6UpperHalf(remote: string, check: IpCheck, b: Bytes, c: Bytes, m: int)
    requires AnalyzeIPAddr(remote).ipv6 && AnalyzeIPAddr(check.ip).ipv6
    requires IPAsBytes(remote) == Ok(b) && IPAsBytes(check.ip) == Ok(c)
    requires b[..8] == c[..8] && BE(b[..8]) != 0 && MaskValue(check.mask) == Some(m)
    ensures CheckRange(remote, check) == Ok(true)
  {
  }

  /** An IPv6 mask that is not a number makes BigInt throw a RangeError. */
  lemma IPv6MaskNaN(remote: string, check: IpCheck)
    requires AnalyzeIPAddr(remote).ipv6 && AnalyzeIPAddr(check.ip).ipv6
    requires AddressInt(AnalyzeIPAddr(remote)).Ok? && AddressInt(AnalyzeIPAddr(check.ip)).Ok?
    requires MaskValue(check.mask).None?
    ensures CheckRange(remote, check) == Throw(RangeError)
  {
  }

  /** A peer is never matched against a rule of the other family. */
  lemma OtherFamily(remote: string, check: IpCheck)
    requires AnalyzeIPAddr(remote).ipv6 != AnalyzeIPAddr(check.ip).ipv6
    ensures CheckRange(remote, check) == Ok(false)
  {
  }

  /** An IPv4-mapped IPv6 peer counts as IPv4: no IPv6 rule matches it. */
  lemma MappedPeerNotIPv6(q: string, check: IpCheck)
    requires '.' in q && ':' !in q && AnalyzeIPAddr(check.ip).ipv6
    ensures CheckRange("::ffff:" + q, check) == Ok(false)
  {
    MappedIPv4(q);
  }

  /**
   * isAllowed with checks that all run without throwing: true when the firewall is off,
   * otherwise exactly when some check matches, so an empty list denies everyone.
   */
  lemma AllowedAnswer(enabled: bool, checks: seq<IpCheck>, remote: string)
    requires forall i :: 0 <= i < |checks| ==> CheckRange(remote, checks[i]).Ok?
    ensures Allowed(enabled, checks, remote)
         == Ok(!enabled || exists i :: 0 <= i < |checks| && CheckRange(remote, checks[i]) == Ok(true))
  {
    if enabled {
      FirstMatchNoThrow(Outcomes(checks, remote));
    }
  }

  /**
   * isAllowed allows a client exactly when some check matches and every check before it
   * ran without throwing and did not match.
   */
  lemma {:induction false} FirstMatchTrue(rs: seq<Result<bool>>)
    decreases |rs|
    ensures FirstMatch(rs) == Ok(true) <==>
      exists i :: 0 <= i < |rs| && rs[i] == Ok(true) && forall j :: 0 <= j < i ==> rs[j] == Ok(false)
  {
    if rs != [] {
      FirstMatchTrue(rs[1..]);
      if FirstMatch(rs) == Ok(true) && rs[0] != Ok(true) {
        var i :| 0 <= i < |rs[1..]| && rs[1..][i] == Ok(true) && forall j :: 0 <= j < i ==> rs[1..][j] == Ok(false);
        assert rs[i + 1] == Ok(true);
        assert forall j :: 0 <= j < i + 1 ==> rs[j] == Ok(false) by {
          forall j | 0 <= j < i + 1 ensures rs[j] == Ok(false) {
            if j > 0 {
              assert rs[j] == rs[1..][j - 1];
            }
          }
        }
      }
      if exists i :: 0 <= i < |rs| && rs[i] == Ok(true) && forall j :: 0 <= j < i ==> rs[j] == Ok(false) {
        var i :| 0 <= i < |rs| && rs[i] == Ok(true) && forall j :: 0 <= j < i ==> rs[j] == Ok(false);
        if i > 0 {
          assert rs[1..][i - 1] == Ok(true);
          assert forall j :: 0 <= j < i - 1 ==> rs[1..][j] == Ok(false);
        }
      }
    }
  }

  /** The first check that throws, with none matching before it, makes isAllowed throw the same error. */
  lemma {:induction false} FirstMatchThrow(rs: seq<Result<bool>>, i: nat)
    requires i < |rs| && rs[i].Throw? && forall j :: 0 <= j < i ==> rs[j] == Ok(false)
    decreases i
    ensures FirstMatch(rs) == rs[i]
  {
    if i > 0 {
      assert forall j :: 0 <= j < i - 1 ==> rs[1..][j] == rs[j + 1];
      FirstMatchThrow(rs[1..], i - 1);
    }
  }

  /** With no check that throws, isAllowed answers whether any check matches. */
  lemma {:induction false} FirstMatchNoThrow(rs: seq<Result<bool>>)
    requires forall i :: 0 <= i < |rs| ==> rs[i].Ok?
    decreases |rs|
    ensures FirstMatch(rs) == Ok(exists i :: 0 <= i < |rs| && rs[i] == Ok(true))
  {
    if rs != [] {
      assert forall i :: 0 <= i < |rs[1..]| ==> rs[1..][i] == rs[i + 1];
      FirstMatchNoThrow(rs[1..]);
      if exists i :: 0 <= i < |rs| && rs[i] == Ok(true) {
        var i :| 0 <= i < |rs| && rs[i] == Ok(true);
        if i > 0 {
          assert rs[1..][i - 1] == Ok(true);
        }
      }
    }
  }
}
