/**
 * The two regular expressions expandIPv6Address (lib/utils.js) applies to find an IPv4
 * address embedded in IPv6 text, written out as the searches a backtracking regular
 * expression engine performs on them:
 *
 *   validateIpv4  ((25[0-5]|2[0-4]\d|1\d\d|[1-9]?\d)(\.(25[0-5]|2[0-4]\d|1\d\d|[1-9]?\d)){3})
 *   extractIpv4   ([0-9]{1,3})\.([0-9]{1,3})\.([0-9]{1,3})\.([0-9]{1,3})
 *
 * and the rewrite that replaces the first match of extractIpv4 by two hex groups.
 */
module DottedQuad {
  import opened JsBase
  import opened JsText

  predicate IsDigit(ch: char) {
    '0' <= ch <= '9'
  }

  predicate AllDigits(t: string) {
    forall i :: 0 <= i < |t| ==> IsDigit(t[i])
  }

  // ---- validateIpv4.test ----

  /** The alternatives 25[0-5] | 2[0-4]\d | 1\d\d | [1-9]?\d: a decimal 0..255 without a leading zero. */
  predicate IsOctet(t: string) {
    (|t| == 1 && IsDigit(t[0]))
    || (|t| == 2 && '1' <= t[0] <= '9' && IsDigit(t[1]))
    || (|t| == 3 && t[0] == '1' && IsDigit(t[1]) && IsDigit(t[2]))
    || (|t| == 3 && t[0] == '2' && '0' <= t[1] <= '4' && IsDigit(t[2]))
    || (|t| == 3 && t[0] == '2' && t[1] == '5' && '0' <= t[2] <= '5')
  }

  /** Some way of matching `count` dot-separated octets starts at p. */
  predicate OctetsAt(s: string, p: nat, count: nat)
    requires count >= 1
    decreases count, 1
  {
    OctetThen(s, p, 1, count) || OctetThen(s, p, 2, count) || OctetThen(s, p, 3, count)
  }

  /** An octet of n characters at p, then (unless it is the last) a dot and the remaining octets. */
  predicate OctetThen(s: string, p: nat, n: nat, count: nat)
    requires count >= 1
    decreases count, 0
  {
    p + n <= |s| && IsOctet(s[p..p + n]) &&
    (count == 1 || (p + n < |s| && s[p + n] == '.' && OctetsAt(s, p + n + 1, count - 1)))
  }

  /** validateIpv4.test(s): the pattern matches somewhere in s. */
  predicate HasDottedQuad(s: string) {
    exists p :: 0 <= p <= |s| && OctetsAt(s, p, 4)
  }

  /** Text without a dot holds no dotted quad. */
  lemma NoQuadWithoutDot(s: string)
    requires '.' !in s
    ensures !HasDottedQuad(s)
  {
    forall p | 0 <= p <= |s| ensures !OctetsAt(s, p, 4) {
    }
  }

  // ---- s.match(extractIpv4) ----

  datatype QuadMatch = QuadMatch(start: nat, end: nat, groups: seq<string>)

  /** The length of the run of decimal digits starting at p. */
  function RunAt(s: string, p: nat): (n: nat)
    requires p <= |s|
    decreases |s| - p
    ensures p + n <= |s|
  {
    if p < |s| && IsDigit(s[p]) then 1 + RunAt(s, p + 1) else 0
  }

  /**
   * ([0-9]{1,3})\. at p. The dot is not a digit, so the group must take the whole digit
   * run, and the run must be one to three digits long; the length of the group is returned.
   */
  function DotGroupAt(s: string, p: nat): (r: Option<nat>)
    requires p <= |s|
    ensures r.Some? ==> 1 <= r.value <= 3 && p + r.value < |s| && s[p + r.value] == '.'
  {
    var n := RunAt(s, p);
    if 1 <= n <= 3 && p + n < |s| && s[p + n] == '.' then Some(n) else None
  }

  /** The last group, ([0-9]{1,3}) at p with nothing required after it: greedy, up to three digits. */
  function LastGroupAt(s: string, p: nat): (r: Option<nat>)
    requires p <= |s|
    ensures r.Some? ==> 1 <= r.value <= 3 && p + r.value <= |s|
  {
    var n := RunAt(s, p);
    if n == 0 then None
    else
      Some(if n < 3 then n else 3)
  }

  /**
   * k groups of ([0-9]{1,3}) separated by dots at the head of t: the groups and the
   * length of text they take up.
   */
  function GroupsIn(t: string, k: nat): (r: Option<(seq<string>, nat)>)
    requires k >= 1
    decreases k
    ensures r.Some? ==> |r.value.0| == k && r.value.1 <= |t|
  {
    if k == 1 then
      match LastGroupAt(t, 0)
      case None => None
      case Some(n) => Some(([t[..n]], n))
    else
      match DotGroupAt(t, 0)
      case None => None
      case Some(n) =>
        match GroupsIn(t[n + 1..], k - 1)
        case None => None
        case Some(rest) => Some(([t[..n]] + rest.0, n + 1 + rest.1))
  }

  /** extractIpv4 anchored at p. */
  function MatchAt(s: string, p: nat): (r: Option<QuadMatch>)
    requires p <= |s|
    ensures r.Some? ==> r.value.start == p <= r.value.end <= |s| && |r.value.groups| == 4
  {
    match GroupsIn(s[p..], 4)
    case None => None
    case Some(g) => Some(QuadMatch(p, p + g.1, g.0))
  }

  /** The leftmost match at or after p, as String.prototype.match finds it. */
  function FirstMatchFrom(s: string, p: nat): (r: Option<QuadMatch>)
    requires p <= |s|
    decreases |s| - p
    ensures r.Some? ==> p <= r.value.start <= |s| && MatchAt(s, r.value.start) == r
    ensures forall q :: p <= q <= |s| && (r.None? || q < r.value.start) ==> MatchAt(s, q).None?
  {
    match MatchAt(s, p)
    case Some(m) => Some(m)
    case None => if p == |s| then None else FirstMatchFrom(s, p + 1)
  }

  // ---- the replacement text ----

  /** parseInt(g, 10) of text that starts with a decimal digit, as every extractIpv4 group does. */
  function GroupValue(g: string): nat {
    var n := DigitRun(g, 10);
    DigitsValue(g[..n], 10)
  }

  /** ("00" + v.toString(16)).slice(-2): the last two hex digits of v. */
  function ByteHex(v: nat): (h: string)
    ensures |h| == 2
  {
    var t := "00" + NatToHex(v);
    t[|t| - 2..]
  }

  /** The text the first k groups contribute: two hex digits each, and a colon after the second. */
  function QuadHexUpTo(gs: seq<string>, k: nat): string
    requires k <= |gs|
  {
    if k == 0 then ""
    else QuadHexUpTo(gs, k - 1) + ByteHex(GroupValue(gs[k - 1])) + (if k - 1 == 1 then ":" else "")
  }

  /**
   * The embedded-IPv4 step of expandIPv6Address. When validateIpv4 matches but
   * extractIpv4 does not, `groups` is null and reading its length throws a TypeError.
   */
  function RewriteQuad(s: string): (r: Result<string>)
    ensures r.Throw? ==> r.error == TypeError && HasDottedQuad(s)
    ensures !HasDottedQuad(s) ==> r == Ok(s)
  {
    if !HasDottedQuad(s) then Ok(s)
    else
      match FirstMatchFrom(s, 0)
      case None => Throw(TypeError)
      case Some(m) => Ok(s[..m.start] + QuadHexUpTo(m.groups, 4) + s[m.end..])
  }

  // ---- properties ----

  /** Every decimal rendering of 0..255 is one of the octet alternatives. */
  lemma DecIsOctet(n: nat)
    requires n < 256
    ensures IsOctet(NatToDec(n))
  {
    var t := NatToDec(n);
    if n >= 10 {
      assert t == NatToDec(n / 10) + [DecDigit(n % 10)];
      if n < 100 {
        assert NatToDec(n / 10) == [DecDigit(n / 10)];
      } else {
        assert NatToDec(n / 10) == NatToDec(n / 100) + [DecDigit(n / 10 % 10)];
        assert NatToDec(n / 100) == [DecDigit(n / 100)];
        assert t == [DecDigit(n / 100), DecDigit(n / 10 % 10), DecDigit(n % 10)];
      }
    }
  }

  /** The two hex digits of a byte. */
  lemma ByteHexDigits(v: nat)
    requires v < 256
    ensures ByteHex(v) == [HexDigit(v / 16), HexDigit(v % 16)]
  {
    if v >= 16 {
      assert NatToHex(v) == NatToHex(v / 16) + [HexDigit(v % 16)];
      assert NatToHex(v / 16) == [HexDigit(v / 16)];
    }
  }

  /** The text a.b.c.d of four byte values. */
  function Quad(a: nat, b: nat, c: nat, d: nat): string {
    Join([NatToDec(a), NatToDec(b), NatToDec(c), NatToDec(d)], ".")
  }

  /** The same four values as two hex groups: aabb:ccdd. */
  function QuadAsHex(a: nat, b: nat, c: nat, d: nat): string
    requires a < 256 && b < 256 && c < 256 && d < 256
  {
    [HexDigit(a / 16), HexDigit(a % 16), HexDigit(b / 16), HexDigit(b % 16), ':',
     HexDigit(c / 16), HexDigit(c % 16), HexDigit(d / 16), HexDigit(d % 16)]
  }

  /**
   * An IPv4 address written at the end of text holding no decimal digits (such as
   * "::ffff:") is rewritten as two hex groups of two-digit bytes.
   */
  lemma QuadRewrite(pre: string, a: nat, b: nat, c: nat, d: nat)
    requires a < 256 && b < 256 && c < 256 && d < 256
    requires forall i :: 0 <= i < |pre| ==> !IsDigit(pre[i])
    ensures RewriteQuad(pre + Quad(a, b, c, d)) == Ok(pre + QuadAsHex(a, b, c, d))
  {
    var gs := [NatToDec(a), NatToDec(b), NatToDec(c), NatToDec(d)];
    QuadValid(pre, a, b, c, d);
    QuadFound(pre, a, b, c, d);
    QuadGroupsHex(a, b, c, d);
    RewriteAtEnd(pre, Quad(a, b, c, d), gs, QuadAsHex(a, b, c, d));
  }

  /** Rewriting a match that runs from the end of pre to the end of the text. */
  lemma RewriteAtEnd(pre: string, j: string, gs: seq<string>, hex: string)
    requires |gs| == 4 && QuadHexUpTo(gs, 4) == hex
    requires HasDottedQuad(pre + j)
    requires FirstMatchFrom(pre + j, 0) == Some(QuadMatch(|pre|, |pre + j|, gs))
    ensures RewriteQuad(pre + j) == Ok(pre + hex)
  {
    var s := pre + j;
    assert s[..|pre|] == pre;
    assert s[|s|..] == [];
    assert pre + hex + [] == pre + hex;
  }

  /** Both searches locate the quad right after the digit-free prefix. */
  lemma QuadFound(pre: string, a: nat, b: nat, c: nat, d: nat)
    requires a < 256 && b < 256 && c < 256 && d < 256
    requires forall i :: 0 <= i < |pre| ==> !IsDigit(pre[i])
    ensures FirstMatchFrom(pre + Quad(a, b, c, d), 0) ==
      Some(QuadMatch(|pre|, |pre + Quad(a, b, c, d)|, [NatToDec(a), NatToDec(b), NatToDec(c), NatToDec(d)]))
  {
    QuadGroups(a, b, c, d);
    FoundAfter(pre, Quad(a, b, c, d), [NatToDec(a), NatToDec(b), NatToDec(c), NatToDec(d)]);
  }

  lemma QuadValid(pre: string, a: nat, b: nat, c: nat, d: nat)
    requires a < 256 && b < 256 && c < 256 && d < 256
    ensures HasDottedQuad(pre + Quad(a, b, c, d))
  {
    DecIsOctet(a); DecIsOctet(b); DecIsOctet(c); DecIsOctet(d);
    JoinValid(pre, [NatToDec(a), NatToDec(b), NatToDec(c), NatToDec(d)]);
  }

  lemma QuadGroups(a: nat, b: nat, c: nat, d: nat)
    requires a < 256 && b < 256 && c < 256 && d < 256
    ensures GroupsIn(Quad(a, b, c, d), 4) ==
      Some(([NatToDec(a), NatToDec(b), NatToDec(c), NatToDec(d)], |Quad(a, b, c, d)|))
  {
    DecIsOctet(a); DecIsOctet(b); DecIsOctet(c); DecIsOctet(d);
    JoinGroups([NatToDec(a), NatToDec(b), NatToDec(c), NatToDec(d)]);
  }

  /** The groups at the head of j, after a digit-free prefix, are the leftmost match. */
  lemma FoundAfter(pre: string, j: string, gs: seq<string>)
    requires GroupsIn(j, 4) == Some((gs, |j|))
    requires forall i :: 0 <= i < |pre| ==> !IsDigit(pre[i])
    ensures FirstMatchFrom(pre + j, 0) == Some(QuadMatch(|pre|, |pre + j|, gs))
  {
    JoinMatch(pre, j, gs);
    FirstAfterPrefix(pre, j, QuadMatch(|pre|, |pre + j|, gs));
  }

  /** A match right after a digit-free prefix is the leftmost. */
  lemma FirstAfterPrefix(pre: string, j: string, m: QuadMatch)
    requires MatchAt(pre + j, |pre|) == Some(m)
    requires forall i :: 0 <= i < |pre| ==> !IsDigit(pre[i])
    ensures FirstMatchFrom(pre + j, 0) == Some(m)
  {
    NoMatchInPrefix(pre, j);
    FirstAt(pre + j, |pre|, m);
  }

  /** A match at p with none before it is the leftmost. */
  lemma FirstAt(s: string, p: nat, m: QuadMatch)
    requires p <= |s| && MatchAt(s, p) == Some(m)
    requires forall q :: 0 <= q < p ==> MatchAt(s, q).None?
    ensures FirstMatchFrom(s, 0) == Some(m)
  {
    NoMatchBefore(s, p, 0);
  }

  /** Four octets joined by dots match validateIpv4. */
  lemma JoinValid(pre: string, gs: seq<string>)
    requires |gs| == 4 && forall i :: 0 <= i < 4 ==> IsOctet(gs[i])
    ensures HasDottedQuad(pre + Join(gs, "."))
  {
    var j := Join(gs, ".");
    var s := pre + j;
    assert s[|pre|..|pre| + |j|] == j;
    OctetsOfJoin(s, |pre|, gs);
  }

  /** Four digit groups joined by dots are extractIpv4's groups. */
  lemma JoinGroups(gs: seq<string>)
    requires |gs| == 4 && forall i :: 0 <= i < 4 ==> IsOctet(gs[i])
    ensures GroupsIn(Join(gs, "."), 4) == Some((gs, |Join(gs, ".")|))
  {
    forall i | 0 <= i < 4
      ensures 1 <= |gs[i]| <= 3 && AllDigits(gs[i])
    {
      OctetDigits(gs[i]);
    }
    GroupsOfJoin(gs, []);
    assert Join(gs, ".") + [] == Join(gs, ".");
  }

  /** A quad at the head of the text after pre is a match of extractIpv4 at |pre|. */
  lemma JoinMatch(pre: string, j: string, gs: seq<string>)
    requires GroupsIn(j, 4) == Some((gs, |j|))
    ensures MatchAt(pre + j, |pre|) == Some(QuadMatch(|pre|, |pre + j|, gs))
  {
    GroupsAfter(pre, j, gs, |j|);
    MatchAfter(pre, j, gs);
  }

  lemma MatchAfter(pre: string, j: string, gs: seq<string>)
    requires GroupsIn((pre + j)[|pre|..], 4) == Some((gs, |j|))
    ensures MatchAt(pre + j, |pre|) == Some(QuadMatch(|pre|, |pre + j|, gs))
  {
    MatchOfGroups(pre + j, |pre|, gs, |j|);
  }

  lemma GroupsAfter(pre: string, j: string, gs: seq<string>, n: nat)
    requires GroupsIn(j, 4) == Some((gs, n))
    ensures GroupsIn((pre + j)[|pre|..], 4) == Some((gs, n))
  {
    assert (pre + j)[|pre|..] == j;
  }

  /** MatchAt reports the groups GroupsIn finds after p. */
  lemma MatchOfGroups(s: string, p: nat, gs: seq<string>, n: nat)
    requires p <= |s| && GroupsIn(s[p..], 4) == Some((gs, n))
    ensures MatchAt(s, p) == Some(QuadMatch(p, p + n, gs))
  {
  }

  lemma OctetDigits(g: string)
    requires IsOctet(g)
    ensures 1 <= |g| <= 3 && AllDigits(g)
  {
  }

  /** No match of extractIpv4 starts on a character that is not a digit. */
  lemma NoMatchInPrefix(pre: string, t: string)
    requires forall i :: 0 <= i < |pre| ==> !IsDigit(pre[i])
    ensures forall q :: 0 <= q < |pre| ==> MatchAt(pre + t, q).None?
  {
    forall q | 0 <= q < |pre|
      ensures MatchAt(pre + t, q).None?
    {
      var u := (pre + t)[q..];
      assert u[0] == pre[q];
      assert RunAt(u, 0) == 0;
    }
  }

  /** The replacement text of four decimal bytes is their two hex groups. */
  lemma QuadGroupsHex(a: nat, b: nat, c: nat, d: nat)
    requires a < 256 && b < 256 && c < 256 && d < 256
    ensures QuadHexUpTo([NatToDec(a), NatToDec(b), NatToDec(c), NatToDec(d)], 4) == QuadAsHex(a, b, c, d)
  {
    var gs := [NatToDec(a), NatToDec(b), NatToDec(c), NatToDec(d)];
    DecValue(a); DecValue(b); DecValue(c); DecValue(d);
    assert QuadHexUpTo(gs, 1) == ByteHex(a);
    assert QuadHexUpTo(gs, 2) == ByteHex(a) + ByteHex(b) + ":";
    assert QuadHexUpTo(gs, 3) == ByteHex(a) + ByteHex(b) + ":" + ByteHex(c);
    assert QuadHexUpTo(gs, 4) == ByteHex(a) + ByteHex(b) + ":" + ByteHex(c) + ByteHex(d);
    HexPairs(a, b, c, d);
  }

  lemma HexPairs(a: nat, b: nat, c: nat, d: nat)
    requires a < 256 && b < 256 && c < 256 && d < 256
    ensures ByteHex(a) + ByteHex(b) + ":" + ByteHex(c) + ByteHex(d) == QuadAsHex(a, b, c, d)
  {
    ByteHexDigits(a); ByteHexDigits(b); ByteHexDigits(c); ByteHexDigits(d);
  }

  /** parseInt of the decimal rendering of n is n. */
  lemma DecValue(n: nat)
    ensures GroupValue(NatToDec(n)) == n
  {
    var t := NatToDec(n);
    NatToDecDigits(n);
    DigitRunAll(t, 10);
    assert t[..|t|] == t;
  }

  /** Octets joined by dots match validateIpv4's repetition. */
  lemma {:induction false} OctetsOfJoin(s: string, q: nat, gs: seq<string>)
    requires |gs| >= 1 && forall i :: 0 <= i < |gs| ==> IsOctet(gs[i])
    requires q + |Join(gs, ".")| <= |s| && s[q..q + |Join(gs, ".")|] == Join(gs, ".")
    ensures OctetsAt(s, q, |gs|)
    decreases |gs|
  {
    var g := gs[0];
    if |gs| == 1 {
      assert s[q..q + |g|] == g;
      assert OctetThen(s, q, |g|, 1);
    } else {
      var rest := Join(gs[1..], ".");
      assert Join(gs, ".") == g + "." + rest;
      OctetDotRest(s, q, g, rest);
      OctetsOfJoin(s, q + |g| + 1, gs[1..]);
      assert OctetThen(s, q, |g|, |gs|);
    }
  }

  /** Text g + "." + rest at q: g at q, the dot after it, rest after the dot. */
  lemma OctetDotRest(s: string, q: nat, g: string, rest: string)
    requires q + |g| + 1 + |rest| <= |s| && s[q..q + |g| + 1 + |rest|] == g + "." + rest
    ensures s[q..q + |g|] == g && s[q + |g|] == '.'
    ensures s[q + |g| + 1..q + |g| + 1 + |rest|] == rest
  {
    var w := s[q..q + |g| + 1 + |rest|];
    assert s[q..q + |g|] == w[..|g|];
    assert s[q + |g|] == w[|g|];
    assert s[q + |g| + 1..q + |g| + 1 + |rest|] == w[|g| + 1..];
  }

  /** Digit groups joined by dots, followed by a non-digit or nothing, are what GroupsIn finds. */
  lemma {:induction false} GroupsOfJoin(gs: seq<string>, post: string)
    requires |gs| >= 1 && forall i :: 0 <= i < |gs| ==> 1 <= |gs[i]| <= 3 && AllDigits(gs[i])
    requires |post| > 0 ==> !IsDigit(post[0])
    ensures GroupsIn(Join(gs, ".") + post, |gs|) == Some((gs, |Join(gs, ".")|))
    decreases |gs|
  {
    var g := gs[0];
    if |gs| == 1 {
      GroupsLast(g, post);
      assert gs == [g];
    } else {
      var rest := Join(gs[1..], ".");
      GroupsOfJoin(gs[1..], post);
      GroupsHead(g, rest + post, |gs|, gs[1..], |rest|);
      assert Join(gs, ".") == g + "." + rest;
      JoinedGroups(Join(gs, "."), g, rest, post, |gs|, gs);
    }
  }

  /** The groups found after g + "." are those of the whole joined text. */
  lemma JoinedGroups(j: string, g: string, rest: string, post: string, k: nat, gs: seq<string>)
    requires k >= 1 && |gs| >= 1 && j == g + "." + rest && gs[0] == g
    requires GroupsIn(g + "." + (rest + post), k) == Some(([g] + gs[1..], |g| + 1 + |rest|))
    ensures GroupsIn(j + post, k) == Some((gs, |j|))
  {
    JoinParts(j, g, rest, post, gs);
  }

  lemma JoinParts(j: string, g: string, rest: string, post: string, gs: seq<string>)
    requires |gs| >= 1 && j == g + "." + rest && gs[0] == g
    ensures j + post == g + "." + (rest + post) && [g] + gs[1..] == gs && |j| == |g| + 1 + |rest|
  {
    assert g + "." + rest + post == g + "." + (rest + post);
    assert [g] + gs[1..] == gs;
  }

  /** The last group, followed by a non-digit or nothing. */
  lemma GroupsLast(g: string, post: string)
    requires 1 <= |g| <= 3 && AllDigits(g)
    requires |post| > 0 ==> !IsDigit(post[0])
    ensures GroupsIn(g + post, 1) == Some(([g], |g|))
  {
    var t := g + post;
    assert t[..|g|] == g;
    RunOfGroup(t, 0, g);
  }

  /** A group and a dot in front of k - 1 groups make k groups. */
  lemma GroupsHead(g: string, tail: string, k: nat, rest: seq<string>, len: nat)
    requires 1 <= |g| <= 3 && AllDigits(g) && k >= 2
    requires GroupsIn(tail, k - 1) == Some((rest, len))
    ensures GroupsIn(g + "." + tail, k) == Some(([g] + rest, |g| + 1 + len))
  {
    var t := g + "." + tail;
    assert t[..|g|] == g;
    assert t[|g|] == '.';
    assert t[|g| + 1..] == tail;
    RunOfGroup(t, 0, g);
    GroupsStep(t, g, tail, k, rest, len);
  }

  /** One group and its dot at the head of t, followed by the remaining k - 1 groups. */
  lemma GroupsStep(t: string, g: string, tail: string, k: nat, rest: seq<string>, len: nat)
    requires k >= 2 && |g| < |t| && t[..|g|] == g && t[|g| + 1..] == tail
    requires DotGroupAt(t, 0) == Some(|g|)
    requires GroupsIn(tail, k - 1) == Some((rest, len))
    ensures GroupsIn(t, k) == Some(([g] + rest, |g| + 1 + len))
  {
  }

  /** The digit run at q covers exactly a digit string written there and followed by a non-digit. */
  lemma {:induction false} RunOfGroup(s: string, q: nat, g: string)
    requires AllDigits(g) && q + |g| <= |s| && s[q..q + |g|] == g
    requires q + |g| < |s| ==> !IsDigit(s[q + |g|])
    decreases |g|
    ensures RunAt(s, q) == |g|
  {
    if |g| > 0 {
      assert s[q] == g[0];
      assert s[q + 1..q + 1 + |g[1..]|] == g[1..];
      RunOfGroup(s, q + 1, g[1..]);
    }
  }

  /** With no match strictly before p, the leftmost search from any earlier start reaches p. */
  lemma {:induction false} NoMatchBefore(s: string, p: nat, q: nat)
    requires q <= p <= |s|
    requires forall j :: q <= j < p ==> MatchAt(s, j).None?
    ensures FirstMatchFrom(s, q) == FirstMatchFrom(s, p)
    decreases p - q
  {
    if q < p {
      NoMatchBefore(s, p, q + 1);
    }
  }
}
