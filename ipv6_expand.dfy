/**
 * expandIPv6Address (lib/utils.js): the text of an IPv6 address with every one of its
 * eight groups written out as four characters. An embedded dotted quad is first turned
 * into two hex groups, "::" is replaced by as many "0000" groups as are missing, and
 * every group is left-padded with zeros.
 */
module Ipv6Expand {
  import opened JsBase
  import opened JsText
  import opened DottedQuad

  const GROUP_COUNT: nat := 8
  const GROUP_SIZE: nat := 4

  /** `n` copies of t, one after the other. */
  function Repeat(t: string, n: nat): string
  {
    if n == 0 then "" else Repeat(t, n - 1) + t
  }

  /** n zero characters. */
  function Zeros(n: nat): (r: string)
    ensures |r| == n && forall i :: 0 <= i < n ==> r[i] == '0'
  {
    seq(n, _ => '0')
  }

  /** The number of ":"-separated groups in all the sides, as the source adds them up. */
  function GroupsPresent(sides: seq<string>): nat {
    if |sides| == 0 then 0
    else GroupsPresent(sides[..|sides| - 1]) + |Split(sides[|sides| - 1], ":")|
  }

  /** How many "0000" groups replace "::": none when eight or more groups are present. */
  function MissingGroups(present: nat): nat {
    if present < GROUP_COUNT then GROUP_COUNT - present else 0
  }

  /**
   * The address with "::" written out. Only the text before the first "::" and the text
   * between it and the next one are kept; the groups of every side are counted.
   */
  function FullAddress(a: string): string {
    if IndexOf(a, "::") == -1 then a
    else
      var sides := Split(a, "::");
      assert |sides| >= 2;
      sides[0] + ":" + Repeat("0000:", MissingGroups(GroupsPresent(sides))) + sides[1]
  }

  /** A group left-padded with zeros to four characters; a longer group is kept as it is. */
  function Pad(g: string): (r: string)
    ensures |r| == if |g| < GROUP_SIZE then GROUP_SIZE else |g|
    ensures r[|r| - |g|..] == g && forall i :: 0 <= i < |r| - |g| ==> r[i] == '0'
  {
    if |g| < GROUP_SIZE then Zeros(GROUP_SIZE - |g|) + g else g
  }

  function PadAll(gs: seq<string>): (r: seq<string>)
    ensures |r| == |gs| && forall i :: 0 <= i < |gs| ==> r[i] == Pad(gs[i])
  {
    seq(|gs|, i requires 0 <= i < |gs| => Pad(gs[i]))
  }

  /**
   * expandIPv6Address(address). Fewer than eight groups leave `groups[i]` undefined, and
   * reading its length throws a TypeError; groups beyond the eighth are dropped.
   */
  function Expand(address: string): (r: Result<string>)
    ensures r.Throw? ==> r.error == TypeError
    ensures r.Ok? ==> |r.value| >= GROUP_COUNT * (GROUP_SIZE + 1) - 1
  {
    var a :- RewriteQuad(address);
    var groups := Split(FullAddress(a), ":");
    if |groups| < GROUP_COUNT then Throw(TypeError)
    else
      JoinPaddedLength(PadAll(groups[..GROUP_COUNT]));
      Ok(Join(PadAll(groups[..GROUP_COUNT]), ":"))
  }

  /** n groups of at least four characters joined by ":" take at least 5n - 1 characters. */
  lemma {:induction false} JoinPaddedLength(ps: seq<string>)
    requires |ps| >= 1 && forall i :: 0 <= i < |ps| ==> |ps[i]| >= GROUP_SIZE
    ensures |Join(ps, ":")| >= |ps| * (GROUP_SIZE + 1) - 1
  {
    if |ps| > 1 {
      JoinPaddedLength(ps[1..]);
    }
  }

  /** The loops of expandIPv6Address, step by step. */
  method ExpandIPv6Address(address: string) returns (r: Result<string>)
    ensures r == Expand(address)
  {
    var rewritten := RewriteEmbeddedIpv4(address);
    if rewritten.Throw? {
      return Throw(rewritten.error);
    }
    var full := WriteOutDoubleColon(rewritten.value);
    r := PadGroups(full);
  }

  /** Lines 45-49: the embedded dotted quad becomes two hex groups. */
  method RewriteEmbeddedIpv4(address: string) returns (r: Result<string>)
    ensures r == RewriteQuad(address)
  {
    if !HasDottedQuad(address) {
      return Ok(address);
    }
    var found := FirstMatchFrom(address, 0);
    if found.None? {
      return Throw(TypeError);
    }
    var m := found.value;
    var ipv4 := "";
    for i := 1 to 5
      invariant ipv4 == QuadHexUpTo(m.groups, i - 1)
    {
      ipv4 := ipv4 + ByteHex(GroupValue(m.groups[i - 1])) + (if i == 2 then ":" else "");
    }
    return Ok(address[..m.start] + ipv4 + address[m.end..]);
  }

  /** Lines 51-58: "::" written out as the missing "0000" groups. */
  method WriteOutDoubleColon(address: string) returns (full: string)
    ensures full == FullAddress(address)
  {
    full := "";
    if IndexOf(address, "::") == -1 {
      full := address;
    } else {
      var sides := Split(address, "::");
      assert |sides| >= 2;
      var present := 0;
      for i := 0 to |sides|
        invariant present == GroupsPresent(sides[..i])
      {
        assert sides[..i + 1][..i] == sides[..i];
        present := present + |Split(sides[i], ":")|;
      }
      assert sides[..|sides|] == sides;
      full := full + sides[0] + ":";
      var i := 0;
      while i < GROUP_COUNT - present
        invariant 0 <= i <= MissingGroups(present)
        invariant full == sides[0] + ":" + Repeat("0000:", i)
        decreases GROUP_COUNT - present - i
      {
        full := full + "0000:";
        i := i + 1;
      }
      full := full + sides[1];
    }
  }

  /** Lines 59-64: the first eight groups, each padded in place, joined by ":". */
  method PadGroups(full: string) returns (r: Result<string>)
    ensures var groups := Split(full, ":");
      r == if |groups| < GROUP_COUNT then Throw(TypeError) else Ok(Join(PadAll(groups[..GROUP_COUNT]), ":"))
  {
    var groups := Split(full, ":");
    ghost var original := groups;
    var expanded := "";
    for i := 0 to GROUP_COUNT
      invariant |groups| == |original|
      invariant i <= |groups|
      invariant forall j :: i <= j < |groups| ==> groups[j] == original[j]
      invariant expanded == ExpandedPrefix(PadAll(original[..i]), i)
    {
      if i >= |groups| {
        return Throw(TypeError);
      }
      var padded := PadGroup(groups[i]);
      groups := groups[i := padded];
      PadAllSnoc(original, i);
      ExpandedPrefixStep(PadAll(original[..i]), PadAll(original[..i + 1]), i);
      expanded := expanded + (if i != GROUP_COUNT - 1 then groups[i] + ":" else groups[i]);
    }
    ExpandedPrefixAll(PadAll(original[..GROUP_COUNT]));
    return Ok(expanded);
  }

  /** Line 61: "0" is put in front of the group until it has four characters. */
  method PadGroup(g: string) returns (p: string)
    ensures p == Pad(g)
  {
    p := g;
    while |p| < GROUP_SIZE
      invariant |g| <= |p|
      invariant |g| < GROUP_SIZE ==> |p| <= GROUP_SIZE
      invariant |g| >= GROUP_SIZE ==> p == g
      invariant p == Zeros(|p| - |g|) + g
      decreases GROUP_SIZE - |p|
    {
      assert "0" + Zeros(|p| - |g|) == Zeros(|p| + 1 - |g|);
      p := "0" + p;
    }
  }

  /** What the loop has built after i groups: each of them followed by ":" except the eighth. */
  function ExpandedPrefix(ps: seq<string>, i: nat): string
    requires |ps| == i
  {
    if i == 0 then "" else Join(ps, ":") + (if i < GROUP_COUNT then ":" else "")
  }

  lemma ExpandedPrefixStep(ps: seq<string>, qs: seq<string>, i: nat)
    requires i < GROUP_COUNT && |ps| == i && |qs| == i + 1 && qs[..i] == ps
    ensures ExpandedPrefix(qs, i + 1) ==
      ExpandedPrefix(ps, i) + (if i != GROUP_COUNT - 1 then qs[i] + ":" else qs[i])
  {
    if i > 0 {
      assert qs == ps + [qs[i]];
      JoinSnoc(ps, qs[i], ":");
    }
  }

  /** Padding one more group extends the padded prefix by that group, padded. */
  lemma PadAllSnoc(gs: seq<string>, i: nat)
    requires i < |gs|
    ensures PadAll(gs[..i + 1])[..i] == PadAll(gs[..i]) && PadAll(gs[..i + 1])[i] == Pad(gs[i])
  {
  }

  lemma ExpandedPrefixAll(ps: seq<string>)
    requires |ps| == GROUP_COUNT
    ensures ExpandedPrefix(ps, GROUP_COUNT) == Join(ps, ":")
  {
  }

  /** Joining one more part appends the separator and the part. */
  lemma {:induction false} JoinSnoc(ps: seq<string>, p: string, sep: string)
    requires |ps| >= 1
    decreases |ps|
    ensures Join(ps + [p], sep) == Join(ps, sep) + sep + p
  {
    if |ps| > 1 {
      assert (ps + [p])[1..] == ps[1..] + [p];
      JoinSnoc(ps[1..], p, sep);
    } else {
      assert (ps + [p])[1..] == [p];
    }
  }

  // ---- properties ----

  /** A group as the address text holds it: no ":" and no ".". */
  predicate IsGroup(g: string) {
    ':' !in g && '.' !in g
  }

  /** Groups that join into ":"-separated text without "::": only a lone group may be empty. */
  predicate GroupList(gs: seq<string>) {
    |gs| >= 1 && (forall i :: 0 <= i < |gs| ==> IsGroup(gs[i]))
    && (|gs| == 1 || forall i :: 0 <= i < |gs| ==> gs[i] != "")
  }

  predicate NoDoubleColon(s: string) {
    forall j :: 0 <= j < |s| - 1 ==> !(s[j] == ':' && s[j + 1] == ':')
  }

  /** The eight groups x::y stands for: those of x, the missing ones as "0000", those of y. */
  function FilledGroups(xs: seq<string>, ys: seq<string>): (gs: seq<string>)
    requires |xs| + |ys| <= GROUP_COUNT
    ensures |gs| == GROUP_COUNT
  {
    xs + (ZeroGroups(MissingGroups(|xs| + |ys|)) + ys)
  }

  /** n groups of four zeros. */
  function ZeroGroups(n: nat): (r: seq<string>)
    ensures |r| == n && forall i :: 0 <= i < n ==> r[i] == "0000"
  {
    seq(n, _ => "0000")
  }

  /**
   * Eight groups written out in full (none of them empty) expand to the same groups,
   * each left-padded to four characters.
   */
  lemma ExpandUncompressed(gs: seq<string>)
    requires |gs| == GROUP_COUNT && GroupList(gs)
    ensures Expand(Join(gs, ":")) == Ok(Join(PadAll(gs), ":"))
  {
    var a := Join(gs, ":");
    JoinText(gs);
    NoQuadWithoutDot(a);
    NoDoubleColonIndex(a);
    SplitJoin(gs, ':');
    assert gs[..GROUP_COUNT] == gs;
  }

  /**
   * The expanded form of eight groups expands to itself: expanding is idempotent on
   * addresses written out in full.
   */
  lemma ExpandIdempotent(gs: seq<string>)
    requires |gs| == GROUP_COUNT && GroupList(gs)
    ensures Expand(Join(gs, ":")) == Ok(Join(PadAll(gs), ":"))
    ensures Expand(Join(PadAll(gs), ":")) == Ok(Join(PadAll(gs), ":"))
  {
    ExpandUncompressed(gs);
    PadAllGroups(gs);
    ExpandUncompressed(PadAll(gs));
  }

  /** Padded groups are groups again, and padding them again changes nothing. */
  lemma PadAllGroups(gs: seq<string>)
    requires GroupList(gs)
    ensures GroupList(PadAll(gs)) && PadAll(PadAll(gs)) == PadAll(gs)
  {
    var ps := PadAll(gs);
    forall i | 0 <= i < |ps|
      ensures IsGroup(ps[i]) && ps[i] != "" && Pad(ps[i]) == ps[i]
    {
      PaddedGroup(gs[i]);
    }
  }

  /** A padded group is a group again, never empty, and padding it again changes nothing. */
  lemma PaddedGroup(g: string)
    requires IsGroup(g)
    ensures IsGroup(Pad(g)) && Pad(g) != "" && Pad(Pad(g)) == Pad(g)
  {
    var p := Pad(g);
    assert forall i :: 0 <= i < |p| - |g| ==> p[i] == '0';
    assert forall i :: |p| - |g| <= i < |p| ==> p[i] == g[i - (|p| - |g|)];
    assert ':' !in p && '.' !in p;
  }

  /**
   * The groups before "::" and after it, with the missing groups in between written as
   * "0000": the compressed form expands to eight groups.
   */
  lemma ExpandCompressed(xs: seq<string>, ys: seq<string>)
    requires GroupList(xs) && GroupList(ys) && |xs| + |ys| <= GROUP_COUNT
    ensures Expand(Join(xs, ":") + "::" + Join(ys, ":")) == Ok(Join(PadAll(FilledGroups(xs, ys)), ":"))
  {
    var x, y := Join(xs, ":"), Join(ys, ":");
    var a := x + "::" + y;
    JoinText(xs);
    JoinText(ys);
    CompressedSides(x, y, a);
    FillGroups(xs, ys, a, MissingGroups(|xs| + |ys|));
    ExpandOfGroups(a, FilledGroups(xs, ys));
  }

  /** x::y with no dot in it and no "::" on either side: no quad to rewrite, and two sides. */
  lemma CompressedSides(x: string, y: string, a: string)
    requires NoDoubleColon(x) && NoDoubleColon(y) && (|x| > 0 ==> x[|x| - 1] != ':')
    requires '.' !in x && '.' !in y && a == x + "::" + y
    ensures RewriteQuad(a) == Ok(a) && Split(a, "::") == [x, y]
  {
    assert '.' !in a;
    NoQuadWithoutDot(a);
    SplitDoubleColon(a, x, y);
  }

  /** An address with no quad to rewrite whose written-out form has eight groups. */
  lemma ExpandOfGroups(a: string, groups: seq<string>)
    requires RewriteQuad(a) == Ok(a)
    requires Split(FullAddress(a), ":") == groups && |groups| == GROUP_COUNT
    ensures Expand(a) == Ok(Join(PadAll(groups), ":"))
  {
    assert groups[..GROUP_COUNT] == groups;
  }

  /** Splitting the filled-in address on ":" gives the groups on each side with the zero groups between. */
  lemma FillGroups(xs: seq<string>, ys: seq<string>, a: string, m: nat)
    requires GroupList(xs) && GroupList(ys) && |xs| + |ys| <= GROUP_COUNT
    requires Split(a, "::") == [Join(xs, ":"), Join(ys, ":")]
    requires m == MissingGroups(|xs| + |ys|)
    ensures Split(FullAddress(a), ":") == FilledGroups(xs, ys)
  {
    FullAddressOfSides(xs, ys, a, m);
    SplitFilled(FullAddress(a), xs, ys, m);
  }

  /** The address x::y written out: x, then the missing groups as "0000:", then y. */
  lemma FullAddressOfSides(xs: seq<string>, ys: seq<string>, a: string, m: nat)
    requires GroupList(xs) && GroupList(ys) && |xs| + |ys| <= GROUP_COUNT
    requires Split(a, "::") == [Join(xs, ":"), Join(ys, ":")]
    requires m == MissingGroups(|xs| + |ys|)
    ensures FullAddress(a) == Join(xs, ":") + ":" + Repeat("0000:", m) + Join(ys, ":")
  {
    var x, y := Join(xs, ":"), Join(ys, ":");
    SplitJoin(xs, ':');
    SplitJoin(ys, ':');
    FullOfTwoSides(a, x, y, |xs|, |ys|);
  }

  /** The text x:0000:...:0000:y splits into the groups of x, the zero groups and the groups of y. */
  lemma SplitFilled(full: string, xs: seq<string>, ys: seq<string>, m: nat)
    requires GroupList(xs) && GroupList(ys)
    requires full == Join(xs, ":") + ":" + Repeat("0000:", m) + Join(ys, ":")
    ensures Split(full, ":") == xs + (ZeroGroups(m) + ys)
  {
    JoinFilled(xs, ys, m);
    FilledColonFree(xs, ys, m);
    SplitOfJoin(full, xs + (ZeroGroups(m) + ys));
  }

  lemma FilledColonFree(xs: seq<string>, ys: seq<string>, m: nat)
    requires GroupList(xs) && GroupList(ys)
    ensures var gs := xs + (ZeroGroups(m) + ys); forall i :: 0 <= i < |gs| ==> ':' !in gs[i]
  {
    var gs := xs + (ZeroGroups(m) + ys);
    forall i | 0 <= i < |gs| ensures ':' !in gs[i] {
      if i >= |xs| + m {
        assert gs[i] == ys[i - |xs| - m];
      } else if i < |xs| {
        assert gs[i] == xs[i];
      }
    }
  }

  lemma SplitOfJoin(s: string, gs: seq<string>)
    requires |gs| >= 1 && s == Join(gs, ":")
    requires forall i :: 0 <= i < |gs| ==> ':' !in gs[i]
    ensures Split(s, ":") == gs
  {
    SplitJoin(gs, ':');
  }

  /** The sides with m zero groups between them, joined. */
  lemma JoinFilled(xs: seq<string>, ys: seq<string>, m: nat)
    requires |xs| >= 1 && |ys| >= 1
    ensures Join(xs + (ZeroGroups(m) + ys), ":") == Join(xs, ":") + ":" + Repeat("0000:", m) + Join(ys, ":")
  {
    JoinZeros(m, ys);
    JoinAppend(xs, ZeroGroups(m) + ys, ":");
  }

  /** The sides' group counts decide how many zero groups go between them. */
  lemma FullOfTwoSides(a: string, x: string, y: string, nx: nat, ny: nat)
    requires Split(a, "::") == [x, y] && |Split(x, ":")| == nx && |Split(y, ":")| == ny
    requires nx + ny <= GROUP_COUNT
    ensures FullAddress(a) == x + ":" + Repeat("0000:", MissingGroups(nx + ny)) + y
  {
    FullAddressTwoSides(a, x, y);
    GroupsPresentTwo(x, y);
  }

  /** An address with one "::" keeps both sides and fills in the groups they lack. */
  lemma FullAddressTwoSides(a: string, x: string, y: string)
    requires Split(a, "::") == [x, y]
    ensures FullAddress(a) == x + ":" + Repeat("0000:", MissingGroups(GroupsPresent([x, y]))) + y
  {
    assert IndexOf(a, "::") != -1;
  }

  /** Joined groups hold no "::" and no ".", and neither start nor end with ":". */
  lemma {:induction false} JoinText(gs: seq<string>)
    requires GroupList(gs)
    decreases |gs|
    ensures var s := Join(gs, ":");
      NoDoubleColon(s) && '.' !in s && (|s| > 0 ==> s[0] != ':' && s[|s| - 1] != ':')
  {
    if |gs| > 1 {
      var g, t := gs[0], Join(gs[1..], ":");
      var s := g + ":" + t;
      assert Join(gs, ":") == s;
      assert GroupList(gs[1..]) by {
        forall i | 0 <= i < |gs[1..]| ensures IsGroup(gs[1..][i]) && gs[1..][i] != "" {
          assert gs[1..][i] == gs[i + 1];
        }
      }
      JoinText(gs[1..]);
      JoinFirst(gs[1..]);
      assert g != "" && g[|g| - 1] != ':';
      assert t != "" && t[0] != ':';
      forall j | 0 <= j < |s| - 1 ensures !(s[j] == ':' && s[j + 1] == ':') {
        if j < |g| - 1 {
          assert s[j] == g[j];
        } else if j == |g| - 1 {
          assert s[j] == g[j];
        } else if j == |g| {
          assert s[j + 1] == t[0];
        } else {
          assert s[j] == t[j - |g| - 1] && s[j + 1] == t[j - |g|];
        }
      }
      assert s[0] == g[0];
      assert s[|s| - 1] == t[|t| - 1];
    }
  }

  /** Joined text starts with its first group. */
  lemma JoinFirst(gs: seq<string>)
    requires |gs| >= 1
    ensures |Join(gs, ":")| >= |gs[0]| && Join(gs, ":")[..|gs[0]|] == gs[0]
  {
  }

  /** "::" at j is two colons side by side. */
  lemma DoubleColonAt(s: string, j: int)
    ensures OccursAt(s, "::", j) <==> 0 <= j && j + 1 < |s| && s[j] == ':' && s[j + 1] == ':'
  {
    if 0 <= j && j + 2 <= |s| {
      assert s[j..j + 2] == [s[j], s[j + 1]];
    }
  }

  /** Text with no two adjacent colons has no "::" to find. */
  lemma NoDoubleColonIndex(s: string)
    requires NoDoubleColon(s)
    ensures IndexOf(s, "::") == -1
  {
    var k := IndexOf(s, "::");
    if k != -1 {
      DoubleColonAt(s, k);
    }
  }

  /** In x::y the first "::" is the one after x. */
  lemma FirstDoubleColon(x: string, y: string)
    requires NoDoubleColon(x) && (|x| > 0 ==> x[|x| - 1] != ':')
    ensures IndexOf(x + "::" + y, "::") == |x|
  {
    var s := x + "::" + y;
    DoubleColonAt(s, |x|);
    forall j | 0 <= j < |x| ensures !OccursAt(s, "::", j) {
      DoubleColonAt(s, j);
      assert s[j] == x[j];
      if j < |x| - 1 {
        assert s[j + 1] == x[j + 1];
      }
    }
  }

  /** x::y, with no "::" in either side and x not ending with ":", splits into [x, y]. */
  lemma SplitDoubleColon(s: string, x: string, y: string)
    requires NoDoubleColon(x) && NoDoubleColon(y) && (|x| > 0 ==> x[|x| - 1] != ':')
    requires s == x + "::" + y
    ensures Split(s, "::") == [x, y]
  {
    FirstDoubleColon(x, y);
    assert s[..|x|] == x;
    assert s[|x| + 2..] == y;
    NoDoubleColonIndex(y);
    assert Split(y, "::") == [y];
  }

  lemma GroupsPresentTwo(x: string, y: string)
    ensures GroupsPresent([x, y]) == |Split(x, ":")| + |Split(y, ":")|
  {
    assert [x, y][..1] == [x];
    assert [x][..0] == [];
    assert GroupsPresent([x]) == GroupsPresent([]) + |Split(x, ":")|;
  }

  lemma {:induction false} RepeatFront(t: string, n: nat)
    requires n > 0
    ensures Repeat(t, n) == t + Repeat(t, n - 1)
  {
    if n > 1 {
      RepeatFront(t, n - 1);
    }
  }

  /** The zero groups joined in front of other groups are the repeated "0000:". */
  lemma {:induction false} JoinZeros(m: nat, ys: seq<string>)
    requires |ys| >= 1
    ensures Join(ZeroGroups(m) + ys, ":") == Repeat("0000:", m) + Join(ys, ":")
  {
    if m == 0 {
      assert ZeroGroups(0) + ys == ys;
    } else {
      var zs := ZeroGroups(m) + ys;
      assert zs[0] == "0000";
      assert zs[1..] == ZeroGroups(m - 1) + ys;
      assert Join(zs, ":") == "0000" + ":" + Join(zs[1..], ":");
      JoinZeros(m - 1, ys);
      RepeatFront("0000:", m);
      ZeroGroupText(Repeat("0000:", m - 1), Join(ys, ":"));
    }
  }

  lemma ZeroGroupText(r: string, j: string)
    ensures "0000" + ":" + (r + j) == "0000:" + r + j
  {
  }

  /** Joining two non-empty lists puts the separator between their joins. */
  lemma {:induction false} JoinAppend(xs: seq<string>, ys: seq<string>, sep: string)
    requires |xs| >= 1 && |ys| >= 1
    decreases |xs|
    ensures Join(xs + ys, sep) == Join(xs, sep) + sep + Join(ys, sep)
  {
    if |xs| == 1 {
      assert (xs + ys)[1..] == ys;
    } else {
      assert (xs + ys)[1..] == xs[1..] + ys;
      JoinAppend(xs[1..], ys, sep);
    }
  }
}
