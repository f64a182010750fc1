/**
 * The DNS rewrite extension (extensions/dns.js): a pre_connect stage that looks the
 * requested host and port up in the dns.json table and, when an entry is found, connects
 * to the host and port written in that entry instead.
 */
module Dns {
  import opened JsBase
  import opened JsText
  import opened Extensions

  /** dns.json: entry text by key. */
  type Table = map<string, string>

  /** A port as a template literal renders it. */
  function PortString(p: Port): string {
    match p
    case PortNum(n) => IntToDec(n)
    case PortText(t) => t
  }

  /** `${host}:${port}`, the key tried first. */
  function PlainKey(host: string, port: Port): string {
    host + ":" + PortString(port)
  }

  /** `[${host}]:${port}`, the key tried second. */
  function BracketKey(host: string, port: Port): string {
    "[" + host + "]:" + PortString(port)
  }

  /** A lookup counts only when it yields a truthy value: present and not empty. */
  predicate Has(table: Table, key: string) {
    key in table && table[key] != ""
  }

  /** What the bracketed branch sets: the text between "[" and the last "]", and the text after the last "]:". */
  function BracketEntry(entry: string, portIn: Port): (r: HostPort)
    ensures |r.host| <= |entry|
    ensures var k := LastIndexOf(entry, "]:");
      k != -1 && k + 2 < |entry| ==> r.port.PortText? && entry[..k] + "]:" + r.port.text == entry
    ensures LastIndexOf(entry, "]:") + 2 >= |entry| ==> r.port == portIn
  {
    var close := LastIndexOf(entry, "]:");
    var port := if close + 2 < |entry| then PortText(Substring(entry, close + 2, |entry|)) else portIn;
    HostPort(Substring(entry, 1, LastIndexOf(entry, "]")), port)
  }

  /**
   * _getHostPort(entry, portIn). The four tests run one after the other and each one that
   * holds overwrites the host and port set by those before it; together they always set both.
   */
  function GetHostPort(entry: string, portIn: Port): (r: HostPort)
    ensures |r.host| <= |entry|
    ensures r.port == portIn || (r.port.PortText? && |r.port.text| < |entry|)
    ensures IndexOf(entry, "[") == -1 || IndexOf(entry, ":") == LastIndexOf(entry, ":") ==> r.host <= entry
  {
    var first := IndexOf(entry, ":");
    var last := LastIndexOf(entry, ":");
    var bracketed := IndexOf(entry, "[") != -1;
    var set1: Option<HostPort> := if bracketed then Some(BracketEntry(entry, portIn)) else None;
    var set2 := if first != last && !bracketed then Some(HostPort(entry, portIn)) else set1;
    var set3 :=
      if first == last && first != -1
      then Some(HostPort(Substring(entry, 0, last), PortText(Substring(entry, last + 1, |entry|))))
      else set2;
    var set4 := if first == -1 then Some(HostPort(entry, portIn)) else set3;
    set4.value
  }

  /** preConnect(host, port). */
  function PreConnect(table: Table, host: string, port: Port): (r: HostPort)
    ensures r != HostPort(host, port) ==> Has(table, PlainKey(host, port)) || Has(table, BracketKey(host, port))
    ensures r.port == port || r.port.PortText?
  {
    var plain := PlainKey(host, port);
    var bracket := BracketKey(host, port);
    if Has(table, plain) then GetHostPort(Trim(table[plain]), port)
    else if Has(table, bracket) then GetHostPort(Trim(table[bracket]), port)
    else HostPort(host, port)
  }

  /** The extension as a stage of the pre_connect pipeline. */
  function Stage(table: Table): ConnectStage {
    (host, port) => PreConnect(table, host, port)
  }

  // ---- the lookup ----

  /** A host and port with no truthy entry under either key pass through unchanged. */
  lemma NoEntry(table: Table, host: string, port: Port)
    requires !Has(table, PlainKey(host, port)) && !Has(table, BracketKey(host, port))
    ensures PreConnect(table, host, port) == HostPort(host, port)
  {
  }

  /**
   * The `host:port` key is looked up first: once it has a truthy entry, whatever is stored
   * under `[host]:port` makes no difference, and the entry is trimmed before it is parsed.
   */
  lemma PlainKeyFirst(table: Table, host: string, port: Port, other: string)
    requires Has(table, PlainKey(host, port))
    ensures PreConnect(table[BracketKey(host, port) := other], host, port) == PreConnect(table, host, port)
    ensures PreConnect(table, host, port) == GetHostPort(Trim(table[PlainKey(host, port)]), port)
  {
    assert |PlainKey(host, port)| < |BracketKey(host, port)|;
  }

  /** With no `host:port` entry, a truthy `[host]:port` entry is used. */
  lemma BracketKeySecond(table: Table, host: string, port: Port, entry: string)
    requires !Has(table, PlainKey(host, port)) && entry != ""
    ensures PreConnect(table[BracketKey(host, port) := entry], host, port) == GetHostPort(Trim(entry), port)
  {
    assert |PlainKey(host, port)| < |BracketKey(host, port)|;
  }

  /** As the only pre_connect stage, the extension yields what preConnect returns. */
  lemma OnlyStage(table: Table, host: string, port: Port)
    ensures ConnectFold([Stage(table)], HostPort(host, port)) == PreConnect(table, host, port)
  {
    assert [Stage(table)][..0] == [];
  }

  // ---- parsing an entry ----

  /** An entry without ":" is the host, and the port asked for is kept. */
  lemma EntryNoColon(entry: string, portIn: Port)
    requires ':' !in entry
    ensures GetHostPort(entry, portIn) == HostPort(entry, portIn)
  {
    IndexOfChar(entry, ':');
  }

  /**
   * An entry with exactly one ":" is host and port around it, the port as text; this holds
   * for a bracketed host as well, which then keeps its brackets.
   */
  lemma EntryOneColon(host: string, port: string, portIn: Port)
    requires ':' !in host && ':' !in port
    ensures GetHostPort(host + ":" + port, portIn) == HostPort(host, PortText(port))
  {
    var e := host + ":" + port;
    assert e[..|host|] == host && e[|host| + 1..] == port;
    assert OccursAt(e, ":", |host|) by { assert e[|host|..|host| + 1] == ":"; }
    IndexOfAt(e, ":", |host|);
    LastIndexOfAt(e, ":", |host|);
    assert IndexOf(e, ":") == |host|;
    assert LastIndexOf(e, ":") == |host|;
    assert Substring(e, 0, |host|) == host;
    assert Substring(e, |host| + 1, |e|) == port;
  }

  /** An entry with several ":" and no "[" is a bare IPv6 host, and the port asked for is kept. */
  lemma EntrySeveralColons(entry: string, portIn: Port, i: nat, j: nat)
    requires i < j < |entry| && entry[i] == ':' && entry[j] == ':' && '[' !in entry
    ensures GetHostPort(entry, portIn) == HostPort(entry, portIn)
  {
    OccursAtChar(entry, ':', i);
    OccursAtChar(entry, ':', j);
    IndexOfChar(entry, '[');
    assert IndexOf(entry, ":") <= i < j <= LastIndexOf(entry, ":");
  }

  /**
   * `[h]:p`, where h holds at least two ":" and p holds no "]", gives host h and port p as
   * text; with p empty the port asked for is kept.
   */
  lemma EntryBracketed(host: string, port: string, portIn: Port, i: nat, j: nat)
    requires i < j < |host| && host[i] == ':' && host[j] == ':' && ']' !in port
    ensures GetHostPort("[" + host + "]:" + port, portIn)
         == HostPort(host, if port == "" then portIn else PortText(port))
  {
    var e := "[" + host + "]:" + port;
    assert e[i + 1] == ':' && e[j + 1] == ':';
    ColonsApart(e, i + 1, j + 1);
    BracketedIndexes(e, host, port);
    assert BracketEntry(e, portIn) == HostPort(host, if port == "" then portIn else PortText(port));
  }

  /** Two ":" at different places: the first and the last differ. */
  lemma ColonsApart(e: string, a: nat, b: nat)
    requires a < b < |e| && e[a] == ':' && e[b] == ':'
    ensures IndexOf(e, ":") != -1 && IndexOf(e, ":") != LastIndexOf(e, ":")
  {
    OccursAtChar(e, ':', a);
    OccursAtChar(e, ':', b);
    assert IndexOf(e, ":") <= a < b <= LastIndexOf(e, ":");
  }

  /** Where the brackets of `[h]:p` are, when p holds no "]". */
  lemma BracketedIndexes(e: string, host: string, port: string)
    requires e == "[" + host + "]:" + port && ']' !in port
    ensures IndexOf(e, "[") == 0
    ensures LastIndexOf(e, "]:") == |host| + 1 && LastIndexOf(e, "]") == |host| + 1
    ensures Substring(e, 1, |host| + 1) == host && Substring(e, |host| + 3, |e|) == port
  {
    var k := |host| + 1;
    assert e[k + 1..] == ":" + port;
    assert e[k + 2..] == port;
    assert e[1..k] == host;
    assert OccursAt(e, "[", 0) by { assert e[0..1] == "["; }
    assert OccursAt(e, "]:", k) by { assert e[k..k + 2] == "]:"; }
    assert OccursAt(e, "]", k) by { assert e[k..k + 1] == "]"; }
    LastIndexOfAt(e, "]:", k);
    LastIndexOfAt(e, "]", k);
  }

  /**
   * `[h]` with no port, where h holds at least two ":" and no "]": the host is h, but the
   * port is the text from index 1 on, h followed by "]", because lastIndexOf("]:") is -1.
   */
  lemma EntryBracketedNoPort(host: string, portIn: Port, i: nat, j: nat)
    requires i < j < |host| && host[i] == ':' && host[j] == ':' && ']' !in host
    ensures GetHostPort("[" + host + "]", portIn) == HostPort(host, PortText(host + "]"))
  {
    var e := "[" + host + "]";
    var k := |host| + 1;
    assert e[1..k] == host && e[1..] == host + "]";
    assert e[i + 1] == ':' && e[j + 1] == ':';
    OccursAtChar(e, ':', i + 1);
    OccursAtChar(e, ':', j + 1);
    assert IndexOf(e, ":") <= i + 1 < j + 1 <= LastIndexOf(e, ":");
    assert OccursAt(e, "[", 0) by { assert e[0..1] == "["; }
    assert OccursAt(e, "]", k) by { assert e[k..k + 1] == "]"; }
    LastIndexOfAt(e, "]", k);
    NoCloseColon(host);
    BracketedTwoColons(e, portIn);
    BracketNoPort(e, host, portIn);
  }

  /** A bracketed entry with two ":" or more is read by the bracket test alone. */
  lemma BracketedTwoColons(e: string, portIn: Port)
    requires IndexOf(e, "[") != -1 && IndexOf(e, ":") != -1 && IndexOf(e, ":") != LastIndexOf(e, ":")
    ensures GetHostPort(e, portIn) == BracketEntry(e, portIn)
  {
  }

  /** `[h]` with no "]:": the host between the brackets, the port from index 1 on. */
  lemma BracketNoPort(e: string, host: string, portIn: Port)
    requires |e| == |host| + 2 && e[1..|host| + 1] == host && e[1..] == host + "]"
    requires LastIndexOf(e, "]:") == -1 && LastIndexOf(e, "]") == |host| + 1
    ensures BracketEntry(e, portIn) == HostPort(host, PortText(host + "]"))
  {
    assert Substring(e, 1, |host| + 1) == host;
    assert Substring(e, 1, |e|) == host + "]";
  }

  /** "]:" does not occur in `[h]` when h holds no "]". */
  lemma NoCloseColon(host: string)
    requires ']' !in host
    ensures LastIndexOf("[" + host + "]", "]:") == -1
  {
    var e := "[" + host + "]";
    forall c | 0 <= c
      ensures !OccursAt(e, "]:", c)
    {
      if c + 2 <= |e| {
        assert e[c..c + 2][0] == e[c];
        assert c == 0 || e[c] == host[c - 1];
      }
    }
  }
}
