/** Two derivations of the node list: the flat list of the configuration
    (internal/config/config.go) and the host maps of the Ansible inventory
    (internal/ansible/inventory.go). */
module Topology {
  import opened Text

  datatype NodeDetail = NodeDetail(
    name: string, ip: string, ipMain: string,
    mac: string, macInternal: string, macMain: string, macWAN: string)

  datatype NodeSpec = NodeSpec(name: string, ip: string, mac: string)

  /** count and baseOctet are what the file says, of either sign. */
  datatype Nodes = Nodes(
    router: NodeDetail, jumpstart: NodeDetail, masters: seq<NodeDetail>, workers: seq<NodeDetail>,
    storage: NodeDetail, monitor: NodeDetail, balancers: seq<NodeDetail>, frontends: seq<NodeDetail>,
    count: int, baseOctet: int)

  /* ---- Generated hotdesks ---- */

  function Digit(d: nat): char
    requires d < 16
  {
    if d < 10 then '0' + d as char else 'a' + (d - 10) as char
  }

  /** A number as %x or %d prints it. */
  function Digits(n: nat, hex: bool): (s: string)
    ensures s != ""
  {
    var base := if hex then 16 else 10;
    if n < base then [Digit(n)]
    else if hex then Digits(n / 16, hex) + [Digit(n % 16)]
    else Digits(n / 10, hex) + [Digit(n % 10)]
  }

  /** At least two hexadecimal digits, as %02x prints them. */
  function Hex2(n: nat): string {
    if n < 16 then "0" + Digits(n, true) else Digits(n, true)
  }

  /** PrefixFromCIDR: the first three octets of the network. */
  function Prefix(cidr: string, fallback: string): string {
    var parts := Split(cidr, '.');
    if |parts| >= 3 then parts[0] + "." + parts[1] + "." + parts[2] + "." else fallback
  }

  /** The prefix of a dotted network is its first three parts with their dots. */
  lemma PrefixOfNetwork(a: string, b: string, c: string, rest: string, fallback: string)
    requires '.' !in a && '.' !in b && '.' !in c
    ensures Prefix(a + "." + b + "." + c + "." + rest, fallback) == a + "." + b + "." + c + "."
  {
    var tail := c + ['.'] + rest;
    SplitCons(c, rest, '.');
    SplitCons(b, tail, '.');
    SplitCons(a, b + ['.'] + tail, '.');
    DotsAre(a, b, c, rest);
    var parts := Split(a + "." + b + "." + c + "." + rest, '.');
    assert parts[0] == a && parts[1] == b && parts[2] == c;
  }

  /** Three parts are enough, and with fewer the fallback is taken. */
  lemma PrefixOfParts(a: string, b: string, c: string, fallback: string)
    requires '.' !in a && '.' !in b && '.' !in c
    ensures Prefix(a + ['.'] + (b + ['.'] + c), fallback) == a + "." + b + "." + c + "."
    ensures Prefix(a + ['.'] + b, fallback) == fallback && Prefix(a, fallback) == fallback
  {
    SplitCons(a, b + ['.'] + c, '.');
    SplitCons(b, c, '.');
    SplitCons(a, b, '.');
    SplitWhole(a, '.');
    SplitWhole(b, '.');
    SplitWhole(c, '.');
  }

  lemma DotsAre(a: string, b: string, c: string, rest: string)
    ensures a + "." + b + "." + c + "." + rest == a + ['.'] + (b + ['.'] + (c + ['.'] + rest))
  {
  }

  function Octet(baseOctet: int, i: nat): (octet: nat)
    requires i >= 1
    ensures octet >= 1
  {
    if baseOctet > 0 && baseOctet != 201 then baseOctet + i - 1 else 200 + i
  }

  function HotdeskName(i: nat): string {
    "main-hotdesk" + Digits(i, false)
  }

  const MAC_PREFIX := "52:54:00:10:02:"

  function Hotdesk(prefix: string, baseOctet: int, i: nat): NodeSpec
    requires i >= 1
  {
    var octet := Octet(baseOctet, i);
    NodeSpec(HotdeskName(i), prefix + Digits(octet, false), MAC_PREFIX + Hex2(octet))
  }

  function Hotdesks(c: Nodes, prefix: string, n: nat): seq<NodeSpec> {
    if n == 0 then [] else Hotdesks(c, prefix, n - 1) + [Hotdesk(prefix, c.baseOctet, n)]
  }

  function HotdeskCount(c: Nodes): nat {
    if c.count > 0 then c.count else 0
  }

  method HotdeskSpecs(c: Nodes, cidr: string) returns (nodes: seq<NodeSpec>)
    ensures nodes == Hotdesks(c, Prefix(cidr, "192.168.20."), HotdeskCount(c))
  {
    var prefix := Prefix(cidr, "192.168.20.");
    nodes := [];
    var i := 1;
    while i <= c.count
      invariant 1 <= i <= HotdeskCount(c) + 1
      invariant nodes == Hotdesks(c, prefix, i - 1)
    {
      nodes := nodes + [Hotdesk(prefix, c.baseOctet, i)];
      i := i + 1;
    }
  }

  /** The range check of Validate. */
  predicate RangeOk(baseOctet: int, count: int) {
    count <= 0 || (if baseOctet == 0 || baseOctet == 201 then 201 else baseOctet) + count - 1 <= 254
  }

  /** Validate also parses every generated address, and no octet above 255 parses. */
  predicate Accepts(baseOctet: int, count: int) {
    RangeOk(baseOctet, count) && forall i | 1 <= i <= count :: Octet(baseOctet, i) <= 255
  }

  predicate HostOctets(baseOctet: int, count: int) {
    forall i | 1 <= i <= count :: 1 <= Octet(baseOctet, i) <= 254
  }

  /** The check and the generator read a negative base differently: the range check alone
      guarantees host octets exactly for a base that is not negative, or few hotdesks. */
  lemma RangeCheckIsExact(baseOctet: int, count: int)
    requires RangeOk(baseOctet, count)
    ensures HostOctets(baseOctet, count) <==> baseOctet >= 0 || count <= 54
  {
    if count >= 1 {
      assert Octet(baseOctet, count) <= 254 <==> baseOctet >= 0 || count <= 54;
    }
  }

  /** What the whole of Validate lets through: only a negative base with 55 hotdesks gets
      an octet (255) that no host may have. */
  lemma OnlyOneRangeSlips(baseOctet: int, count: int)
    requires Accepts(baseOctet, count)
    ensures HostOctets(baseOctet, count) <==> !(baseOctet < 0 && count == 55)
  {
    RangeCheckIsExact(baseOctet, count);
    if count >= 56 {
      assert Octet(baseOctet, 56) <= 255;
    }
  }

  function DigitValue(c: char): int {
    if c <= '9' then c as int - '0' as int else c as int - 'a' as int + 10
  }

  function NumberOf(s: string, base: nat): int {
    if s == "" then 0 else NumberOf(s[..|s| - 1], base) * base + DigitValue(s[|s| - 1])
  }

  lemma {:induction false} DecimalReadsBack(n: nat)
    ensures NumberOf(Digits(n, false), 10) == n
  {
    var s := Digits(n, false);
    if n < 10 {
      assert s[..0] == "";
    } else {
      DecimalReadsBack(n / 10);
      assert s[..|s| - 1] == Digits(n / 10, false);
    }
  }

  lemma {:induction false} HexReadsBack(n: nat)
    ensures NumberOf(Digits(n, true), 16) == n
  {
    var s := Digits(n, true);
    if n < 16 {
      assert s[..0] == "";
    } else {
      HexReadsBack(n / 16);
      assert s[..|s| - 1] == Digits(n / 16, true);
    }
  }

  lemma Hex2ReadsBack(n: nat)
    ensures NumberOf(Hex2(n), 16) == n
  {
    HexReadsBack(n);
    if n < 16 {
      assert Hex2(n)[..1] == "0" && "0"[..0] == "";
    }
  }

  /** Different hotdesks have different names, addresses and MACs. */
  lemma HotdesksDiffer(prefix: string, baseOctet: int, i: nat, j: nat)
    requires i >= 1 && j >= 1 && i != j
    ensures var a, b := Hotdesk(prefix, baseOctet, i), Hotdesk(prefix, baseOctet, j);
            a.name != b.name && a.ip != b.ip && a.mac != b.mac
  {
    var m, n := Octet(baseOctet, i), Octet(baseOctet, j);
    DecimalReadsBack(i);
    DecimalReadsBack(j);
    SuffixesDiffer("main-hotdesk", Digits(i, false), Digits(j, false));
    DecimalReadsBack(m);
    DecimalReadsBack(n);
    SuffixesDiffer(prefix, Digits(m, false), Digits(n, false));
    Hex2ReadsBack(m);
    Hex2ReadsBack(n);
    SuffixesDiffer(MAC_PREFIX, Hex2(m), Hex2(n));
  }

  lemma SuffixesDiffer(p: string, a: string, b: string)
    requires a != b
    ensures p + a != p + b
  {
    assert (p + a)[|p|..] == a && (p + b)[|p|..] == b;
  }

  /** The i-th hotdesk's address and MAC end in the same number, the base octet and up, in
      decimal and in hexadecimal; a base that is 0, 201 or negative starts at 201. */
  lemma HotdeskIs(c: Nodes, prefix: string, n: nat, i: nat)
    requires 1 <= i <= n
    ensures |Hotdesks(c, prefix, n)| == n
    ensures var h := Hotdesks(c, prefix, n)[i - 1];
            var octet := (if c.baseOctet <= 0 then 201 else c.baseOctet) + i - 1;
            && "main-hotdesk" <= h.name && NumberOf(h.name[|"main-hotdesk"|..], 10) == i
            && prefix <= h.ip && NumberOf(h.ip[|prefix|..], 10) == octet
            && MAC_PREFIX <= h.mac && NumberOf(h.mac[|MAC_PREFIX|..], 16) == octet
            && |h.mac| >= |MAC_PREFIX| + 2
  {
    if i == n {
      HotdeskCountIs(c, prefix, n);
      DecimalReadsBack(i);
      DecimalReadsBack(Octet(c.baseOctet, i));
      Hex2ReadsBack(Octet(c.baseOctet, i));
      HexHasTwo(Octet(c.baseOctet, i));
    } else {
      HotdeskIs(c, prefix, n - 1, i);
    }
  }

  lemma {:induction false} HotdeskCountIs(c: Nodes, prefix: string, n: nat)
    ensures |Hotdesks(c, prefix, n)| == n
  {
    if n > 0 {
      HotdeskCountIs(c, prefix, n - 1);
    }
  }

  /** There are as many as the configuration asks for. */
  lemma AllHotdesks(c: Nodes, prefix: string)
    ensures |Hotdesks(c, prefix, HotdeskCount(c))| == if c.count >= 1 then c.count else 0
  {
    HotdeskCountIs(c, prefix, HotdeskCount(c));
  }

  lemma HexHasTwo(n: nat)
    ensures |Hex2(n)| >= 2
  {
  }

  /* ---- The flat list ---- */

  function ToSpec(n: NodeDetail, fallback: string): NodeSpec {
    NodeSpec(n.name, if n.ip == "" then fallback else n.ip,
             if n.mac != "" then n.mac else if n.macInternal != "" then n.macInternal else n.macMain)
  }

  function Specs(ns: seq<NodeDetail>): seq<NodeSpec> {
    if ns == [] then [] else Specs(ns[..|ns| - 1]) + [ToSpec(ns[|ns| - 1], "")]
  }

  function InternalSpecs(c: Nodes): seq<NodeSpec> {
    [ToSpec(c.router, ""), ToSpec(c.jumpstart, c.jumpstart.ip)] + Specs(c.masters) + Specs(c.workers)
    + [ToSpec(c.storage, ""), ToSpec(c.monitor, "")]
  }

  /** The jumpstart comes first, when it has a second address. */
  function MainSpecs(c: Nodes, hotdesks: seq<NodeSpec>): seq<NodeSpec> {
    (if c.jumpstart.ipMain == "" then []
     else [ToSpec(c.jumpstart, c.jumpstart.ipMain).(mac := c.jumpstart.macMain)])
    + Specs(c.balancers) + Specs(c.frontends) + hotdesks
  }

  /** The jumpstart stands in the list of the main network when it has an address there, and
      with its MAC there; but its address is that one only if it has no other. */
  lemma JumpstartOnMain(c: Nodes, hotdesks: seq<NodeSpec>)
    requires c.jumpstart.ipMain != ""
    ensures var js := MainSpecs(c, hotdesks)[0];
            && js.name == c.jumpstart.name && js.mac == c.jumpstart.macMain
            && (js.ip == c.jumpstart.ipMain <==> c.jumpstart.ip in {"", c.jumpstart.ipMain})
  {
  }

  function SkipName(specs: seq<NodeSpec>, name: string): seq<NodeSpec> {
    if specs == [] then []
    else SkipName(specs[..|specs| - 1], name) + if specs[|specs| - 1].name == name then [] else [specs[|specs| - 1]]
  }

  function AllSpecs(c: Nodes, hotdesks: seq<NodeSpec>): seq<NodeSpec> {
    InternalSpecs(c) + SkipName(MainSpecs(c, hotdesks), c.jumpstart.name)
  }

  method AppendSpecs(nodes: seq<NodeSpec>, ns: seq<NodeDetail>) returns (r: seq<NodeSpec>)
    ensures r == nodes + Specs(ns)
  {
    r := nodes;
    for i := 0 to |ns|
      invariant r == nodes + Specs(ns[..i])
    {
      assert ns[..i + 1][..i] == ns[..i];
      r := r + [ToSpec(ns[i], "")];
    }
    assert ns[..|ns|] == ns;
  }

  method InternalNodes(c: Nodes) returns (nodes: seq<NodeSpec>)
    ensures nodes == InternalSpecs(c)
  {
    nodes := AppendSpecs([ToSpec(c.router, ""), ToSpec(c.jumpstart, c.jumpstart.ip)], c.masters);
    nodes := AppendSpecs(nodes, c.workers);
    nodes := nodes + [ToSpec(c.storage, ""), ToSpec(c.monitor, "")];
  }

  method MainNodes(c: Nodes, cidr: string) returns (nodes: seq<NodeSpec>)
    ensures nodes == MainSpecs(c, Hotdesks(c, Prefix(cidr, "192.168.20."), HotdeskCount(c)))
  {
    nodes := [];
    if c.jumpstart.ipMain != "" {
      nodes := [ToSpec(c.jumpstart, c.jumpstart.ipMain).(mac := c.jumpstart.macMain)];
    }
    nodes := AppendSpecs(nodes, c.balancers);
    nodes := AppendSpecs(nodes, c.frontends);
    var hotdesks := HotdeskSpecs(c, cidr);
    nodes := nodes + hotdesks;
  }

  method AllNodes(c: Nodes, cidr: string) returns (all: seq<NodeSpec>)
    ensures all == AllSpecs(c, Hotdesks(c, Prefix(cidr, "192.168.20."), HotdeskCount(c)))
  {
    var internal := InternalNodes(c);
    var main := MainNodes(c, cidr);
    all := AppendOthers(internal, main, c.jumpstart.name);
  }

  /** The jumpstart is not listed twice. */
  method AppendOthers(nodes: seq<NodeSpec>, main: seq<NodeSpec>, name: string) returns (r: seq<NodeSpec>)
    ensures r == nodes + SkipName(main, name)
  {
    r := nodes;
    for i := 0 to |main|
      invariant r == nodes + SkipName(main[..i], name)
    {
      SkipNext(main, name, i);
      if main[i].name != name {
        r := r + [main[i]];
      }
    }
    assert main[..|main|] == main;
  }

  lemma SkipNext(specs: seq<NodeSpec>, name: string, i: nat)
    requires i < |specs|
    ensures SkipName(specs[..i + 1], name)
            == SkipName(specs[..i], name) + if specs[i].name == name then [] else [specs[i]]
  {
    assert specs[..i + 1][..i] == specs[..i];
  }

  /* ---- The inventory ---- */

  datatype Interface = Interface(network: string, mac: string)

  datatype HostVars = HostVars(address: string, interfaces: seq<Interface>)

  datatype Host = Host(name: string, vars: HostVars)

  function Nic(network: string, mac: string): seq<Interface> {
    if mac == "" then [] else [Interface(network, mac)]
  }

  function Interfaces(n: NodeDetail, primary: string): seq<Interface> {
    var ifs := Nic("internal", n.macInternal) + Nic("main", n.macMain) + Nic("default", n.macWAN);
    if ifs == [] then Nic(primary, n.mac) else ifs
  }

  function Vars(n: NodeDetail, primary: string): HostVars {
    HostVars(if n.ip == "" && primary == "main" then n.ipMain else n.ip, Interfaces(n, primary))
  }

  function HostOf(n: NodeDetail, primary: string): Host {
    Host(n.name, Vars(n, primary))
  }

  function Hosts(ns: seq<NodeDetail>, primary: string): seq<Host> {
    if ns == [] then []
    else Hosts(ns[..|ns| - 1], primary) + [HostOf(ns[|ns| - 1], primary)]
  }

  function HotdeskHosts(specs: seq<NodeSpec>): seq<Host> {
    if specs == [] then []
    else
      var hd := specs[|specs| - 1];
      HotdeskHosts(specs[..|specs| - 1]) + [Host(hd.name, HostVars(hd.ip, [Interface("main", hd.mac)]))]
  }

  function InternalHosts(c: Nodes): seq<Host> {
    Hosts([c.router, c.jumpstart], "internal") + Hosts(c.masters, "internal") + Hosts(c.workers, "internal")
    + Hosts([c.storage, c.monitor], "internal")
  }

  function MainHosts(c: Nodes, hotdesks: seq<NodeSpec>): seq<Host> {
    Hosts(c.balancers, "main") + Hosts(c.frontends, "main") + HotdeskHosts(hotdesks)
  }

  /** Entries set in order: a later one with the same name wins. */
  function MapOf(hosts: seq<Host>): map<string, HostVars> {
    if hosts == [] then map[]
    else MapOf(hosts[..|hosts| - 1])[hosts[|hosts| - 1].name := hosts[|hosts| - 1].vars]
  }

  method Fill(m: map<string, HostVars>, ns: seq<NodeDetail>, primary: string, ghost before: seq<Host>)
    returns (r: map<string, HostVars>)
    requires m == MapOf(before)
    ensures r == MapOf(before + Hosts(ns, primary))
  {
    r := m;
    assert before + [] == before;
    for i := 0 to |ns|
      invariant r == MapOf(before + Hosts(ns[..i], primary))
    {
      HostsNext(before, ns, primary, i);
      MapOfNext(before + Hosts(ns[..i], primary), HostOf(ns[i], primary));
      r := r[ns[i].name := Vars(ns[i], primary)];
    }
    assert ns[..|ns|] == ns;
  }

  lemma HostsNext(before: seq<Host>, ns: seq<NodeDetail>, primary: string, i: nat)
    requires i < |ns|
    ensures before + Hosts(ns[..i + 1], primary)
            == before + Hosts(ns[..i], primary) + [HostOf(ns[i], primary)]
  {
    assert ns[..i + 1][..i] == ns[..i];
  }

  lemma MapOfNext(hosts: seq<Host>, host: Host)
    ensures MapOf(hosts + [host]) == MapOf(hosts)[host.name := host.vars]
  {
    assert (hosts + [host])[..|hosts|] == hosts;
  }

  method Render(c: Nodes, cidr: string) returns (internal: map<string, HostVars>, main: map<string, HostVars>)
    ensures internal == MapOf(InternalHosts(c))
    ensures main == MapOf(MainHosts(c, Hotdesks(c, Prefix(cidr, "192.168.20."), HotdeskCount(c))))
  {
    internal := Fill(map[], [c.router, c.jumpstart], "internal", []);
    ghost var done := Hosts([c.router, c.jumpstart], "internal");
    assert [] + done == done;
    internal := Fill(internal, c.masters, "internal", done);
    done := done + Hosts(c.masters, "internal");
    internal := Fill(internal, c.workers, "internal", done);
    done := done + Hosts(c.workers, "internal");
    internal := Fill(internal, [c.storage, c.monitor], "internal", done);
    main := Fill(map[], c.balancers, "main", []);
    done := Hosts(c.balancers, "main");
    assert [] + done == done;
    main := Fill(main, c.frontends, "main", done);
    done := done + Hosts(c.frontends, "main");
    var hotdesks := HotdeskSpecs(c, cidr);
    main := FillHotdesks(main, hotdesks, done);
  }

  method FillHotdesks(m: map<string, HostVars>, hotdesks: seq<NodeSpec>, ghost before: seq<Host>)
    returns (r: map<string, HostVars>)
    requires m == MapOf(before)
    ensures r == MapOf(before + HotdeskHosts(hotdesks))
  {
    r := m;
    assert before + [] == before;
    for i := 0 to |hotdesks|
      invariant r == MapOf(before + HotdeskHosts(hotdesks[..i]))
    {
      var hd := hotdesks[i];
      var vars := HostVars(hd.ip, [Interface("main", hd.mac)]);
      assert hotdesks[..i + 1][..i] == hotdesks[..i];
      assert before + HotdeskHosts(hotdesks[..i + 1]) == before + HotdeskHosts(hotdesks[..i]) + [Host(hd.name, vars)];
      MapOfNext(before + HotdeskHosts(hotdesks[..i]), Host(hd.name, vars));
      r := r[hd.name := vars];
    }
    assert hotdesks[..|hotdesks|] == hotdesks;
  }

  /* ---- The two agree ---- */

  predicate DistinctNames(hosts: seq<Host>) {
    forall i, j | 0 <= i < j < |hosts| :: hosts[i].name != hosts[j].name
  }

  /** A host map holds exactly its entries when no two share a name. */
  lemma {:induction false} MapOfDistinct(hosts: seq<Host>)
    requires DistinctNames(hosts)
    ensures forall i :: 0 <= i < |hosts| ==> hosts[i].name in MapOf(hosts) && MapOf(hosts)[hosts[i].name] == hosts[i].vars
    ensures forall name :: name in MapOf(hosts) ==> exists i :: 0 <= i < |hosts| && hosts[i].name == name
  {
    if hosts != [] {
      var front, last := hosts[..|hosts| - 1], hosts[|hosts| - 1];
      assert forall i :: 0 <= i < |front| ==> front[i] == hosts[i];
      MapOfDistinct(front);
      forall name | name in MapOf(hosts) ensures exists i :: 0 <= i < |hosts| && hosts[i].name == name {
        if name == last.name {
          assert hosts[|hosts| - 1].name == name;
        } else {
          assert name in MapOf(front);
          var i :| 0 <= i < |front| && front[i].name == name;
          assert hosts[i].name == name;
        }
      }
    }
  }

  lemma {:induction false} MapOfBoth(a: seq<Host>, b: seq<Host>)
    ensures MapOf(a + b) == MapOf(a) + MapOf(b)
  {
    if b == [] {
      assert a + b == a;
    } else {
      MapOfBoth(a, b[..|b| - 1]);
      assert (a + b)[..|a + b| - 1] == a + b[..|b| - 1];
    }
  }

  /** The i-th entries name the same node. */
  predicate SameNames(specs: seq<NodeSpec>, hosts: seq<Host>) {
    |specs| == |hosts| && forall i | 0 <= i < |specs| :: specs[i].name == hosts[i].name
  }

  /** and give it the same address. */
  predicate SameAddresses(specs: seq<NodeSpec>, hosts: seq<Host>)
    requires |specs| == |hosts|
  {
    forall i | 0 <= i < |specs| :: SameAddress(specs[i], hosts[i])
  }

  predicate SameAddress(spec: NodeSpec, host: Host) {
    spec.ip == host.vars.address
  }

  lemma SameAppend(a: seq<NodeSpec>, x: seq<Host>, b: seq<NodeSpec>, y: seq<Host>)
    requires SameNames(a, x) && SameNames(b, y)
    ensures SameNames(a + b, x + y)
    ensures SameAddresses(a + b, x + y) <==> SameAddresses(a, x) && SameAddresses(b, y)
  {
    if SameAddresses(a + b, x + y) {
      SplitAddresses(a, x, b, y);
    }
  }

  lemma SplitAddresses(a: seq<NodeSpec>, x: seq<Host>, b: seq<NodeSpec>, y: seq<Host>)
    requires |a| == |x| && |b| == |y| && SameAddresses(a + b, x + y)
    ensures SameAddresses(a, x) && SameAddresses(b, y)
  {
    forall i | 0 <= i < |a| ensures SameAddress(a[i], x[i]) {
      assert SameAddress((a + b)[i], (x + y)[i]);
    }
    forall i | 0 <= i < |b| ensures SameAddress(b[i], y[i]) {
      assert SameAddress((a + b)[|a| + i], (x + y)[|x| + i]);
    }
  }

  /** The flat list ignores the second address of a node on the main network. */
  predicate OneAddress(n: NodeDetail) {
    n.ip != "" || n.ipMain == ""
  }

  predicate AllOneAddress(ns: seq<NodeDetail>) {
    forall i | 0 <= i < |ns| :: OneAddress(ns[i])
  }

  lemma {:induction false} SpecsMatchHosts(ns: seq<NodeDetail>, primary: string)
    ensures SameNames(Specs(ns), Hosts(ns, primary))
    ensures SameAddresses(Specs(ns), Hosts(ns, primary)) <==> primary != "main" || AllOneAddress(ns)
  {
    if ns != [] {
      var front, last := ns[..|ns| - 1], ns[|ns| - 1];
      SpecsMatchHosts(front, primary);
      OneMatches(last, primary);
      SameAppend(Specs(front), Hosts(front, primary), [ToSpec(last, "")], [HostOf(last, primary)]);
      LastOneAddress(ns);
    }
  }

  lemma OneMatches(n: NodeDetail, primary: string)
    ensures SameNames([ToSpec(n, "")], [HostOf(n, primary)])
    ensures SameAddresses([ToSpec(n, "")], [HostOf(n, primary)]) <==> primary != "main" || OneAddress(n)
  {
    assert [ToSpec(n, "")][0] == ToSpec(n, "") && [HostOf(n, primary)][0] == HostOf(n, primary);
  }

  lemma LastOneAddress(ns: seq<NodeDetail>)
    requires ns != []
    ensures AllOneAddress(ns) <==> AllOneAddress(ns[..|ns| - 1]) && OneAddress(ns[|ns| - 1])
  {
    if AllOneAddress(ns) {
      assert forall i :: 0 <= i < |ns| - 1 ==> ns[..|ns| - 1][i] == ns[i];
    }
  }

  lemma {:induction false} HotdesksMatchHosts(specs: seq<NodeSpec>)
    ensures SameNames(specs, HotdeskHosts(specs)) && SameAddresses(specs, HotdeskHosts(specs))
  {
    if specs != [] {
      var front, hd := specs[..|specs| - 1], specs[|specs| - 1];
      HotdesksMatchHosts(front);
      SameAppend(front, HotdeskHosts(front), [hd], [Host(hd.name, HostVars(hd.ip, [Interface("main", hd.mac)]))]);
      assert specs == front + [hd];
    }
  }

  lemma InternalMatches(c: Nodes)
    ensures SameNames(InternalSpecs(c), InternalHosts(c)) && SameAddresses(InternalSpecs(c), InternalHosts(c))
  {
    var head, tail := [c.router, c.jumpstart], [c.storage, c.monitor];
    PairSpecs(c.router, c.jumpstart);
    PairSpecs(c.storage, c.monitor);
    SpecsMatchHosts(head, "internal");
    SpecsMatchHosts(c.masters, "internal");
    SpecsMatchHosts(c.workers, "internal");
    SpecsMatchHosts(tail, "internal");
    SameAppend(Specs(head), Hosts(head, "internal"), Specs(c.masters), Hosts(c.masters, "internal"));
    var specs := Specs(head) + Specs(c.masters);
    var hosts := Hosts(head, "internal") + Hosts(c.masters, "internal");
    SameAppend(specs, hosts, Specs(c.workers), Hosts(c.workers, "internal"));
    SameAppend(specs + Specs(c.workers), hosts + Hosts(c.workers, "internal"), Specs(tail), Hosts(tail, "internal"));
  }

  lemma PairSpecs(a: NodeDetail, b: NodeDetail)
    ensures Specs([a, b]) == [ToSpec(a, ""), ToSpec(b, "")] == [ToSpec(a, ""), ToSpec(b, b.ip)]
  {
    assert [a][..0] == [] && Specs([a]) == [] + [ToSpec(a, "")];
    assert [a, b][..1] == [a];
  }

  /** The nodes of the main network besides the jumpstart. */
  function MainOthers(c: Nodes, hotdesks: seq<NodeSpec>): seq<NodeSpec> {
    Specs(c.balancers) + Specs(c.frontends) + hotdesks
  }

  lemma MainMatches(c: Nodes, hotdesks: seq<NodeSpec>)
    ensures SameNames(MainOthers(c, hotdesks), MainHosts(c, hotdesks))
    ensures SameAddresses(MainOthers(c, hotdesks), MainHosts(c, hotdesks))
            <==> AllOneAddress(c.balancers) && AllOneAddress(c.frontends)
  {
    SpecsMatchHosts(c.balancers, "main");
    SpecsMatchHosts(c.frontends, "main");
    HotdesksMatchHosts(hotdesks);
    var specs, hosts := Specs(c.balancers) + Specs(c.frontends), Hosts(c.balancers, "main") + Hosts(c.frontends, "main");
    SameAppend(Specs(c.balancers), Hosts(c.balancers, "main"), Specs(c.frontends), Hosts(c.frontends, "main"));
    SameAppend(specs, hosts, hotdesks, HotdeskHosts(hotdesks));
  }

  lemma {:induction false} SkipNone(specs: seq<NodeSpec>, name: string)
    requires forall i :: 0 <= i < |specs| ==> specs[i].name != name
    ensures SkipName(specs, name) == specs
  {
    if specs != [] {
      SkipNone(specs[..|specs| - 1], name);
    }
  }

  lemma {:induction false} SkipFirst(first: NodeSpec, rest: seq<NodeSpec>, name: string)
    requires first.name == name
    ensures SkipName([first] + rest, name) == SkipName(rest, name)
  {
    var all := [first] + rest;
    if rest == [] {
      assert all == [first] && [first][..0] == [];
    } else {
      SkipFirst(first, rest[..|rest| - 1], name);
      assert all[..|all| - 1] == [first] + rest[..|rest| - 1];
    }
  }

  lemma AllSpecsAre(c: Nodes, hotdesks: seq<NodeSpec>)
    requires forall i :: 0 <= i < |MainOthers(c, hotdesks)| ==> MainOthers(c, hotdesks)[i].name != c.jumpstart.name
    ensures AllSpecs(c, hotdesks) == InternalSpecs(c) + MainOthers(c, hotdesks)
  {
    SkipNone(MainOthers(c, hotdesks), c.jumpstart.name);
    MainSpecsAre(c, hotdesks);
    if c.jumpstart.ipMain != "" {
      SkipFirst(MainSpecs(c, hotdesks)[0], MainOthers(c, hotdesks), c.jumpstart.name);
    }
  }

  lemma MainSpecsAre(c: Nodes, hotdesks: seq<NodeSpec>)
    ensures var main := MainSpecs(c, hotdesks);
            if c.jumpstart.ipMain == "" then main == MainOthers(c, hotdesks)
            else main != [] && main[0].name == c.jumpstart.name && main == [main[0]] + MainOthers(c, hotdesks)
  {
    var js := ToSpec(c.jumpstart, c.jumpstart.ipMain).(mac := c.jumpstart.macMain);
    var a, b := Specs(c.balancers), Specs(c.frontends);
    Regroup([js], a, b);
    Regroup([js], a + b, hotdesks);
    assert [] + a == a;
    assert [] + MainOthers(c, hotdesks) == MainOthers(c, hotdesks);
  }

  /** For distinct names, the internal and main host maps are disjoint and hold exactly the
      nodes of the flat list; and every address is the same exactly when each balancer and
      frontend has an address of its own, since only the inventory falls back to the main one. */
  lemma SameTopology(c: Nodes, hotdesks: seq<NodeSpec>)
    requires DistinctNames(InternalHosts(c) + MainHosts(c, hotdesks))
    ensures var internal, main, all := MapOf(InternalHosts(c)), MapOf(MainHosts(c, hotdesks)), AllSpecs(c, hotdesks);
            && internal.Keys !! main.Keys
            && (forall i :: 0 <= i < |all| ==> all[i].name in internal + main)
            && (forall name :: name in internal + main ==> exists i :: 0 <= i < |all| && all[i].name == name)
            && ((forall i :: 0 <= i < |all| ==> (internal + main)[all[i].name].address == all[i].ip)
                <==> AllOneAddress(c.balancers) && AllOneAddress(c.frontends))
  {
    var a, b := InternalHosts(c), MainHosts(c, hotdesks);
    ListsMatch(c, hotdesks);
    MapHoldsList(AllSpecs(c, hotdesks), a + b);
    MapOfBoth(a, b);
    KeysAreDisjoint(a, b);
  }

  lemma MapHoldsList(all: seq<NodeSpec>, hosts: seq<Host>)
    requires SameNames(all, hosts) && DistinctNames(hosts)
    ensures forall i :: 0 <= i < |all| ==> all[i].name in MapOf(hosts)
    ensures forall name :: name in MapOf(hosts) ==> exists i :: 0 <= i < |all| && all[i].name == name
    ensures (forall i :: 0 <= i < |all| ==> MapOf(hosts)[all[i].name].address == all[i].ip) <==> SameAddresses(all, hosts)
  {
    MapOfDistinct(hosts);
    forall name | name in MapOf(hosts) ensures exists i :: 0 <= i < |all| && all[i].name == name {
      var i :| 0 <= i < |hosts| && hosts[i].name == name;
      assert all[i].name == name;
    }
    assert forall i :: 0 <= i < |all| ==> all[i].name == hosts[i].name && MapOf(hosts)[all[i].name] == hosts[i].vars;
  }

  lemma ListsMatch(c: Nodes, hotdesks: seq<NodeSpec>)
    requires DistinctNames(InternalHosts(c) + MainHosts(c, hotdesks))
    ensures var all, hosts := AllSpecs(c, hotdesks), InternalHosts(c) + MainHosts(c, hotdesks);
            && SameNames(all, hosts)
            && (SameAddresses(all, hosts) <==> AllOneAddress(c.balancers) && AllOneAddress(c.frontends))
  {
    var a, b := InternalHosts(c), MainHosts(c, hotdesks);
    InternalMatches(c);
    MainMatches(c, hotdesks);
    assert InternalSpecs(c)[1].name == c.jumpstart.name;
    NamesDiffer(a, b, 1);
    AllSpecsAre(c, hotdesks);
    SameAppend(InternalSpecs(c), a, MainOthers(c, hotdesks), b);
  }

  lemma NamesDiffer(a: seq<Host>, b: seq<Host>, k: nat)
    requires DistinctNames(a + b) && k < |a|
    ensures forall i :: 0 <= i < |b| ==> b[i].name != a[k].name
  {
    forall i | 0 <= i < |b| ensures b[i].name != a[k].name {
      assert (a + b)[k] == a[k] && (a + b)[|a| + i] == b[i];
    }
  }

  lemma KeysAreDisjoint(a: seq<Host>, b: seq<Host>)
    requires DistinctNames(a + b)
    ensures MapOf(a).Keys !! MapOf(b).Keys
  {
    assert forall i :: 0 <= i < |a| ==> (a + b)[i] == a[i];
    assert forall i :: 0 <= i < |b| ==> (a + b)[|a| + i] == b[i];
    MapOfDistinct(a);
    MapOfDistinct(b);
  }

  predicate HasNic(nics: seq<Interface>, mac: string) {
    exists i | 0 <= i < |nics| :: nics[i].mac == mac
  }

  /** The interface that the node's fields give for a network. */
  predicate Wants(n: NodeDetail, primary: string, nic: Interface) {
    && nic.mac != ""
    && if n.macInternal == "" && n.macMain == "" && n.macWAN == "" then nic == Interface(primary, n.mac)
       else nic in {Interface("internal", n.macInternal), Interface("main", n.macMain), Interface("default", n.macWAN)}
  }

  /** Each MAC is on its own network, a node with none of these on its primary one, and
      there is at most one interface for a network. */
  lemma NicsAre(n: NodeDetail, primary: string)
    ensures forall nic :: nic in Interfaces(n, primary) <==> Wants(n, primary, nic)
    ensures var nics := Interfaces(n, primary);
            forall i, j :: 0 <= i < j < |nics| ==> nics[i].network != nics[j].network
  {
    var a, b, w := Nic("internal", n.macInternal), Nic("main", n.macMain), Nic("default", n.macWAN);
    forall nic: Interface ensures nic in a + b + w <==> nic in a || nic in b || nic in w {
    }
    assert a + b + w == [] <==> n.macInternal == "" && n.macMain == "" && n.macWAN == "";
  }

  /** The nodes of a network, hotdesks aside. */
  function InternalDetails(c: Nodes): seq<NodeDetail> {
    [c.router, c.jumpstart] + c.masters + c.workers + [c.storage, c.monitor]
  }

  function MainDetails(c: Nodes): seq<NodeDetail> {
    c.balancers + c.frontends
  }

  predicate IsHosts(hosts: seq<Host>, ns: seq<NodeDetail>, primary: string) {
    |hosts| == |ns| && forall i | 0 <= i < |ns| :: hosts[i] == HostOf(ns[i], primary)
  }

  lemma IsHostsNext(hosts: seq<Host>, ns: seq<NodeDetail>, primary: string)
    requires ns != [] && IsHosts(hosts, ns[..|ns| - 1], primary)
    ensures IsHosts(hosts + [HostOf(ns[|ns| - 1], primary)], ns, primary)
  {
  }

  lemma {:induction false} HostsAt(ns: seq<NodeDetail>, primary: string)
    ensures IsHosts(Hosts(ns, primary), ns, primary)
  {
    if ns != [] {
      HostsAt(ns[..|ns| - 1], primary);
      IsHostsNext(Hosts(ns[..|ns| - 1], primary), ns, primary);
    }
  }

  lemma IsHostsAppend(x: seq<Host>, a: seq<NodeDetail>, y: seq<Host>, b: seq<NodeDetail>, primary: string)
    requires IsHosts(x, a, primary) && IsHosts(y, b, primary)
    ensures IsHosts(x + y, a + b, primary)
  {
  }

  lemma HostsAppend(a: seq<NodeDetail>, b: seq<NodeDetail>, primary: string)
    ensures Hosts(a + b, primary) == Hosts(a, primary) + Hosts(b, primary)
  {
    HostsAt(a, primary);
    HostsAt(b, primary);
    HostsAt(a + b, primary);
    IsHostsAppend(Hosts(a, primary), a, Hosts(b, primary), b, primary);
    SameHosts(Hosts(a + b, primary), Hosts(a, primary) + Hosts(b, primary), a + b, primary);
  }

  lemma SameHosts(x: seq<Host>, y: seq<Host>, ns: seq<NodeDetail>, primary: string)
    requires IsHosts(x, ns, primary) && IsHosts(y, ns, primary)
    ensures x == y
  {
  }

  lemma HostsHold(ns: seq<NodeDetail>, primary: string, n: NodeDetail)
    requires n in ns
    ensures HostOf(n, primary) in Hosts(ns, primary)
  {
    HostsAt(ns, primary);
    var i :| 0 <= i < |ns| && ns[i] == n;
    assert Hosts(ns, primary)[i] == HostOf(n, primary);
  }

  lemma InternalHostsAre(c: Nodes)
    ensures InternalHosts(c) == Hosts(InternalDetails(c), "internal")
  {
    HostsAppend([c.router, c.jumpstart], c.masters, "internal");
    HostsAppend([c.router, c.jumpstart] + c.masters, c.workers, "internal");
    HostsAppend([c.router, c.jumpstart] + c.masters + c.workers, [c.storage, c.monitor], "internal");
  }

  lemma MapHolds(hosts: seq<Host>, host: Host)
    requires DistinctNames(hosts) && host in hosts
    ensures host.name in MapOf(hosts) && MapOf(hosts)[host.name] == host.vars
  {
    MapOfDistinct(hosts);
    var i :| 0 <= i < |hosts| && hosts[i] == host;
  }

  /** Under its name the inventory lists for each node exactly the interfaces that its
      fields give it, with the network it is listed in as its primary one. */
  lemma InternalNicsAre(c: Nodes, n: NodeDetail)
    requires DistinctNames(InternalHosts(c)) && n in InternalDetails(c)
    ensures var internal := MapOf(InternalHosts(c));
            n.name in internal && forall nic :: nic in internal[n.name].interfaces <==> Wants(n, "internal", nic)
  {
    InternalHostsAre(c);
    HostsHold(InternalDetails(c), "internal", n);
    MapHolds(InternalHosts(c), HostOf(n, "internal"));
    NicsAre(n, "internal");
  }

  lemma MainNicsAre(c: Nodes, hotdesks: seq<NodeSpec>, n: NodeDetail)
    requires DistinctNames(MainHosts(c, hotdesks)) && n in MainDetails(c)
    ensures var main := MapOf(MainHosts(c, hotdesks));
            n.name in main && forall nic :: nic in main[n.name].interfaces <==> Wants(n, "main", nic)
  {
    HostsAppend(c.balancers, c.frontends, "main");
    HostsHold(MainDetails(c), "main", n);
    MapHolds(MainHosts(c, hotdesks), HostOf(n, "main"));
    NicsAre(n, "main");
  }

  lemma {:induction false} HotdeskHostsHold(specs: seq<NodeSpec>, hd: NodeSpec)
    requires hd in specs
    ensures Host(hd.name, HostVars(hd.ip, [Interface("main", hd.mac)])) in HotdeskHosts(specs)
  {
    if hd != specs[|specs| - 1] {
      HotdeskHostsHold(specs[..|specs| - 1], hd);
    }
  }

  /** and each hotdesk with its address and its one interface, on the main network. */
  lemma HotdeskNicsAre(c: Nodes, hotdesks: seq<NodeSpec>, hd: NodeSpec)
    requires DistinctNames(MainHosts(c, hotdesks)) && hd in hotdesks
    ensures var main := MapOf(MainHosts(c, hotdesks));
            && hd.name in main && main[hd.name].address == hd.ip
            && forall nic :: nic in main[hd.name].interfaces <==> nic == Interface("main", hd.mac)
  {
    HotdeskHostsHold(hotdesks, hd);
    MapHolds(MainHosts(c, hotdesks), Host(hd.name, HostVars(hd.ip, [Interface("main", hd.mac)])));
  }

  /** A node without a MAC of its own has the flat list's MAC on the first of its networks. */
  lemma FlatMacIsFirst(n: NodeDetail, primary: string)
    requires n.mac == "" && (n.macInternal != "" || n.macMain != "")
    ensures Interfaces(n, primary) != [] && Interfaces(n, primary)[0].mac == ToSpec(n, "").mac
    ensures Interfaces(n, primary)[0].network == if n.macInternal != "" then "internal" else "main"
  {
  }

  /** The MAC of the flat list is one of the inventory's interfaces, except for a node that
      has a MAC of its own beside different ones for its networks. */
  lemma MacIsAttached(n: NodeDetail, primary: string)
    requires ToSpec(n, "").mac != ""
    ensures HasNic(Interfaces(n, primary), ToSpec(n, "").mac)
            <==> n.mac == "" || (n.macInternal == "" && n.macMain == "" && n.macWAN == "")
                 || n.mac == n.macInternal || n.mac == n.macMain || n.mac == n.macWAN
  {
    var a, b, w := Nic("internal", n.macInternal), Nic("main", n.macMain), Nic("default", n.macWAN);
    var mac := ToSpec(n, "").mac;
    NicsAppend(a + b, w, mac);
    NicsAppend(a, b, mac);
    forall network, m: string ensures HasNic(Nic(network, m), mac) <==> m == mac {
      if m == mac {
        assert Nic(network, m)[0].mac == mac;
      }
    }
  }

  lemma NicsAppend(a: seq<Interface>, b: seq<Interface>, mac: string)
    ensures HasNic(a + b, mac) <==> HasNic(a, mac) || HasNic(b, mac)
  {
    assert forall i :: 0 <= i < |a| ==> (a + b)[i] == a[i];
    assert forall i :: 0 <= i < |b| ==> (a + b)[|a| + i] == b[i];
  }
}
