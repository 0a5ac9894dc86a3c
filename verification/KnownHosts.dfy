/** The known_hosts store as text, and removing addresses from it
    (internal/phases/repairssh/repair.go). */
module KnownHosts {
  import opened Wrappers
  import opened Text

  datatype Addr = Addr(host: string, port: string)

  predicate HostChar(c: char) {
    'a' <= c <= 'z' || 'A' <= c <= 'Z' || '0' <= c <= '9' || c in {'.', '-', ':'}
  }

  predicate ValidHost(h: string) {
    h != "" && forall i | 0 <= i < |h| :: HostChar(h[i])
  }

  predicate ValidPort(p: string) {
    p != "" && forall i | 0 <= i < |p| :: '0' <= p[i] <= '9'
  }

  predicate ValidAddr(a: Addr) {
    ValidHost(a.host) && ValidPort(a.port)
  }

  /** Whether knownhosts.Normalize brackets an IPv6 host on the default port; versions of
      that library differ, so this is left unknown. */
  const BRACKETS_DEFAULT_PORT: bool

  /** knownhosts.Normalize: the default port is dropped, another one is bracketed. */
  function Normalize(a: Addr): string {
    if a.port != "22" then "[" + a.host + "]:" + a.port
    else if BRACKETS_DEFAULT_PORT && ':' in a.host then "[" + a.host + "]"
    else a.host
  }

  /** A public key as it stands in a line: type and base64 text. */
  predicate ValidKey(key: string) {
    key != "" && '\n' !in key && !IsSpace(key[|key| - 1])
  }

  datatype Pin = Pin(addr: Addr, key: string)

  predicate ValidPin(p: Pin) {
    ValidAddr(p.addr) && ValidKey(p.key)
  }

  predicate ValidPins(pins: seq<Pin>) {
    forall i | 0 <= i < |pins| :: ValidPin(pins[i])
  }

  function Line(p: Pin): string {
    Normalize(p.addr) + " " + p.key
  }

  /** The text of a store to which trustHostKey appended these pins. */
  function Render(pins: seq<Pin>): string {
    if pins == [] then "" else Line(pins[0]) + "\n" + Render(pins[1..])
  }

  /* ---- Pruning ---- */

  /** The first of strings.Fields of trimmed text. */
  function FirstField(s: string): string {
    if s == "" || IsSpace(s[0]) then "" else [s[0]] + FirstField(s[1..])
  }

  function TrimPrefix(s: string, prefix: string): string {
    if prefix <= s then s[|prefix|..] else s
  }

  predicate PartMatches(part: string, ip: string) {
    var p := TrimSpace(part);
    || p == ip
    || (p != "" && p[0] == '[' &&
        match IndexFrom(p, "]:", 0)
        case None => false
        case Some(i) => p[1..i] == ip)
  }

  predicate HostMatches(token: string, ip: string) {
    var hostToken := TrimPrefix(TrimPrefix(token, "@cert-authority "), "@revoked ");
    exists part | part in Split(hostToken, ',') :: PartMatches(part, ip)
  }

  predicate Keeps(line: string, ips: seq<string>) {
    var trimmed := TrimSpace(line);
    || trimmed == ""
    || trimmed[0] == '#'
    || !exists ip | ip in ips :: ip != "" && HostMatches(FirstField(trimmed), ip)
  }

  function Keeper(ips: seq<string>): string -> bool {
    line => Keeps(line, ips)
  }

  function Prune(text: string, ips: seq<string>): string {
    Join(Filter(Split(text, '\n'), Keeper(ips)), '\n')
  }

  method HostMatchesIP(token: string, ip: string) returns (r: bool)
    ensures r == HostMatches(token, ip)
  {
    var hostToken := TrimPrefix(TrimPrefix(token, "@cert-authority "), "@revoked ");
    var parts := Split(hostToken, ',');
    for i := 0 to |parts|
      invariant forall j :: 0 <= j < i ==> !PartMatches(parts[j], ip)
    {
      if PartMatches(parts[i], ip) {
        return true;
      }
    }
    r := false;
  }

  /** One known_hosts file on disk. */
  class StoreFile {
    var content: Option<string>

    constructor (content: Option<string>)
      ensures this.content == content
    {
      this.content := content;
    }

    /** A failure before the write leaves the file; the write itself truncates, so a
        failure inside it leaves some part of the new text. */
    method RemoveHosts(ips: seq<string>, readable: bool, writes: bool) returns (ok: bool)
      modifies this
      ensures ok <==> readable && (old(content).None? || writes)
      ensures ok && old(content).Some? ==> content == Some(Prune(old(content).value, ips))
      ensures old(content).None? ==> content == None
      ensures !ok && content != old(content) ==> content.Some? && content.value <= Prune(old(content).value, ips)
    {
      if content.None? || !readable {
        return readable;
      }
      var newLines := KeepLines(Split(content.value, '\n'), ips);
      var text := Join(newLines, '\n');
      if !writes {
        var truncated: bool := *;
        if truncated {
          var written: nat :| written <= |text|;
          content := Some(text[..written]);
        }
        return false;
      }
      content := Some(text);
      ok := true;
    }
  }

  method KeepLines(lines: seq<string>, ips: seq<string>) returns (newLines: seq<string>)
    ensures newLines == Filter(lines, Keeper(ips))
  {
    newLines := [];
    ghost var keeper := Keeper(ips);
    for i := 0 to |lines|
      invariant newLines == Filter(lines[..i], keeper)
    {
      var keep := KeepLine(lines[i], ips);
      FilterNext(lines, keeper, i);
      if keep {
        newLines := newLines + [lines[i]];
      }
    }
    assert lines[..|lines|] == lines;
  }

  method KeepLine(line: string, ips: seq<string>) returns (keep: bool)
    ensures keep == Keeper(ips)(line)
  {
    var trimmed := TrimSpace(line);
    if trimmed == "" || trimmed[0] == '#' {
      return true;
    }
    var named := NamesAny(FirstField(trimmed), ips);
    keep := !named;
  }

  method NamesAny(hostPart: string, ips: seq<string>) returns (r: bool)
    ensures r == exists ip | ip in ips :: ip != "" && HostMatches(hostPart, ip)
  {
    for i := 0 to |ips|
      invariant forall j :: 0 <= j < i ==> ips[j] == "" || !HostMatches(hostPart, ips[j])
    {
      if ips[i] != "" {
        var matches := HostMatchesIP(hostPart, ips[i]);
        if matches {
          return true;
        }
      }
    }
    r := false;
  }

  /* ---- Which lines go ---- */

  predicate NoSpace(s: string) {
    forall i | 0 <= i < |s| :: !IsSpace(s[i])
  }

  lemma {:induction false} FieldShape(s: string)
    ensures FirstField(s) <= s && NoSpace(FirstField(s))
    ensures |FirstField(s)| < |s| ==> IsSpace(s[|FirstField(s)|])
  {
    if s != "" && !IsSpace(s[0]) {
      FieldShape(s[1..]);
    }
  }

  /** A marker ends in a space, and the first field of a line has none. */
  lemma NoMarker(token: string)
    requires NoSpace(token)
    ensures TrimPrefix(TrimPrefix(token, "@cert-authority "), "@revoked ") == token
  {
    var authority, revoked := "@cert-authority ", "@revoked ";
    assert IsSpace(authority[15]) && IsSpace(revoked[8]);
  }

  lemma {:induction false} SplitNoSpace(s: string, sep: char)
    requires NoSpace(s)
    ensures forall i :: 0 <= i < |Split(s, sep)| ==> NoSpace(Split(s, sep)[i])
  {
    if s != "" {
      SplitNoSpace(s[1..], sep);
    }
  }

  lemma TrimNoSpace(s: string)
    requires NoSpace(s)
    ensures TrimSpace(s) == s
  {
    if s != "" {
      TrimmedIsFixed(s);
    }
  }

  function InBrackets(ip: string): string {
    "[" + ip + "]:"
  }

  /** Before its own "]:" a bracketed address has none unless the address has one. */
  lemma OccursInside(ip: string, part: string, k: nat)
    requires InBrackets(ip) <= part && k <= |ip| && OccursAt(part, "]:", k)
    ensures Contains(ip, "]:")
  {
    var two := part[k..k + 2];
    assert part[k] == two[0] && part[k + 1] == two[1];
    assert part[0] == '[' && part[|ip| + 1] == InBrackets(ip)[|ip| + 1] == ']';
    assert ip[k - 1..k + 1] == two;
    assert OccursAt(ip, "]:", k - 1);
  }

  lemma BracketEnds(ip: string, part: string)
    requires !Contains(ip, "]:") && InBrackets(ip) <= part
    ensures IndexFrom(part, "]:", 0) == Some(|ip| + 1) && part[1..|ip| + 1] == ip
  {
    assert part[|ip| + 1..|ip| + 3] == InBrackets(ip)[|ip| + 1..] == "]:";
    assert OccursAt(part, "]:", |ip| + 1);
    forall k | 0 <= k <= |ip| ensures !OccursAt(part, "]:", k) {
      if OccursAt(part, "]:", k) {
        OccursInside(ip, part, k);
      }
    }
    assert part[1..|ip| + 1] == InBrackets(ip)[1..|ip| + 1];
  }

  lemma BracketStarts(ip: string, part: string, i: nat)
    requires part != "" && part[0] == '[' && OccursAt(part, "]:", i) && i >= 1 && part[1..i] == ip
    ensures InBrackets(ip) <= part
  {
    assert part[..i + 2] == [part[0]] + part[1..i] + part[i..i + 2];
  }

  /** A part names an address as it is or in brackets before a port. */
  lemma PartIs(part: string, ip: string)
    requires NoSpace(part) && !Contains(ip, "]:")
    ensures PartMatches(part, ip) <==> part == ip || InBrackets(ip) <= part
  {
    TrimNoSpace(part);
    if InBrackets(ip) <= part {
      BracketEnds(ip, part);
    } else if part != "" && part[0] == '[' && IndexFrom(part, "]:", 0).Some? {
      var i := IndexFrom(part, "]:", 0).value;
      assert part[i] == part[i..i + 2][0] == ']';
      if part[1..i] == ip {
        BracketStarts(ip, part, i);
      }
    }
  }

  /** The line's first field lists the address. */
  predicate Names(line: string, ip: string) {
    exists part | part in Split(FirstField(TrimSpace(line)), ',') :: part == ip || InBrackets(ip) <= part
  }

  /** A line goes exactly when it is neither blank nor a comment and its first field lists
      one of the addresses. */
  lemma RemovedWhen(line: string, ips: seq<string>)
    requires forall ip :: ip in ips ==> !Contains(ip, "]:")
    ensures !Keeps(line, ips) <==>
            TrimSpace(line) != "" && TrimSpace(line)[0] != '#' && exists ip :: ip in ips && ip != "" && Names(line, ip)
  {
    var token := FirstField(TrimSpace(line));
    FieldShape(TrimSpace(line));
    NoMarker(token);
    SplitNoSpace(token, ',');
    forall ip | ip in ips ensures HostMatches(token, ip) <==> Names(line, ip) {
      forall part | part in Split(token, ',') ensures PartMatches(part, ip) <==> part == ip || InBrackets(ip) <= part {
        PartIs(part, ip);
      }
    }
  }

  /** In particular a line that starts with a marker stays, whichever host it is for: the
      marker itself is taken for the list of hosts. */
  lemma MarkedLinesStay(marker: string, rest: string, ips: seq<string>)
    requires marker in {"@cert-authority", "@revoked"} && marker !in ips
    requires rest != "" && !IsSpace(rest[|rest| - 1])
    requires forall ip :: ip in ips ==> !Contains(ip, "]:")
    ensures Keeps(marker + " " + rest, ips)
  {
    var line := marker + " " + rest;
    assert line[0] == '@' && line[|line| - 1] == rest[|rest| - 1];
    TrimmedIsFixed(line);
    FieldBeforeSpace(marker, rest);
    SplitWhole(marker, ',');
    RemovedWhen(line, ips);
  }

  /* ---- Any text ---- */

  lemma FilterTwice(text: string, keep: string -> bool)
    requires keep("")
    ensures var once := Join(Filter(Split(text, '\n'), keep), '\n');
            Join(Filter(Split(once, '\n'), keep), '\n') == once
  {
    var kept := Filter(Split(text, '\n'), keep);
    forall i | 0 <= i < |kept| ensures '\n' !in kept[i] && keep(kept[i]) {
      FilterMembers(Split(text, '\n'), keep, i);
    }
    if kept == [] {
      assert Split("", '\n') == [""];
      FilterAll([""], keep);
    } else {
      SplitJoin(kept, '\n');
      FilterAll(kept, keep);
    }
  }

  /** Pruning twice is pruning once, byte for byte, for every text. */
  lemma PruneIsIdempotent(text: string, ips: seq<string>)
    ensures Prune(Prune(text, ips), ips) == Prune(text, ips)
  {
    assert Keeps("", ips) by { assert TrimSpace("") == ""; }
    FilterTwice(text, Keeper(ips));
  }

  /* ---- Which lines go ---- */

  /** What pruning an address removes: pins of that host, except a pin that is bracketed
      without a port. */
  predicate Removes(ip: string, a: Addr) {
    a.host == ip && (a.port != "22" || ':' !in a.host || !BRACKETS_DEFAULT_PORT)
  }

  lemma NormalizeShape(a: Addr)
    requires ValidAddr(a)
    ensures var n := Normalize(a);
            n != "" && n[0] != '#' && n[0] != '@' && forall i :: 0 <= i < |n| ==> !IsSpace(n[i]) && n[i] != ','
  {
    assert HostChar(a.host[0]);
    forall i | 0 <= i < |Normalize(a)| ensures !IsSpace(Normalize(a)[i]) && Normalize(a)[i] != ',' {
      var c := Normalize(a)[i];
      assert HostChar(c) || c in {'[', ']'};
    }
  }

  lemma BracketIndex(host: string, rest: string)
    requires ValidHost(host)
    ensures IndexFrom("[" + host + "]:" + rest, "]:", 0) == Some(|host| + 1)
  {
    var s := "[" + host + "]:" + rest;
    assert OccursAt(s, "]:", |host| + 1);
    forall i | 0 <= i < |host| + 1 ensures !OccursAt(s, "]:", i) {
      assert s[i] == if i == 0 then '[' else host[i - 1];
      assert i > 0 ==> HostChar(host[i - 1]);
      assert s[i..i + 2][0] == s[i];
    }
  }

  lemma NoBracketIndex(host: string)
    requires ValidHost(host)
    ensures IndexFrom("[" + host + "]", "]:", 0) == None
  {
    var s := "[" + host + "]";
    forall i | 0 <= i ensures !OccursAt(s, "]:", i) {
      if i + 2 <= |s| {
        assert s[i] == if i == 0 then '[' else host[i - 1];
        assert i > 0 ==> HostChar(host[i - 1]);
        assert s[i..i + 2][0] == s[i];
      }
    }
  }

  lemma PartMatchesNormalized(a: Addr, ip: string)
    requires ValidAddr(a) && ValidHost(ip)
    ensures PartMatches(Normalize(a), ip) <==> Removes(ip, a)
  {
    NormalizeShape(a);
    var p := Normalize(a);
    TrimmedIsFixed(p);
    assert HostChar(ip[0]) && HostChar(a.host[0]);
    if a.port != "22" {
      assert p == "[" + a.host + "]:" + a.port;
      BracketIndex(a.host, a.port);
      assert p[1..|a.host| + 1] == a.host;
    } else if BRACKETS_DEFAULT_PORT && ':' in a.host {
      NoBracketIndex(a.host);
    }
  }

  /** The address list removes a stored pin exactly when Removes says so. */
  lemma MatchesNormalized(a: Addr, ip: string)
    requires ValidAddr(a) && ValidHost(ip)
    ensures HostMatches(Normalize(a), ip) <==> Removes(ip, a)
  {
    NormalizeShape(a);
    var n := Normalize(a);
    assert TrimPrefix(n, "@cert-authority ") == n && TrimPrefix(n, "@revoked ") == n;
    SplitWhole(n, ',');
    PartMatchesNormalized(a, ip);
    assert Split(n, ',')[0] == n;
  }

  lemma {:induction false} FieldBeforeSpace(a: string, rest: string)
    requires forall i :: 0 <= i < |a| ==> !IsSpace(a[i])
    ensures FirstField(a + " " + rest) == a
  {
    var s := a + " " + rest;
    if a != "" {
      FieldBeforeSpace(a[1..], rest);
      assert s[1..] == a[1..] + " " + rest;
    }
  }

  ghost predicate RemovedBy(ips: seq<string>, a: Addr) {
    exists ip :: ip in ips && Removes(ip, a)
  }

  lemma KeepsLine(p: Pin, ips: seq<string>)
    requires ValidPin(p) && forall ip :: ip in ips ==> ValidHost(ip)
    ensures Keeps(Line(p), ips) <==> !RemovedBy(ips, p.addr)
  {
    NormalizeShape(p.addr);
    var line := Line(p);
    assert line[0] == Normalize(p.addr)[0] && line[|line| - 1] == p.key[|p.key| - 1];
    TrimmedIsFixed(line);
    FieldBeforeSpace(Normalize(p.addr), p.key);
    forall ip | ip in ips ensures HostMatches(Normalize(p.addr), ip) <==> Removes(ip, p.addr) {
      MatchesNormalized(p.addr, ip);
    }
  }

  /* ---- A store of pins ---- */

  ghost function Without(pins: seq<Pin>, ips: seq<string>): seq<Pin> {
    if pins == [] then []
    else (if RemovedBy(ips, pins[0].addr) then [] else [pins[0]]) + Without(pins[1..], ips)
  }

  function Lines(pins: seq<Pin>): seq<string> {
    if pins == [] then [] else [Line(pins[0])] + Lines(pins[1..])
  }

  /** The text of a store: its lines, and an empty one after the last newline. */
  lemma {:induction false} RenderIsJoin(pins: seq<Pin>)
    ensures Render(pins) == Join(Lines(pins) + [""], '\n')
  {
    if pins == [] {
      assert Lines(pins) + [""] == [""];
    } else {
      RenderIsJoin(pins[1..]);
      assert Lines(pins) + [""] == [Line(pins[0])] + (Lines(pins[1..]) + [""]);
      JoinCons(Line(pins[0]), Lines(pins[1..]) + [""]);
    }
  }

  lemma JoinCons(head: string, tail: seq<string>)
    requires tail != []
    ensures Join([head] + tail, '\n') == head + "\n" + Join(tail, '\n')
  {
    assert ([head] + tail)[1..] == tail;
  }

  lemma LineHasNoNewline(p: Pin)
    requires ValidPin(p)
    ensures '\n' !in Line(p)
  {
    NormalizeShape(p.addr);
    assert IsSpace('\n');
  }

  lemma {:induction false} LinesHaveNoNewline(pins: seq<Pin>, i: nat)
    requires ValidPins(pins) && i < |Lines(pins)|
    ensures '\n' !in Lines(pins)[i]
  {
    LineHasNoNewline(pins[0]);
    if i > 0 {
      LinesHaveNoNewline(pins[1..], i - 1);
    }
  }

  lemma {:induction false} KeptOfLines(pins: seq<Pin>, ips: seq<string>, keep: string -> bool)
    requires forall i :: 0 <= i < |pins| ==> (keep(Line(pins[i])) <==> !RemovedBy(ips, pins[i].addr))
    ensures Filter(Lines(pins), keep) == Lines(Without(pins, ips))
  {
    if pins != [] {
      var kept := Without(pins[1..], ips);
      KeptOfLines(pins[1..], ips, keep);
      FilterCons(Line(pins[0]), Lines(pins[1..]), keep);
      LinesCons(pins[0], kept);
      if RemovedBy(ips, pins[0].addr) {
        assert Without(pins, ips) == kept;
      } else {
        assert Without(pins, ips) == [pins[0]] + kept;
      }
    }
  }

  lemma LinesCons(p: Pin, rest: seq<Pin>)
    ensures Lines([p] + rest) == [Line(p)] + Lines(rest)
  {
    assert ([p] + rest)[1..] == rest;
  }

  lemma StoreLines(pins: seq<Pin>)
    requires ValidPins(pins)
    ensures Split(Render(pins), '\n') == Lines(pins) + [""]
  {
    RenderIsJoin(pins);
    var lines := Lines(pins) + [""];
    forall i | 0 <= i < |lines| ensures '\n' !in lines[i] {
      if i < |Lines(pins)| {
        LinesHaveNoNewline(pins, i);
      }
    }
    SplitJoin(lines, '\n');
  }

  lemma KeeperOfPins(pins: seq<Pin>, ips: seq<string>)
    requires ValidPins(pins) && forall ip :: ip in ips ==> ValidHost(ip)
    ensures Keeper(ips)("")
    ensures forall i :: 0 <= i < |pins| ==> (Keeper(ips)(Line(pins[i])) <==> !RemovedBy(ips, pins[i].addr))
  {
    assert TrimSpace("") == "";
    forall i | 0 <= i < |pins| ensures Keeper(ips)(Line(pins[i])) <==> !RemovedBy(ips, pins[i].addr) {
      KeepsLine(pins[i], ips);
    }
  }

  /** Pruning the text of a store gives exactly the text of the store without the
      removed pins: the others stay in order and every line keeps its newline. */
  lemma PruneRemovesPins(pins: seq<Pin>, ips: seq<string>)
    requires ValidPins(pins) && forall ip :: ip in ips ==> ValidHost(ip)
    ensures Prune(Render(pins), ips) == Render(Without(pins, ips))
  {
    StoreLines(pins);
    KeeperOfPins(pins, ips);
    KeptOfLines(pins, ips, Keeper(ips));
    FilterAppend(Lines(pins), [""], Keeper(ips));
    FilterCons("", [], Keeper(ips));
    assert [""] + [] == [""];
    RenderIsJoin(Without(pins, ips));
  }

  lemma {:induction false} WithoutMembers(pins: seq<Pin>, ips: seq<string>, p: Pin)
    ensures p in Without(pins, ips) <==> p in pins && !RemovedBy(ips, p.addr)
  {
    if pins != [] {
      WithoutMembers(pins[1..], ips, p);
      assert pins == [pins[0]] + pins[1..];
    }
  }

  lemma {:induction false} WithoutAppend(pins: seq<Pin>, p: Pin, ips: seq<string>)
    ensures Without(pins + [p], ips) == Without(pins, ips) + if RemovedBy(ips, p.addr) then [] else [p]
  {
    if pins != [] {
      WithoutAppend(pins[1..], p, ips);
      assert (pins + [p])[1..] == pins[1..] + [p];
    } else {
      assert [] + [p] == [p] && [p][1..] == [];
    }
  }

  lemma {:induction false} WithoutNothing(pins: seq<Pin>, ips: seq<string>)
    requires forall i :: 0 <= i < |pins| ==> !RemovedBy(ips, pins[i].addr)
    ensures Without(pins, ips) == pins
  {
    if pins != [] {
      WithoutNothing(pins[1..], ips);
    }
  }

  /** Pruning the host of a pin that was just appended for a new host gives the store
      back as it was. */
  lemma PruneUndoesAppend(pins: seq<Pin>, p: Pin)
    requires ValidPins(pins) && ValidPin(p)
    requires forall i :: 0 <= i < |pins| ==> pins[i].addr.host != p.addr.host
    ensures Prune(Render(pins + [p]), [p.addr.host]) == Render(pins) <==> Removes(p.addr.host, p.addr)
  {
    PruneAppended(pins, p);
    RenderLonger(pins, p);
  }

  lemma PruneAppended(pins: seq<Pin>, p: Pin)
    requires ValidPins(pins) && ValidPin(p)
    requires forall i :: 0 <= i < |pins| ==> pins[i].addr.host != p.addr.host
    ensures Prune(Render(pins + [p]), [p.addr.host]) == Render(if Removes(p.addr.host, p.addr) then pins else pins + [p])
  {
    ValidAppend(pins, p);
    AppendedOnly(pins, p, [p.addr.host]);
    PruneRemovesPins(pins + [p], [p.addr.host]);
  }

  lemma ValidAppend(pins: seq<Pin>, p: Pin)
    requires ValidPins(pins) && ValidPin(p)
    ensures ValidPins(pins + [p]) && forall ip :: ip in [p.addr.host] ==> ValidHost(ip)
  {
  }

  lemma AppendedOnly(pins: seq<Pin>, p: Pin, ips: seq<string>)
    requires ips == [p.addr.host] && forall i :: 0 <= i < |pins| ==> pins[i].addr.host != p.addr.host
    ensures Without(pins + [p], ips) == if Removes(p.addr.host, p.addr) then pins else pins + [p]
  {
    assert RemovedBy(ips, p.addr) <==> Removes(p.addr.host, p.addr) by { assert ips[0] in ips; }
    WithoutNothing(pins, ips);
    WithoutAppend(pins, p, ips);
  }

  lemma {:induction false} RenderLonger(pins: seq<Pin>, p: Pin)
    ensures |Render(pins + [p])| > |Render(pins)|
  {
    if pins != [] {
      RenderLonger(pins[1..], p);
      assert (pins + [p])[1..] == pins[1..] + [p];
    }
  }

  /* ---- The text and the pins ---- */

  /** Appending a line to the text is appending a pin. */
  lemma {:induction false} RenderAppend(pins: seq<Pin>, p: Pin)
    ensures Render(pins + [p]) == Render(pins) + (Line(p) + "\n")
  {
    if pins == [] {
      assert [] + [p] == [p] && [p][1..] == [];
      assert Render([p]) == Line(p) + "\n" + "";
    } else {
      RenderAppend(pins[1..], p);
      assert (pins + [p])[1..] == pins[1..] + [p];
      Regroup(Line(pins[0]) + "\n", Render(pins[1..]), Line(p) + "\n");
    }
  }

  /** Different addresses are written differently. */
  lemma NormalizeIsInjective(a: Addr, b: Addr)
    requires ValidAddr(a) && ValidAddr(b) && Normalize(a) == Normalize(b)
    ensures a == b
  {
    var n := Normalize(a);
    assert HostChar(a.host[0]) && HostChar(b.host[0]);
    assert Bracketed(a) <==> n[0] == '[';
    assert Bracketed(b) <==> n[0] == '[';
    if Bracketed(a) {
      BracketedHost(a);
      BracketedHost(b);
    }
  }

  predicate Bracketed(a: Addr) {
    a.port != "22" || (BRACKETS_DEFAULT_PORT && ':' in a.host)
  }

  /** Where the host ends and whether a port follows can be read off. */
  lemma BracketedHost(a: Addr)
    requires ValidAddr(a) && Bracketed(a)
    ensures var n := Normalize(a);
            if a.port != "22" then
              IndexFrom(n, "]:", 0) == Some(|a.host| + 1) && n[1..|a.host| + 1] == a.host && n[|a.host| + 3..] == a.port
            else IndexFrom(n, "]:", 0) == None && n[1..|n| - 1] == a.host
  {
    if a.port != "22" {
      BracketIndex(a.host, a.port);
    } else {
      NoBracketIndex(a.host);
    }
  }

  lemma LineIsInjective(p: Pin, q: Pin)
    requires ValidPin(p) && ValidPin(q) && Line(p) == Line(q)
    ensures p == q
  {
    NormalizeShape(p.addr);
    NormalizeShape(q.addr);
    FieldBeforeSpace(Normalize(p.addr), p.key);
    FieldBeforeSpace(Normalize(q.addr), q.key);
    NormalizeIsInjective(p.addr, q.addr);
    var n := |Normalize(p.addr)| + 1;
    assert Line(p)[n..] == p.key && Line(q)[n..] == q.key;
  }

  /** The text of a store determines its pins. */
  lemma TextDeterminesPins(pins: seq<Pin>, other: seq<Pin>)
    requires ValidPins(pins) && ValidPins(other) && Render(pins) == Render(other)
    ensures pins == other
  {
    StoreLines(pins);
    StoreLines(other);
    SameFront(Lines(pins), Lines(other), "");
    LinesDeterminePins(pins, other);
  }

  lemma SameFront(a: seq<string>, b: seq<string>, x: string)
    requires a + [x] == b + [x]
    ensures a == b
  {
    assert a == (a + [x])[..|a|] && b == (b + [x])[..|b|];
  }

  lemma {:induction false} LinesDeterminePins(pins: seq<Pin>, other: seq<Pin>)
    requires ValidPins(pins) && ValidPins(other) && Lines(pins) == Lines(other)
    ensures pins == other
  {
    if pins != [] && other != [] {
      assert Lines(pins)[0] == Line(pins[0]) && Lines(other)[0] == Line(other[0]);
      assert Lines(pins)[1..] == Lines(pins[1..]) && Lines(other)[1..] == Lines(other[1..]);
      LineIsInjective(pins[0], other[0]);
      LinesDeterminePins(pins[1..], other[1..]);
    } else {
      assert |Lines(pins)| == 0 <==> pins == [];
    }
  }
}
