/** Two recognisers of DNS names: the pattern of the configuration check
    (internal/config/config.go) and the hand-written test before a certificate is issued
    (internal/phases/pki/pki.go). Labels are those of section 2.3.1 of RFC 1035, with the
    first character relaxed by section 2.1 of RFC 1123. */
module DnsNames {
  import opened Wrappers
  import opened Text
  import Shell

  /* ---- Regular expressions ---- */

  datatype Class = Alnum | AlnumHyphen | Dot

  predicate InClass(c: Class, x: char) {
    var alnum := 'A' <= x <= 'Z' || 'a' <= x <= 'z' || '0' <= x <= '9';
    match c
    case Alnum => alnum
    case AlnumHyphen => alnum || x == '-'
    case Dot => x == '.'
  }

  /** UpTo(body, n) is body{0,n}. */
  datatype Regex =
    | One(kind: Class)
    | Then(first: Regex, second: Regex)
    | Maybe(body: Regex)
    | UpTo(body: Regex, n: nat)
    | Star(body: Regex)

  function Size(r: Regex): nat {
    match r
    case One(_) => 1
    case Then(a, b) => 1 + Size(a) + Size(b)
    case Maybe(a) => 1 + Size(a)
    case UpTo(a, _) => 1 + Size(a)
    case Star(a) => 1 + Size(a)
  }

  /** The whole text matches; a repetition consumes something each time. */
  ghost predicate Matches(r: Regex, s: string)
    decreases Size(r), |s|
  {
    match r
    case One(c) => |s| == 1 && InClass(c, s[0])
    case Then(a, b) => exists i | 0 <= i <= |s| :: Matches(a, s[..i]) && Matches(b, s[i..])
    case Maybe(a) => s == "" || Matches(a, s)
    case UpTo(a, n) =>
      s == "" || (n > 0 && exists i | 0 < i <= |s| :: Matches(a, s[..i]) && Matches(UpTo(a, n - 1), s[i..]))
    case Star(a) =>
      s == "" || exists i | 0 < i <= |s| :: Matches(a, s[..i]) && Matches(Star(a), s[i..])
  }

  const TAIL := Then(UpTo(One(AlnumHyphen), 61), One(Alnum))

  const LABEL := Then(One(Alnum), Maybe(TAIL))

  const MORE := Then(One(Dot), LABEL)

  /** fqdnPattern, between its anchors. */
  const FQDN := Then(LABEL, Star(MORE))

  /* ---- Labels ---- */

  predicate LabelOk(l: string) {
    && 0 < |l| <= 63 && InClass(Alnum, l[0]) && InClass(Alnum, l[|l| - 1])
    && forall i | 0 <= i < |l| :: InClass(AlnumHyphen, l[i])
  }

  predicate LabelsOk(labels: seq<string>) {
    forall i | 0 <= i < |labels| :: LabelOk(labels[i])
  }

  lemma {:induction false} UpToIsRun(c: Class, n: nat, s: string)
    ensures Matches(UpTo(One(c), n), s) <==> |s| <= n && forall i :: 0 <= i < |s| ==> InClass(c, s[i])
    decreases n
  {
    if s != "" && n > 0 {
      UpToIsRun(c, n - 1, s[1..]);
      assert s[..1] == [s[0]];
      if Matches(UpTo(One(c), n), s) {
        var i :| 0 < i <= |s| && Matches(One(c), s[..i]) && Matches(UpTo(One(c), n - 1), s[i..]);
        assert |s[..i]| == 1;
        assert forall k :: 0 < k < |s| ==> s[k] == s[1..][k - 1];
      }
      if |s| <= n && forall i :: 0 <= i < |s| ==> InClass(c, s[i]) {
        assert Matches(One(c), s[..1]) && Matches(UpTo(One(c), n - 1), s[1..]);
      }
    }
  }

  lemma TailMatches(s: string)
    ensures Matches(TAIL, s) <==> s != "" && TailOk(s)
  {
    if Matches(TAIL, s) {
      var i :| 0 <= i <= |s| && Matches(UpTo(One(AlnumHyphen), 61), s[..i]) && Matches(One(Alnum), s[i..]);
      assert i == |s| - 1;
      TailParts(s);
    }
    if s != "" {
      TailParts(s);
    }
  }

  predicate TailOk(s: string)
    requires s != ""
  {
    |s| <= 62 && InClass(Alnum, s[|s| - 1]) && forall i | 0 <= i < |s| - 1 :: InClass(AlnumHyphen, s[i])
  }

  lemma TailParts(s: string)
    requires s != ""
    ensures var k := |s| - 1;
            Matches(UpTo(One(AlnumHyphen), 61), s[..k]) && Matches(One(Alnum), s[k..]) <==> TailOk(s)
  {
    var k := |s| - 1;
    UpToIsRun(AlnumHyphen, 61, s[..k]);
    assert s[k..] == [s[k]];
  }

  lemma LabelMatches(l: string)
    ensures Matches(LABEL, l) <==> LabelOk(l)
  {
    if l != "" {
      TailMatches(l[1..]);
      assert l[..1] == [l[0]];
      if Matches(LABEL, l) {
        var i :| 0 <= i <= |l| && Matches(One(Alnum), l[..i]) && Matches(Maybe(TAIL), l[i..]);
        assert i == 1;
      }
      if Matches(Maybe(TAIL), l[1..]) && InClass(Alnum, l[0]) {
        assert Matches(One(Alnum), l[..1]);
      }
      assert forall k :: 0 < k < |l| ==> l[k] == l[1..][k - 1];
    }
  }

  /* ---- Names ---- */

  /** Splitting at the first dot. */
  lemma {:induction false} SplitShape(s: string)
    ensures var head := Split(s, '.')[0];
            && head <= s && '.' !in head
            && (|head| == |s| ==> Split(s, '.') == [s])
            && (|head| < |s| ==> s[|head|] == '.' && Split(s, '.') == [head] + Split(s[|head| + 1..], '.'))
  {
    if s != "" && s[0] != '.' {
      SplitShape(s[1..]);
      var inner := Split(s[1..], '.')[0];
      assert s == [s[0]] + s[1..];
      if |inner| < |s[1..]| {
        assert s[1..][|inner| + 1..] == s[|inner| + 2..];
      }
    }
  }

  lemma MoreMatches(s: string)
    ensures Matches(MORE, s) <==> s != "" && s[0] == '.' && LabelOk(s[1..])
  {
    if s != "" {
      LabelMatches(s[1..]);
      assert s[..1] == [s[0]];
      if Matches(MORE, s) {
        var i :| 0 <= i <= |s| && Matches(One(Dot), s[..i]) && Matches(LABEL, s[i..]);
        assert i == 1;
      }
      if s[0] == '.' && Matches(LABEL, s[1..]) {
        assert Matches(One(Dot), s[..1]);
      }
    }
  }

  lemma LabelHasNoDot(l: string)
    requires LabelOk(l)
    ensures '.' !in l
  {
    assert forall i :: 0 <= i < |l| ==> InClass(AlnumHyphen, l[i]);
  }

  /** Text that starts with a dot is labels, each after a dot. */
  lemma {:induction false} StarSplits(s: string)
    ensures Matches(Star(MORE), s) <==> s == "" || (s[0] == '.' && LabelsOk(Split(s[1..], '.')))
    decreases |s|
  {
    if s != "" {
      if Matches(Star(MORE), s) {
        var i :| 0 < i <= |s| && Matches(MORE, s[..i]) && Matches(Star(MORE), s[i..]);
        StarFirst(s, i);
      }
      if s[0] == '.' && LabelsOk(Split(s[1..], '.')) {
        StarNext(s);
      }
    }
  }

  lemma StarFirst(s: string, i: nat)
    requires 0 < i <= |s| && Matches(MORE, s[..i]) && Matches(Star(MORE), s[i..])
    ensures s[0] == '.' && LabelsOk(Split(s[1..], '.'))
    decreases |s|, 0
  {
    MoreMatches(s[..i]);
    StarSplits(s[i..]);
    var l := s[..i][1..];
    LabelHasNoDot(l);
    if i == |s| {
      assert s[1..] == l;
      SplitWhole(l, '.');
    } else {
      var rest := s[i..][1..];
      assert s[1..] == l + ['.'] + rest;
      SplitCons(l, rest, '.');
    }
  }

  /** What is left after the first label is right too. */
  lemma RestOk(s: string)
    requires LabelsOk(Split(s, '.'))
    ensures var head := Split(s, '.')[0];
            && LabelOk(head) && head <= s
            && (|head| == |s| || (s[|head|] == '.' && LabelsOk(Split(s[|head| + 1..], '.'))))
  {
    SplitShape(s);
    var labels := Split(s, '.');
    assert LabelOk(labels[0]);
    if |labels[0]| < |s| {
      MoreLabels(labels[0], Split(s[|labels[0]| + 1..], '.'));
    }
  }

  lemma MoreLabels(head: string, rest: seq<string>)
    requires LabelsOk([head] + rest)
    ensures LabelsOk(rest)
  {
    assert forall k :: 0 <= k < |rest| ==> rest[k] == ([head] + rest)[k + 1];
  }

  lemma StarNext(s: string)
    requires s != "" && s[0] == '.' && LabelsOk(Split(s[1..], '.'))
    ensures Matches(Star(MORE), s)
    decreases |s|, 0
  {
    RestOk(s[1..]);
    var head := Split(s[1..], '.')[0];
    var i := |head| + 1;
    assert s[..i][1..] == head;
    MoreMatches(s[..i]);
    if i < |s| {
      assert s[i..][1..] == s[1..][i..];
    }
    StarSplits(s[i..]);
    assert Matches(MORE, s[..i]) && Matches(Star(MORE), s[i..]);
  }

  /** The pattern matches exactly the names all of whose labels are right. */
  lemma FqdnSplits(s: string)
    ensures Matches(FQDN, s) <==> LabelsOk(Split(s, '.'))
  {
    if Matches(FQDN, s) {
      var i :| 0 <= i <= |s| && Matches(LABEL, s[..i]) && Matches(Star(MORE), s[i..]);
      FqdnFirst(s, i);
    }
    if LabelsOk(Split(s, '.')) {
      FqdnNext(s);
    }
  }

  lemma FqdnFirst(s: string, i: nat)
    requires i <= |s| && Matches(LABEL, s[..i]) && Matches(Star(MORE), s[i..])
    ensures LabelsOk(Split(s, '.'))
  {
    LabelMatches(s[..i]);
    StarSplits(s[i..]);
    LabelHasNoDot(s[..i]);
    if i == |s| {
      assert s[..i] == s;
      SplitWhole(s, '.');
    } else {
      assert s == s[..i] + ['.'] + s[i..][1..];
      SplitCons(s[..i], s[i..][1..], '.');
    }
  }

  lemma FqdnNext(s: string)
    requires LabelsOk(Split(s, '.'))
    ensures Matches(FQDN, s)
  {
    RestOk(s);
    var i := |Split(s, '.')[0]|;
    LabelMatches(s[..i]);
    if i < |s| {
      assert s[i..][1..] == s[i + 1..];
    }
    StarSplits(s[i..]);
    assert Matches(LABEL, s[..i]) && Matches(Star(MORE), s[i..]);
  }

  /* ---- The hand-written recogniser ---- */

  predicate Ascii(s: string) {
    forall i | 0 <= i < |s| :: s[i] < '\U{80}'
  }

  lemma {:induction false} ByteLength(s: string)
    ensures |s| <= Utf8Len(s) && (Ascii(s) ==> Utf8Len(s) == |s|)
  {
    if s != "" {
      ByteLength(s[1..]);
      assert Ascii(s) ==> s[0] < '\U{80}' && Ascii(s[1..]);
    }
  }

  lemma LabelIsAscii(l: string)
    requires LabelOk(l)
    ensures Ascii(l)
  {
    assert forall i :: 0 <= i < |l| ==> InClass(AlnumHyphen, l[i]);
  }

  lemma {:induction false} NameIsAscii(s: string)
    requires LabelsOk(Split(s, '.'))
    ensures Ascii(s)
    decreases |s|
  {
    SplitShape(s);
    var labels := Split(s, '.');
    var n := |labels[0]|;
    assert LabelOk(labels[0]);
    LabelIsAscii(labels[0]);
    if n < |s| {
      var rest := Split(s[n + 1..], '.');
      assert forall k :: 0 <= k < |rest| ==> rest[k] == labels[k + 1];
      NameIsAscii(s[n + 1..]);
      assert forall i :: n < i < |s| ==> s[i] == s[n + 1..][i - n - 1];
    }
    assert forall i :: 0 <= i < n ==> s[i] == labels[0][i];
  }

  /** validDNSName accepts exactly what the pattern matches in at most 253 characters. */
  method ValidDNSName(s: string) returns (ok: bool)
    ensures ok <==> Matches(FQDN, s) && |s| <= 253
  {
    FqdnSplits(s);
    ByteLength(s);
    if LabelsOk(Split(s, '.')) {
      NameIsAscii(s);
    }
    if s == "" || Utf8Len(s) > 253 {
      assert s == "" ==> Split(s, '.') == [""] && !LabelOk("");
      return false;
    }
    var labels := Split(s, '.');
    for k := 0 to |labels|
      invariant forall j :: 0 <= j < k ==> LabelOk(labels[j])
    {
      var good := ValidLabel(labels[k]);
      if !good {
        return false;
      }
    }
    ok := true;
  }

  /** Offsets and lengths count bytes, as range and len do. */
  method ValidLabel(l: string) returns (ok: bool)
    ensures ok <==> LabelOk(l)
  {
    ByteLength(l);
    if LabelOk(l) {
      LabelIsAscii(l);
    }
    if l == "" || Utf8Len(l) > 63 {
      return false;
    }
    var i := 0;
    for n := 0 to |l|
      invariant i == n && Ascii(l[..n])
      invariant forall j :: 0 <= j < n ==> InClass(AlnumHyphen, l[j])
      invariant n > 0 ==> InClass(Alnum, l[0])
      invariant n == |l| ==> InClass(Alnum, l[n - 1])
    {
      var r := l[n];
      if InClass(Alnum, r) {
      } else if r == '-' && i != 0 && i != Utf8Len(l) - 1 {
        assert n == |l| - 1 ==> Ascii(l);
      } else {
        return false;
      }
      assert l[..n + 1] == l[..n] + [r];
      ByteLength([r]);
      i := i + Utf8Len([r]);
    }
    assert l[..|l|] == l;
    ok := true;
  }

  /* ---- The names of a certificate ---- */

  /** Every name of the load-balancer certificate; names is never empty. */
  function AllNames(names: seq<string>, vip: string, balancers: seq<string>): seq<string> {
    names + ((if vip == "" then [] else [vip]) + Filter(balancers, ip => ip != ""))
  }

  lemma {:induction false} FilterHolds(lines: seq<string>, keep: string -> bool, x: string)
    ensures x in Filter(lines, keep) <==> x in lines && keep(x)
  {
    if lines != [] {
      FilterHolds(lines[1..], keep, x);
    }
  }

  /** A name is on the certificate exactly when it is one of the DNS names, the floating
      address or the address of a balancer; a missing address is left out. */
  lemma CertificateNames(names: seq<string>, vip: string, balancers: seq<string>, san: string)
    ensures san in AllNames(names, vip, balancers)
            <==> san in names || (san != "" && (san == vip || san in balancers))
  {
    FilterHolds(balancers, ip => ip != "", san);
  }

  /** Names the loop passes: those it skips, addresses, and safe DNS names. */
  ghost predicate Passes(san: string, subject: string, isIP: string -> bool) {
    san == "" || san == subject || isIP(san) || (Matches(FQDN, san) && |san| <= 253)
  }

  /** What the loop appends for one name. */
  function Flag(san: string, subject: string): string {
    if san == "" || san == subject then "" else " --san " + san
  }

  function Flags(sans: seq<string>, subject: string): string {
    if sans == [] then "" else Flag(sans[0], subject) + Flags(sans[1..], subject)
  }

  lemma {:induction false} FlagsNext(sans: seq<string>, k: nat, subject: string)
    requires k < |sans|
    ensures Flags(sans[..k + 1], subject) == Flags(sans[..k], subject) + Flag(sans[k], subject)
  {
    if k == 0 {
      assert sans[..1][1..] == [] && sans[..0] == [];
    } else {
      var rest := sans[1..];
      assert sans[..k + 1][1..] == rest[..k] && sans[..k][1..] == rest[..k - 1];
      FlagsNext(rest, k - 1, subject);
      Regroup(Flag(sans[0], subject), Flags(rest[..k - 1], subject), Flag(sans[k], subject));
    }
  }

  /** The loop of issueLoadBalancerCertificates: the flags, or the first name it refuses. */
  method SanFlags(sans: seq<string>, subject: string, isIP: string -> bool) returns (r: Result<string, string>)
    ensures r.Ok? <==> AllPass(sans, subject, isIP)
    ensures r.Ok? ==> r.value == Flags(sans, subject)
    ensures r.Err? ==> exists k: nat :: FirstRefused(sans, subject, isIP, k) && sans[k] == r.error
  {
    var flags := "";
    for k := 0 to |sans|
      invariant flags == Flags(sans[..k], subject)
      invariant AllPass(sans[..k], subject, isIP)
    {
      var ok := CheckName(sans[k], subject, isIP);
      if !ok {
        assert FirstRefused(sans, subject, isIP, k);
        return Err(sans[k]);
      }
      assert sans[..k + 1] == sans[..k] + [sans[k]];
      FlagsNext(sans, k, subject);
      flags := flags + Flag(sans[k], subject);
    }
    assert sans[..|sans|] == sans;
    r := Ok(flags);
  }

  /** The first name that does not pass. */
  ghost predicate FirstRefused(sans: seq<string>, subject: string, isIP: string -> bool, k: nat) {
    k < |sans| && !Passes(sans[k], subject, isIP) && AllPass(sans[..k], subject, isIP)
  }

  ghost predicate AllPass(sans: seq<string>, subject: string, isIP: string -> bool) {
    forall san :: san in sans ==> Passes(san, subject, isIP)
  }

  method CheckName(san: string, subject: string, isIP: string -> bool) returns (ok: bool)
    ensures ok <==> Passes(san, subject, isIP)
  {
    if san == "" || san == subject || isIP(san) {
      return true;
    }
    ok := ValidDNSName(san);
  }

  /** After the configuration check, issuing refuses a name exactly when it is a DNS name
      of more than 253 characters other than the subject. */
  lemma ValidatedNamesPass(names: seq<string>, vip: string, balancers: seq<string>, isIP: string -> bool)
    requires names != [] && forall i :: 0 <= i < |names| ==> Matches(FQDN, names[i])
    requires isIP(vip) && forall i :: 0 <= i < |balancers| ==> balancers[i] == "" || isIP(balancers[i])
    ensures AllPass(AllNames(names, vip, balancers), names[0], isIP)
            <==> forall i :: 0 <= i < |names| ==> names[i] == names[0] || isIP(names[i]) || |names[i]| <= 253
  {
    var addresses := (if vip == "" then [] else [vip]) + Filter(balancers, ip => ip != "");
    assert AllNames(names, vip, balancers) == names + addresses;
    forall san | san in addresses ensures Passes(san, names[0], isIP) {
      if !(vip != "" && san == vip) {
        var k :| 0 <= k < |Filter(balancers, ip => ip != "")| && Filter(balancers, ip => ip != "")[k] == san;
        FilterMembers(balancers, ip => ip != "", k);
      }
    }
    forall i | 0 <= i < |names|
      ensures Passes(names[i], names[0], isIP) <==> names[i] == names[0] || isIP(names[i]) || |names[i]| <= 253
    {
      EmptyIsNoName();
    }
  }

  lemma EmptyIsNoName()
    ensures !Matches(FQDN, "")
  {
    FqdnSplits("");
    assert Split("", '.') == [""] && !LabelOk("");
  }

  /* ---- The flags in the command line ---- */

  lemma {:induction false} NameIsPlain(s: string)
    requires LabelsOk(Split(s, '.'))
    ensures Shell.PlainText(s)
    decreases |s|
  {
    SplitShape(s);
    var labels := Split(s, '.');
    var n := |labels[0]|;
    assert LabelOk(labels[0]);
    forall i | 0 <= i < n ensures Shell.PlainChar(s[i]) {
      assert s[i] == labels[0][i] && InClass(AlnumHyphen, labels[0][i]);
    }
    if n < |s| {
      var rest := Split(s[n + 1..], '.');
      assert forall k :: 0 <= k < |rest| ==> rest[k] == labels[k + 1];
      NameIsPlain(s[n + 1..]);
      forall i | n < i < |s| ensures Shell.PlainChar(s[i]) {
        assert s[i] == s[n + 1..][i - n - 1];
      }
    }
  }

  /** From st, text is read as whole words. */
  ghost predicate ReadsWords(st: Shell.Lexer, text: string, words: seq<Shell.Token>) {
    match Shell.Run(st, text)
    case None => false
    case Some(end) => end.mode.Plain? && Shell.Flush(end) == Shell.Flush(st) + words
  }

  lemma ReadsMore(st: Shell.Lexer, a: string, first: seq<Shell.Token>, b: string, rest: seq<Shell.Token>)
    requires ReadsWords(st, a, first) && ReadsWords(Shell.Run(st, a).value, b, rest)
    ensures ReadsWords(st, a + b, first + rest)
  {
    Shell.RunConcat(st, a, b);
    Regroup(Shell.Flush(st), first, rest);
  }

  function FlagWords(sans: seq<string>, subject: string): seq<Shell.Token> {
    if sans == [] then []
    else
      (if sans[0] == "" || sans[0] == subject then [] else [Shell.Word("--san"), Shell.Word(sans[0])])
      + FlagWords(sans[1..], subject)
  }

  function IsFlagged(subject: string): string -> bool {
    san => san != "" && san != subject
  }

  predicate FlagPair(words: seq<Shell.Token>, i: nat, san: string) {
    2 * i + 1 < |words| && words[2 * i] == Shell.Word("--san") && words[2 * i + 1] == Shell.Word(san)
  }

  /** The words are a flag and a name for each name in order that is not empty and not the
      subject, which stands before them. */
  lemma {:induction false} FlagWordsAre(sans: seq<string>, subject: string)
    ensures var flagged := Filter(sans, IsFlagged(subject));
            && |FlagWords(sans, subject)| == 2 * |flagged|
            && forall i :: 0 <= i < |flagged| ==> FlagPair(FlagWords(sans, subject), i, flagged[i])
  {
    if sans != [] {
      FlagWordsAre(sans[1..], subject);
      var rest, flagged := FlagWords(sans[1..], subject), Filter(sans[1..], IsFlagged(subject));
      if IsFlagged(subject)(sans[0]) {
        var words := [Shell.Word("--san"), Shell.Word(sans[0])] + rest;
        assert FlagWords(sans, subject) == words;
        forall i | 0 <= i < |flagged| ensures FlagPair(words, i + 1, flagged[i]) {
          assert FlagPair(rest, i, flagged[i]);
        }
        assert FlagPair(words, 0, sans[0]);
        var all := [sans[0]] + flagged;
        forall i | 0 <= i < |all| ensures FlagPair(words, i, all[i]) {
          if i > 0 {
            assert FlagPair(words, i - 1 + 1, flagged[i - 1]);
          }
        }
        assert Filter(sans, IsFlagged(subject)) == all;
      } else {
        assert FlagWords(sans, subject) == rest && Filter(sans, IsFlagged(subject)) == flagged;
      }
    }
  }

  /** What passes is safe to paste unquoted: the shell reads each name as one word of its
      own after its flag, provided addresses have no special characters either. */
  lemma {:induction false} FlagsAreWords(st: Shell.Lexer, sans: seq<string>, subject: string, isIP: string -> bool)
    requires st.mode.Plain? && forall x :: isIP(x) ==> Shell.PlainText(x)
    requires AllPass(sans, subject, isIP)
    ensures ReadsWords(st, Flags(sans, subject), FlagWords(sans, subject))
    decreases |sans|
  {
    if sans != [] {
      var san := sans[0];
      assert Passes(san, subject, isIP);
      if san == "" || san == subject {
        FlagsAreWords(st, sans[1..], subject, isIP);
        assert Flags(sans, subject) == Flags(sans[1..], subject);
        assert FlagWords(sans, subject) == FlagWords(sans[1..], subject);
      } else {
        PassingIsPlain(san, subject, isIP);
        OneFlag(st, san);
        var flag := " --san " + san;
        FlagsAreWords(Shell.Run(st, flag).value, sans[1..], subject, isIP);
        ReadsMore(st, flag, [Shell.Word("--san"), Shell.Word(san)], Flags(sans[1..], subject), FlagWords(sans[1..], subject));
      }
    }
  }

  lemma PassingIsPlain(san: string, subject: string, isIP: string -> bool)
    requires Passes(san, subject, isIP) && san != "" && san != subject && (isIP(san) ==> Shell.PlainText(san))
    ensures Shell.PlainText(san)
  {
    if !isIP(san) {
      FqdnSplits(san);
      NameIsPlain(san);
    }
  }

  lemma OneFlag(st: Shell.Lexer, san: string)
    requires st.mode.Plain? && Shell.PlainText(san)
    ensures ReadsWords(st, " --san " + san, [Shell.Word("--san"), Shell.Word(san)])
  {
    var a, b := Shell.Bare("--san"), Shell.Bare(san);
    Shell.TwoArgs(a, b);
    Shell.CommandReads(Shell.Flush(st), [a, b]);
    assert " --san " + san == " " + ("--san" + (" " + san));
    Shell.BlankEnds(st, Shell.ShowCommand([a, b]));
  }
}
