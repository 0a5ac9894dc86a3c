/** Writing the database password into wp-config.php
    (puppet/modules/role/files/cms-ha/configure-wordpress.py). */
module WpConfig {
  import opened Wrappers
  import opened Text

  /* ---- The PHP literal ---- */

  /** str.replace for a one-character pattern. */
  function Replace(s: string, c: char, with: string): string {
    if s == "" then "" else (if s[0] == c then with else [s[0]]) + Replace(s[1..], c, with)
  }

  function PhpString(value: string): string {
    "'" + Replace(Replace(value, '\\', "\\\\"), '\'', "\\'") + "'"
  }

  /** The inside of a single-quoted PHP literal: its value, and the text after the closing
      quote. Only a quote and a backslash can be escaped. */
  function PhpInside(s: string): Option<(string, string)>
    decreases |s|
  {
    if s == "" then None
    else if s[0] == '\'' then Some(("", s[1..]))
    else
      var escape := s[0] == '\\' && |s| > 1 && (s[1] == '\'' || s[1] == '\\');
      match PhpInside(if escape then s[2..] else s[1..])
      case None => None
      case Some(rest) => Some(([if escape then s[1] else s[0]] + rest.0, rest.1))
  }

  function PhpParse(s: string): Option<(string, string)> {
    if s != "" && s[0] == '\'' then PhpInside(s[1..]) else None
  }

  function EscapeChar(c: char): string {
    if c == '\\' || c == '\'' then ['\\', c] else [c]
  }

  function Escape(s: string): string {
    if s == "" then "" else EscapeChar(s[0]) + Escape(s[1..])
  }

  lemma ReplaceCons(x: char, s: string, c: char, with: string)
    ensures Replace([x] + s, c, with) == (if x == c then with else [x]) + Replace(s, c, with)
  {
    assert ([x] + s)[1..] == s;
  }

  lemma EscapeStep(c: char, rest: string)
    ensures Replace((if c == '\\' then "\\\\" else [c]) + rest, '\'', "\\'")
            == EscapeChar(c) + Replace(rest, '\'', "\\'")
  {
    if c == '\\' {
      assert "\\\\" + rest == ['\\'] + (['\\'] + rest);
      ReplaceCons('\\', ['\\'] + rest, '\'', "\\'");
      ReplaceCons('\\', rest, '\'', "\\'");
      var last := Replace(rest, '\'', "\\'");
      assert ['\\'] + (['\\'] + last) == ['\\', '\\'] + last;
    }
    ReplaceCons(c, rest, '\'', "\\'");
  }

  lemma {:induction false} EscapeIsTwoReplaces(s: string)
    ensures Replace(Replace(s, '\\', "\\\\"), '\'', "\\'") == Escape(s)
  {
    if s != "" {
      EscapeIsTwoReplaces(s[1..]);
      EscapeStep(s[0], Replace(s[1..], '\\', "\\\\"));
    }
  }

  lemma InsideStep(c: char, tail: string)
    ensures PhpInside(EscapeChar(c) + tail)
            == match PhpInside(tail) case None => None case Some(rest) => Some(([c] + rest.0, rest.1))
  {
    assert (EscapeChar(c) + tail)[|EscapeChar(c)|..] == tail;
  }

  lemma {:induction false} InsideReadsBack(s: string, rest: string)
    ensures PhpInside(Escape(s) + ("'" + rest)) == Some((s, rest))
  {
    if s == "" {
      assert Escape(s) + ("'" + rest) == "'" + rest;
    } else {
      InsideReadsBack(s[1..], rest);
      InsideStep(s[0], Escape(s[1..]) + ("'" + rest));
      Regroup(EscapeChar(s[0]), Escape(s[1..]), "'" + rest);
      assert [s[0]] + s[1..] == s;
    }
  }

  /** For every password, PHP reads the written literal as that password. */
  lemma PhpReadsBack(value: string, rest: string)
    ensures PhpParse(PhpString(value) + rest) == Some((value, rest))
  {
    EscapeIsTwoReplaces(value);
    InsideReadsBack(value, rest);
    assert (PhpString(value) + rest)[1..] == Escape(value) + ("'" + rest);
  }

  /* ---- The pattern ---- */

  /** Python's \s: Unicode white space and the four separators below it. */
  predicate PySpace(c: char) {
    IsSpace(c) || '\U{1C}' <= c <= '\U{1F}'
  }

  /** The first index from i on that holds no white space. */
  function Skip(s: string, i: nat): (j: nat)
    requires i <= |s|
    ensures i <= j <= |s|
    ensures j < |s| ==> !PySpace(s[j])
    ensures forall k :: i <= k < j ==> PySpace(s[k])
    decreases |s| - i
  {
    if i < |s| && PySpace(s[i]) then Skip(s, i + 1) else i
  }

  const NAME := "DB_PASSWORD"

  predicate QuoteMark(s: string, i: nat) {
    i < |s| && (s[i] == '\'' || s[i] == '"')
  }

  /** "define" and an opening parenthesis: the index after it. White space is taken whole,
      since nothing after it in the pattern starts with any. */
  function Opening(s: string, p: nat): (end: Option<nat>)
    ensures end.Some? ==> p + 6 < end.value <= |s|
  {
    if !OccursAt(s, "define", p) then None
    else
      var a := Skip(s, p + 6);
      if a < |s| && s[a] == '(' then Some(a + 1) else None
  }

  /** The name in quote marks of either kind, and a comma: the index after it. */
  function Naming(s: string, i: nat): (end: Option<nat>)
    requires i <= |s|
    ensures end.Some? ==> i < end.value <= |s|
  {
    var b := Skip(s, i);
    var c := b + 1 + |NAME|;
    if !QuoteMark(s, b) || !OccursAt(s, NAME, b + 1) || !QuoteMark(s, c) then None
    else
      var d := Skip(s, c + 1);
      if d < |s| && s[d] == ',' then Some(d + 1) else None
  }

  /** The pattern up to its comma: the index after the comma. */
  function Header(s: string, p: nat): (end: Option<nat>)
    ensures end.Some? ==> p < end.value <= |s|
  {
    match Opening(s, p)
    case None => None
    case Some(i) => Naming(s, i)
  }

  function StartsHeader(s: string): nat -> bool {
    (p: nat) => Header(s, p).Some?
  }

  ghost predicate Spaces(s: string, i: nat, j: nat) {
    i <= j <= |s| && forall k :: i <= k < j ==> PySpace(s[k])
  }

  /** The pattern read as a regular expression: "define", spaces, "(", */
  ghost predicate OpeningParts(s: string, p: nat, a: nat) {
    OccursAt(s, "define", p) && Spaces(s, p + 6, a) && a < |s| && s[a] == '('
  }

  /** spaces, the name between two quote marks, spaces, ",". Any stretch of white space will do. */
  ghost predicate NamingParts(s: string, i: nat, b: nat, d: nat) {
    && Spaces(s, i, b) && b < |s| && s[b] in {'\'', '"'} && OccursAt(s, "DB_PASSWORD", b + 1)
    && b + 12 < |s| && s[b + 12] in {'\'', '"'}
    && Spaces(s, b + 13, d) && d < |s| && s[d] == ','
  }

  ghost predicate HeaderParts(s: string, p: nat, a: nat, b: nat, d: nat) {
    OpeningParts(s, p, a) && NamingParts(s, a + 1, b, d)
  }

  lemma {:induction false} SkipsAll(s: string, i: nat, j: nat)
    requires Spaces(s, i, j) && (j < |s| ==> !PySpace(s[j]))
    ensures Skip(s, i) == j
    decreases j - i
  {
    if i < j {
      SkipsAll(s, i + 1, j);
    }
  }

  lemma OpeningOfParts(s: string, p: nat, a: nat)
    requires OpeningParts(s, p, a)
    ensures Opening(s, p) == Some(a + 1)
  {
    SkipsAll(s, p + 6, a);
  }

  lemma NamingOfParts(s: string, i: nat, b: nat, d: nat)
    requires i <= |s| && NamingParts(s, i, b, d)
    ensures Naming(s, i) == Some(d + 1)
  {
    SkipsAll(s, i, b);
    SkipsAll(s, b + 2 + |NAME|, d);
  }

  lemma NamingHasParts(s: string, i: nat, end: nat)
    requires i <= |s| && Naming(s, i) == Some(end)
    ensures end >= 1 && NamingParts(s, i, Skip(s, i), end - 1)
  {
  }

  lemma OpeningHasParts(s: string, p: nat, i: nat)
    requires Opening(s, p) == Some(i)
    ensures i >= 1 && OpeningParts(s, p, i - 1)
  {
  }

  lemma HeaderHasParts(s: string, p: nat, i: nat, end: nat)
    requires Opening(s, p) == Some(i) && i <= |s| && Naming(s, i) == Some(end)
    ensures i >= 1 && end >= 1 && HeaderParts(s, p, i - 1, Skip(s, i), end - 1)
  {
    OpeningHasParts(s, p, i);
    NamingHasParts(s, i, end);
  }

  lemma PartsMakeHeader(s: string, p: nat, a: nat, b: nat, d: nat)
    requires HeaderParts(s, p, a, b, d)
    ensures Header(s, p) == Some(d + 1)
  {
    OpeningOfParts(s, p, a);
    NamingOfParts(s, a + 1, b, d);
  }

  ghost predicate HasParts(s: string, p: nat, d: nat) {
    exists a: nat, b: nat :: HeaderParts(s, p, a, b, d)
  }

  lemma HasPartsWhen(s: string, p: nat, d: nat)
    requires HasParts(s, p, d)
    ensures Header(s, p) == Some(d + 1)
  {
    var a: nat, b: nat :| HeaderParts(s, p, a, b, d);
    PartsMakeHeader(s, p, a, b, d);
  }

  /** Reading greedily finds the pattern wherever it is, and only there. */
  lemma HeaderIsPattern(s: string, p: nat, d: nat)
    ensures Header(s, p) == Some(d + 1) <==> HasParts(s, p, d)
  {
    if Header(s, p) == Some(d + 1) {
      HeaderHasParts(s, p, Opening(s, p).value, d + 1);
    } else if HasParts(s, p, d) {
      HasPartsWhen(s, p, d);
    }
  }

  /** The first index from `from` to n that passes the test. */
  function First(test: nat -> bool, from: nat, n: nat): (p: Option<nat>)
    requires from <= n
    ensures p.Some? ==> from <= p.value <= n && test(p.value) && forall i :: from <= i < p.value ==> !test(i)
    ensures p.None? ==> forall i :: from <= i <= n ==> !test(i)
    decreases n - from
  {
    if test(from) then Some(from) else if from == n then None else First(test, from + 1, n)
  }

  function FirstHeader(s: string): (p: Option<nat>)
    ensures p.Some? ==> Header(s, p.value).Some?
  {
    First(StartsHeader(s), 0, |s|)
  }

  const CLOSE := ");"

  datatype Span = Span(start: nat, end: nat)

  /** The match of the whole pattern: from the first header to the first ");" after it. */
  function Find(s: string): (m: Option<Span>)
    ensures m.Some? ==> m.value.start < m.value.end <= |s|
  {
    match FirstHeader(s)
    case None => None
    case Some(p) =>
      match IndexFrom(s, CLOSE, Header(s, p).value)
      case None => None
      case Some(q) => Some(Span(p, q + 2))
  }

  /** The pattern itself: a header, anything, then ");". */
  predicate Matches(s: string, m: Span) {
    match Header(s, m.start)
    case None => false
    case Some(end) => end + 2 <= m.end && OccursAt(s, CLOSE, m.end - 2)
  }

  /** Leftmost, and of those the shortest. */
  ghost predicate FirstMatch(s: string, m: Span) {
    && Matches(s, m)
    && (forall n: Span | n.start < m.start :: !Matches(s, n))
    && (forall n: Span | n.start == m.start && n.end < m.end :: !Matches(s, n))
  }

  /** No header starts before the first one, and none ends before it. */
  lemma FirstHeaderIsFirst(s: string, q: nat)
    requires Header(s, q).Some?
    ensures FirstHeader(s).Some? && FirstHeader(s).value <= q
    ensures Header(s, FirstHeader(s).value).value <= Header(s, q).value
  {
    assert StartsHeader(s)(q);
    HeaderEndsGrow(s, FirstHeader(s).value, q);
  }

  /** The search finds the leftmost shortest match, and nothing exactly when there is none. */
  lemma FindIsFirstMatch(s: string)
    ensures Find(s).Some? ==> FirstMatch(s, Find(s).value)
    ensures Find(s).None? ==> forall m: Span :: !Matches(s, m)
  {
    forall m: Span | Matches(s, m)
      ensures Find(s).Some? && Find(s).value.start <= m.start && (Find(s).value.start == m.start ==> Find(s).value.end <= m.end)
    {
      FindIsBefore(s, m);
    }
  }

  lemma FindIsBefore(s: string, m: Span)
    requires Matches(s, m)
    ensures Find(s).Some? && Find(s).value.start <= m.start
    ensures Find(s).value.end <= m.end
  {
    FirstHeaderIsFirst(s, m.start);
    var end := Header(s, FirstHeader(s).value).value;
    assert end <= m.end - 2;
  }

  lemma HeaderEndsGrow(s: string, p: nat, q: nat)
    requires p <= q && Header(s, p).Some? && Header(s, q).Some?
    ensures Header(s, p).value <= Header(s, q).value
  {
    if p < q {
      HeaderHasOneD(s, p);
      HeaderHasOneD(s, q);
    }
  }

  lemma OpeningHasOneD(s: string, p: nat)
    requires Opening(s, p).Some?
    ensures s[p] == 'd' && forall k :: p < k < Opening(s, p).value ==> s[k] != 'd'
  {
    assert s[p..p + 6] == "define";
    assert forall k :: p <= k < p + 6 ==> s[k] == "define"[k - p];
  }

  lemma NamingHasNoD(s: string, i: nat)
    requires i <= |s| && Naming(s, i).Some?
    ensures forall k :: i <= k < Naming(s, i).value ==> s[k] != 'd'
  {
    var b := Skip(s, i);
    assert s[b + 1..b + 1 + |NAME|] == NAME;
    assert forall k :: b < k < b + 1 + |NAME| ==> s[k] == NAME[k - b - 1];
  }

  /** The letter that starts a header occurs nowhere else in it. */
  lemma HeaderHasOneD(s: string, p: nat)
    requires Header(s, p).Some?
    ensures s[p] == 'd' && forall k :: p < k < Header(s, p).value ==> s[k] != 'd'
  {
    OpeningHasOneD(s, p);
    NamingHasNoD(s, Opening(s, p).value);
  }

  /* ---- The rewrite ---- */

  const HEAD := "define( 'DB_PASSWORD',"

  function Body(password: string): string {
    " " + PhpString(password) + " );"
  }

  function Replacement(password: string): string {
    HEAD + Body(password)
  }

  /** The text with its first match replaced; None when there is no match. */
  function Rewrite(s: string, password: string): Option<string> {
    match Find(s)
    case None => None
    case Some(m) => Some(s[..m.start] + Replacement(password) + s[m.end..])
  }

  /** Universal newlines: what a text-mode read makes of the bytes. */
  function Translate(s: string): string
    decreases |s|
  {
    if s == "" then ""
    else if s[0] == '\r' then "\n" + Translate(if |s| > 1 && s[1] == '\n' then s[2..] else s[1..])
    else [s[0]] + Translate(s[1..])
  }

  datatype Host = Host(file: Option<string>, code: int)

  /** configure-db and check-db: the file afterwards and the exit code. password is None
      when the facts cannot be read. */
  function Configure(file: Option<string>, password: Option<string>, checkOnly: bool, writes: bool): Host {
    if file.None? || password.None? then Host(file, 1)
    else
      var content := Translate(file.value);
      match Rewrite(content, password.value)
      case None => Host(file, 1)
      case Some(updated) =>
        if updated == content then Host(file, 0)
        else if checkOnly || !writes then Host(file, 1)
        else Host(Some(updated), 0)
  }

  class WpHost {
    var file: Option<string>

    constructor (file: Option<string>)
      ensures this.file == file
    {
      this.file := file;
    }

    /** The new text is put in place by a rename, so a failure leaves the old one. */
    method ConfigureDb(password: Option<string>, checkOnly: bool, writes: bool) returns (code: int)
      modifies this
      ensures Host(file, code) == Configure(old(file), password, checkOnly, writes)
    {
      if password.None? || file.None? {
        return 1;
      }
      var content := Translate(file.value);
      var found := Find(content);
      if found.None? {
        return 1;
      }
      var m := found.value;
      var updated := content[..m.start] + Replacement(password.value) + content[m.end..];
      if checkOnly {
        return if updated == content then 0 else 1;
      }
      if updated == content {
        return 0;
      }
      if !writes {
        return 1;
      }
      file := Some(updated);
      code := 0;
    }
  }

  /* ---- Newlines ---- */

  lemma {:induction false} TranslateHasNone(s: string)
    ensures '\r' !in Translate(s)
    decreases |s|
  {
    if s != "" {
      TranslateHasNone(if s[0] == '\r' && |s| > 1 && s[1] == '\n' then s[2..] else s[1..]);
    }
  }

  lemma {:induction false} TranslateAfter(a: string, b: string)
    requires '\r' !in a
    ensures Translate(a + b) == a + Translate(b)
  {
    if a == "" {
      assert a + b == b;
    } else {
      assert (a + b)[1..] == a[1..] + b && (a + b)[0] == a[0];
      assert a == [a[0]] + a[1..];
      TranslateAfter(a[1..], b);
    }
  }

  /** How much of the text makes the first character of the translation. */
  function FirstUnit(s: string): nat
    requires s != ""
    ensures 1 <= FirstUnit(s) <= |s|
  {
    if s[0] == '\r' && |s| > 1 && s[1] == '\n' then 2 else 1
  }

  lemma TranslateUnit(s: string)
    requires s != ""
    ensures Translate(s) == [if s[0] == '\r' then '\n' else s[0]] + Translate(s[FirstUnit(s)..])
  {
  }

  /** Both other ways to end a line are read as a line feed, and nothing else changes. */
  lemma NewlinesRead(a: string, b: string)
    requires '\r' !in a
    ensures Translate(a + "\r\n" + b) == a + "\n" + Translate(b)
    ensures (b == "" || b[0] != '\n') ==> Translate(a + "\r" + b) == a + "\n" + Translate(b)
  {
    Regroup(a, "\r\n", b);
    Regroup(a, "\r", b);
    Regroup(a, "\n", Translate(b));
    TranslateAfter(a, "\r\n" + b);
    TranslateAfter(a, "\r" + b);
    assert ("\r\n" + b)[2..] == b && ("\r" + b)[1..] == b;
  }

  lemma {:induction false} TranslateBefore(a: string, b: string)
    requires '\r' !in b && (b == "" || b[0] != '\n' || a == "" || a[|a| - 1] != '\r')
    ensures Translate(a + b) == Translate(a) + b
    decreases |a|
  {
    if a == "" {
      TranslateWhole(b);
      assert a + b == b && Translate(a) + b == b;
    } else {
      var n := FirstUnit(a);
      UnitBefore(a, b);
      TranslateBefore(a[n..], b);
      TranslateUnit(a);
      TranslateUnit(a + b);
      Regroup([if a[0] == '\r' then '\n' else a[0]], Translate(a[n..]), b);
    }
  }

  lemma UnitBefore(a: string, b: string)
    requires a != "" && (b == "" || b[0] != '\n' || a[|a| - 1] != '\r')
    ensures FirstUnit(a + b) == FirstUnit(a) && (a + b)[0] == a[0]
    ensures (a + b)[FirstUnit(a)..] == a[FirstUnit(a)..] + b
    ensures a[FirstUnit(a)..] == "" || a[FirstUnit(a)..][|a| - FirstUnit(a) - 1] == a[|a| - 1]
  {
  }

  lemma TranslateWhole(b: string)
    requires '\r' !in b
    ensures Translate(b) == b
  {
    TranslateAfter(b, "");
    assert b + "" == b;
  }

  lemma TranslateFixes(s: string)
    ensures Translate(s) == s <==> '\r' !in s
  {
    TranslateHasNone(s);
    if '\r' !in s {
      TranslateWhole(s);
    }
  }

  lemma {:induction false} TranslateShrinks(s: string)
    ensures |Translate(s)| <= |s|
    decreases |s|
  {
    if s != "" {
      TranslateShrinks(if s[0] == '\r' && |s| > 1 && s[1] == '\n' then s[2..] else s[1..]);
    }
  }

  /* ---- Where the pattern closes ---- */

  predicate HasClose(s: string) {
    |s| > 1 && ((s[0] == ')' && s[1] == ';') || HasClose(s[1..]))
  }

  lemma {:induction false} HasCloseOccurs(s: string)
    ensures HasClose(s) <==> Contains(s, CLOSE)
  {
    if |s| > 1 {
      HasCloseOccurs(s[1..]);
      assert s[0..2] == [s[0], s[1]];
      if HasClose(s[1..]) {
        var i :| OccursAt(s[1..], CLOSE, i);
        assert s[1..][i..i + 2] == s[i + 1..i + 3];
        assert OccursAt(s, CLOSE, i + 1);
      }
      if Contains(s, CLOSE) {
        var i :| OccursAt(s, CLOSE, i);
        if i > 0 {
          assert s[1..][i - 1..i + 1] == s[i..i + 2];
          assert OccursAt(s[1..], CLOSE, i - 1);
        }
      }
      if s[0] == ')' && s[1] == ';' {
        assert OccursAt(s, CLOSE, 0);
      }
    }
  }

  lemma CloseCons(c: char, s: string)
    ensures HasClose([c] + s) <==> (c == ')' && s != "" && s[0] == ';') || HasClose(s)
  {
    assert ([c] + s)[1..] == s;
  }

  lemma CloseEscaped(c: char, s: string)
    ensures HasClose(EscapeChar(c) + s) <==> (c == ')' && s != "" && s[0] == ';') || HasClose(s)
    ensures (EscapeChar(c) + s)[0] == ';' <==> c == ';'
  {
    CloseCons(c, s);
    if c == '\\' || c == '\'' {
      assert EscapeChar(c) + s == ['\\'] + ([c] + s);
      CloseCons('\\', [c] + s);
    }
  }

  lemma {:induction false} EscapeKeepsClose(s: string)
    ensures HasClose(Escape(s)) <==> HasClose(s)
    ensures Escape(s) == "" <==> s == ""
    ensures s != "" ==> (Escape(s)[0] == ';' <==> s[0] == ';')
  {
    if s != "" {
      EscapeKeepsClose(s[1..]);
      CloseEscaped(s[0], Escape(s[1..]));
      CloseCons(s[0], s[1..]);
      assert s == [s[0]] + s[1..];
    }
  }

  lemma {:induction false} TranslateKeepsClose(s: string)
    ensures HasClose(Translate(s)) <==> HasClose(s)
    ensures Translate(s) == "" <==> s == ""
    ensures s != "" ==> (Translate(s)[0] == ';' <==> s[0] == ';')
    decreases |s|
  {
    if s != "" {
      assert s == [s[0]] + s[1..];
      CloseCons(s[0], s[1..]);
      if s[0] == '\r' && |s| > 1 && s[1] == '\n' {
        TranslateKeepsClose(s[2..]);
        assert s[1..] == [s[1]] + s[2..];
        CloseCons(s[1], s[2..]);
        CloseCons('\n', Translate(s[2..]));
      } else {
        TranslateKeepsClose(s[1..]);
        CloseCons(if s[0] == '\r' then '\n' else s[0], Translate(s[1..]));
      }
    }
  }

  lemma {:induction false} CloseAppend(a: string, b: string)
    ensures HasClose(a + b) <==> HasClose(a) || HasClose(b) || (a != "" && b != "" && a[|a| - 1] == ')' && b[0] == ';')
  {
    if a == "" {
      assert a + b == b;
    } else {
      CloseAppend(a[1..], b);
      assert a == [a[0]] + a[1..] && a + b == [a[0]] + (a[1..] + b);
      CloseCons(a[0], a[1..] + b);
      CloseCons(a[0], a[1..]);
    }
  }

  /** The definition as it is read back. */
  function Written(password: string): string {
    HEAD + BodyText(password) + CLOSE
  }

  /** Its body up to the closing ");". */
  function BodyText(password: string): string {
    " '" + Translate(Escape(password)) + "' "
  }

  lemma BodyShape(e: string)
    ensures " '" + (e + "' );") == " '" + e + "' " + CLOSE
  {
    assert "' );" == "' " + CLOSE;
  }

  lemma BodyReadsBack(password: string)
    ensures Translate(Body(password)) == BodyText(password) + CLOSE
  {
    var e := Escape(password);
    EscapeIsTwoReplaces(password);
    assert Body(password) == " '" + (e + "' );");
    TranslateAfter(" '", e + "' );");
    TranslateBefore(e, "' );");
    BodyShape(Translate(e));
  }

  lemma BodyCloses(password: string)
    ensures HasClose(BodyText(password) + ")") <==> HasClose(password)
  {
    var e := Escape(password);
    EscapeKeepsClose(password);
    TranslateKeepsClose(e);
    assert BodyText(password) + ")" == " '" + (Translate(e) + "' )");
    CloseAppend(" '", Translate(e) + "' )");
    CloseAppend(Translate(e), "' )");
    assert !HasClose(" '") && !HasClose("' )");
  }

  /** The first ");" in the body of a definition stands at its end unless one stands in it. */
  lemma FirstClose(a: string, x: string, post: string)
    ensures var q := IndexFrom(a + x + CLOSE + post, CLOSE, |a|);
            q.Some? && if HasClose(x + ")") then q.value < |a| + |x| else q.value == |a| + |x|
  {
    var t := a + x + CLOSE + post;
    assert t[|a| + |x|..|a| + |x| + 2] == CLOSE;
    assert OccursAt(t, CLOSE, |a| + |x|);
    HasCloseOccurs(x + ")");
    forall k | 0 <= k < |x| ensures OccursAt(t, CLOSE, |a| + k) <==> OccursAt(x + ")", CLOSE, k) {
      assert t[|a| + k..|a| + k + 2] == (x + ")")[k..k + 2];
    }
    if HasClose(x + ")") {
      var k :| OccursAt(x + ")", CLOSE, k);
      assert OccursAt(t, CLOSE, |a| + k);
    } else {
      forall i | |a| <= i < |a| + |x| ensures !OccursAt(t, CLOSE, i) {
        assert OccursAt(t, CLOSE, |a| + (i - |a|)) <==> OccursAt(x + ")", CLOSE, i - |a|);
      }
    }
  }

  lemma HeaderAt(pre: string, rest: string)
    ensures Header(pre + HEAD + rest, |pre|) == Some(|pre| + |HEAD|)
  {
    var t, p := pre + HEAD + rest, |pre|;
    assert t[p..p + 22] == HEAD;
    OpeningAt(t, p);
    NamingAt(t, p);
  }

  lemma OpeningAt(t: string, p: nat)
    requires OccursAt(t, HEAD, p)
    ensures Opening(t, p) == Some(p + 7)
  {
    assert t[p..p + 6] == t[p..p + 22][..6] == "define";
    assert t[p + 6] == t[p..p + 22][6] == '(';
  }

  lemma SubSlice(t: string, p: nat, n: nat, a: nat, b: nat)
    requires p + n <= |t| && a <= b <= n
    ensures t[p..p + n][a..b] == t[p + a..p + b]
  {
    var h := t[p..p + n];
    assert forall k :: 0 <= k < b - a ==> h[a..b][k] == h[a + k] == t[p + a + k];
  }

  lemma HeadHoldsName()
    ensures HEAD[9..20] == NAME
  {
  }

  lemma NamingAt(t: string, p: nat)
    requires OccursAt(t, HEAD, p)
    ensures Naming(t, p + 7) == Some(p + 22)
  {
    var h := t[p..p + 22];
    assert t[p + 7] == h[7] == ' ' && t[p + 8] == h[8] == '\'' && t[p + 20] == h[20] == '\'' && t[p + 21] == h[21] == ',';
    HeadHoldsName();
    SubSlice(t, p, 22, 9, 20);
    assert Skip(t, p + 8) == p + 8 && Skip(t, p + 7) == p + 8 && Skip(t, p + 21) == p + 21;
  }

  /** A header depends on nothing after it. */
  lemma HeaderLocal(s: string, t: string, i: nat, end: nat)
    requires Header(s, i) == Some(end) && end <= |t| && forall k :: 0 <= k < end ==> s[k] == t[k]
    ensures Header(t, i) == Some(end)
  {
    OpeningLocal(s, t, i, end);
    NamingLocal(s, t, Opening(s, i).value, end);
  }

  lemma OpeningLocal(s: string, t: string, i: nat, end: nat)
    requires Opening(s, i).Some? && Opening(s, i).value <= end <= |s| && end <= |t|
    requires forall k :: 0 <= k < end ==> s[k] == t[k]
    ensures Opening(t, i) == Opening(s, i)
  {
    assert t[i..i + 6] == s[i..i + 6];
    SkipLocal(s, t, i + 6, end);
  }

  lemma NamingLocal(s: string, t: string, i: nat, end: nat)
    requires i <= end <= |s| && end <= |t| && Naming(s, i) == Some(end)
    requires forall k :: 0 <= k < end ==> s[k] == t[k]
    ensures Naming(t, i) == Some(end)
  {
    var b := Skip(s, i);
    SkipLocal(s, t, i, end);
    assert t[b + 1..b + 1 + |NAME|] == s[b + 1..b + 1 + |NAME|];
    SkipLocal(s, t, b + 2 + |NAME|, end);
  }

  lemma {:induction false} SkipLocal(s: string, t: string, i: nat, end: nat)
    requires i <= end <= |s| && end <= |t| && Skip(s, i) < end
    requires forall k :: 0 <= k < end ==> s[k] == t[k]
    ensures Skip(t, i) == Skip(s, i)
    decreases end - i
  {
    if PySpace(s[i]) {
      SkipLocal(s, t, i + 1, end);
    }
  }

  /** Replacing the first match by text that starts with a header keeps it the first. */
  lemma HeaderStaysFirst(s: string, p: nat, rest: string)
    requires FirstHeader(s) == Some(p) && p <= |s|
    ensures FirstHeader(s[..p] + HEAD + rest) == Some(p)
  {
    var t := s[..p] + HEAD + rest;
    HeaderAt(s[..p], rest);
    assert t[p] == HEAD[0] == 'd';
    forall i | 0 <= i < p ensures !StartsHeader(t)(i) {
      NoHeaderBefore(s, p, t, i);
    }
    FirstIs(StartsHeader(t), p, |t|);
  }

  lemma FirstIs(test: nat -> bool, p: nat, n: nat)
    requires p <= n && test(p) && forall i :: 0 <= i < p ==> !test(i)
    ensures First(test, 0, n) == Some(p)
  {
  }

  lemma NoHeaderBefore(s: string, p: nat, t: string, i: nat)
    requires FirstHeader(s) == Some(p) && i < p <= |s| && p < |t| && t[p] == 'd'
    requires forall k :: 0 <= k < p ==> t[k] == s[k]
    ensures Header(t, i).None?
  {
    assert !StartsHeader(s)(i);
    if Header(t, i).Some? {
      HeaderHasOneD(t, i);
      HeaderLocal(t, s, i, Header(t, i).value);
    }
  }

  /* ---- What a write does ---- */

  /** The text outside the matched span stays, and PHP reads the password in its place. */
  lemma WriteSetsPassword(content: string, password: string)
    requires Find(content).Some?
    ensures var m, text := Find(content).value, Rewrite(content, password).value;
            && text[..m.start + |HEAD| + 1] == content[..m.start] + "define( 'DB_PASSWORD', "
            && PhpParse(text[m.start + |HEAD| + 1..]) == Some((password, " );" + content[m.end..]))
  {
    var m := Find(content).value;
    var pre, post := content[..m.start], content[m.end..];
    var text := Rewrite(content, password).value;
    assert "define( 'DB_PASSWORD', " == HEAD + " ";
    assert text == (pre + (HEAD + " ")) + (PhpString(password) + (" );" + post));
    PhpReadsBack(password, " );" + post);
  }

  lemma TranslateMiddle(pre: string, mid: string, post: string)
    requires '\r' !in pre && '\r' !in post && mid != "" && mid[|mid| - 1] != '\r'
    ensures Translate(pre + mid + post) == pre + Translate(mid) + post
  {
    Regroup(pre, mid, post);
    TranslateAfter(pre, mid + post);
    TranslateBefore(mid, post);
    Regroup(pre, Translate(mid), post);
  }

  lemma ReplacementReadsBack(password: string)
    ensures Translate(Replacement(password)) == Written(password)
  {
    TranslateAfter(HEAD, Body(password));
    BodyReadsBack(password);
    Regroup(HEAD, BodyText(password), CLOSE);
  }

  /** What the rewritten text is when it is read again. */
  lemma ReadAgain(content: string, password: string)
    requires '\r' !in content && Find(content).Some?
    ensures var m := Find(content).value;
            Translate(Rewrite(content, password).value)
            == content[..m.start] + Written(password) + content[m.end..]
  {
    var m := Find(content).value;
    ReplacementReadsBack(password);
    TranslateMiddle(content[..m.start], Replacement(password), content[m.end..]);
  }

  lemma WrittenShape(pre: string, password: string, post: string)
    ensures var x := BodyText(password);
            && pre + Written(password) + post == pre + HEAD + (x + CLOSE + post)
            && pre + Written(password) + post == (pre + HEAD) + x + CLOSE + post
  {
  }

  /** Where the pattern matches then: the same place, but shorter if the password closes it. */
  lemma FindAgain(content: string, password: string)
    requires '\r' !in content && Find(content).Some?
    ensures var m, again := Find(content).value, Find(Translate(Rewrite(content, password).value));
            var end := m.start + |Written(password)|;
            && again.Some? && again.value.start == m.start
            && if HasClose(password) then again.value.end < end else again.value.end == end
  {
    var m := Find(content).value;
    var pre, post := content[..m.start], content[m.end..];
    var x := BodyText(password);
    ReadAgain(content, password);
    WrittenShape(pre, password, post);
    HeaderStaysFirst(content, m.start, x + CLOSE + post);
    HeaderAt(pre, x + CLOSE + post);
    FirstClose(pre + HEAD, x, post);
    BodyCloses(password);
  }

  /** Replacing the whole of what was there, or only a part of it that starts it. */
  lemma RewriteSpan(t: string, pre: string, was: string, post: string, password: string)
    requires t == pre + was + post && Find(t).Some? && Find(t).value.start == |pre|
    ensures Find(t).value.end == |pre| + |was| ==> Rewrite(t, password).value == pre + Replacement(password) + post
    ensures Find(t).value.end < |pre| + |was|
            ==> |Rewrite(t, password).value| > |pre + Replacement(password) + post|
  {
    assert t[..|pre|] == pre;
    if Find(t).value.end == |pre| + |was| {
      assert t[|pre| + |was|..] == post;
    }
  }

  lemma SecondRewrite(content: string, password: string)
    requires '\r' !in content && Find(content).Some?
    ensures var text := Rewrite(content, password).value;
            var again := Rewrite(Translate(text), password);
            again.Some? && if HasClose(password) then |again.value| > |text| else again.value == text
  {
    var m := Find(content).value;
    var pre, post := content[..m.start], content[m.end..];
    ReadAgain(content, password);
    FindAgain(content, password);
    RewriteSpan(Translate(Rewrite(content, password).value), pre, Written(password), post, password);
  }

  lemma {:induction false} EscapeKeepsReturn(s: string)
    ensures '\r' in Escape(s) <==> '\r' in s
  {
    if s != "" {
      EscapeKeepsReturn(s[1..]);
      assert s == [s[0]] + s[1..];
    }
  }

  lemma ReplacementShape(password: string)
    ensures Replacement(password) == (HEAD + " '") + Escape(password) + "' );"
  {
    EscapeIsTwoReplaces(password);
    QuotedShape(HEAD, Escape(password));
  }

  lemma QuotedShape(h: string, e: string)
    ensures h + (" " + ("'" + e + "'") + " );") == (h + " '") + e + "' );"
  {
    assert "'" + " );" == "' );";
    assert " " + "'" == " '";
  }

  lemma ReturnInReplacement(password: string)
    ensures '\r' in Replacement(password) <==> '\r' in password
  {
    ReplacementShape(password);
    EscapeKeepsReturn(password);
    InParts(HEAD + " '", Escape(password), "' );", '\r');
    assert '\r' !in HEAD + " '" && '\r' !in "' );";
  }

  lemma ReturnInRewrite(content: string, password: string)
    requires '\r' !in content && Find(content).Some?
    ensures '\r' in Rewrite(content, password).value <==> '\r' in password
  {
    var m := Find(content).value;
    ReturnInReplacement(password);
    InParts(content[..m.start], Replacement(password), content[m.end..], '\r');
  }

  lemma InParts(a: string, b: string, c: string, x: char)
    ensures x in a + b + c <==> x in a || x in b || x in c
  {
  }

  /** The two outcomes of a rewrite that is already in place. */
  lemma AlreadyWritten(content: string, password: string)
    requires '\r' !in content && Rewrite(content, password) == Some(content)
    ensures !HasClose(password) && '\r' !in password
  {
    SecondRewrite(content, password);
    TranslateFixes(content);
    ReturnInRewrite(content, password);
  }

  lemma CheckWritten(content: string, password: string)
    requires '\r' !in content && Find(content).Some?
    ensures var text := Rewrite(content, password).value;
            Rewrite(Translate(text), password) == Some(Translate(text)) <==> !HasClose(password) && '\r' !in password
  {
    var text := Rewrite(content, password).value;
    SecondRewrite(content, password);
    ReturnInRewrite(content, password);
    TranslateFixes(text);
    TranslateShrinks(text);
  }

  lemma RewriteTwice(content: string, password: string)
    requires '\r' !in content && Find(content).Some?
    ensures var text := Rewrite(content, password).value;
            var again := Rewrite(Translate(text), password);
            again.Some? && (again.value == Translate(text) || again.value == text <==> !HasClose(password))
  {
    SecondRewrite(content, password);
    TranslateShrinks(Rewrite(content, password).value);
  }

  /* ---- When a run succeeds ---- */

  /** Both inputs can be read, and the pattern occurs. */
  ghost predicate Locates(file: Option<string>, password: Option<string>) {
    file.Some? && password.Some? && exists m: Span :: Matches(Translate(file.value), m)
  }

  /** What stands in the first match is what would be written there. */
  ghost predicate AlreadySo(content: string, password: string) {
    exists m: Span :: FirstMatch(content, m) && m.end <= |content| && content[m.start..m.end] == Replacement(password)
  }

  /** The first definition of the text sets the password, by PHP's rules, and around it
      stands what stood around the first match of the content. */
  ghost predicate Sets(content: string, text: string, password: string) {
    exists m: Span :: FirstMatch(content, m) && SetsAt(content, text, password, m)
  }

  predicate SetsAt(content: string, text: string, password: string, m: Span) {
    && m.start + |HEAD| + 1 <= |text| && m.end <= |content| && m.start <= m.end
    && FirstHeader(text) == Some(m.start)
    && text[..m.start + |HEAD| + 1] == content[..m.start] + "define( 'DB_PASSWORD', "
    && PhpParse(text[m.start + |HEAD| + 1..]) == Some((password, " );" + content[m.end..]))
  }

  lemma FirstMatchIsFound(s: string, m: Span)
    requires FirstMatch(s, m)
    ensures Find(s) == Some(m)
  {
    FindIsFirstMatch(s);
    var found := Find(s).value;
    assert found.start == m.start && found.end == m.end;
  }

  lemma Reassemble(s: string, i: nat, j: nat)
    requires i <= j <= |s|
    ensures s[..i] + s[i..j] + s[j..] == s
  {
  }

  lemma SameWhenSo(content: string, password: string)
    requires AlreadySo(content, password)
    ensures Rewrite(content, password) == Some(content)
  {
    var m: Span :| FirstMatch(content, m) && m.end <= |content| && content[m.start..m.end] == Replacement(password);
    FirstMatchIsFound(content, m);
    Reassemble(content, m.start, m.end);
  }

  lemma MiddleOf(s: string, a: string, x: string, b: string)
    requires s == a + x + b
    ensures s[|a|..|a| + |x|] == x
  {
  }

  lemma SoWhenSame(content: string, password: string)
    requires Rewrite(content, password) == Some(content)
    ensures AlreadySo(content, password)
  {
    var m := Find(content).value;
    FindIsFirstMatch(content);
    assert |Replacement(password)| == m.end - m.start;
    MiddleOf(content, content[..m.start], Replacement(password), content[m.end..]);
  }

  lemma RewriteSame(content: string, password: string)
    ensures Rewrite(content, password) == Some(content) <==> AlreadySo(content, password)
  {
    if AlreadySo(content, password) {
      SameWhenSo(content, password);
    }
    if Rewrite(content, password) == Some(content) {
      SoWhenSame(content, password);
    }
  }

  lemma RewriteSets(content: string, password: string)
    requires Find(content).Some?
    ensures Sets(content, Rewrite(content, password).value, password)
  {
    var m := Find(content).value;
    FindIsFirstMatch(content);
    WriteSetsPassword(content, password);
    HeaderStaysFirst(content, m.start, Body(password) + content[m.end..]);
    Regroup(HEAD, Body(password), content[m.end..]);
    Regroup(content[..m.start], HEAD + Body(password), content[m.end..]);
    Regroup(content[..m.start], HEAD, Body(password) + content[m.end..]);
    assert SetsAt(content, Rewrite(content, password).value, password, m);
  }

  lemma LocatesWhen(file: string, password: string)
    ensures Locates(Some(file), Some(password)) <==> Find(Translate(file)).Some?
  {
    FindIsFirstMatch(Translate(file));
    if Find(Translate(file)).Some? {
      assert Matches(Translate(file), Find(Translate(file)).value);
    }
  }

  /** The written text sets the password, or the unchanged one does as it was read. */
  ghost predicate SetsAfter(file: string, after: Option<string>, password: string) {
    && after.Some?
    && (Sets(Translate(file), after.value, password)
        || (after.value == file && Sets(Translate(file), Translate(file), password)))
  }

  /** What a working write does once the pattern is found. */
  lemma WriteDoes(file: string, password: string)
    requires Find(Translate(file)).Some?
    ensures var updated := Rewrite(Translate(file), password);
            && updated.Some?
            && Configure(Some(file), Some(password), false, true)
               == Host(Some(if updated.value == Translate(file) then file else updated.value), 0)
  {
  }

  lemma LocatedWriteSets(file: string, password: string)
    requires Locates(Some(file), Some(password))
    ensures var after := Configure(Some(file), Some(password), false, true);
            after.code == 0 && SetsAfter(file, after.file, password)
  {
    LocatesWhen(file, password);
    WriteDoes(file, password);
    RewriteSets(Translate(file), password);
  }

  /** A write whose file operations work succeeds exactly when facts and file can be read
      and the pattern occurs; then the password is set. Otherwise the exit code is 1 and
      the file stays. */
  lemma WriteSucceedsWhen(file: Option<string>, password: Option<string>)
    ensures var after := Configure(file, password, false, true);
            if Locates(file, password) then after.code == 0 && SetsAfter(file.value, after.file, password.value)
            else after == Host(file, 1)
  {
    if Locates(file, password) {
      LocatedWriteSets(file.value, password.value);
    } else if file.Some? && password.Some? {
      LocatesWhen(file.value, password.value);
    }
  }

  /** The check never changes the file, and exits with 0 exactly when the text is already
      as a write would leave it. A write that fails does the same. */
  lemma CheckSucceedsWhen(file: Option<string>, password: Option<string>, checkOnly: bool, writes: bool)
    requires checkOnly || !writes
    ensures var after := Configure(file, password, checkOnly, writes);
            && after.file == file
            && after.code == if Locates(file, password) && AlreadySo(Translate(file.value), password.value) then 0 else 1
  {
    if file.Some? && password.Some? {
      LocatesWhen(file.value, password.value);
      if Find(Translate(file.value)).Some? {
        RewriteSame(Translate(file.value), password.value);
      }
    }
  }

  /** A write leaves the file untouched, whatever the file system does, if it is already so. */
  lemma WriteKeepsWhen(file: string, password: string, writes: bool)
    requires AlreadySo(Translate(file), password)
    ensures Configure(Some(file), Some(password), false, writes) == Host(Some(file), 0)
  {
    RewriteSame(Translate(file), password);
  }

  /** After a write that succeeded, the check succeeds exactly for passwords without ");"
      and without a carriage return, */
  lemma CheckAfterWrite(file: string, password: string)
    requires Configure(Some(file), Some(password), false, true).code == 0
    ensures var written := Configure(Some(file), Some(password), false, true).file;
            Configure(written, Some(password), true, true).code == 0
            <==> !Contains(password, CLOSE) && '\r' !in password
  {
    var content := Translate(file);
    TranslateHasNone(file);
    HasCloseOccurs(password);
    if Rewrite(content, password) == Some(content) {
      AlreadyWritten(content, password);
    } else {
      CheckWritten(content, password);
    }
  }

  /** and a second write leaves the file as it is exactly for passwords without ");". */
  lemma WriteTwice(file: string, password: string)
    requires Configure(Some(file), Some(password), false, true).code == 0
    ensures var written := Configure(Some(file), Some(password), false, true).file;
            Configure(written, Some(password), false, true).file == written <==> !Contains(password, CLOSE)
  {
    var content := Translate(file);
    TranslateHasNone(file);
    HasCloseOccurs(password);
    if Rewrite(content, password) == Some(content) {
      AlreadyWritten(content, password);
    } else {
      RewriteTwice(content, password);
    }
  }
}
