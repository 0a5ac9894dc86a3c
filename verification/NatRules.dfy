/** Injecting the NAT table into before.rules (internal/phases/ufw/ufw.go). A file is the
    sequence of its lines; a table line is recognised by its first characters, as the
    anchored patterns of the script do. */
module NatRules {
  import opened Text

  const MARK := "# NAT Rules"
  const NAT := "*nat"
  const FILTER := "*filter"
  const COMMIT := "COMMIT"

  /* ---- The commands of the script ---- */

  /** sed's /start/,/COMMIT/ deletion: a range runs to the next COMMIT line after its
      first line, or to the end of the file. */
  function DeleteFrom(lines: seq<string>, start: string, inside: bool): seq<string> {
    if lines == [] then []
    else if inside then DeleteFrom(lines[1..], start, !(COMMIT <= lines[0]))
    else if start <= lines[0] then DeleteFrom(lines[1..], start, true)
    else [lines[0]] + DeleteFrom(lines[1..], start, false)
  }

  function Delete(lines: seq<string>, start: string): seq<string> {
    DeleteFrom(lines, start, false)
  }

  /** awk's insertion: the block file is read once, before the first filter table. */
  function Insert(lines: seq<string>, block: seq<string>): seq<string> {
    if lines == [] then []
    else if FILTER <= lines[0] then block + lines
    else [lines[0]] + Insert(lines[1..], block)
  }

  function Count(lines: seq<string>, prefix: string): nat {
    if lines == [] then 0 else (if prefix <= lines[0] then 1 else 0) + Count(lines[1..], prefix)
  }

  function Stripped(lines: seq<string>): seq<string> {
    Delete(Delete(lines, MARK), NAT)
  }

  function Injected(lines: seq<string>, block: seq<string>): seq<string> {
    Insert(Stripped(lines), block)
  }

  predicate LayoutOk(lines: seq<string>) {
    Count(lines, NAT) == 1 && Count(lines, FILTER) == 1
  }

  /** The command that fails, if any; restore: whether copying the backup back works. */
  datatype Fault = NoFault | Backup | FirstSed | SecondSed | Awk | Move | Cleanup

  /** The files on the router that the script touches. */
  class Router {
    var rules: seq<string>
    var backup: seq<string>
    var next: seq<string>
    const block: seq<string>

    constructor (rules: seq<string>, block: seq<string>)
      ensures this.rules == rules && this.block == block
    {
      this.rules, this.block, backup, next := rules, block, [], [];
    }

    /** The whole script: set -e, and a trap that restores the backup until it is cleared. */
    method Inject(fault: Fault, restores: bool) returns (ok: bool)
      modifies this
      ensures ok <==> fault.NoFault? && LayoutOk(Injected(old(rules), block))
      ensures ok ==> rules == Injected(old(rules), block)
      ensures !ok && restores && !fault.Cleanup? ==> rules == old(rules)
      ensures !ok && fault.Cleanup? && LayoutOk(Injected(old(rules), block)) ==> rules == Injected(old(rules), block)
      ensures !ok && fault.Cleanup? && !LayoutOk(Injected(old(rules), block)) && restores ==> rules == old(rules)
    {
      if fault.Backup? {
        return false;
      }
      backup := rules;
      if fault.FirstSed? {
        Restore(restores);
        return false;
      }
      SedDelete(MARK);
      if fault.SecondSed? {
        Restore(restores);
        return false;
      }
      SedDelete(NAT);
      if fault.Awk? {
        Restore(restores);
        return false;
      }
      AwkInsert();
      if fault.Move? {
        Restore(restores);
        return false;
      }
      rules := next;
      var nats := GrepCount(NAT);
      var filters := GrepCount(FILTER);
      if nats != 1 || filters != 1 {
        Restore(restores);
        return false;
      }
      ok := !fault.Cleanup?;
    }

    /** A copy that fails may leave anything. */
    method Restore(restores: bool)
      modifies this`rules
      ensures restores ==> rules == backup
    {
      if restores {
        rules := backup;
      } else {
        rules := *;
      }
    }

    method SedDelete(start: string)
      modifies this`rules
      ensures rules == Delete(old(rules), start)
    {
      var kept: seq<string> := [];
      var inside := false;
      var i := 0;
      while i < |rules|
        invariant i <= |rules| && rules == old(rules)
        invariant Delete(rules, start) == kept + DeleteFrom(rules[i..], start, inside)
      {
        assert rules[i..][1..] == rules[i + 1..];
        if inside {
          inside := !(COMMIT <= rules[i]);
        } else if start <= rules[i] {
          inside := true;
        } else {
          kept := kept + [rules[i]];
        }
        i := i + 1;
      }
      rules := kept;
    }

    method AwkInsert()
      modifies this`next
      ensures next == Insert(rules, block)
    {
      var printed: seq<string> := [];
      var atEnd := false;
      for i := 0 to |rules|
        invariant printed == Insert(rules[..i], block) && atEnd == HasLine(rules[..i], FILTER)
      {
        AwkLine(rules[..i], rules[i], block);
        assert rules[..i + 1] == rules[..i] + [rules[i]];
        if FILTER <= rules[i] && !atEnd {
          printed := printed + block;
          atEnd := true;
        }
        printed := printed + [rules[i]];
      }
      assert rules[..|rules|] == rules;
      next := printed;
    }

    method GrepCount(prefix: string) returns (n: nat)
      ensures n == Count(rules, prefix)
    {
      n := 0;
      for i := 0 to |rules|
        invariant n + Count(rules[i..], prefix) == Count(rules, prefix)
      {
        assert rules[i..][1..] == rules[i + 1..];
        if prefix <= rules[i] {
          n := n + 1;
        }
      }
    }
  }

  predicate HasLine(lines: seq<string>, prefix: string) {
    exists i | 0 <= i < |lines| :: prefix <= lines[i]
  }

  lemma HasLineCons(lines: seq<string>, prefix: string)
    requires lines != []
    ensures HasLine(lines, prefix) <==> prefix <= lines[0] || HasLine(lines[1..], prefix)
  {
    assert lines == [lines[0]] + lines[1..];
  }

  lemma {:induction false} InsertAppend(a: seq<string>, b: seq<string>, block: seq<string>)
    ensures Insert(a + b, block) == if HasLine(a, FILTER) then Insert(a, block) + b else a + Insert(b, block)
  {
    if a == [] {
      assert a + b == b;
    } else {
      var rest := a[1..];
      HasLineCons(a, FILTER);
      assert (a + b)[1..] == rest + b && (a + b)[0] == a[0];
      if FILTER <= a[0] {
        Regroup(block, a, b);
      } else {
        InsertAppend(rest, b, block);
        if HasLine(rest, FILTER) {
          Regroup([a[0]], Insert(rest, block), b);
        } else {
          assert a == [a[0]] + rest;
          Regroup([a[0]], rest, Insert(b, block));
        }
      }
    }
  }

  lemma {:induction false} InsertWithout(lines: seq<string>, block: seq<string>)
    requires !HasLine(lines, FILTER)
    ensures Insert(lines, block) == lines
  {
    if lines != [] {
      assert !HasLine(lines[1..], FILTER) by { assert lines == [lines[0]] + lines[1..]; }
      InsertWithout(lines[1..], block);
    }
  }

  lemma AwkLine(before: seq<string>, line: string, block: seq<string>)
    ensures Insert(before + [line], block)
            == Insert(before, block) + (if FILTER <= line && !HasLine(before, FILTER) then block else []) + [line]
    ensures HasLine(before + [line], FILTER) <==> HasLine(before, FILTER) || FILTER <= line
  {
    InsertAppend(before, [line], block);
    if !HasLine(before, FILTER) {
      InsertWithout(before, block);
    }
    assert (before + [line])[|before|] == line;
    assert forall i :: 0 <= i < |before| ==> (before + [line])[i] == before[i];
    assert [line][1..] == [];
  }

  /* ---- Which lines the range deletion keeps ---- */

  /** Before line n a range is open: its first line came, and no COMMIT since. */
  ghost predicate Open(lines: seq<string>, start: string, n: nat)
    requires n <= |lines|
  {
    exists s | 0 <= s < n :: start <= lines[s] && forall k | s < k < n :: !(COMMIT <= lines[k])
  }

  /** Line i belongs to a range, first and last line included. */
  ghost predicate InRange(lines: seq<string>, start: string, i: nat)
    requires i < |lines|
  {
    start <= lines[i] || Open(lines, start, i)
  }

  /** Line i, if it belongs to no range. */
  ghost function OutsideLine(lines: seq<string>, start: string, i: nat): seq<string>
    requires i < |lines|
  {
    if InRange(lines, start, i) then [] else [lines[i]]
  }

  /** The first n lines without those that belong to a range, in order. */
  ghost function Outside(lines: seq<string>, start: string, n: nat): seq<string>
    requires n <= |lines|
  {
    if n == 0 then []
    else Outside(lines, start, n - 1) + OutsideLine(lines, start, n - 1)
  }

  predicate IsStart(start: string) {
    start != "" && start[0] != 'C'
  }

  lemma OpenNext(lines: seq<string>, start: string, n: nat)
    requires IsStart(start) && n < |lines|
    ensures Open(lines, start, n + 1)
            <==> if Open(lines, start, n) then !(COMMIT <= lines[n]) else start <= lines[n]
  {
    if start <= lines[n] {
      assert lines[n][0] == start[0] && !(COMMIT <= lines[n]);
    } else if Open(lines, start, n + 1) {
      var s :| 0 <= s < n + 1 && start <= lines[s] && forall k | s < k < n + 1 :: !(COMMIT <= lines[k]);
      assert s < n;
    }
  }

  /** The deletion keeps exactly the lines that belong to no range, in order. */
  lemma {:induction false} DeleteKeepsOutside(lines: seq<string>, start: string)
    requires IsStart(start)
    ensures Delete(lines, start) == Outside(lines, start, |lines|)
  {
    var n := |lines|;
    var out := (i: nat) => if i <= n then Output(lines, start, i) else [];
    forall i: nat | i < n ensures out(i) == out(i + 1) {
      OutputStays(lines, start, i);
    }
    SameThroughout(out, n);
    OutputAtStart(lines, start);
    OutputAtEnd(lines, start);
  }

  /** What is printed from line n on. */
  ghost function DeleteRest(lines: seq<string>, start: string, n: nat): seq<string>
    requires n <= |lines|
  {
    DeleteFrom(lines[n..], start, Open(lines, start, n))
  }

  lemma DeleteStep(lines: seq<string>, start: string, n: nat)
    requires IsStart(start) && n < |lines|
    ensures DeleteRest(lines, start, n) == OutsideLine(lines, start, n) + DeleteRest(lines, start, n + 1)
  {
    assert lines[n..][1..] == lines[n + 1..];
    OpenNext(lines, start, n);
  }

  lemma {:induction false} SameThroughout<T>(f: nat -> T, n: nat)
    requires forall i: nat :: i < n ==> f(i) == f(i + 1)
    ensures f(0) == f(n)
  {
    if n > 0 {
      SameThroughout(f, n - 1);
    }
  }

  /** What was printed before line n, and what will be printed from there on. */
  ghost function Output(lines: seq<string>, start: string, n: nat): seq<string>
    requires n <= |lines|
  {
    Outside(lines, start, n) + DeleteRest(lines, start, n)
  }

  lemma OutputStays(lines: seq<string>, start: string, n: nat)
    requires IsStart(start) && n < |lines|
    ensures Output(lines, start, n) == Output(lines, start, n + 1)
  {
    DeleteStep(lines, start, n);
    Regroup(Outside(lines, start, n), OutsideLine(lines, start, n), DeleteRest(lines, start, n + 1));
  }

  lemma OutputAtEnd(lines: seq<string>, start: string)
    ensures Output(lines, start, |lines|) == Outside(lines, start, |lines|)
  {
    assert lines[|lines|..] == [];
    assert DeleteRest(lines, start, |lines|) == [];
  }

  lemma OutputAtStart(lines: seq<string>, start: string)
    ensures Delete(lines, start) == Output(lines, start, 0)
  {
    assert lines[0..] == lines && !Open(lines, start, 0);
    assert [] + DeleteRest(lines, start, 0) == DeleteRest(lines, start, 0);
  }

  /* ---- What a successful run leaves ---- */

  lemma {:induction false} DeleteClears(lines: seq<string>, start: string, inside: bool, gone: string)
    requires gone == start || !HasLine(lines, gone)
    ensures !HasLine(DeleteFrom(lines, start, inside), gone)
    decreases |lines|
  {
    if lines != [] {
      assert !HasLine(lines, gone) ==> !HasLine(lines[1..], gone) && !(gone <= lines[0]);
      DeleteClears(lines[1..], start, !(COMMIT <= lines[0]), gone);
      DeleteClears(lines[1..], start, true, gone);
      DeleteClears(lines[1..], start, false, gone);
    }
  }

  lemma StrippedIsClear(lines: seq<string>)
    ensures !HasLine(Stripped(lines), MARK) && !HasLine(Stripped(lines), NAT)
  {
    DeleteClears(lines, MARK, false, MARK);
    DeleteClears(Delete(lines, MARK), NAT, false, MARK);
    DeleteClears(Delete(lines, MARK), NAT, false, NAT);
  }

  lemma {:induction false} CountAppend(a: seq<string>, b: seq<string>, prefix: string)
    ensures Count(a + b, prefix) == Count(a, prefix) + Count(b, prefix)
  {
    if a == [] {
      assert a + b == b;
    } else {
      assert (a + b)[1..] == a[1..] + b;
      CountAppend(a[1..], b, prefix);
    }
  }

  lemma {:induction false} CountZero(lines: seq<string>, prefix: string)
    ensures Count(lines, prefix) == 0 <==> !HasLine(lines, prefix)
  {
    if lines != [] {
      CountZero(lines[1..], prefix);
      assert HasLine(lines, prefix) <==> prefix <= lines[0] || HasLine(lines[1..], prefix) by {
        assert lines == [lines[0]] + lines[1..];
      }
    }
  }

  /** The place of the first filter table. */
  predicate FirstFilter(lines: seq<string>, i: nat) {
    i < |lines| && FILTER <= lines[i] && !HasLine(lines[..i], FILTER)
  }

  lemma {:induction false} InsertSplits(lines: seq<string>, block: seq<string>, i: nat)
    requires FirstFilter(lines, i)
    ensures Insert(lines, block) == lines[..i] + block + lines[i..]
  {
    var pre, post := lines[..i], lines[i..];
    assert lines == pre + post;
    InsertAppend(pre, post, block);
    assert pre + (block + post) == pre + block + post;
  }

  lemma {:induction false} FindFilter(lines: seq<string>) returns (i: nat)
    requires HasLine(lines, FILTER)
    ensures FirstFilter(lines, i)
  {
    if FILTER <= lines[0] {
      i := 0;
    } else {
      assert HasLine(lines[1..], FILTER) by { assert lines == [lines[0]] + lines[1..]; }
      var j := FindFilter(lines[1..]);
      i := j + 1;
      assert lines[..i] == [lines[0]] + lines[1..][..i - 1];
    }
  }

  lemma InjectedCounts(lines: seq<string>, block: seq<string>, prefix: string)
    ensures Count(Injected(lines, block), prefix)
            == Count(Stripped(lines), prefix) + if HasLine(Stripped(lines), FILTER) then Count(block, prefix) else 0
  {
    var left := Stripped(lines);
    if HasLine(left, FILTER) {
      var i := FindFilter(left);
      InsertSplits(left, block, i);
      CountAppend(left[..i] + block, left[i..], prefix);
      CountAppend(left[..i], block, prefix);
      CountAppend(left[..i], left[i..], prefix);
      assert left == left[..i] + left[i..];
    } else {
      InsertWithout(left, block);
    }
  }

  /** The layout check passes exactly when the file, without its old NAT ranges, has one
      filter table and the block brings one nat table and no filter table. */
  lemma LayoutPassesWhen(lines: seq<string>, block: seq<string>)
    ensures LayoutOk(Injected(lines, block))
            <==> Count(Stripped(lines), FILTER) == 1 && Count(block, NAT) == 1 && Count(block, FILTER) == 0
  {
    var left := Stripped(lines);
    StrippedIsClear(lines);
    CountZero(left, NAT);
    CountZero(left, FILTER);
    InjectedCounts(lines, block, NAT);
    InjectedCounts(lines, block, FILTER);
  }

  /** result is these lines with the block put directly before their only filter table. */
  ghost predicate OneTableEach(lines: seq<string>, block: seq<string>, result: seq<string>, i: nat) {
    && i < |lines| && FILTER <= lines[i]
    && result == lines[..i] + block + lines[i..]
    && !HasLine(lines[..i], FILTER) && !HasLine(lines[i + 1..], FILTER) && !HasLine(block, FILTER)
    && !HasLine(lines, NAT) && Count(block, NAT) == 1
  }

  /** A run that passes leaves exactly one nat table, in the block directly before the only
      filter table, and around it the lines outside the old NAT ranges, in order. */
  lemma PassingRunLeaves(lines: seq<string>, block: seq<string>)
    requires LayoutOk(Injected(lines, block))
    ensures exists i :: OneTableEach(Stripped(lines), block, Injected(lines, block), i)
    ensures Stripped(lines) == Outside(Outside(lines, MARK, |lines|), NAT, |Outside(lines, MARK, |lines|)|)
  {
    var left := Stripped(lines);
    LayoutPassesWhen(lines, block);
    StrippedIsClear(lines);
    CountZero(left, FILTER);
    CountZero(block, FILTER);
    var i := FindFilter(left);
    InsertSplits(left, block, i);
    OnlyOne(left, i);
    assert OneTableEach(left, block, Injected(lines, block), i);
    DeleteKeepsOutside(lines, MARK);
    DeleteKeepsOutside(Delete(lines, MARK), NAT);
  }

  lemma OnlyOne(lines: seq<string>, i: nat)
    requires FirstFilter(lines, i) && Count(lines, FILTER) == 1
    ensures !HasLine(lines[i + 1..], FILTER)
  {
    CountAppend(lines[..i], [lines[i]] + lines[i + 1..], FILTER);
    CountAppend([lines[i]], lines[i + 1..], FILTER);
    assert lines == lines[..i] + ([lines[i]] + lines[i + 1..]);
    CountZero(lines[i + 1..], FILTER);
  }

  /* ---- Running twice ---- */

  /** The block starts at its marker and has its only COMMIT last. */
  predicate IsBlock(block: seq<string>) {
    && |block| > 1 && MARK <= block[0] && COMMIT <= block[|block| - 1]
    && forall i | 0 <= i < |block| - 1 :: !(COMMIT <= block[i])
  }

  lemma {:induction false} DeleteSkips(a: seq<string>, b: seq<string>, start: string)
    requires !HasLine(a, start)
    ensures Delete(a + b, start) == a + Delete(b, start)
  {
    if a == [] {
      assert a + b == b;
    } else {
      assert !HasLine(a[1..], start) && !(start <= a[0]) by { assert a == [a[0]] + a[1..]; }
      DeleteSkips(a[1..], b, start);
      assert (a + b)[1..] == a[1..] + b;
    }
  }

  lemma {:induction false} DeleteToCommit(range: seq<string>, rest: seq<string>, start: string)
    requires range != [] && COMMIT <= range[|range| - 1]
    requires forall i :: 0 <= i < |range| - 1 ==> !(COMMIT <= range[i])
    ensures DeleteFrom(range + rest, start, true) == Delete(rest, start)
  {
    assert (range + rest)[1..] == range[1..] + rest;
    if |range| == 1 {
      assert range[1..] + rest == rest;
    } else {
      DeleteToCommit(range[1..], rest, start);
    }
  }

  lemma DeleteNothing(lines: seq<string>, start: string)
    requires !HasLine(lines, start)
    ensures Delete(lines, start) == lines
  {
    DeleteSkips(lines, [], start);
    assert lines + [] == lines;
  }

  /** The first deletion takes the block out again, and nothing else. */
  lemma DeleteUndoesInsert(left: seq<string>, block: seq<string>)
    requires IsBlock(block) && !HasLine(left, MARK)
    ensures Delete(Insert(left, block), MARK) == left
  {
    if HasLine(left, FILTER) {
      var i := FindFilter(left);
      var pre, post := left[..i], left[i..];
      InsertSplits(left, block, i);
      assert pre + block + post == pre + (block + post);
      DeleteSkips(pre, block + post, MARK);
      assert (block + post)[0] == block[0] && (block + post)[1..] == block[1..] + post;
      DeleteToCommit(block[1..], post, MARK);
      DeleteNothing(post, MARK);
      assert left == pre + post;
    } else {
      InsertWithout(left, block);
      DeleteNothing(left, MARK);
    }
  }

  /** Injecting again changes nothing, whatever the file was. */
  lemma SecondRunIsIdentity(lines: seq<string>, block: seq<string>)
    requires IsBlock(block)
    ensures Injected(Injected(lines, block), block) == Injected(lines, block)
  {
    StrippedIsClear(lines);
    DeleteUndoesInsert(Stripped(lines), block);
    DeleteNothing(Stripped(lines), NAT);
  }

  /* ---- The shipped template ---- */

  /** templates/ufw/nat-rules with the interface filled in. What its comments say makes no
      difference. */
  function Template(about: seq<string>, dnat: string, masquerade: string, wan: string): seq<string> {
    Header(about) + [NAT] + Chains(dnat, masquerade, wan) + [COMMIT]
  }

  function Header(about: seq<string>): seq<string> {
    [MARK + " for the Router"] + seq(|about|, i requires 0 <= i < |about| => Comment(about[i]))
  }

  function Chains(dnat: string, masquerade: string, wan: string): seq<string> {
    [":PREROUTING ACCEPT [0:0]",
     ":POSTROUTING ACCEPT [0:0]",
     "",
     Comment(dnat),
     Dnat(wan, "80"),
     Dnat(wan, "443"),
     "",
     Comment(masquerade),
     Masquerade("192.168.10.0/24", wan),
     Masquerade("192.168.20.0/24", wan),
     ""]
  }

  function Comment(text: string): (line: string)
    ensures Inert(line)
  {
    "#" + text
  }

  function Dnat(wan: string, port: string): (line: string)
    ensures Inert(line)
  {
    "-A PREROUTING -i " + wan + " -p tcp --dport " + port + " -j DNAT --to-destination 192.168.20.100:" + port
  }

  function Masquerade(net: string, wan: string): (line: string)
    ensures Inert(line)
  {
    "-A POSTROUTING -s " + net + " -o " + wan + " -j MASQUERADE"
  }

  /** A line that neither starts nor ends a table. */
  predicate Inert(line: string) {
    line == "" || line[0] == '#' || line[0] == ':' || line[0] == '-'
  }

  predicate AllInert(lines: seq<string>) {
    forall i | 0 <= i < |lines| :: Inert(lines[i])
  }

  lemma InertHasNone(lines: seq<string>)
    requires AllInert(lines)
    ensures !HasLine(lines, NAT) && !HasLine(lines, FILTER) && !HasLine(lines, COMMIT)
  {
    assert NAT[0] == '*' && FILTER[0] == '*' && COMMIT[0] == 'C';
  }

  lemma HeaderIsInert(about: seq<string>)
    ensures Header(about) != [] && AllInert(Header(about)) && MARK <= Header(about)[0]
  {
    assert Header(about)[0][..|MARK|] == MARK && MARK[0] == '#';
  }

  lemma ChainsAreInert(dnat: string, masquerade: string, wan: string)
    ensures AllInert(Chains(dnat, masquerade, wan))
  {
    var c := Chains(dnat, masquerade, wan);
    assert Inert(c[0]) && Inert(c[1]);
  }

  /** A table between a header and nothing but its own lines. */
  lemma TableIsBlock(head: seq<string>, chains: seq<string>)
    requires head != [] && MARK <= head[0] && AllInert(head) && AllInert(chains)
    ensures IsBlock(head + [NAT] + chains + [COMMIT])
  {
    InertHasNone(head);
    InertHasNone(chains);
    var block := head + [NAT] + chains + [COMMIT];
    var h := |head|;
    assert block[0] == head[0] && block[|block| - 1] == COMMIT;
    forall i | 0 <= i < |block| - 1 ensures !(COMMIT <= block[i]) {
      assert block[i] == if i < h then head[i] else if i == h then NAT else chains[i - h - 1];
    }
  }

  lemma TableCounts(head: seq<string>, chains: seq<string>)
    requires AllInert(head) && AllInert(chains)
    ensures var block := head + [NAT] + chains + [COMMIT]; Count(block, NAT) == 1 && Count(block, FILTER) == 0
  {
    InertHasNone(head);
    InertHasNone(chains);
    CountParts(head, chains, NAT);
    CountParts(head, chains, FILTER);
    CountOne(NAT, NAT);
    CountOne(NAT, FILTER);
    CountOne(COMMIT, NAT);
    CountOne(COMMIT, FILTER);
    assert NAT[1] == 'n' && FILTER[1] == 'f' && COMMIT[0] == 'C' && NAT[0] == FILTER[0] == '*';
  }

  lemma CountOne(line: string, prefix: string)
    ensures Count([line], prefix) == if prefix <= line then 1 else 0
  {
    assert [line][1..] == [];
  }

  lemma CountParts(head: seq<string>, chains: seq<string>, prefix: string)
    requires !HasLine(head, prefix) && !HasLine(chains, prefix)
    ensures Count(head + [NAT] + chains + [COMMIT], prefix) == Count([NAT], prefix) + Count([COMMIT], prefix)
  {
    CountAppend(head + [NAT] + chains, [COMMIT], prefix);
    CountAppend(head + [NAT], chains, prefix);
    CountAppend(head, [NAT], prefix);
    CountZero(head, prefix);
    CountZero(chains, prefix);
  }

  lemma TemplateIsBlock(about: seq<string>, dnat: string, masquerade: string, wan: string)
    ensures var block := Template(about, dnat, masquerade, wan);
            IsBlock(block) && Count(block, NAT) == 1 && Count(block, FILTER) == 0
  {
    HeaderIsInert(about);
    ChainsAreInert(dnat, masquerade, wan);
    TableIsBlock(Header(about), Chains(dnat, masquerade, wan));
    TableCounts(Header(about), Chains(dnat, masquerade, wan));
  }

  /** The shipped block fits for every interface name: a run passes exactly when the file
      keeps one filter table outside its old NAT ranges, and a second one is idle. */
  lemma TemplateFits(lines: seq<string>, about: seq<string>, dnat: string, masquerade: string, wan: string)
    ensures var block := Template(about, dnat, masquerade, wan);
            && (LayoutOk(Injected(lines, block)) <==> Count(Stripped(lines), FILTER) == 1)
            && Injected(Injected(lines, block), block) == Injected(lines, block)
  {
    var block := Template(about, dnat, masquerade, wan);
    TemplateIsBlock(about, dnat, masquerade, wan);
    LayoutPassesWhen(lines, block);
    SecondRunIsIdentity(lines, block);
  }
}
