/** Normalising phase names to checkpoint keys (phaseKey in internal/deploy/state.go). */
module PhaseNames {
  import opened Text

  predicate IsAlnum(c: char) {
    'a' <= c <= 'z' || '0' <= c <= '9'
  }

  /** Go's ToLower as far as it matters here: besides the capital letters only the
      Kelvin sign and the dotted capital I have an ASCII lower case. */
  function LowerChar(c: char): char {
    if 'A' <= c <= 'Z' then c + ('a' - 'A')
    else if c == '\U{212A}' then 'k'
    else if c == '\U{0130}' then 'i'
    else c
  }

  function ToLower(s: string): (t: string)
    ensures |t| == |s|
  {
    seq(|s|, i requires 0 <= i < |s| => LowerChar(s[i]))
  }

  /** What is left after a leading run of other characters. */
  function SkipOthers(s: string): (t: string)
    ensures |t| <= |s|
    ensures t == "" || IsAlnum(t[0])
  {
    if s == "" || IsAlnum(s[0]) then s else SkipOthers(s[1..])
  }

  /** Every maximal run of characters outside a-z and 0-9 becomes one dash. */
  function ReplaceRuns(s: string): string
    decreases |s|
  {
    if s == "" then ""
    else if IsAlnum(s[0]) then [s[0]] + ReplaceRuns(s[1..])
    else "-" + ReplaceRuns(SkipOthers(s[1..]))
  }

  function TrimDashesLeft(s: string): string {
    if s != "" && s[0] == '-' then TrimDashesLeft(s[1..]) else s
  }

  function TrimDashesRight(s: string): string {
    if s != "" && s[|s| - 1] == '-' then TrimDashesRight(s[..|s| - 1]) else s
  }

  function PhaseKey(name: string): string {
    TrimDashesRight(TrimDashesLeft(ReplaceRuns(ToLower(name))))
  }

  /** The characters that count: letters of either case, digits, and the two others whose
      lower case is a letter. */
  lemma WhichCharactersCount(c: char)
    ensures IsAlnum(LowerChar(c)) <==>
            'a' <= c <= 'z' || '0' <= c <= '9' || 'A' <= c <= 'Z' || c in {'\U{212A}', '\U{0130}'}
  {
  }

  /* ---- The words of a name ---- */

  function FirstWord(s: string): (w: string)
    ensures w <= s
    ensures forall i :: 0 <= i < |w| ==> IsAlnum(w[i])
    ensures |w| < |s| ==> !IsAlnum(s[|w|])
  {
    if s == "" || !IsAlnum(s[0]) then "" else [s[0]] + FirstWord(s[1..])
  }

  predicate IsWord(w: string) {
    w != "" && forall i :: 0 <= i < |w| ==> IsAlnum(w[i])
  }

  /** The maximal alphanumeric runs, in order. */
  function Words(s: string): (ws: seq<string>)
    ensures forall i :: 0 <= i < |ws| ==> IsWord(ws[i])
    decreases |s|
  {
    if s == "" then []
    else if !IsAlnum(s[0]) then Words(s[1..])
    else [FirstWord(s)] + Words(s[|FirstWord(s)|..])
  }

  function NameWords(name: string): seq<string> {
    Words(ToLower(name))
  }

  lemma {:induction false} WordsSkip(s: string)
    ensures Words(SkipOthers(s)) == Words(s)
  {
    if s != "" && !IsAlnum(s[0]) {
      WordsSkip(s[1..]);
    }
  }

  lemma {:induction false} ReplaceWord(w: string, rest: string)
    requires forall i :: 0 <= i < |w| ==> IsAlnum(w[i])
    ensures ReplaceRuns(w + rest) == w + ReplaceRuns(rest)
  {
    if w == "" {
      assert w + rest == rest;
    } else {
      ReplaceWord(w[1..], rest);
      assert (w + rest)[1..] == w[1..] + rest;
    }
  }

  lemma {:induction false} TrimRightAppend(a: string, b: string)
    ensures TrimDashesRight(a + b) == if TrimDashesRight(b) == "" then TrimDashesRight(a) else a + TrimDashesRight(b)
    decreases |b|
  {
    if b == "" {
      assert a + b == a;
    } else if b[|b| - 1] == '-' {
      TrimRightAppend(a, b[..|b| - 1]);
      assert (a + b)[..|a + b| - 1] == a + b[..|b| - 1];
    }
  }

  lemma JoinWordsEnds(ws: seq<string>)
    requires ws != [] && forall i :: 0 <= i < |ws| ==> IsWord(ws[i])
    ensures Join(ws, '-') != ""
  {
  }

  /** One word, a run of other characters, and what follows it. */
  lemma ReplaceOneWord(s: string, w: string, rest: string, tail: string)
    requires s == w + rest && IsWord(w) && rest != "" && !IsAlnum(rest[0]) && tail == SkipOthers(rest)
    ensures ReplaceRuns(s) == (w + "-") + ReplaceRuns(tail)
  {
    ReplaceWord(w, rest);
    var replaced := ReplaceRuns(tail);
    assert ReplaceRuns(rest) == "-" + replaced by { assert tail == SkipOthers(rest[1..]); }
    assert w + ("-" + replaced) == (w + "-") + replaced;
  }

  lemma TrimOneDash(w: string)
    requires IsWord(w)
    ensures TrimDashesRight(w + "-") == w
  {
    assert (w + "-")[..|w|] == w;
  }

  lemma WordsFrom(s: string, w: string, rest: string, tail: string)
    requires s == w + rest && IsWord(w) && w == FirstWord(s) && tail == SkipOthers(rest)
    ensures Words(s) == [w] + Words(tail)
  {
    assert s[|w|..] == rest;
    assert IsAlnum(s[0]) by { assert s[0] == w[0]; }
    WordsSkip(rest);
  }

  /** From the first word on, the replaced text is the words with dashes between. */
  lemma {:induction false} ReplacedFromWord(s: string)
    requires s == "" || IsAlnum(s[0])
    ensures TrimDashesRight(ReplaceRuns(s)) == Join(Words(s), '-')
    ensures ReplaceRuns(s) == "" || ReplaceRuns(s)[0] != '-'
    decreases |s|
  {
    if s != "" {
      var w := FirstWord(s);
      var rest := s[|w|..];
      assert s == w + rest;
      var tail := SkipOthers(rest);
      WordsFrom(s, w, rest, tail);
      if rest == "" {
        assert s == w;
        ReplaceWord(w, "");
        assert w + "" == w;
        assert ReplaceRuns(s) == w;
      } else {
        ReplaceOneWord(s, w, rest, tail);
        TrimRightAppend(w + "-", ReplaceRuns(tail));
        TrimOneDash(w);
        ReplacedFromWord(tail);
        if Words(tail) != [] {
          JoinWordsEnds(Words(tail));
          assert ([w] + Words(tail))[1..] == Words(tail);
        }
      }
    }
  }

  /** A key is the words of the name, lower case, joined by single dashes. */
  lemma KeyIsJoinedWords(name: string)
    ensures PhaseKey(name) == Join(NameWords(name), '-')
  {
    var s := ToLower(name);
    if s == "" || IsAlnum(s[0]) {
      ReplacedFromWord(s);
    } else {
      var tail := SkipOthers(s[1..]);
      ReplacedFromWord(tail);
      WordsSkip(s);
      assert ReplaceRuns(s) == "-" + ReplaceRuns(tail);
      assert ReplaceRuns(s)[1..] == ReplaceRuns(tail);
      assert TrimDashesLeft(ReplaceRuns(s)) == TrimDashesLeft(ReplaceRuns(tail)) == ReplaceRuns(tail);
    }
  }

  /** Two names have the same key exactly when they consist of the same words. */
  lemma SameKeyIffSameWords(a: string, b: string)
    ensures PhaseKey(a) == PhaseKey(b) <==> NameWords(a) == NameWords(b)
  {
    KeyIsJoinedWords(a);
    KeyIsJoinedWords(b);
    var x, y := NameWords(a), NameWords(b);
    if x != [] {
      JoinWordsEnds(x);
      SplitJoin(x, '-');
    }
    if y != [] {
      JoinWordsEnds(y);
      SplitJoin(y, '-');
    }
  }

  lemma {:induction false} FirstWordThenDash(w: string, rest: string)
    requires IsWord(w) && (rest == "" || !IsAlnum(rest[0]))
    ensures FirstWord(w + rest) == w
  {
    assert (w + rest)[1..] == w[1..] + rest;
    if |w| > 1 {
      FirstWordThenDash(w[1..], rest);
    } else {
      assert w[1..] + rest == rest;
    }
  }

  lemma WordsCons(w: string, rest: string)
    requires IsWord(w) && (rest == "" || rest[0] == '-')
    ensures Words(w + rest) == [w] + Words(rest)
  {
    FirstWordThenDash(w, rest);
    assert (w + rest)[|w|..] == rest;
  }

  lemma WordsAfterDash(s: string)
    ensures Words("-" + s) == Words(s)
  {
    assert ("-" + s)[1..] == s;
  }

  lemma JoinMore(w: string, ws: seq<string>)
    requires ws != []
    ensures Join([w] + ws, '-') == w + ("-" + Join(ws, '-'))
  {
    assert ([w] + ws)[1..] == ws;
  }

  lemma {:induction false} WordsOfJoin(ws: seq<string>)
    requires forall i :: 0 <= i < |ws| ==> IsWord(ws[i])
    ensures Words(Join(ws, '-')) == ws
  {
    if |ws| == 1 {
      WordsCons(ws[0], "");
      assert ws[0] + "" == ws[0];
    } else if ws != [] {
      var w, rest := ws[0], ws[1..];
      assert ws == [w] + rest;
      WordsOfJoin(rest);
      JoinMore(w, rest);
      WordsCons(w, "-" + Join(rest, '-'));
      WordsAfterDash(Join(rest, '-'));
    }
  }

  lemma {:induction false} JoinedIsLower(ws: seq<string>)
    requires forall i :: 0 <= i < |ws| ==> IsWord(ws[i])
    ensures ToLower(Join(ws, '-')) == Join(ws, '-')
  {
    if |ws| > 1 {
      JoinedIsLower(ws[1..]);
      var rest := Join(ws[1..], '-');
      var s := Join(ws, '-');
      assert s == ws[0] + "-" + rest;
      forall i | 0 <= i < |s| ensures LowerChar(s[i]) == s[i] {
        if i > |ws[0]| {
          assert s[i] == rest[i - |ws[0]| - 1];
          assert ToLower(rest)[i - |ws[0]| - 1] == s[i];
        }
      }
    }
  }

  /** Normalising a key gives the key, so a phase may be named either way. */
  lemma KeyIsIdempotent(name: string)
    ensures PhaseKey(PhaseKey(name)) == PhaseKey(name)
  {
    KeyIsJoinedWords(name);
    JoinedIsLower(NameWords(name));
    WordsOfJoin(NameWords(name));
    SameKeyIffSameWords(PhaseKey(name), name);
  }

  /** A key starts with the first word of its name. */
  lemma KeyStartsWithName(name: string)
    requires |name| >= 2 && IsAlnum(LowerChar(name[0])) && IsAlnum(LowerChar(name[1]))
    ensures |PhaseKey(name)| >= 2 && PhaseKey(name)[..2] == [LowerChar(name[0]), LowerChar(name[1])]
  {
    KeyIsJoinedWords(name);
    var s := ToLower(name);
    assert s[0] == LowerChar(name[0]) && s[1] == LowerChar(name[1]);
    assert s[1..][0] == s[1];
    assert FirstWord(s) == [s[0]] + ([s[1]] + FirstWord(s[1..][1..]));
    assert Words(s)[0] == FirstWord(s);
    assert FirstWord(s) <= Join(Words(s), '-');
  }
}
