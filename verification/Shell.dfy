/** Shell quoting against the shell's own tokenizer: sections 2.2.1, 2.2.2, 2.2.3 and 2.3
    of IEEE Std 1003.1, Shell Command Language (internal/ssh/client.go). */
module Shell {
  import opened Wrappers

  /* ---- The tokenizer ---- */

  datatype Token = Word(text: string) | Op(op: char)

  /** AfterOp is Plain directly after an operator character. */
  datatype Mode = Plain | AfterOp | Escaped(afterOp: bool) | Single | Double | DoubleEscaped

  datatype Lexer = Lexer(mode: Mode, word: Option<string>, out: seq<Token>)

  const START := Lexer(Plain, None, [])

  predicate Blank(c: char) { c == ' ' || c == '\t' }

  predicate Operator(c: char) { c == ';' || c == '&' || c == '|' || c == '<' || c == '>' || c == '(' || c == ')' || c == '\n' }

  /** Unquoted characters that start an expansion, a pattern, a comment or a reserved word. */
  predicate Special(c: char) {
    || c == '$' || c == '`' || c == '*' || c == '?' || c == '['
    || c == '~' || c == '#' || c == '{' || c == '}' || c == '!'
  }

  function Text(word: Option<string>): string {
    if word.Some? then word.value else ""
  }

  function Flush(st: Lexer): seq<Token> {
    if st.word.Some? then st.out + [Word(st.word.value)] else st.out
  }

  function Append(st: Lexer, mode: Mode, text: string): Lexer {
    Lexer(mode, Some(Text(st.word) + text), st.out)
  }

  /** An unquoted character. None is text this tokenizer does not cover: expansions,
      operators of two characters and numbered redirections. */
  function FeedPlain(st: Lexer, c: char): Option<Lexer> {
    if c == '\\' then Some(st.(mode := Escaped(st.mode.AfterOp?)))
    else if c == '\'' then Some(Append(st, Single, ""))
    else if c == '"' then Some(Append(st, Double, ""))
    else if Blank(c) then Some(Lexer(Plain, None, Flush(st)))
    else if Operator(c) then
      if st.mode.AfterOp? || ((c == '<' || c == '>') && st.word.Some?) then None
      else Some(Lexer(AfterOp, None, Flush(st) + [Op(c)]))
    else if Special(c) then None
    else Some(Append(st, Plain, [c]))
  }

  function Feed(st: Lexer, c: char): Option<Lexer> {
    match st.mode
    case Plain => FeedPlain(st, c)
    case AfterOp => FeedPlain(st, c)
    case Escaped(afterOp) =>
      if c == '\n' then Some(st.(mode := if afterOp then AfterOp else Plain)) else Some(Append(st, Plain, [c]))
    case Single => if c == '\'' then Some(st.(mode := Plain)) else Some(Append(st, Single, [c]))
    case Double =>
      if c == '"' then Some(st.(mode := Plain))
      else if c == '\\' then Some(st.(mode := DoubleEscaped))
      else if c == '$' || c == '`' then None
      else Some(Append(st, Double, [c]))
    case DoubleEscaped =>
      if c == '\n' then Some(st.(mode := Double))
      else if c == '$' || c == '`' || c == '"' || c == '\\' then Some(Append(st, Double, [c]))
      else Some(Append(st, Double, ['\\', c]))
  }

  function Run(st: Lexer, s: string): Option<Lexer>
    decreases |s|
  {
    if s == "" then Some(st)
    else
      match Feed(st, s[0])
      case None => None
      case Some(next) => Run(next, s[1..])
  }

  /** The tokens of a command line, None when a quote is left open or an expansion occurs. */
  function Lex(s: string): Option<seq<Token>> {
    match Run(START, s)
    case None => None
    case Some(st) => if st.mode.Plain? || st.mode.AfterOp? then Some(Flush(st)) else None
  }

  lemma {:induction false} RunConcat(st: Lexer, a: string, b: string)
    ensures Run(st, a + b) == match Run(st, a) case None => None case Some(mid) => Run(mid, b)
    decreases |a|
  {
    if a == "" {
      assert a + b == b;
    } else {
      assert (a + b)[0] == a[0] && (a + b)[1..] == a[1..] + b;
      match Feed(st, a[0])
      case None =>
      case Some(next) => RunConcat(next, a[1..], b);
    }
  }

  /* ---- Quoting ---- */

  function EscapeQuotes(s: string): string {
    if s == "" then ""
    else (if s[0] == '\'' then "'\\''" else [s[0]]) + EscapeQuotes(s[1..])
  }

  function Quote(s: string): string {
    "'" + EscapeQuotes(s) + "'"
  }

  predicate Unquoted(st: Lexer) {
    st.mode.Plain? || st.mode.AfterOp?
  }

  lemma QuoteChar(st: Lexer, c: char)
    requires st.mode.Single?
    ensures Run(st, if c == '\'' then "'\\''" else [c]) == Some(Append(st, Single, [c]))
  {
    if c == '\'' {
      var s := "'\\''";
      var open := st.(mode := Plain);
      assert Run(st, s) == Run(open, s[1..]);
      assert Feed(open, s[1]) == Some(st.(mode := Escaped(false)));
      assert Run(open, s[1..]) == Run(st.(mode := Escaped(false)), s[2..]);
      var quoted := Append(st, Plain, [c]);
      assert Run(st.(mode := Escaped(false)), s[2..]) == Run(quoted, s[3..]);
      assert Text(quoted.word) + "" == Text(quoted.word);
      assert Feed(quoted, s[3]) == Some(Append(st, Single, [c]));
      assert Run(quoted, s[3..]) == Run(Append(st, Single, [c]), s[4..]);
    } else {
      assert [c][1..] == "";
    }
  }

  lemma {:induction false} InsideQuotes(st: Lexer, s: string)
    requires st.mode.Single? && st.word.Some?
    ensures Run(st, EscapeQuotes(s)) == Some(Append(st, Single, s))
    decreases |s|
  {
    if s == "" {
      assert Text(st.word) + "" == st.word.value;
    } else {
      var first := if s[0] == '\'' then "'\\''" else [s[0]];
      var next := Append(st, Single, [s[0]]);
      QuoteChar(st, s[0]);
      InsideQuotes(next, s[1..]);
      RunConcat(st, first, EscapeQuotes(s[1..]));
      assert Text(next.word) + s[1..] == Text(st.word) + s by { assert [s[0]] + s[1..] == s; }
    }
  }

  /** Quoted text adds exactly itself to the current word, wherever it stands. */
  lemma QuoteAddsText(st: Lexer, s: string)
    requires Unquoted(st)
    ensures Run(st, Quote(s)) == Some(Append(st, Plain, s))
  {
    var open := Append(st, Single, "");
    var body := EscapeQuotes(s);
    assert Quote(s)[0] == '\'' && Quote(s)[1..] == body + "'";
    assert Run(st, Quote(s)) == Run(open, body + "'");
    InsideQuotes(open, s);
    RunConcat(open, body, "'");
    var full := Append(open, Single, s);
    assert "'"[1..] == "";
    assert Run(full, "'") == Run(full.(mode := Plain), "");
    assert Text(st.word) + "" + s == Text(st.word) + s;
  }

  /** For every string, its quoted form is one word, equal to it. */
  lemma QuoteIsOneWord(s: string)
    ensures Lex(Quote(s)) == Some([Word(s)])
  {
    QuoteAddsText(START, s);
    assert "" + s == s;
    assert [] + [Word(s)] == [Word(s)];
  }

  /* ---- Scripts of simple commands ---- */

  datatype Arg = Bare(text: string) | Quoted(text: string) | Redirect

  /** Characters of bare words. */
  predicate PlainChar(c: char) {
    'a' <= c <= 'z' || 'A' <= c <= 'Z' || '0' <= c <= '9' || c == '-' || c == '_' || c == '/' || c == '.' || c == ':'
  }

  predicate PlainText(s: string) {
    s != "" && forall i | 0 <= i < |s| :: PlainChar(s[i])
  }

  predicate Clean(a: Arg) {
    a.Bare? ==> PlainText(a.text)
  }

  predicate Sound(args: seq<Arg>) {
    args != [] && Clean(args[0]) && (|args| > 1 ==> Sound(args[1..]))
  }

  function Show(a: Arg): string {
    match a
    case Bare(text) => text
    case Quoted(text) => Quote(text)
    case Redirect => ">"
  }

  function Meaning(a: Arg): Token {
    match a
    case Bare(text) => Word(text)
    case Quoted(text) => Word(text)
    case Redirect => Op('>')
  }

  /** Arguments with a space between them. */
  function ShowCommand(args: seq<Arg>): string {
    if args == [] then "" else if |args| == 1 then Show(args[0]) else Show(args[0]) + (" " + ShowCommand(args[1..]))
  }

  function CommandMeaning(args: seq<Arg>): seq<Token> {
    if args == [] then [] else [Meaning(args[0])] + CommandMeaning(args[1..])
  }

  /** Commands with "; " between them. */
  function ShowScript(commands: seq<seq<Arg>>): string {
    if commands == [] then ""
    else if |commands| == 1 then ShowCommand(commands[0])
    else ShowCommand(commands[0]) + ("; " + ShowScript(commands[1..]))
  }

  function ScriptMeaning(commands: seq<seq<Arg>>): seq<Token> {
    if commands == [] then []
    else if |commands| == 1 then CommandMeaning(commands[0])
    else CommandMeaning(commands[0]) + [Op(';')] + ScriptMeaning(commands[1..])
  }

  lemma {:induction false} PlainAddsText(st: Lexer, s: string)
    requires Unquoted(st) && PlainText(s)
    ensures Run(st, s) == Some(Append(st, Plain, s))
    decreases |s|
  {
    var next := Append(st, Plain, [s[0]]);
    assert PlainChar(s[0]);
    if |s| == 1 {
      assert s == [s[0]] && s[1..] == "";
    } else {
      PlainAddsText(next, s[1..]);
      assert [s[0]] + s[1..] == s;
      assert Text(next.word) + s[1..] == Text(st.word) + s;
    }
  }

  /** The state between two tokens. */
  function At(out: seq<Token>): Lexer {
    Lexer(Plain, None, out)
  }

  /** After the tokens out, text is read as these tokens; redirect: it ends in an operator. */
  predicate Reads(out: seq<Token>, text: string, tokens: seq<Token>, redirect: bool) {
    match Run(At(out), text)
    case None => false
    case Some(end) => end.mode == (if redirect then AfterOp else Plain) && Flush(end) == out + tokens
  }

  lemma ArgReads(out: seq<Token>, a: Arg)
    requires Clean(a)
    ensures Reads(out, Show(a), [Meaning(a)], a.Redirect?)
  {
    match a
    case Bare(text) =>
      PlainAddsText(At(out), text);
      assert "" + text == text;
    case Quoted(text) =>
      QuoteAddsText(At(out), text);
      assert "" + text == text;
    case Redirect =>
      assert ">"[1..] == "";
  }

  lemma BlankEnds(st: Lexer, s: string)
    requires Unquoted(st)
    ensures Run(st, " " + s) == Run(At(Flush(st)), s)
  {
    assert (" " + s)[0] == ' ' && (" " + s)[1..] == s;
  }

  lemma SemicolonEnds(st: Lexer, s: string)
    requires st.mode.Plain?
    ensures Run(st, "; " + s) == Run(At(Flush(st) + [Op(';')]), s)
  {
    var t := "; " + s;
    var semi := Lexer(AfterOp, None, Flush(st) + [Op(';')]);
    assert t[0] == ';' && t[1..] == " " + s;
    assert Run(st, t) == Run(semi, " " + s);
    BlankEnds(semi, s);
  }

  lemma ReadsAfterBlank(out: seq<Token>, a: string, before: seq<Token>, op: bool, b: string, after: seq<Token>, redirect: bool)
    requires Reads(out, a, before, op) && Reads(out + before, b, after, redirect)
    ensures Reads(out, a + (" " + b), before + after, redirect)
  {
    RunConcat(At(out), a, " " + b);
    BlankEnds(Run(At(out), a).value, b);
    assert out + (before + after) == out + before + after;
  }

  lemma ReadsAfterSemicolon(out: seq<Token>, a: string, before: seq<Token>, b: string, after: seq<Token>, redirect: bool)
    requires Reads(out, a, before, false) && Reads(out + before + [Op(';')], b, after, redirect)
    ensures Reads(out, a + ("; " + b), before + [Op(';')] + after, redirect)
  {
    RunConcat(At(out), a, "; " + b);
    SemicolonEnds(Run(At(out), a).value, b);
    assert out + (before + [Op(';')] + after) == out + before + [Op(';')] + after;
  }

  lemma {:induction false} CommandReads(out: seq<Token>, args: seq<Arg>)
    requires Sound(args)
    ensures Reads(out, ShowCommand(args), CommandMeaning(args), args[|args| - 1].Redirect?)
    decreases |args|
  {
    ArgReads(out, args[0]);
    var first, rest := [Meaning(args[0])], args[1..];
    if rest == [] {
      assert CommandMeaning(args) == first;
    } else {
      CommandReads(out + first, rest);
      ReadsAfterBlank(out, Show(args[0]), first, args[0].Redirect?, ShowCommand(rest), CommandMeaning(rest),
                      args[|args| - 1].Redirect?);
    }
  }

  predicate Complete(args: seq<Arg>) {
    Sound(args) && !args[|args| - 1].Redirect?
  }

  predicate SoundScript(commands: seq<seq<Arg>>) {
    commands != [] && Complete(commands[0]) && (|commands| > 1 ==> SoundScript(commands[1..]))
  }

  lemma {:induction false} ScriptRuns(out: seq<Token>, commands: seq<seq<Arg>>)
    requires SoundScript(commands)
    ensures Reads(out, ShowScript(commands), ScriptMeaning(commands), false)
    decreases |commands|
  {
    var first := CommandMeaning(commands[0]);
    CommandReads(out, commands[0]);
    if |commands| > 1 {
      var rest := commands[1..];
      ScriptRuns(out + first + [Op(';')], rest);
      ReadsAfterSemicolon(out, ShowCommand(commands[0]), first, ShowScript(rest), ScriptMeaning(rest), false);
    }
  }

  lemma ReadsAlone(text: string, tokens: seq<Token>, redirect: bool)
    requires Reads([], text, tokens, redirect)
    ensures Lex(text) == Some(tokens)
  {
    assert At([]) == START;
    assert [] + tokens == tokens;
  }

  /** A script of bare and quoted arguments is read as exactly those arguments. */
  lemma ScriptReads(commands: seq<seq<Arg>>)
    requires SoundScript(commands)
    ensures Lex(ShowScript(commands)) == Some(ScriptMeaning(commands))
  {
    ScriptRuns([], commands);
    ReadsAlone(ShowScript(commands), ScriptMeaning(commands), false);
  }

  lemma CommandAlone(args: seq<Arg>)
    requires Sound(args)
    ensures Lex(ShowCommand(args)) == Some(CommandMeaning(args))
  {
    CommandReads([], args);
    ReadsAlone(ShowCommand(args), CommandMeaning(args), args[|args| - 1].Redirect?);
  }

  lemma MoreArgs(a: Arg, rest: seq<Arg>)
    requires rest != []
    ensures ShowCommand([a] + rest) == Show(a) + (" " + ShowCommand(rest))
    ensures CommandMeaning([a] + rest) == [Meaning(a)] + CommandMeaning(rest)
    ensures Sound([a] + rest) <==> Clean(a) && Sound(rest)
  {
    assert ([a] + rest)[1..] == rest;
  }

  lemma OneArg(a: Arg)
    ensures ShowCommand([a]) == Show(a) && CommandMeaning([a]) == [Meaning(a)] && (Sound([a]) <==> Clean(a))
  {
    assert [a][1..] == [];
    assert CommandMeaning([a]) == [Meaning(a)] + [];
  }

  lemma TwoArgs(a: Arg, b: Arg)
    ensures ShowCommand([a, b])
            == Show(a) + (" " + Show(b))
    ensures CommandMeaning([a, b]) == [Meaning(a), Meaning(b)]
    ensures Clean(a) && Clean(b) ==> Sound([a, b])
  {
    assert [a, b] == [a] + [b];
    MoreArgs(a, [b]);
    OneArg(b);
    assert [Meaning(a)] + [Meaning(b)] == [Meaning(a), Meaning(b)];
  }

  lemma ThreeArgs(a: Arg, b: Arg, c: Arg)
    ensures ShowCommand([a, b, c])
            == Show(a) + (" " + (Show(b) + (" " + Show(c))))
    ensures CommandMeaning([a, b, c]) == [Meaning(a), Meaning(b), Meaning(c)]
    ensures Clean(a) && Clean(b) && Clean(c) ==> Sound([a, b, c])
  {
    assert [a, b, c] == [a] + [b, c];
    MoreArgs(a, [b, c]);
    TwoArgs(b, c);
    assert [Meaning(a)] + [Meaning(b), Meaning(c)] == [Meaning(a), Meaning(b), Meaning(c)];
  }

  lemma FourArgs(a: Arg, b: Arg, c: Arg, d: Arg)
    ensures ShowCommand([a, b, c, d])
            == Show(a) + (" " + (Show(b) + (" " + (Show(c) + (" " + Show(d))))))
    ensures CommandMeaning([a, b, c, d]) == [Meaning(a), Meaning(b), Meaning(c), Meaning(d)]
    ensures Clean(a) && Clean(b) && Clean(c) && Clean(d) ==> Sound([a, b, c, d])
  {
    assert [a, b, c, d] == [a] + [b, c, d];
    MoreArgs(a, [b, c, d]);
    ThreeArgs(b, c, d);
    assert [Meaning(a)] + [Meaning(b), Meaning(c), Meaning(d)] == [Meaning(a), Meaning(b), Meaning(c), Meaning(d)];
  }

  lemma FiveArgs(a: Arg, b: Arg, c: Arg, d: Arg, e: Arg)
    ensures ShowCommand([a, b, c, d, e])
            == Show(a) + (" " + (Show(b) + (" " + (Show(c) + (" " + (Show(d) + (" " + Show(e))))))))
    ensures CommandMeaning([a, b, c, d, e]) == [Meaning(a), Meaning(b), Meaning(c), Meaning(d), Meaning(e)]
    ensures Clean(a) && Clean(b) && Clean(c) && Clean(d) && Clean(e) ==> Sound([a, b, c, d, e])
  {
    assert [a, b, c, d, e] == [a] + [b, c, d, e];
    MoreArgs(a, [b, c, d, e]);
    FourArgs(b, c, d, e);
    assert [Meaning(a)] + [Meaning(b), Meaning(c), Meaning(d), Meaning(e)] == [Meaning(a), Meaning(b), Meaning(c), Meaning(d), Meaning(e)];
  }

  lemma SixArgs(a: Arg, b: Arg, c: Arg, d: Arg, e: Arg, f: Arg)
    ensures ShowCommand([a, b, c, d, e, f])
            == Show(a) + (" " + (Show(b) + (" " + (Show(c) + (" " + (Show(d) + (" " + (Show(e) + (" " + Show(f))))))))))
    ensures CommandMeaning([a, b, c, d, e, f]) == [Meaning(a), Meaning(b), Meaning(c), Meaning(d), Meaning(e), Meaning(f)]
    ensures Clean(a) && Clean(b) && Clean(c) && Clean(d) && Clean(e) && Clean(f) ==> Sound([a, b, c, d, e, f])
  {
    assert [a, b, c, d, e, f] == [a] + [b, c, d, e, f];
    MoreArgs(a, [b, c, d, e, f]);
    FiveArgs(b, c, d, e, f);
    assert [Meaning(a)] + [Meaning(b), Meaning(c), Meaning(d), Meaning(e), Meaning(f)] == [Meaning(a), Meaning(b), Meaning(c), Meaning(d), Meaning(e), Meaning(f)];
  }
}
