/** The command lines the SSH client builds, and what the remote shell reads in them
    (internal/ssh/client.go). */
module RemoteCommands {
  import opened Wrappers
  import opened Shell

  function RemoteCommand(elevated: bool, cmd: string): string {
    if !elevated then cmd else "sudo -n -H bash -c " + Quote(cmd)
  }

  function SudoArgs(cmd: string): seq<Arg> {
    [Bare("sudo"), Bare("-n"), Bare("-H"), Bare("bash"), Bare("-c"), Quoted(cmd)]
  }

  lemma SudoArgsAreSound(cmd: string)
    ensures Sound(SudoArgs(cmd))
  {
    assert Clean(Bare("sudo")) && Clean(Bare("-n")) && Clean(Bare("-H")) && Clean(Bare("bash")) && Clean(Bare("-c"));
    SixArgs(Bare("sudo"), Bare("-n"), Bare("-H"), Bare("bash"), Bare("-c"), Quoted(cmd));
  }

  lemma SudoArgsText(cmd: string)
    ensures ShowCommand(SudoArgs(cmd)) == RemoteCommand(true, cmd)
  {
    SixArgs(Bare("sudo"), Bare("-n"), Bare("-H"), Bare("bash"), Bare("-c"), Quoted(cmd));
    ElevatedText(Quote(cmd));
  }

  /** Every command reaches the elevated shell as one argument. */
  lemma ElevatedReads(cmd: string)
    ensures Lex(RemoteCommand(true, cmd))
            == Some([Word("sudo"), Word("-n"), Word("-H"), Word("bash"), Word("-c"), Word(cmd)])
  {
    SudoArgsAreSound(cmd);
    SudoArgsText(cmd);
    CommandAlone(SudoArgs(cmd));
    SixArgs(Bare("sudo"), Bare("-n"), Bare("-H"), Bare("bash"), Bare("-c"), Quoted(cmd));
  }

  lemma ElevatedText(q: string)
    ensures "sudo" + (" " + ("-n" + (" " + ("-H" + (" " + ("bash" + (" " + ("-c" + (" " + q)))))))))
            == "sudo -n -H bash -c " + q
  {
  }

  /** What the shell that runs a command reads: the login shell, or the one sudo starts. */
  function Delivered(elevated: bool, cmd: string): Option<seq<Token>> {
    match Lex(RemoteCommand(elevated, cmd))
    case None => None
    case Some(tokens) =>
      if !elevated then Some(tokens)
      else if |tokens| == 6 && tokens[5].Word? then Lex(tokens[5].text)
      else None
  }

  /** Elevation changes nothing in how a command is read. */
  lemma ElevationIsTransparent(elevated: bool, cmd: string)
    ensures Delivered(elevated, cmd) == Lex(cmd)
  {
    if elevated {
      ElevatedReads(cmd);
    }
  }

  function Digit(n: nat): char
    requires n < 8
  {
    "01234567"[n]
  }

  /** A permission mode as fmt prints it with %o. */
  function Octal(mode: nat): string
  {
    if mode < 8 then [Digit(mode)] else Octal(mode / 8) + [Digit(mode % 8)]
  }

  function OctalValue(s: string): int {
    if s == "" then 0 else OctalValue(s[..|s| - 1]) * 8 + (s[|s| - 1] as int - '0' as int)
  }

  /** chmod gets digits that read back as the mode. */
  lemma {:induction false} OctalReadsBack(mode: nat)
    ensures PlainText(Octal(mode)) && OctalValue(Octal(mode)) == mode
  {
    if mode >= 8 {
      OctalReadsBack(mode / 8);
      assert Octal(mode)[..|Octal(mode)| - 1] == Octal(mode / 8);
    } else {
      assert Octal(mode)[..0] == "";
    }
  }

  lemma MoreCommands(first: seq<Arg>, rest: seq<seq<Arg>>)
    requires rest != []
    ensures ShowScript([first] + rest) == ShowCommand(first) + ("; " + ShowScript(rest))
    ensures ScriptMeaning([first] + rest) == CommandMeaning(first) + [Op(';')] + ScriptMeaning(rest)
    ensures Complete(first) && SoundScript(rest) ==> SoundScript([first] + rest)
  {
    assert ([first] + rest)[1..] == rest;
  }

  /** The script of writeRemoteFile: stream into a sidecar, set its mode, move it in place. */
  function WriteScript(dir: string, tmp: string, mode: nat, path: string): string {
    "set -e; mkdir -p " + Quote(dir) + "; cat > " + Quote(tmp) + "; chmod " + Octal(mode) + " " + Quote(tmp)
    + "; mv -f " + Quote(tmp) + " " + Quote(path)
  }

  /** The script of CopyTar. */
  function ExtractScript(dir: string): string {
    "set -e; mkdir -p " + Quote(dir) + "; tar -xf - -C " + Quote(dir) + " --no-same-owner"
  }

  /** The command of ReadFile. */
  function ReadCommand(path: string): string {
    "cat -- " + Quote(path)
  }

  const SET_E := [Bare("set"), Bare("-e")]

  function Mkdir(dir: string): seq<Arg> {
    [Bare("mkdir"), Bare("-p"), Quoted(dir)]
  }

  lemma PrepareReads(dir: string)
    ensures ShowCommand(SET_E) + ("; " + ShowCommand(Mkdir(dir))) == "set -e; mkdir -p " + Quote(dir)
    ensures CommandMeaning(SET_E) == [Word("set"), Word("-e")]
    ensures CommandMeaning(Mkdir(dir)) == [Word("mkdir"), Word("-p"), Word(dir)]
    ensures Sound(SET_E) && Sound(Mkdir(dir))
  {
    TwoArgs(Bare("set"), Bare("-e"));
    ThreeArgs(Bare("mkdir"), Bare("-p"), Quoted(dir));
    PrepareText(Quote(dir));
  }

  lemma PrepareText(d: string)
    ensures "set" + (" " + "-e") + ("; " + ("mkdir" + (" " + ("-p" + (" " + d))))) == "set -e; mkdir -p " + d
  {
  }

  function CatTo(tmp: string): seq<Arg> {
    [Bare("cat"), Redirect, Quoted(tmp)]
  }

  function Chmod(mode: nat, tmp: string): seq<Arg> {
    [Bare("chmod"), Bare(Octal(mode)), Quoted(tmp)]
  }

  function Move(tmp: string, path: string): seq<Arg> {
    [Bare("mv"), Bare("-f"), Quoted(tmp), Quoted(path)]
  }

  function Untar(dir: string): seq<Arg> {
    [Bare("tar"), Bare("-xf"), Bare("-"), Bare("-C"), Quoted(dir), Bare("--no-same-owner")]
  }

  lemma CatToReads(tmp: string)
    ensures ShowCommand(CatTo(tmp)) == "cat > " + Quote(tmp)
    ensures CommandMeaning(CatTo(tmp)) == [Word("cat"), Op('>'), Word(tmp)] && Sound(CatTo(tmp))
  {
    ThreeArgs(Bare("cat"), Redirect, Quoted(tmp));
    var q := Quote(tmp);
    assert "cat" + (" " + (">" + (" " + q))) == "cat > " + q;
  }

  lemma ChmodReads(mode: nat, tmp: string)
    ensures ShowCommand(Chmod(mode, tmp)) == "chmod " + Octal(mode) + " " + Quote(tmp)
    ensures CommandMeaning(Chmod(mode, tmp)) == [Word("chmod"), Word(Octal(mode)), Word(tmp)] && Sound(Chmod(mode, tmp))
  {
    OctalReadsBack(mode);
    ThreeArgs(Bare("chmod"), Bare(Octal(mode)), Quoted(tmp));
    var q := Quote(tmp);
    assert "chmod" + (" " + (Octal(mode) + (" " + q))) == "chmod " + Octal(mode) + " " + q;
  }

  lemma MoveReads(tmp: string, path: string)
    ensures ShowCommand(Move(tmp, path)) == "mv -f " + Quote(tmp) + " " + Quote(path)
    ensures CommandMeaning(Move(tmp, path)) == [Word("mv"), Word("-f"), Word(tmp), Word(path)] && Sound(Move(tmp, path))
  {
    FourArgs(Bare("mv"), Bare("-f"), Quoted(tmp), Quoted(path));
    var q, r := Quote(tmp), Quote(path);
    assert "mv" + (" " + ("-f" + (" " + (q + (" " + r))))) == "mv -f " + q + " " + r;
  }

  lemma UntarReads(dir: string)
    ensures ShowCommand(Untar(dir)) == "tar -xf - -C " + Quote(dir) + " --no-same-owner"
    ensures CommandMeaning(Untar(dir))
            == [Word("tar"), Word("-xf"), Word("-"), Word("-C"), Word(dir), Word("--no-same-owner")]
    ensures Sound(Untar(dir))
  {
    SixArgs(Bare("tar"), Bare("-xf"), Bare("-"), Bare("-C"), Quoted(dir), Bare("--no-same-owner"));
    UntarText(Quote(dir));
  }

  lemma UntarText(d: string)
    ensures "tar" + (" " + ("-xf" + (" " + ("-" + (" " + ("-C" + (" " + (d + (" " + "--no-same-owner")))))))))
            == "tar -xf - -C " + d + " --no-same-owner"
  {
  }

  /** The words of writeRemoteFile's script. */
  function WriteTokens(dir: string, tmp: string, mode: nat, path: string): seq<Token> {
    [Word("set"), Word("-e")] + [Op(';')]
    + ([Word("mkdir"), Word("-p"), Word(dir)] + [Op(';')]
    + ([Word("cat"), Op('>'), Word(tmp)] + [Op(';')]
    + ([Word("chmod"), Word(Octal(mode)), Word(tmp)] + [Op(';')]
    + [Word("mv"), Word("-f"), Word(tmp), Word(path)])))
  }

  function WriteCommands(dir: string, tmp: string, mode: nat, path: string): seq<seq<Arg>> {
    [SET_E] + ([Mkdir(dir)] + ([CatTo(tmp)] + ([Chmod(mode, tmp)] + [Move(tmp, path)])))
  }

  lemma WriteCommandsMean(dir: string, tmp: string, mode: nat, path: string)
    ensures ScriptMeaning(WriteCommands(dir, tmp, mode, path)) == WriteTokens(dir, tmp, mode, path)
    ensures SoundScript(WriteCommands(dir, tmp, mode, path))
  {
    PrepareReads(dir);
    CatToReads(tmp);
    ChmodReads(mode, tmp);
    MoveReads(tmp, path);
    var last := [Chmod(mode, tmp)] + [Move(tmp, path)];
    assert SoundScript([Move(tmp, path)]);
    MoreCommands(Chmod(mode, tmp), [Move(tmp, path)]);
    MoreCommands(CatTo(tmp), last);
    MoreCommands(Mkdir(dir), [CatTo(tmp)] + last);
    MoreCommands(SET_E, [Mkdir(dir)] + ([CatTo(tmp)] + last));
  }

  lemma WriteCommandsShow(dir: string, tmp: string, mode: nat, path: string)
    ensures ShowScript(WriteCommands(dir, tmp, mode, path))
            == ShowCommand(SET_E) + ("; " + (ShowCommand(Mkdir(dir)) + ("; " + (ShowCommand(CatTo(tmp))
            + ("; " + (ShowCommand(Chmod(mode, tmp)) + ("; " + ShowCommand(Move(tmp, path)))))))))
  {
    var mv := Move(tmp, path);
    MoreCommands(Chmod(mode, tmp), [mv]);
    MoreCommands(CatTo(tmp), [Chmod(mode, tmp)] + [mv]);
    MoreCommands(Mkdir(dir), [CatTo(tmp)] + ([Chmod(mode, tmp)] + [mv]));
    MoreCommands(SET_E, [Mkdir(dir)] + ([CatTo(tmp)] + ([Chmod(mode, tmp)] + [mv])));
  }

  lemma WriteCommandsText(dir: string, tmp: string, mode: nat, path: string)
    ensures ShowScript(WriteCommands(dir, tmp, mode, path)) == WriteScript(dir, tmp, mode, path)
  {
    WriteCommandsShow(dir, tmp, mode, path);
    PrepareReads(dir);
    CatToReads(tmp);
    ChmodReads(mode, tmp);
    MoveReads(tmp, path);
    WriteText(ShowCommand(SET_E), ShowCommand(Mkdir(dir)), Quote(dir), Quote(tmp), Octal(mode), Quote(path));
  }

  /** The shape in which fmt pastes a value after each literal. */
  lemma Glue(before: string, separator: string, literal: string, value: string, after: string)
    ensures before + (separator + (literal + value + after)) == before + (separator + literal) + value + after
  {
  }

  lemma WriteText(e: string, mkdir: string, d: string, t: string, m: string, p: string)
    requires e + ("; " + mkdir) == "set -e; mkdir -p " + d
    ensures e + ("; " + (mkdir + ("; " + (("cat > " + t) + ("; " + (("chmod " + m + " " + t)
            + ("; " + ("mv -f " + t + " " + p))))))))
            == "set -e; mkdir -p " + d + "; cat > " + t + "; chmod " + m + " " + t + "; mv -f " + t + " " + p
  {
    var mv := "; " + ("mv -f " + t + " " + p);
    var rest := "; " + (("chmod " + m + " " + t) + mv);
    Glue("set -e; mkdir -p " + d, "; ", "cat > ", t, rest);
    assert "; " + "cat > " == "; cat > ";
    assert e + ("; " + (mkdir + ("; " + (("cat > " + t) + rest)))) == e + ("; " + mkdir) + ("; " + (("cat > " + t) + rest));
    var done := "set -e; mkdir -p " + d + "; cat > " + t;
    ChmodText(done, m, t, mv);
    MoveText(done + "; chmod " + m + " " + t, t, p);
  }

  lemma MoveText(done: string, t: string, p: string)
    ensures done + ("; " + ("mv -f " + t + " " + p)) == done + "; mv -f " + t + " " + p
  {
    Glue(done, "; ", "mv -f ", t, " " + p);
    assert "; " + "mv -f " == "; mv -f ";
    assert "mv -f " + t + (" " + p) == "mv -f " + t + " " + p;
  }

  lemma ChmodText(done: string, m: string, t: string, rest: string)
    ensures done + ("; " + (("chmod " + m + " " + t) + rest)) == done + "; chmod " + m + " " + t + rest
  {
    Glue(done, "; ", "chmod ", m, " " + t + rest);
    assert "; " + "chmod " == "; chmod ";
    assert "chmod " + m + (" " + t + rest) == "chmod " + m + " " + t + rest;
  }

  /** For any paths whatever, the elevated shell reads the commands that were meant. */
  lemma WriteScriptReads(dir: string, tmp: string, mode: nat, path: string)
    ensures Delivered(true, WriteScript(dir, tmp, mode, path)) == Some(WriteTokens(dir, tmp, mode, path))
  {
    WriteCommandsText(dir, tmp, mode, path);
    WriteCommandsMean(dir, tmp, mode, path);
    ScriptReads(WriteCommands(dir, tmp, mode, path));
    ElevationIsTransparent(true, WriteScript(dir, tmp, mode, path));
  }

  /** The words of CopyTar's script. */
  function ExtractTokens(dir: string): seq<Token> {
    [Word("set"), Word("-e")] + [Op(';')]
    + ([Word("mkdir"), Word("-p"), Word(dir)] + [Op(';')]
    + [Word("tar"), Word("-xf"), Word("-"), Word("-C"), Word(dir), Word("--no-same-owner")])
  }

  lemma ExtractScriptReads(dir: string)
    ensures Delivered(true, ExtractScript(dir)) == Some(ExtractTokens(dir))
  {
    PrepareReads(dir);
    UntarReads(dir);
    MoreCommands(Mkdir(dir), [Untar(dir)]);
    MoreCommands(SET_E, [Mkdir(dir)] + [Untar(dir)]);
    var commands := [SET_E] + ([Mkdir(dir)] + [Untar(dir)]);
    ExtractText(ShowCommand(SET_E), ShowCommand(Mkdir(dir)), Quote(dir));
    ScriptReads(commands);
    ElevationIsTransparent(true, ExtractScript(dir));
  }

  lemma ExtractText(e: string, mkdir: string, d: string)
    requires e + ("; " + mkdir) == "set -e; mkdir -p " + d
    ensures e + ("; " + (mkdir + ("; " + ("tar -xf - -C " + d + " --no-same-owner"))))
            == "set -e; mkdir -p " + d + "; tar -xf - -C " + d + " --no-same-owner"
  {
    Glue("set -e; mkdir -p " + d, "; ", "tar -xf - -C ", d, " --no-same-owner");
    assert "; " + "tar -xf - -C " == "; tar -xf - -C ";
    var tar := "; " + ("tar -xf - -C " + d + " --no-same-owner");
    assert e + ("; " + (mkdir + tar)) == e + ("; " + mkdir) + tar;
  }

  lemma ReadCommandReads(path: string)
    ensures Delivered(true, ReadCommand(path)) == Some([Word("cat"), Word("--"), Word(path)])
  {
    var args := [Bare("cat"), Bare("--"), Quoted(path)];
    ThreeArgs(Bare("cat"), Bare("--"), Quoted(path));
    ReadText(Quote(path));
    CommandAlone(args);
    ElevationIsTransparent(true, ReadCommand(path));
  }

  lemma ReadText(q: string)
    ensures "cat" + (" " + ("--" + (" " + q))) == "cat -- " + q
  {
  }
}
