/** The managed remote command line means what it should: a POSIX shell reads its two nested
    levels of quoting back as the strings that went in. */
module RemoteCommandParses {
  import opened ShellWords
  import opened RemoteCommand

  // ------------------------------------------------------------------ quoting

  lemma QuoteEscape(env: Env, done: seq<Token>, text: string)
    ensures LexFrom(env, InSingle(done, text), "'\"'\"'") == InSingle(done, text + "'")
  {
    var open, close := "'" + "\"", "\"" + "'";
    assert "'\"'\"'" == open + ("'" + close);
    LexThen(env, InSingle(done, text), open, "'" + close);
    LexThen(env, InSingle(done, text), "'", "\"");
    LexThen(env, InDouble(done, text), "'", close);
    LexThen(env, InDouble(done, text + "'"), "\"", "'");
  }

  lemma {:induction false} EscapedLexes(env: Env, done: seq<Token>, text: string, s: string)
    ensures LexFrom(env, InSingle(done, text), EscapeQuotes(s)) == if NulFree(s) then InSingle(done, text + s)
            else Stopped
    decreases |s|
  {
    if s == "" {
      assert text + s == text;
    } else {
      var c := if s[0] == '\'' then "'\"'\"'" else [s[0]];
      LexThen(env, InSingle(done, text), c, EscapeQuotes(s[1..]));
      assert s == [s[0]] + s[1..];
      if s[0] == '\'' {
        QuoteEscape(env, done, text);
      } else {
        assert LexFrom(env, InSingle(done, text), c) == Step(env, InSingle(done, text), s[0]);
      }
      if s[0] == NUL {
        StaysStopped(env, EscapeQuotes(s[1..]));
      } else {
        EscapedLexes(env, done, text + [s[0]], s[1..]);
        assert text + s == text + [s[0]] + s[1..];
      }
    }
  }

  /** What a quoted string adds to the word so far, if there is one. */
  function WithQuoted(st: Lexer, s: string): Lexer {
    match st
    case Between(done) => InWord(done, s, true)
    case InWord(done, text, _) => InWord(done, text + s, true)
    case _ => Stopped
  }

  /** A quoted string is read back as it was, and as part of one word; only a NUL byte, which
      no command line can hold, stops the lexer. */
  lemma QuotedLexes(env: Env, st: Lexer, s: string)
    requires st.Between? || st.InWord?
    ensures LexFrom(env, st, ShellQuote(s)) == if NulFree(s) then WithQuoted(st, s) else Stopped
  {
    var text := if st.InWord? then st.text else "";
    LexThen(env, st, "'" + EscapeQuotes(s), "'");
    LexThen(env, st, "'", EscapeQuotes(s));
    EscapedLexes(env, st.done, text, s);
    assert LexFrom(env, st, "'") == InSingle(st.done, text);
    assert "" + s == s;
  }

  /** What the configuration path means on the remote host. */
  function Expanded(env: Env, path: string): string {
    if "~/" <= path then ValueOf(env, "HOME") + path[1..]
    else if "$HOME/" <= path then ValueOf(env, "HOME") + path[5..]
    else path
  }

  lemma {:induction false} NameLexes(env: Env, done: seq<Token>, text: string, name: string, w: string)
    requires forall c <- w :: IsNameChar(c)
    ensures LexFrom(env, InName(done, text, name), w) == InName(done, text, name + w)
    decreases |w|
  {
    if w == "" {
      assert name + w == name;
    } else {
      assert IsNameChar(w[0]);
      NameLexes(env, done, text, name + [w[0]], w[1..]);
      assert name + w == name + [w[0]] + w[1..];
    }
  }

  lemma HomeLexes(env: Env, done: seq<Token>)
    ensures LexFrom(env, Between(done), HomeReference()) == InWord(done, ValueOf(env, "HOME"), true)
  {
    OpensName(env, done);
    LexThen(env, Between(done), "\"" + "$" + "HOME", "\"");
    LexThen(env, Between(done), "\"" + "$", "HOME");
    NameLexes(env, done, "", "", "HOME");
    assert "" + "HOME" == "HOME" && "" + ValueOf(env, "HOME") == ValueOf(env, "HOME");
  }

  lemma OpensName(env: Env, done: seq<Token>)
    ensures LexFrom(env, Between(done), "\"" + "$") == InName(done, "", "")
  {
    LexThen(env, Between(done), "\"", "$");
  }

  lemma PathExprLexes(env: Env, done: seq<Token>, path: string)
    ensures LexFrom(env, Between(done), ShellPathExpr(path)) ==
            if NulFree(path) then InWord(done, Expanded(env, path), true) else Stopped
  {
    if "~/" <= path || "$HOME/" <= path {
      var n := if "~/" <= path then 1 else 5;
      LexThen(env, Between(done), HomeReference(), ShellQuote(path[n..]));
      HomeLexes(env, done);
      QuotedLexes(env, InWord(done, ValueOf(env, "HOME"), true), path[n..]);
      assert NulFree(path[..n]) && path == path[..n] + path[n..];
    } else {
      QuotedLexes(env, Between(done), path);
    }
  }

  // ------------------------------------------------------------------ the script

  function Bare(w: string): Token {
    Word(w, false)
  }

  lemma StartOperator(env: Env, done: seq<Token>, op: string)
    requires 1 <= |op| <= 2 && StartsOperator(op[0]) && IsOperator(op)
    ensures LexFrom(env, Between(done), op) == InOperator(done, op)
  {
    if |op| == 2 {
      assert op == [op[0]] + [op[1]];
      LexThen(env, Between(done), [op[0]], [op[1]]);
    } else {
      assert op == [op[0]];
    }
  }

  /** An unquoted word right after an operator. */
  lemma OperatorWord(env: Env, done: seq<Token>, op: string, w: string)
    requires Plain(w) && !IsOperator(op + [w[0]])
    ensures LexFrom(env, InOperator(done, op), w) == InWord(done + [Operator(op)], w, false)
  {
    assert IsPlainChar(w[0]);
    PlainWord(env, done + [Operator(op)], w);
  }

  lemma EndWord(env: Env, done: seq<Token>, w: string)
    ensures LexFrom(env, InWord(done, w, false), " ") == Between(done + [Bare(w)])
    ensures LexFrom(env, InWord(done, w, false), "; ") == Between(done + [Bare(w)] + [Operator(";")])
  {
    LexThen(env, InWord(done, w, false), ";", " ");
    assert LexFrom(env, InWord(done, w, false), ";") == InOperator(done + [Bare(w)], ";");
    assert !IsOperator(";" + [' ']);
  }

  lemma OperatorThenWord(env: Env, done: seq<Token>, op: string, w: string)
    requires 1 <= |op| <= 2 && StartsOperator(op[0]) && IsOperator(op) && Plain(w) && !IsOperator(op + [w[0]])
    ensures LexFrom(env, Between(done), op + w) == InWord(done + [Operator(op)], w, false)
  {
    LexThen(env, Between(done), op, w);
    StartOperator(env, done, op);
    OperatorWord(env, done, op, w);
  }

  /** A redirection, which a space or a semicolon ends. */
  lemma Redirection(env: Env, op: string, w: string)
    requires 1 <= |op| <= 2 && StartsOperator(op[0]) && IsOperator(op) && Plain(w) && !IsOperator(op + [w[0]])
    ensures Lexes(env, Spaced(op + w), [Operator(op), Bare(w)])
    ensures Lexes(env, Terminated(op + w), [Operator(op), Bare(w), Operator(";")])
  {
    forall done: seq<Token>
      ensures LexFrom(env, Between(done), Spaced(op + w)) == Between(done + [Operator(op), Bare(w)])
      ensures LexFrom(env, Between(done), Terminated(op + w)) == Between(done + [Operator(op), Bare(w), Operator(";")])
    {
      LexThen(env, Between(done), op + w, " ");
      LexThen(env, Between(done), op + w, "; ");
      OperatorThenWord(env, done, op, w);
      EndWord(env, done + [Operator(op)], w);
      assert done + [Operator(op)] + [Bare(w)] == done + [Operator(op), Bare(w)];
      assert done + [Operator(op), Bare(w)] + [Operator(";")] == done + [Operator(op), Bare(w), Operator(";")];
    }
  }

  /** A redirection of a numbered file descriptor. */
  lemma NumberedRedirection(env: Env, digit: string, op: string, w: string)
    requires |digit| == 1 && IsDigit(digit[0]) && |op| == 2 && (op[0] == '<' || op[0] == '>') && op[1] == '&'
             && Plain(w)
    ensures Lexes(env, Spaced(digit + op + w), [IoNumber(digit), Operator(op), Bare(w)])
  {
    var tokens := [IoNumber(digit), Operator(op), Bare(w)];
    forall done: seq<Token>
      ensures LexFrom(env, Between(done), Spaced(digit + op + w)) == Between(done + tokens)
    {
      LexThen(env, Between(done), digit + op + w, " ");
      LexThen(env, Between(done), digit + op, w);
      LexThen(env, Between(done), digit, op);
      assert IsPlainChar(digit[0]);
      PlainWord(env, done, digit);
      var st := InWord(done, digit, false);
      assert op == [op[0]] + [op[1]];
      LexThen(env, st, [op[0]], [op[1]]);
      assert LexFrom(env, st, [op[0]]) == InOperator(done + [IoNumber(digit)], [op[0]]);
      OperatorWord(env, done + [IoNumber(digit)], op, w);
      EndWord(env, done + [IoNumber(digit)] + [Operator(op)], w);
      assert done + [IoNumber(digit)] + [Operator(op)] + [Bare(w)] == done + tokens;
    }
  }

  lemma TerminatedWord(env: Env, w: string)
    requires Plain(w)
    ensures Lexes(env, Terminated(w), [Bare(w), Operator(";")])
  {
    forall done: seq<Token>
      ensures LexFrom(env, Between(done), Terminated(w)) == Between(done + [Bare(w), Operator(";")])
    {
      LexThen(env, Between(done), w, "; ");
      PlainWord(env, done, w);
      EndWord(env, done, w);
      assert done + [Bare(w)] + [Operator(";")] == done + [Bare(w), Operator(";")];
    }
  }

  lemma SpacedOperator(env: Env, op: string)
    requires |op| == 2 && StartsOperator(op[0]) && IsOperator(op)
    ensures Lexes(env, Spaced(op), [Operator(op)])
  {
    forall done: seq<Token>
      ensures LexFrom(env, Between(done), Spaced(op)) == Between(done + [Operator(op)])
    {
      LexThen(env, Between(done), op, " ");
      StartOperator(env, done, op);
      assert !IsOperator(op + [' ']);
      assert LexFrom(env, InOperator(done, op), " ") == Step(env, InOperator(done, op), ' ');
    }
  }

  // The tokens of the script.

  function SilenceTokens(): seq<Token> {
    [Operator(">"), Bare("/dev/null"), IoNumber("2"), Operator(">&"), Bare("1"), Operator("||"), Bare("{")]
  }

  function FallbackTokens(): seq<Token> {
    [Bare("echo"), Bare("missing-command"), Operator(">&"), Bare("2"), Operator(";")]
  }

  function StopTokens(): seq<Token> {
    [Bare("exit"), Bare("127"), Operator(";"), Bare("}"), Operator(";")]
  }

  function GuardTokens(command: string): seq<Token> {
    [Bare("command"), Bare("-v"), Word(command, true)] + SilenceTokens() + FallbackTokens() + StopTokens()
  }

  function ExecTokens(command: string, configPath: string, profile: string, listen: string): seq<Token> {
    [Bare("exec"), Word(command, true), Bare("reverse-client"), Bare("-c"), Word(configPath, true),
     Bare("--profile"), Word(profile, true), Bare("--listen"), Word(listen, true),
     Bare("--print-listen-addr"), Bare("--log-level"), Bare("warn"), Bare("--log-format"), Bare("json")]
  }

  lemma PlainGuard()
    ensures Plain("command") && Plain("-v") && Plain("{")
  {
  }

  lemma PlainSilence()
    ensures Plain("/dev/null") && Plain("1")
  {
  }

  lemma PlainFallback()
    ensures Plain("echo") && Plain("missing-command") && Plain("2")
  {
  }

  lemma PlainStop()
    ensures Plain("exit") && Plain("127") && Plain("}")
  {
  }

  lemma PlainExec()
    ensures Plain("reverse-client")
  {
  }

  lemma PlainConfig()
    ensures Plain("exec") && Plain("-c")
  {
  }

  lemma PlainProfile()
    ensures Plain("--profile")
  {
  }

  lemma PlainListen()
    ensures Plain("--listen")
  {
  }

  lemma PlainFlags()
    ensures Plain("--print-listen-addr")
  {
  }

  lemma PlainLevel()
    ensures Plain("--log-level") && Plain("warn")
  {
  }

  lemma PlainFormat()
    ensures Plain("--log-format") && Plain("json")
  {
  }

  lemma PlainShell()
    ensures Plain("sh") && Plain("-lc")
  {
  }

  lemma SilenceText()
    ensures ">/dev/null 2>&1 || { " == Spaced(">" + "/dev/null") + Spaced("2" + ">&" + "1")
            + (Spaced("||") + Spaced("{"))
  {
  }

  lemma FallbackText()
    ensures "echo missing-command >&2; " == Spaced("echo") + Spaced("missing-command") + Terminated(">&" + "2")
  {
  }

  lemma SilenceLexes(env: Env)
    ensures Lexes(env, ">/dev/null 2>&1 || { ", SilenceTokens())
  {
    PlainGuard();
    PlainSilence();
    Redirection(env, ">", "/dev/null");
    NumberedRedirection(env, "2", ">&", "1");
    SpacedOperator(env, "||");
    SpacedWord(env, "{");
    var a, b, c, d := Spaced(">" + "/dev/null"), Spaced("2" + ">&" + "1"), Spaced("||"), Spaced("{");
    Both(env, a, [Operator(">"), Bare("/dev/null")], b, [IoNumber("2"), Operator(">&"), Bare("1")]);
    Both(env, c, [Operator("||")], d, [Bare("{")]);
    Both(env, a + b, [Operator(">"), Bare("/dev/null")] + [IoNumber("2"), Operator(">&"), Bare("1")], c + d,
         [Operator("||")] + [Bare("{")]);
    SilenceText();
    assert SilenceTokens() == [Operator(">"), Bare("/dev/null")] + [IoNumber("2"), Operator(">&"), Bare("1")]
           + ([Operator("||")] + [Bare("{")]);
  }

  lemma FallbackLexes(env: Env)
    ensures Lexes(env, "echo missing-command >&2; ", FallbackTokens())
  {
    PlainFallback();
    SpacedWord(env, "echo");
    SpacedWord(env, "missing-command");
    Redirection(env, ">&", "2");
    var a, b, c := Spaced("echo"), Spaced("missing-command"), Terminated(">&" + "2");
    Both(env, a, [Bare("echo")], b, [Bare("missing-command")]);
    Both(env, a + b, [Bare("echo")] + [Bare("missing-command")], c, [Operator(">&"), Bare("2"), Operator(";")]);
    FallbackText();
    assert FallbackTokens() == [Bare("echo")] + [Bare("missing-command")] + [Operator(">&"), Bare("2"), Operator(";")];
  }

  lemma StopLexes(env: Env)
    ensures Lexes(env, "exit 127; }; ", StopTokens())
  {
    PlainStop();
    SpacedWord(env, "exit");
    TerminatedWord(env, "127");
    TerminatedWord(env, "}");
    var a, b, c := Spaced("exit"), Terminated("127"), Terminated("}");
    Both(env, a, [Bare("exit")], b, [Bare("127"), Operator(";")]);
    Both(env, a + b, [Bare("exit")] + [Bare("127"), Operator(";")], c, [Bare("}"), Operator(";")]);
    assert "exit 127; }; " == a + b + c;
    assert StopTokens() == [Bare("exit")] + [Bare("127"), Operator(";")] + [Bare("}"), Operator(";")];
  }

  lemma GuardRestSplits()
    ensures " >/dev/null 2>&1 || { echo missing-command >&2; exit 127; }; " ==
            " >/dev/null 2>&1 || { " + "echo missing-command >&2; " + "exit 127; }; "
  {
  }

  lemma SilenceSplits()
    ensures " >/dev/null 2>&1 || { " == " " + ">/dev/null 2>&1 || { "
  {
  }

  lemma FormatSplits()
    ensures " --log-level warn --log-format json" == " --log-level warn" + " --log-format json"
    ensures " --log-level warn" == " " + "--log-level" + (" " + "warn")
    ensures " --log-format json" == " " + "--log-format" + (" " + "json")
  {
  }

  /** What follows the first quoted word. */
  lemma GuardRestLexes(env: Env, done: seq<Token>, w: string)
    ensures LexFrom(env, InWord(done, w, true), " >/dev/null 2>&1 || { echo missing-command >&2; exit 127; }; ") ==
            Between(done + [Word(w, true)] + SilenceTokens() + FallbackTokens() + StopTokens())
  {
    var a, b, c := ">/dev/null 2>&1 || { ", "echo missing-command >&2; ", "exit 127; }; ";
    var st := InWord(done, w, true);
    SilenceLexes(env);
    FallbackLexes(env);
    StopLexes(env);
    GuardRestSplits();
    SilenceSplits();
    LexThen(env, st, " " + a + b, c);
    LexThen(env, st, " " + a, b);
    LexThen(env, st, " ", a);
    assert LexFrom(env, st, " ") == Step(env, st, ' ');
  }

  /** A space and a plain word, which the next write may end. */
  lemma NextWord(env: Env, done: seq<Token>, text: string, quoted: bool, w: string)
    requires Plain(w)
    ensures LexFrom(env, InWord(done, text, quoted), " " + w) == InWord(done + [Word(text, quoted)], w, false)
    ensures LexFrom(env, InWord(done, text, quoted), " " + w + " ") == Between(done + [Word(text, quoted)] + [Bare(w)])
  {
    var st := InWord(done, text, quoted);
    LexThen(env, st, " " + w, " ");
    LexThen(env, st, " ", w);
    assert LexFrom(env, st, " ") == Step(env, st, ' ');
    PlainWord(env, done + [Word(text, quoted)], w);
    EndWord(env, done + [Word(text, quoted)], w);
  }

  lemma FormatLexes(env: Env, done: seq<Token>, text: string)
    ensures LexFrom(env, InWord(done, text, false), " --log-level warn --log-format json") ==
            InWord(done + [Bare(text), Bare("--log-level"), Bare("warn"), Bare("--log-format")], "json", false)
  {
    PlainLevel();
    PlainFormat();
    var st := InWord(done, text, false);
    FormatSplits();
    LexThen(env, st, " --log-level warn", " --log-format json");
    LexThen(env, st, " " + "--log-level", " " + "warn");
    LexThen(env, InWord(done + [Bare(text)] + [Bare("--log-level")], "warn", false), " " + "--log-format",
            " " + "json");
    NextWord(env, done, text, false, "--log-level");
    NextWord(env, done + [Bare(text)], "--log-level", false, "warn");
    NextWord(env, done + [Bare(text)] + [Bare("--log-level")], "warn", false, "--log-format");
    NextWord(env, done + [Bare(text)] + [Bare("--log-level")] + [Bare("warn")], "--log-format", false, "json");
    assert done + [Bare(text)] + [Bare("--log-level")] + [Bare("warn")] + [Bare("--log-format")]
        == done + [Bare(text), Bare("--log-level"), Bare("warn"), Bare("--log-format")];
  }

  lemma Taken(g: seq<Token>, ws: seq<Token>, k: nat)
    requires k < |ws|
    ensures g + ws[..k] + [ws[k]] == g + ws[..k + 1]
  {
  }

  lemma GuardStarts(env: Env)
    ensures LexFrom(env, Between([]), "command -v ") == Between([Bare("command"), Bare("-v")])
  {
    PlainGuard();
    SpacedWord(env, "command");
    SpacedWord(env, "-v");
    Both(env, Spaced("command"), [Bare("command")], Spaced("-v"), [Bare("-v")]);
    assert "command -v " == Spaced("command") + Spaced("-v");
    assert [] + ([Bare("command")] + [Bare("-v")]) == [Bare("command"), Bare("-v")];
  }

  // The text up to each word, `ws` being the tokens of the last command. A text `s` with the
  // lexer in a known state after it is extended write by write.

  lemma TwoWrites(env: Env, s: string, a: string, b: string, st: Lexer, st1: Lexer, st2: Lexer)
    requires LexFrom(env, Between([]), s) == st && LexFrom(env, st, a) == st1 && LexFrom(env, st1, b) == st2
    ensures LexFrom(env, Between([]), s + a + b) == st2
  {
    LexThen(env, Between([]), s, a);
    LexThen(env, Between([]), s + a, b);
  }

  lemma GuardLexes(env: Env, command: string)
    requires NulFree(command)
    ensures LexFrom(env, Between([]), "command -v " + ShellQuote(command)
                    + " >/dev/null 2>&1 || { echo missing-command >&2; exit 127; }; ")
            == Between(GuardTokens(command))
  {
    var done := [Bare("command"), Bare("-v")];
    GuardStarts(env);
    QuotedLexes(env, Between(done), command);
    GuardRestLexes(env, done, command);
    assert done + [Word(command, true)] == [Bare("command"), Bare("-v"), Word(command, true)];
    TwoWrites(env, "command -v ", ShellQuote(command), " >/dev/null 2>&1 || { echo missing-command >&2; exit 127; }; ",
              Between(done), InWord(done, command, true), Between(GuardTokens(command)));
  }

  lemma ExecWrites()
    ensures "exec " == Spaced("exec") && " reverse-client" == " " + "reverse-client" && " -c " == " " + "-c" + " "
  {
  }

  lemma OptionWrites()
    ensures " --profile " == " " + "--profile" + " " && " --listen " == " " + "--listen" + " "
  {
  }

  /** The tokens of the last command. */
  ghost predicate IsExec(ws: seq<Token>, command: string, path: string, profile: string, listen: string) {
    && |ws| == 14
    && ws[0] == Bare("exec") && ws[1] == Word(command, true) && ws[2] == Bare("reverse-client") && ws[3] == Bare("-c")
    && ws[4] == Word(path, true) && ws[5] == Bare("--profile") && ws[6] == Word(profile, true)
    && ws[7] == Bare("--listen") && ws[8] == Word(listen, true)
    && ws[9] == Bare("--print-listen-addr") && ws[10] == Bare("--log-level") && ws[11] == Bare("warn")
    && ws[12] == Bare("--log-format") && ws[13] == Bare("json")
  }

  lemma ExecTokensAre(command: string, path: string, profile: string, listen: string)
    ensures IsExec(ExecTokens(command, path, profile, listen), command, path, profile, listen)
  {
  }

  lemma ExecSteps(env: Env, g: seq<Token>, ws: seq<Token>, command: string)
    requires |ws| > 4 && ws[0] == Bare("exec") && ws[1] == Word(command, true) && ws[2] == Bare("reverse-client")
             && ws[3] == Bare("-c")
    ensures LexFrom(env, Between(g), "exec ") == Between(g + ws[..1])
    ensures LexFrom(env, InWord(g + ws[..1], command, true), " reverse-client")
            == InWord(g + ws[..2], "reverse-client", false)
    ensures LexFrom(env, InWord(g + ws[..2], "reverse-client", false), " -c ") == Between(g + ws[..4])
  {
    PlainExec();
    PlainConfig();
    ExecWrites();
    SpacedWord(env, "exec");
    assert g + [ws[0]] == g + ws[..1];
    NextWord(env, g + ws[..1], command, true, "reverse-client");
    Taken(g, ws, 1);
    NextWord(env, g + ws[..2], "reverse-client", false, "-c");
    Taken(g, ws, 2);
    Taken(g, ws, 3);
  }

  lemma ExecLexes(env: Env, s: string, g: seq<Token>, ws: seq<Token>, command: string, configPath: string)
    requires NulFree(command) && NulFree(configPath) && LexFrom(env, Between([]), s) == Between(g)
    requires |ws| > 4 && ws[0] == Bare("exec") && ws[1] == Word(command, true) && ws[2] == Bare("reverse-client")
             && ws[3] == Bare("-c")
    ensures LexFrom(env, Between([]), s + "exec " + ShellQuote(command) + " reverse-client" + " -c "
                    + ShellPathExpr(configPath))
            == InWord(g + ws[..4], Expanded(env, configPath), true)
  {
    var from, q := Between([]), ShellQuote(command);
    ExecSteps(env, g, ws, command);
    QuotedLexes(env, Between(g + ws[..1]), command);
    PathExprLexes(env, g + ws[..4], configPath);
    LexThen(env, from, s, "exec ");
    LexThen(env, from, s + "exec ", q);
    LexThen(env, from, s + "exec " + q, " reverse-client");
    LexThen(env, from, s + "exec " + q + " reverse-client", " -c ");
    LexThen(env, from, s + "exec " + q + " reverse-client" + " -c ", ShellPathExpr(configPath));
  }

  lemma OptionSteps(env: Env, g: seq<Token>, ws: seq<Token>, path: string, profile: string)
    requires |ws| > 8 && ws[4] == Word(path, true) && ws[5] == Bare("--profile") && ws[6] == Word(profile, true)
             && ws[7] == Bare("--listen")
    ensures LexFrom(env, InWord(g + ws[..4], path, true), " --profile ") == Between(g + ws[..6])
    ensures LexFrom(env, InWord(g + ws[..6], profile, true), " --listen ") == Between(g + ws[..8])
  {
    PlainProfile();
    PlainListen();
    OptionWrites();
    NextWord(env, g + ws[..4], path, true, "--profile");
    Taken(g, ws, 4);
    Taken(g, ws, 5);
    NextWord(env, g + ws[..6], profile, true, "--listen");
    Taken(g, ws, 6);
    Taken(g, ws, 7);
  }

  lemma OptionsLex(env: Env, s: string, g: seq<Token>, ws: seq<Token>, path: string, profile: string, listen: string)
    requires NulFree(profile) && NulFree(listen) && |ws| > 8
             && LexFrom(env, Between([]), s) == InWord(g + ws[..4], path, true)
    requires ws[4] == Word(path, true) && ws[5] == Bare("--profile") && ws[6] == Word(profile, true)
             && ws[7] == Bare("--listen")
    ensures LexFrom(env, Between([]), s + " --profile " + ShellQuote(profile) + " --listen " + ShellQuote(listen))
            == InWord(g + ws[..8], listen, true)
  {
    var from, q := Between([]), ShellQuote(profile);
    OptionSteps(env, g, ws, path, profile);
    QuotedLexes(env, Between(g + ws[..6]), profile);
    QuotedLexes(env, Between(g + ws[..8]), listen);
    LexThen(env, from, s, " --profile ");
    LexThen(env, from, s + " --profile ", q);
    LexThen(env, from, s + " --profile " + q, " --listen ");
    LexThen(env, from, s + " --profile " + q + " --listen ", ShellQuote(listen));
  }

  lemma FlagSteps(env: Env, g: seq<Token>, ws: seq<Token>, listen: string)
    requires |ws| == 14 && ws[8] == Word(listen, true) && ws[9] == Bare("--print-listen-addr")
    requires ws[10] == Bare("--log-level") && ws[11] == Bare("warn") && ws[12] == Bare("--log-format")
    ensures LexFrom(env, InWord(g + ws[..8], listen, true), " --print-listen-addr")
            == InWord(g + ws[..9], "--print-listen-addr", false)
    ensures LexFrom(env, InWord(g + ws[..9], "--print-listen-addr", false), " --log-level warn --log-format json") ==
            InWord(g + ws[..13], "json", false)
  {
    PlainFlags();
    assert " --print-listen-addr" == " " + "--print-listen-addr";
    NextWord(env, g + ws[..8], listen, true, "--print-listen-addr");
    Taken(g, ws, 8);
    FormatLexes(env, g + ws[..9], "--print-listen-addr");
    Flags(g, ws);
  }

  lemma Flags(g: seq<Token>, ws: seq<Token>)
    requires |ws| == 14
    ensures g + ws[..9] + [ws[9], ws[10], ws[11], ws[12]] == g + ws[..13]
  {
  }

  /** The script from the end of the guard to the listen address. */
  lemma CommandLexes(env: Env, s: string, g: seq<Token>, command: string, configPath: string, profile: string,
                     listen: string, ws: seq<Token>)
    requires NulFree(command) && NulFree(configPath) && NulFree(profile) && NulFree(listen)
    requires LexFrom(env, Between([]), s) == Between(g)
             && IsExec(ws, command, Expanded(env, configPath), profile, listen)
    ensures LexFrom(env, Between([]),
                    s + "exec " + ShellQuote(command) + " reverse-client" + " -c " + ShellPathExpr(configPath)
                    + " --profile " + ShellQuote(profile) + " --listen " + ShellQuote(listen))
            == InWord(g + ws[..8], listen, true)
  {
    ExecLexes(env, s, g, ws, command, configPath);
    OptionsLex(env, s + "exec " + ShellQuote(command) + " reverse-client" + " -c " + ShellPathExpr(configPath),
               g, ws, Expanded(env, configPath), profile, listen);
  }

  lemma RestLexes(env: Env, s: string, g: seq<Token>, command: string, configPath: string, profile: string,
                  listen: string, ws: seq<Token>)
    requires NulFree(command) && NulFree(configPath) && NulFree(profile) && NulFree(listen)
    requires LexFrom(env, Between([]), s) == Between(g)
             && IsExec(ws, command, Expanded(env, configPath), profile, listen)
    ensures LexFrom(env, Between([]),
                    s + "exec " + ShellQuote(command) + " reverse-client" + " -c " + ShellPathExpr(configPath)
                    + " --profile " + ShellQuote(profile) + " --listen " + ShellQuote(listen)
                    + " --print-listen-addr" + " --log-level warn --log-format json")
            == InWord(g + ws[..13], "json", false)
  {
    CommandLexes(env, s, g, command, configPath, profile, listen, ws);
    FlagSteps(env, g, ws, listen);
    TwoWrites(env,
              s + "exec " + ShellQuote(command) + " reverse-client" + " -c " + ShellPathExpr(configPath)
              + " --profile " + ShellQuote(profile) + " --listen " + ShellQuote(listen),
              " --print-listen-addr", " --log-level warn --log-format json",
              InWord(g + ws[..8], listen, true), InWord(g + ws[..9], "--print-listen-addr", false),
                  InWord(g + ws[..13], "json", false));
  }

  lemma ScriptLexes(env: Env, command: string, configPath: string, profile: string, listen: string)
    requires NulFree(command) && NulFree(configPath) && NulFree(profile) && NulFree(listen)
    ensures Lex(env, Script(command, configPath, profile, listen)) ==
            Success(GuardTokens(command) + ExecTokens(command, Expanded(env, configPath), profile, listen))
    ensures NulFree(Script(command, configPath, profile, listen))
  {
    var g, ws := GuardTokens(command), ExecTokens(command, Expanded(env, configPath), profile, listen);
    ExecTokensAre(command, Expanded(env, configPath), profile, listen);
    GuardLexes(env, command);
    RestLexes(env, "command -v " + ShellQuote(command)
              + " >/dev/null 2>&1 || { echo missing-command >&2; exit 127; }; ",
              g, command, configPath, profile, listen, ws);
    LastToken(g, ws);
    SuccessIsNulFree(env, Script(command, configPath, profile, listen));
  }

  lemma LastToken(g: seq<Token>, ws: seq<Token>)
    requires |ws| == 14
    ensures g + ws[..13] + [ws[13]] == g + ws
  {
  }

  lemma SuccessIsNulFree(env: Env, s: string)
    requires Lex(env, s).Success?
    ensures NulFree(s)
  {
    if NUL in s { NulStops(env, Between([]), s); }
  }

  // ----------------------------------------------------------------- NUL bytes

  lemma {:induction false} EscapeNulFree(s: string)
    ensures NulFree(EscapeQuotes(s)) <==> NulFree(s)
    decreases |s|
  {
    if s != "" {
      EscapeNulFree(s[1..]);
      assert s == [s[0]] + s[1..];
    }
  }

  lemma PathNulFree(path: string)
    ensures NulFree(ShellPathExpr(path)) <==> NulFree(path)
  {
    if "~/" <= path || "$HOME/" <= path {
      var n := if "~/" <= path then 1 else 5;
      EscapeNulFree(path[n..]);
      assert path == path[..n] + path[n..];
    } else {
      EscapeNulFree(path);
    }
  }

  /** A NUL anywhere in the three strings is one in the script. */
  lemma NulShows(command: string, configPath: string, profile: string, listen: string)
    requires !NulFree(command) || !NulFree(configPath) || !NulFree(profile)
    ensures NUL in Script(command, configPath, profile, listen)
  {
    if !NulFree(command) {
      EscapeNulFree(command);
      assert NUL in "command -v " + ShellQuote(command);
    } else if !NulFree(configPath) {
      PathNulFree(configPath);
    } else {
      EscapeNulFree(profile);
    }
  }

  lemma {:induction false} LastWords(ts: seq<Token>, ws: seq<Token>)
    requires forall t <- ws :: t.Word?
    ensures LastArguments(ts + ws) == LastArguments(ts) + seq(|ws|, i requires 0 <= i < |ws| => ws[i].text)
    decreases |ws|
  {
    if ws == [] {
      assert ts + ws == ts;
    } else {
      var n := |ws| - 1;
      LastWords(ts, ws[..n]);
      assert (ts + ws)[..|ts| + n] == ts + ws[..n];
    }
  }

  lemma OuterLexes(env: Env, script: string)
    requires NulFree(script)
    ensures Lex(env, "sh -lc " + ShellQuote(script)) == Success([Bare("sh"), Bare("-lc"), Word(script, true)])
  {
    PlainShell();
    SpacedWord(env, "sh");
    SpacedWord(env, "-lc");
    Both(env, Spaced("sh"), [Bare("sh")], Spaced("-lc"), [Bare("-lc")]);
    assert "sh -lc " == Spaced("sh") + Spaced("-lc");
    LexThen(env, Between([]), "sh -lc ", ShellQuote(script));
    QuotedLexes(env, Between([Bare("sh"), Bare("-lc")]), script);
    assert [] + ([Bare("sh")] + [Bare("-lc")]) == [Bare("sh"), Bare("-lc")];
  }

  lemma NulLineFails(env: Env, command: string, configPath: string, profile: string, listen: string)
    requires !NulFree(command) || !NulFree(configPath) || !NulFree(profile)
    ensures Lex(env, "sh -lc " + ShellQuote(Script(command, configPath, profile, listen))) == Failure
  {
    var script := Script(command, configPath, profile, listen);
    NulShows(command, configPath, profile, listen);
    EscapeNulFree(script);
    assert NUL in ShellQuote(script);
    NulStops(env, Between([]), "sh -lc " + ShellQuote(script));
  }

  /** The arguments that the reverse client is started with. */
  function ClientArguments(command: string, configPath: string, profile: string, listen: string): seq<string> {
    ["exec", command, "reverse-client", "-c", configPath, "--profile", profile, "--listen", listen,
     "--print-listen-addr", "--log-level", "warn", "--log-format", "json"]
  }

  lemma ExecArguments(command: string, configPath: string, profile: string, listen: string)
    ensures LastArguments(GuardTokens(command) + ExecTokens(command, configPath, profile, listen))
            == ClientArguments(command, configPath, profile, listen)
  {
    var ws := ExecTokens(command, configPath, profile, listen);
    LastWords(GuardTokens(command), ws);
    assert LastArguments(GuardTokens(command)) == [];
    assert seq(|ws|, i requires 0 <= i < |ws| => ws[i].text) == ClientArguments(command, configPath, profile, listen);
  }

  lemma BothLex(outer: Env, inner: Env, command: string, configPath: string, profile: string, listen: string)
    requires NulFree(command) && NulFree(configPath) && NulFree(profile) && NulFree(listen)
    ensures var script, path := Script(command, configPath, profile, listen), Expanded(inner, configPath);
            var tokens := GuardTokens(command) + ExecTokens(command, path, profile, listen);
            && Lex(outer, "sh -lc " + ShellQuote(script)) == Success([Bare("sh"), Bare("-lc"), Word(script, true)])
            && Lex(inner, script) == Success(tokens)
            && LastArguments(tokens) == ClientArguments(command, path, profile, listen)
  {
    ScriptLexes(inner, command, configPath, profile, listen);
    OuterLexes(outer, Script(command, configPath, profile, listen));
    ExecArguments(command, Expanded(inner, configPath), profile, listen);
  }

  /** Where paths are taken to be relative to the home directory. */
  lemma HomePaths(env: Env, rest: string)
    requires "HOME" in env
    ensures Expanded(env, "~/" + rest) == env["HOME"] + "/" + rest
    ensures Expanded(env, "$HOME/" + rest) == env["HOME"] + "/" + rest
    ensures !("~/" <= rest) && !("$HOME/" <= rest) ==> Expanded(env, rest) == rest
  {
    assert ("~/" + rest)[1..] == "/" + rest && ("$HOME/" + rest)[5..] == "/" + rest;
    assert ("$HOME/" + rest)[0] == '$';
  }

  /** For all strings. Without a NUL, the outer command line is exactly `sh`, `-lc` and the
      script, whatever the outer environment; and in any environment of the login shell the
      script ends in a simple command whose arguments hold the command, the expanded path and
      the profile as single, unchanged words. With a NUL the line is no command line at all. */
  lemma ManagedCommandParses(outer: Env, inner: Env, command: string, configPath: string, profile: string)
    ensures var line := BuildManagedRemoteCommand(command, configPath, profile);
            var script := Script(command, configPath, profile, "127.0.0.1:0");
            if NulFree(command) && NulFree(configPath) && NulFree(profile) then
              var path := Expanded(inner, configPath);
              var tokens := GuardTokens(command) + ExecTokens(command, path, profile, "127.0.0.1:0");
              && Lex(outer, line) == Success([Bare("sh"), Bare("-lc"), Word(script, true)])
              && Lex(inner, script) == Success(tokens)
              && LastArguments(tokens) == ClientArguments(command, path, profile, "127.0.0.1:0")
            else Lex(outer, line) == Failure
  {
    if NulFree(command) && NulFree(configPath) && NulFree(profile) {
      BothLex(outer, inner, command, configPath, profile, "127.0.0.1:0");
    } else {
      NulLineFails(outer, command, configPath, profile, "127.0.0.1:0");
    }
  }
}
