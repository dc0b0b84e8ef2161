/** How a POSIX shell divides a command line into tokens (POSIX.1 Shell Command Language,
    sections 2.2.2, 2.2.3 and 2.3), expands `$NAME` inside double quotes and removes the
    quotes. Anything else the shell would interpret makes the lexer fail, so a result means
    that only these rules were used. */
module ShellWords {

  /** `quoted` says whether any part of the word was, which keeps it from being a reserved
      word. */
  datatype Token = Word(text: string, quoted: bool) | Operator(op: string) | IoNumber(digits: string)

  datatype Result = Success(tokens: seq<Token>) | Failure

  type Env = map<string, string>

  datatype Lexer =
    | Between(done: seq<Token>)
    | InOperator(done: seq<Token>, op: string)
    | InWord(done: seq<Token>, text: string, quoted: bool)
    | InSingle(done: seq<Token>, text: string)
    | InDouble(done: seq<Token>, text: string)
    | InName(done: seq<Token>, text: string, name: string)
    | Stopped

  const NUL: char := 0 as char

  predicate NulFree(s: string) {
    NUL !in s
  }

  predicate IsBlank(c: char) {
    c == ' ' || c == '\t'
  }

  predicate StartsOperator(c: char) {
    c == '&' || c == '|' || c == ';' || c == '<' || c == '>' || c == '(' || c == ')' || c == '\n'
  }

  predicate IsOperator(op: string) {
    match |op|
    case 1 => StartsOperator(op[0])
    case 2 => (op[0] == op[1] && StartsOperator(op[0]) && op[0] != '(' && op[0] != ')' && op[0] != '\n')
              || ((op[0] == '<' || op[0] == '>') && op[1] == '&')
              || (op[0] == '<' && op[1] == '>') || (op[0] == '>' && op[1] == '|')
    case 3 => op[0] == '<' && op[1] == '<' && op[2] == '-'
    case _ => false
  }

  /** Characters that start expansions or escapes which this lexer does not perform. */
  predicate IsSpecial(c: char) {
    c == '$' || c == '`' || c == '\\' || c == '*' || c == '?' || c == '[' || c == NUL
  }

  predicate IsNameChar(c: char) {
    'a' <= c <= 'z' || 'A' <= c <= 'Z' || c == '_'
  }

  predicate IsDigit(c: char) {
    '0' <= c <= '9'
  }

  function ValueOf(env: Env, name: string): string {
    if name in env then env[name] else ""
  }

  /** A character that continues a word outside quotes. */
  function WordStep(done: seq<Token>, text: string, quoted: bool, c: char): Lexer {
    if c == '\'' then InSingle(done, text)
    else if c == '"' then InDouble(done, text)
    else if IsSpecial(c) then Stopped
    else InWord(done, text + [c], quoted)
  }

  function BetweenStep(done: seq<Token>, c: char): Lexer {
    if IsBlank(c) then Between(done)
    else if StartsOperator(c) then InOperator(done, [c])
    else if c == '#' || c == '~' then Stopped
    else WordStep(done, "", false, c)
  }

  /** The token that an unquoted delimiter ends. */
  function Delimited(text: string, quoted: bool, c: char): Token {
    if !quoted && text != "" && (forall d <- text :: IsDigit(d)) && (c == '<' || c == '>') then IoNumber(text)
    else Word(text, quoted)
  }

  function DoubleStep(done: seq<Token>, text: string, c: char): Lexer {
    if c == '"' then InWord(done, text, true)
    else if c == '$' then InName(done, text, "")
    else if c == '`' || c == '\\' || c == NUL then Stopped
    else InDouble(done, text + [c])
  }

  function Step(env: Env, st: Lexer, c: char): Lexer {
    match st
    case Between(done) => BetweenStep(done, c)
    case InOperator(done, op) =>
      if IsOperator(op + [c]) then InOperator(done, op + [c]) else BetweenStep(done + [Operator(op)], c)
    case InWord(done, text, quoted) =>
      if IsBlank(c) then Between(done + [Word(text, quoted)])
      else if StartsOperator(c) then InOperator(done + [Delimited(text, quoted, c)], [c])
      else WordStep(done, text, quoted, c)
    case InSingle(done, text) =>
      if c == '\'' then InWord(done, text, true) else if c == NUL then Stopped else InSingle(done, text + [c])
    case InDouble(done, text) => DoubleStep(done, text, c)
    case InName(done, text, name) =>
      if IsNameChar(c) || (name != "" && IsDigit(c)) then InName(done, text, name + [c])
      else if name == "" then Stopped
      else DoubleStep(done, text + ValueOf(env, name), c)
    case Stopped => Stopped
  }

  function LexFrom(env: Env, st: Lexer, s: string): Lexer
    decreases |s|, st
  {
    if s == "" then st else LexFrom(env, Step(env, st, s[0]), s[1..])
  }

  function Finish(st: Lexer): Result {
    match st
    case Between(done) => Success(done)
    case InOperator(done, op) => Success(done + [Operator(op)])
    case InWord(done, text, quoted) => Success(done + [Word(text, quoted)])
    case _ => Failure
  }

  /** The tokens of a complete line. */
  function Lex(env: Env, line: string): Result {
    Finish(LexFrom(env, Between([]), line))
  }

  /** The words after the last operator: the arguments of the last simple command, when it
      has no redirections. */
  function LastArguments(tokens: seq<Token>): seq<string> {
    if tokens == [] || !tokens[|tokens| - 1].Word? then []
    else LastArguments(tokens[..|tokens| - 1]) + [tokens[|tokens| - 1].text]
  }

  // ------------------------------------------------------------------- lemmas

  lemma {:induction false} LexThen(env: Env, st: Lexer, a: string, b: string)
    ensures LexFrom(env, st, a + b) == LexFrom(env, LexFrom(env, st, a), b)
    decreases |a|
  {
    if a == "" {
      assert a + b == b;
    } else {
      assert (a + b)[0] == a[0] && (a + b)[1..] == a[1..] + b;
      LexThen(env, Step(env, st, a[0]), a[1..], b);
    }
  }

  lemma {:induction false} StaysStopped(env: Env, s: string)
    ensures LexFrom(env, Stopped, s) == Stopped
    decreases |s|
  {
    if s != "" { StaysStopped(env, s[1..]); }
  }

  /** No command line can hold a NUL. */
  lemma {:induction false} NulStops(env: Env, st: Lexer, s: string)
    requires NUL in s
    ensures LexFrom(env, st, s) == Stopped
    decreases |s|
  {
    if s[0] == NUL {
      assert st.InOperator? ==> !IsOperator(st.op + [NUL]);
      StaysStopped(env, s[1..]);
    } else {
      NulStops(env, Step(env, st, s[0]), s[1..]);
    }
  }

  predicate IsPlainChar(c: char) {
    !IsBlank(c) && !StartsOperator(c) && !IsSpecial(c) && c != '\'' && c != '"' && c != '#' && c != '~'
  }

  /** A word that needs no quoting. */
  predicate Plain(w: string) {
    w != "" && forall c <- w :: IsPlainChar(c)
  }

  lemma {:induction false} PlainContinues(env: Env, done: seq<Token>, text: string, w: string)
    requires forall c <- w :: IsPlainChar(c)
    ensures LexFrom(env, InWord(done, text, false), w) == InWord(done, text + w, false)
    decreases |w|
  {
    if w == "" {
      assert text + w == text;
    } else {
      assert IsPlainChar(w[0]);
      PlainContinues(env, done, text + [w[0]], w[1..]);
      assert text + w == text + [w[0]] + w[1..];
    }
  }

  lemma PlainWord(env: Env, done: seq<Token>, w: string)
    requires Plain(w)
    ensures LexFrom(env, Between(done), w) == InWord(done, w, false)
  {
    assert IsPlainChar(w[0]) && "" + [w[0]] == [w[0]];
    PlainContinues(env, done, [w[0]], w[1..]);
    assert [w[0]] + w[1..] == w;
  }

  /** Between words, the text reads as these tokens and ends between words again. */
  ghost predicate Lexes(env: Env, text: string, tokens: seq<Token>) {
    forall done: seq<Token> :: LexFrom(env, Between(done), text) == Between(done + tokens)
  }

  lemma Both(env: Env, a: string, ta: seq<Token>, b: string, tb: seq<Token>)
    requires Lexes(env, a, ta) && Lexes(env, b, tb)
    ensures Lexes(env, a + b, ta + tb)
  {
    forall done: seq<Token>
      ensures LexFrom(env, Between(done), a + b) == Between(done + (ta + tb))
    {
      LexThen(env, Between(done), a, b);
      assert done + ta + tb == done + (ta + tb);
    }
  }

  function Spaced(text: string): string {
    text + " "
  }

  function Terminated(text: string): string {
    text + "; "
  }

  lemma SpacedWord(env: Env, w: string)
    requires Plain(w)
    ensures Lexes(env, Spaced(w), [Word(w, false)])
  {
    forall done: seq<Token>
      ensures LexFrom(env, Between(done), Spaced(w)) == Between(done + [Word(w, false)])
    {
      LexThen(env, Between(done), w, " ");
      PlainWord(env, done, w);
      assert LexFrom(env, InWord(done, w, false), " ") == Step(env, InWord(done, w, false), ' ');
    }
  }
}
