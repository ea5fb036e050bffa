/**
 The shell's grammar as its parser reads it (user/sh.c): recursive descent over
 positions in the command line. The line is without its terminating NUL and
 panic is a result.
 */
module ShellModel {
  const MAXARGS := 10

  predicate IsSpace(c: char) { c == ' ' || c == '\t' || c == '\r' || c == '\n' || c == '\U{0B}' }
  predicate IsSymbol(c: char) { c == '<' || c == '|' || c == '>' || c == '&' || c == ';' || c == '(' || c == ')' }
  predicate IsWord(c: char) { !IsSpace(c) && !IsSymbol(c) }

  /** A token of the line: characters q..eq. */
  datatype Span = Span(q: nat, eq: nat)

  /** <, > and >>: the open mode and the descriptor redirected. */
  datatype Mode = In | Out | Append

  datatype Cmd =
    | Exec(argv: seq<Span>)
    | Redir(cmd: Cmd, file: Span, mode: Mode)
    | Pipe(left: Cmd, right: Cmd)
    | List(left: Cmd, right: Cmd)
    | Back(cmd: Cmd)

  datatype Redirection = Redirection(file: Span, mode: Mode)

  /** The arguments of panic. */
  datatype Error = MissingFile | MissingParen | Syntax | TooManyArgs | NoBlock

  datatype Result = Ok(cmd: Cmd, ps: nat) | Panic(msg: Error)
  datatype Redirs = Redirs(rs: seq<Redirection>, ps: nat) | Missing(msg: Error)

  /** kind is gettoken's return value: 0, 'a', '+' for >>, or the symbol. */
  datatype Token = Token(kind: char, q: nat, eq: nat, ps: nat)

  function SkipSpace(s: string, i: nat): (j: nat)
    requires i <= |s|
    ensures i <= j <= |s| && (j < |s| ==> !IsSpace(s[j]))
    decreases |s| - i
  {
    if i < |s| && IsSpace(s[i]) then SkipSpace(s, i + 1) else i
  }

  function SkipWord(s: string, i: nat): (j: nat)
    requires i <= |s|
    ensures i <= j <= |s| && (j < |s| ==> !IsWord(s[j])) && (i < |s| && IsWord(s[i]) ==> i < j)
    decreases |s| - i
  {
    if i < |s| && IsWord(s[i]) then SkipWord(s, i + 1) else i
  }

  predicate Peek(s: string, i: nat, toks: set<char>)
    requires i <= |s|
  {
    var j := SkipSpace(s, i);
    j < |s| && s[j] in toks
  }

  /** gettoken's switch: the kind of the token at q and where it ends. */
  function Scan(s: string, q: nat): (r: (char, nat))
    requires q <= |s| && (q < |s| ==> !IsSpace(s[q]))
    ensures q <= r.1 <= |s| && (q < |s| ==> q < r.1) && (r.0 == '\0' ==> q == |s| || s[q] == '\0')
  {
    if q == |s| then ('\0', q)
    else if s[q] == '>' then (if q + 1 < |s| && s[q + 1] == '>' then ('+', q + 2) else ('>', q + 1))
    else if IsSymbol(s[q]) then (s[q], q + 1)
    else ('a', SkipWord(s, q))
  }

  function GetToken(s: string, i: nat): (t: Token)
    requires i <= |s|
    ensures i <= t.q <= t.eq <= t.ps <= |s| && (t.q < |s| ==> i < t.ps)
  {
    var q := SkipSpace(s, i);
    var r := Scan(s, q);
    Token(r.0, q, r.1, SkipSpace(s, r.1))
  }

  function Wrap(cmd: Cmd, rs: seq<Redirection>): (c: Cmd)
    decreases |rs|
  {
    if rs == [] then cmd else Wrap(Redir(cmd, rs[0].file, rs[0].mode), rs[1..])
  }

  function ModeOf(kind: char): (m: Mode) { if kind == '<' then In else if kind == '>' then Out else Append }

  /** parseredirs, the redirections seen so far being rs. */
  function ParseRedirs(s: string, i: nat, rs: seq<Redirection>): (r: Redirs)
    requires i <= |s|
    ensures r.Redirs? ==> i <= r.ps <= |s|
    decreases |s| - i
  {
    if !Peek(s, i, {'<', '>'}) then Redirs(rs, SkipSpace(s, i))
    else
      var op := GetToken(s, i);
      var file := GetToken(s, op.ps);
      if file.kind != 'a' then Missing(MissingFile)
      else ParseRedirs(s, file.ps, rs + [Redirection(Span(file.q, file.eq), ModeOf(op.kind))])
  }

  /** The loop of parseexec. */
  function ParseArgs(s: string, i: nat, argv: seq<Span>, rs: seq<Redirection>): (r: Result)
    requires i <= |s|
    ensures r.Ok? ==> i <= r.ps <= |s|
    decreases |s| - i
  {
    if Peek(s, i, {'|', ')', '&', ';'}) then Ok(Wrap(Exec(argv), rs), SkipSpace(s, i))
    else
      var t := GetToken(s, i);
      if t.q == |s| then Ok(Wrap(Exec(argv), rs), t.ps)
      else if t.kind != 'a' then Panic(Syntax)
      else if |argv| + 1 >= MAXARGS then Panic(TooManyArgs)
      else
        match ParseRedirs(s, t.ps, rs)
        case Missing(msg) => Panic(msg)
        case Redirs(rs', j) => ParseArgs(s, j, argv + [Span(t.q, t.eq)], rs')
  }

  function ParseExec(s: string, i: nat): (r: Result)
    requires i <= |s|
    ensures r.Ok? ==> i <= r.ps <= |s|
    decreases |s| - i, 1
  {
    if Peek(s, i, {'('}) then ParseBlock(s, i)
    else
      match ParseRedirs(s, i, [])
      case Missing(msg) => Panic(msg)
      case Redirs(rs, j) => ParseArgs(s, j, [], rs)
  }

  function ParseBlock(s: string, i: nat): (r: Result)
    requires i <= |s|
    ensures r.Ok? ==> i <= r.ps <= |s|
    decreases |s| - i, 0
  {
    if !Peek(s, i, {'('}) then Panic(NoBlock)
    else
      match ParseLine(s, GetToken(s, i).ps)
      case Panic(msg) => Panic(msg)
      case Ok(cmd, j) =>
        if !Peek(s, j, {')'}) then Panic(MissingParen)
        else
          match ParseRedirs(s, GetToken(s, j).ps, [])
          case Missing(msg) => Panic(msg)
          case Redirs(rs, k) => Ok(Wrap(cmd, rs), k)
  }

  function ParsePipe(s: string, i: nat): (r: Result)
    requires i <= |s|
    ensures r.Ok? ==> i <= r.ps <= |s|
    decreases |s| - i, 2
  {
    match ParseExec(s, i)
    case Panic(msg) => Panic(msg)
    case Ok(cmd, j) =>
      if !Peek(s, j, {'|'}) then Ok(cmd, SkipSpace(s, j))
      else
        match ParsePipe(s, GetToken(s, j).ps)
        case Panic(msg) => Panic(msg)
        case Ok(right, k) => Ok(Pipe(cmd, right), k)
  }

  /** The loop of parseline over &. */
  function ParseBacks(s: string, i: nat, cmd: Cmd): (r: (Cmd, nat))
    requires i <= |s|
    ensures i <= r.1 <= |s|
    decreases |s| - i
  {
    if Peek(s, i, {'&'}) then ParseBacks(s, GetToken(s, i).ps, Back(cmd)) else (cmd, SkipSpace(s, i))
  }

  function ParseLine(s: string, i: nat): (r: Result)
    requires i <= |s|
    ensures r.Ok? ==> i <= r.ps <= |s|
    decreases |s| - i, 3
  {
    match ParsePipe(s, i)
    case Panic(msg) => Panic(msg)
    case Ok(cmd, j) =>
      var (cmd', k) := ParseBacks(s, j, cmd);
      if !Peek(s, k, {';'}) then Ok(cmd', SkipSpace(s, k))
      else
        match ParseLine(s, GetToken(s, k).ps)
        case Panic(msg) => Panic(msg)
        case Ok(right, e) => Ok(List(cmd', right), e)
  }

  function ParseCmd(s: string): (r: Result) {
    match ParseLine(s, 0)
    case Panic(msg) => Panic(msg)
    case Ok(cmd, j) => if SkipSpace(s, j) != |s| then Panic(Syntax) else Ok(cmd, |s|)
  }
}
