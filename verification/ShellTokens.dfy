/**
 Every word a command holds is a whole token of the line, so nulterminate
 (user/sh.c), which overwrites the character after each, leaves all of them
 readable as C strings.
 */
module ShellTokens {
  import opened ShellModel

  /** x is a maximal run of word characters of s. */
  ghost predicate WholeWord(s: string, x: Span) {
    && x.q < x.eq <= |s| && (x.eq < |s| ==> !IsWord(s[x.eq]))
    && forall k :: x.q <= k < x.eq ==> IsWord(s[k])
  }

  ghost predicate AllWords(s: string, xs: seq<Span>) {
    forall i :: 0 <= i < |xs| ==> WholeWord(s, xs[i])
  }

  ghost predicate AllFiles(s: string, rs: seq<Redirection>) {
    forall i :: 0 <= i < |rs| ==> WholeWord(s, rs[i].file)
  }

  /** Every argument and file name in cmd is a whole word. */
  ghost predicate Tokens(s: string, cmd: Cmd) {
    match cmd
    case Exec(argv) => AllWords(s, argv)
    case Redir(c, file, _) => Tokens(s, c) && WholeWord(s, file)
    case Pipe(l, r) => Tokens(s, l) && Tokens(s, r)
    case List(l, r) => Tokens(s, l) && Tokens(s, r)
    case Back(c) => Tokens(s, c)
  }

  ghost predicate TokensIn(s: string, r: Result) { r.Ok? ==> Tokens(s, r.cmd) }

  lemma {:induction false} SkipWordWhole(s: string, i: nat)
    requires i <= |s|
    ensures forall k :: i <= k < SkipWord(s, i) ==> IsWord(s[k])
    decreases |s| - i
  {
    if i < |s| && IsWord(s[i]) {
      SkipWordWhole(s, i + 1);
    }
  }

  lemma WordIsWhole(s: string, i: nat)
    requires i <= |s|
    ensures var t := GetToken(s, i); t.kind == 'a' ==> WholeWord(s, Span(t.q, t.eq))
  {
    SkipWordWhole(s, SkipSpace(s, i));
  }

  lemma {:induction false} WrapTokens(s: string, cmd: Cmd, rs: seq<Redirection>)
    requires Tokens(s, cmd) && AllFiles(s, rs)
    ensures Tokens(s, Wrap(cmd, rs))
    decreases |rs|
  {
    if rs != [] {
      assert WholeWord(s, rs[0].file);
      assert AllFiles(s, rs[1..]);
      WrapTokens(s, Redir(cmd, rs[0].file, rs[0].mode), rs[1..]);
    }
  }

  lemma {:induction false} RedirsTokens(s: string, i: nat, rs: seq<Redirection>)
    requires i <= |s| && AllFiles(s, rs)
    ensures var r := ParseRedirs(s, i, rs); r.Redirs? ==> AllFiles(s, r.rs)
    decreases |s| - i
  {
    if Peek(s, i, {'<', '>'}) {
      var op := GetToken(s, i);
      var file := GetToken(s, op.ps);
      if file.kind == 'a' {
        WordIsWhole(s, op.ps);
        var rs' := rs + [Redirection(Span(file.q, file.eq), ModeOf(op.kind))];
        assert AllFiles(s, rs');
        RedirsTokens(s, file.ps, rs');
      }
    }
  }

  lemma {:induction false} ArgsTokens(s: string, i: nat, argv: seq<Span>, rs: seq<Redirection>)
    requires i <= |s| && AllWords(s, argv) && AllFiles(s, rs)
    ensures TokensIn(s, ParseArgs(s, i, argv, rs))
    decreases |s| - i
  {
    var t := GetToken(s, i);
    WrapTokens(s, Exec(argv), rs);
    if !Peek(s, i, {'|', ')', '&', ';'}) && t.q != |s| && t.kind == 'a' && |argv| + 1 < MAXARGS {
      WordIsWhole(s, i);
      RedirsTokens(s, t.ps, rs);
      var r := ParseRedirs(s, t.ps, rs);
      if r.Redirs? {
        ArgsTokens(s, r.ps, argv + [Span(t.q, t.eq)], r.rs);
      }
    }
  }

  lemma {:induction false} ExecTokens(s: string, i: nat)
    requires i <= |s|
    ensures TokensIn(s, ParseExec(s, i))
    decreases |s| - i, 1
  {
    if Peek(s, i, {'('}) {
      BlockTokens(s, i);
    } else {
      RedirsTokens(s, i, []);
      var r := ParseRedirs(s, i, []);
      if r.Redirs? {
        ArgsTokens(s, r.ps, [], r.rs);
      }
    }
  }

  lemma {:induction false} BlockTokens(s: string, i: nat)
    requires i <= |s|
    ensures TokensIn(s, ParseBlock(s, i))
    decreases |s| - i, 0
  {
    if Peek(s, i, {'('}) {
      var t := GetToken(s, i);
      LineTokens(s, t.ps);
      var r := ParseLine(s, t.ps);
      if r.Ok? && Peek(s, r.ps, {')'}) {
        var k := GetToken(s, r.ps).ps;
        RedirsTokens(s, k, []);
        var rs := ParseRedirs(s, k, []);
        if rs.Redirs? {
          WrapTokens(s, r.cmd, rs.rs);
        }
      }
    }
  }

  lemma {:induction false} PipeTokens(s: string, i: nat)
    requires i <= |s|
    ensures TokensIn(s, ParsePipe(s, i))
    decreases |s| - i, 2
  {
    ExecTokens(s, i);
    var r := ParseExec(s, i);
    if r.Ok? && Peek(s, r.ps, {'|'}) {
      PipeTokens(s, GetToken(s, r.ps).ps);
    }
  }

  lemma {:induction false} BacksTokens(s: string, i: nat, cmd: Cmd)
    requires i <= |s| && Tokens(s, cmd)
    ensures Tokens(s, ParseBacks(s, i, cmd).0)
    decreases |s| - i
  {
    if Peek(s, i, {'&'}) {
      BacksTokens(s, GetToken(s, i).ps, Back(cmd));
    }
  }

  lemma {:induction false} LineTokens(s: string, i: nat)
    requires i <= |s|
    ensures TokensIn(s, ParseLine(s, i))
    decreases |s| - i, 3
  {
    PipeTokens(s, i);
    var r := ParsePipe(s, i);
    if r.Ok? {
      BacksTokens(s, r.ps, r.cmd);
      var k := ParseBacks(s, r.ps, r.cmd).1;
      if Peek(s, k, {';'}) {
        LineTokens(s, GetToken(s, k).ps);
      }
    }
  }

  // ----- nulterminate -----

  /** The places nulterminate writes to. */
  function Ends(cmd: Cmd): (r: set<nat>) {
    match cmd
    case Exec(argv) => set i | 0 <= i < |argv| :: argv[i].eq
    case Redir(c, file, _) => Ends(c) + {file.eq}
    case Pipe(l, r) => Ends(l) + Ends(r)
    case List(l, r) => Ends(l) + Ends(r)
    case Back(c) => Ends(c)
  }

  /** The words of a command. */
  function Spans(cmd: Cmd): (r: set<Span>) {
    match cmd
    case Exec(argv) => set i | 0 <= i < |argv| :: argv[i]
    case Redir(c, file, _) => Spans(c) + {file}
    case Pipe(l, r) => Spans(l) + Spans(r)
    case List(l, r) => Spans(l) + Spans(r)
    case Back(c) => Spans(c)
  }

  lemma {:induction false} EndsOfSpans(s: string, cmd: Cmd)
    requires Tokens(s, cmd)
    ensures forall x :: x in Spans(cmd) ==> WholeWord(s, x) && x.eq in Ends(cmd)
    ensures forall e :: e in Ends(cmd) ==> e <= |s| && (e < |s| ==> !IsWord(s[e]))
  {
    match cmd {
      case Exec(argv) => {}
      case Redir(c, file, _) => EndsOfSpans(s, c);
      case Pipe(l, r) => {
        EndsOfSpans(s, l);
        EndsOfSpans(s, r);
      }
      case List(l, r) => {
        EndsOfSpans(s, l);
        EndsOfSpans(s, r);
      }
      case Back(c) => EndsOfSpans(s, c);
    }
  }

  /** b holds the C string w at q. */
  ghost predicate CString(b: seq<char>, q: nat, w: string) {
    q + |w| < |b| && b[q..q + |w|] == w && b[q + |w|] == '\0' && '\0' !in w
  }

  /** buf is the line with its NUL after nulterminate(cmd). */
  ghost predicate Terminated(s: string, buf: seq<char>, cmd: Cmd) {
    && |buf| == |s| + 1
    && forall p :: 0 <= p <= |s| ==> buf[p] == if p in Ends(cmd) || p == |s| then '\0' else s[p]
  }

  /** After parsecmd every argument and file name is, as a C string, exactly the
      token that was read. */
  lemma StringsAreTokens(s: string, buf: seq<char>, cmd: Cmd, x: Span)
    requires '\0' !in s && ParseCmd(s).Ok? && cmd == ParseCmd(s).cmd && Terminated(s, buf, cmd) && x in Spans(cmd)
    ensures x.q < x.eq <= |s| && CString(buf, x.q, s[x.q..x.eq])
  {
    LineTokens(s, 0);
    EndsOfSpans(s, cmd);
    assert WholeWord(s, x);
    forall p | x.q <= p < x.eq
      ensures buf[p] == s[p]
    {
      assert IsWord(s[p]);
    }
    assert buf[x.q..x.eq] == s[x.q..x.eq];
  }
}
