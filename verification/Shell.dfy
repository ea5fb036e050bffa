/**
 The shell's parser as it runs (user/sh.c): a cursor moved along the line, and
 nulterminate writing into it.
 */
module Shell {
  import opened ShellModel
  import opened ShellTokens
  import opened ShellGrammar
  import ShellSound

  /** peek has moved the cursor over spaces: what is parsed next is the same. */
  lemma SameBlock(s: string, i: nat)
    requires i <= |s|
    ensures ParseBlock(s, SkipSpace(s, i)) == ParseBlock(s, i)
    ensures ParseRedirs(s, SkipSpace(s, i), []) == ParseRedirs(s, i, [])
  {
    TokenFirst(s, i);
  }

  class Parser {
    const s: string
    // *ps
    var ps: nat

    constructor (line: string)
      ensures s == line && ps == 0
    {
      s, ps := line, 0;
    }

    method Skip()
      requires ps <= |s|
      modifies this
      ensures ps == SkipSpace(s, old(ps))
    {
      while ps < |s| && IsSpace(s[ps])
        invariant ps <= |s| && SkipSpace(s, ps) == SkipSpace(s, old(ps))
      {
        ps := ps + 1;
      }
    }

    /** peek */
    method PeekAt(toks: set<char>) returns (hit: bool)
      requires ps <= |s|
      modifies this
      ensures ps == SkipSpace(s, old(ps)) && hit == Peek(s, old(ps), toks)
    {
      Skip();
      return ps < |s| && s[ps] in toks;
    }

    /** gettoken */
    method NextToken() returns (kind: char, q: nat, eq: nat)
      requires ps <= |s|
      modifies this
      ensures Token(kind, q, eq, ps) == GetToken(s, old(ps))
    {
      Skip();
      q := ps;
      kind := '\0';
      if ps < |s| {
        if s[ps] == '>' {
          kind, ps := '>', ps + 1;
          if ps < |s| && s[ps] == '>' {
            kind, ps := '+', ps + 1;
          }
        } else if IsSymbol(s[ps]) {
          kind, ps := s[ps], ps + 1;
        } else {
          kind := 'a';
          while ps < |s| && IsWord(s[ps])
            invariant q <= ps <= |s| && SkipWord(s, ps) == SkipWord(s, q)
          {
            ps := ps + 1;
          }
        }
      }
      eq := ps;
      Skip();
    }

    /** parseredirs; the commands it wraps around cmd are given as a list. */
    method TakeRedirs(rs0: seq<Redirection>) returns (rs: seq<Redirection>, ok: bool)
      requires ps <= |s|
      modifies this
      ensures ParseRedirs(s, old(ps), rs0) == if ok then Redirs(rs, ps) else Missing(MissingFile)
      ensures ok ==> old(ps) <= ps <= |s|
    {
      rs := rs0;
      while true
        invariant old(ps) <= ps <= |s| && ParseRedirs(s, old(ps), rs0) == ParseRedirs(s, ps, rs)
        decreases |s| - ps
      {
        TokenFirst(s, ps);
        var hit := PeekAt({'<', '>'});
        if !hit {
          return rs, true;
        }
        var tok, q, eq := NextToken();
        var kind;
        kind, q, eq := NextToken();
        if kind != 'a' {
          return rs, false;
        }
        rs := rs + [Redirection(Span(q, eq), ModeOf(tok))];
      }
    }

    /** The loop of parseexec. */
    method TakeArgs(rs0: seq<Redirection>) returns (r: Result)
      requires ps <= |s|
      modifies this
      ensures r == ParseArgs(s, old(ps), [], rs0) && (r.Ok? ==> r.ps == ps)
    {
      var argv, rs := [], rs0;
      while true
        invariant ps <= |s| && ParseArgs(s, old(ps), [], rs0) == ParseArgs(s, ps, argv, rs) && |argv| < MAXARGS
        decreases |s| - ps
      {
        TokenFirst(s, ps);
        var hit := PeekAt({'|', ')', '&', ';'});
        if hit {
          break;
        }
        var kind, q, eq := NextToken();
        if q == |s| {
          break;
        }
        if kind != 'a' {
          return Panic(Syntax);
        }
        argv := argv + [Span(q, eq)];
        if |argv| >= MAXARGS {
          return Panic(TooManyArgs);
        }
        var ok;
        rs, ok := TakeRedirs(rs);
        if !ok {
          return Panic(MissingFile);
        }
      }
      return Ok(Wrap(Exec(argv), rs), ps);
    }

    /** parseexec */
    method TakeExec() returns (r: Result)
      requires ps <= |s|
      modifies this
      ensures r == ParseExec(s, old(ps)) && (r.Ok? ==> r.ps == ps)
      decreases |s| - ps, 1
    {
      SameBlock(s, ps);
      var hit := PeekAt({'('});
      if hit {
        r := TakeBlock();
        return;
      }
      var rs, ok := TakeRedirs([]);
      if !ok {
        return Panic(MissingFile);
      }
      r := TakeArgs(rs);
    }

    /** parseblock */
    method TakeBlock() returns (r: Result)
      requires ps <= |s|
      modifies this
      ensures r == ParseBlock(s, old(ps)) && (r.Ok? ==> r.ps == ps)
      decreases |s| - ps, 0
    {
      TokenFirst(s, ps);
      var hit := PeekAt({'('});
      if !hit {
        return Panic(NoBlock);
      }
      var kind, q, eq := NextToken();
      r := TakeLine();
      if r.Panic? {
        return;
      }
      TokenFirst(s, ps);
      hit := PeekAt({')'});
      if !hit {
        return Panic(MissingParen);
      }
      kind, q, eq := NextToken();
      var rs, ok := TakeRedirs([]);
      return if ok then Ok(Wrap(r.cmd, rs), ps) else Panic(MissingFile);
    }

    /** parsepipe */
    method TakePipe() returns (r: Result)
      requires ps <= |s|
      modifies this
      ensures r == ParsePipe(s, old(ps)) && (r.Ok? ==> r.ps == ps)
      decreases |s| - ps, 2
    {
      r := TakeExec();
      if r.Panic? {
        return;
      }
      TokenFirst(s, ps);
      var hit := PeekAt({'|'});
      if !hit {
        return Ok(r.cmd, ps);
      }
      var kind, q, eq := NextToken();
      var right := TakePipe();
      return if right.Ok? then Ok(Pipe(r.cmd, right.cmd), ps) else right;
    }

    /** parseline */
    method TakeLine() returns (r: Result)
      requires ps <= |s|
      modifies this
      ensures r == ParseLine(s, old(ps)) && (r.Ok? ==> r.ps == ps)
      decreases |s| - ps, 3
    {
      r := TakePipe();
      if r.Panic? {
        return;
      }
      var cmd := TakeBacks(r.cmd);
      TokenFirst(s, ps);
      var hit := PeekAt({';'});
      if !hit {
        return Ok(cmd, ps);
      }
      var kind, q, eq := NextToken();
      var right := TakeLine();
      return if right.Ok? then Ok(List(cmd, right.cmd), ps) else right;
    }

    /** The loop of parseline over &. */
    method TakeBacks(cmd0: Cmd) returns (cmd: Cmd)
      requires ps <= |s|
      modifies this
      ensures old(ps) <= ps && (cmd, ps) == ParseBacks(s, old(ps), cmd0)
    {
      cmd := cmd0;
      while true
        invariant old(ps) <= ps <= |s| && ParseBacks(s, old(ps), cmd0) == ParseBacks(s, ps, cmd)
        decreases |s| - ps
      {
        TokenFirst(s, ps);
        var hit := PeekAt({'&'});
        if !hit {
          return;
        }
        var kind, q, eq := NextToken();
        cmd := Back(cmd);
      }
    }

    /** parsecmd, up to nulterminate. */
    method TakeCmd() returns (r: Result)
      requires ps == 0
      modifies this
      ensures r == ParseCmd(s)
    {
      r := TakeLine();
      if r.Panic? {
        return;
      }
      var hit := PeekAt({});
      return if ps != |s| then Panic(Syntax) else Ok(r.cmd, |s|);
    }
  }

  /** nulterminate: a 0 after every argument and file name, and nothing else. */
  method Nulterminate(cmd: Cmd, buf: array<char>)
    requires forall e :: e in Ends(cmd) ==> e < buf.Length
    modifies buf
    ensures forall p :: 0 <= p < buf.Length ==> buf[p] == if p in Ends(cmd) then '\0' else old(buf[p])
  {
    match cmd {
      case Exec(argv) => {
        for i := 0 to |argv|
          invariant forall p :: 0 <= p < buf.Length ==>
                      buf[p] == if exists j :: 0 <= j < i && argv[j].eq == p then '\0' else old(buf[p])
        {
          assert argv[i].eq in Ends(cmd);
          buf[argv[i].eq] := '\0';
        }
      }
      case Redir(c, file, _) => {
        assert Ends(c) <= Ends(cmd) && file.eq in Ends(cmd);
        Nulterminate(c, buf);
        buf[file.eq] := '\0';
      }
      case Pipe(l, r) => {
        assert Ends(l) <= Ends(cmd) && Ends(r) <= Ends(cmd);
        Nulterminate(l, buf);
        Nulterminate(r, buf);
      }
      case List(l, r) => {
        assert Ends(l) <= Ends(cmd) && Ends(r) <= Ends(cmd);
        Nulterminate(l, buf);
        Nulterminate(r, buf);
      }
      case Back(c) => {
        assert Ends(c) <= Ends(cmd);
        Nulterminate(c, buf);
      }
    }
  }

  /** parsecmd on a NUL-terminated buffer: the command the line stands for, with every
      word of it ready to be used as a C string; or a panic, exactly if the line is not
      one of the shell's language. */
  method Parsecmd(buf: array<char>) returns (r: Result)
    requires buf.Length > 0 && buf[buf.Length - 1] == '\0' && '\0' !in buf[..buf.Length - 1]
    modifies buf
    ensures var s := old(buf[..buf.Length - 1]);
            r == ParseCmd(s) && (r.Ok? ==> Terminated(s, buf[..], r.cmd))
    ensures var s := old(buf[..buf.Length - 1]);
            && (r.Ok? <==> exists x :: IsText(s, x))
            && forall x :: IsText(s, x) ==> r.Ok? && Reads(s, r.cmd, Meaning(x))
  {
    var s := buf[..buf.Length - 1];
    ShellSound.ParsesExactly(s);
    var parser := new Parser(s);
    r := parser.TakeCmd();
    if r.Panic? {
      return;
    }
    LineTokens(s, 0);
    EndsOfSpans(s, r.cmd);
    Nulterminate(r.cmd, buf);
  }
}
