/** The parser of user/sh.c reads every line of the shell's language as what it stands for. */
module ShellParses {
  import opened ShellModel
  import opened ShellGrammar

  /** What comes at e, after spaces, is the end of the line or one of toks. */
  ghost predicate Follows(s: string, e: nat, toks: set<char>) {
    e <= |s| && var j := SkipSpace(s, e); j == |s| || s[j] in toks
  }

  const ENDS := {'|', ')', '&', ';'}

  lemma FollowsEnd(s: string, e: nat, toks: set<char>)
    requires Follows(s, e, toks) && toks <= ENDS
    ensures e < |s| ==> !IsWord(s[e])
  {
    assert e < |s| && !IsSpace(s[e]) ==> SkipSpace(s, e) == e;
  }

  // ----- simple commands -----

  /** parseexec once parseredirs has returned r. */
  function After(s: string, r: Redirs, argv: seq<Span>): (res: Result)
    requires r.Redirs? ==> r.ps <= |s|
  {
    match r
    case Missing(msg) => Panic(msg)
    case Redirs(rs, j) => ParseArgs(s, j, argv, rs)
  }

  /** A piece from i to m, where no word goes on. */
  ghost predicate PieceAt(s: string, i: nat, p: Piece, m: nat) {
    GoodPiece(p) && Spelled(s, i, m, PieceText(p)) && (m < |s| ==> !IsWord(s[m]))
  }

  ghost predicate PiecesAt(s: string, i: nat, ps: seq<Piece>, e: nat) {
    GoodPieces(ps) && Spelled(s, i, e, PiecesText(ps)) && Follows(s, e, ENDS)
  }

  /** The pieces after the first start with a space or a symbol. */
  lemma RestStarts(s: string, m: nat, e: nat, rest: seq<Piece>)
    requires PiecesAt(s, m, rest, e) && (rest != [] && rest[0].Arg? ==> rest[0].sp != "")
    ensures m < |s| ==> !IsWord(s[m])
  {
    FollowsEnd(s, e, ENDS);
    if rest != [] {
      var w := PieceText(rest[0]);
      NoWordFirst(rest[0]);
      Split(s, m, m + |w|, e, w, PiecesText(rest[1..]));
      First(s, m, m + |w|, w);
    }
  }

  lemma NoWordFirst(p: Piece)
    requires GoodPiece(p) && (p.Arg? ==> p.sp != "")
    ensures PieceText(p) != "" && !IsWord(PieceText(p)[0])
  {
  }

  lemma FirstPiece(s: string, i: nat, e: nat, ps: seq<Piece>) returns (m: nat)
    requires ps != [] && PiecesAt(s, i, ps, e)
    ensures PieceAt(s, i, ps[0], m) && PiecesAt(s, m, ps[1..], e)
  {
    var w, rest := PieceText(ps[0]), ps[1..];
    m := i + |w|;
    Split(s, i, m, e, w, PiecesText(rest));
    assert GoodPieces(rest) by {
      forall k | 0 <= k < |rest|
        ensures GoodPiece(rest[k]) && (k > 0 && rest[k].Arg? ==> rest[k].sp != "")
      {
        assert rest[k] == ps[k + 1];
      }
    }
    assert rest != [] ==> rest[0] == ps[1];
    RestStarts(s, m, e, rest);
  }

  /** A redirection from i to m: operator from a to o, file from b. */
  ghost predicate RdAt(s: string, i: nat, p: Piece, a: nat, o: nat, b: nat, m: nat) {
    && p.Rd? && i <= a && Spelled(s, a, o, Op(p.mode)) && SkipSpace(s, i) == a && SkipSpace(s, o) == b
    && (o < |s| ==> s[o] != '>') && GoodWord(p.file) && Spelled(s, b, m, p.file) && (m < |s| ==> !IsWord(s[m]))
  }

  lemma RdSplit(s: string, i: nat, p: Piece, m: nat) returns (a: nat, o: nat, b: nat)
    requires p.Rd? && PieceAt(s, i, p, m)
    ensures RdAt(s, i, p, a, o, b, m)
  {
    var op, tail := Op(p.mode), p.gap + p.file;
    a := i + |p.sp|;
    o := a + |op|;
    Split(s, i, a, m, p.sp, op + tail);
    Split(s, a, o, m, op, tail);
    First(s, a, o, op);
    SkipSpaces(s, i, a, p.sp);
    SkipTwice(s, i);
    b := GapSplit(s, o, p.gap, p.file, m);
  }

  lemma GapSplit(s: string, o: nat, gap: string, file: string, m: nat) returns (b: nat)
    requires Spaces(gap) && GoodWord(file) && Spelled(s, o, m, gap + file) && (m < |s| ==> !IsWord(s[m]))
    ensures SkipSpace(s, o) == b && Spelled(s, b, m, file) && (o < |s| ==> s[o] != '>')
  {
    b := o + |gap|;
    Split(s, o, b, m, gap, file);
    SkipSpaces(s, o, b, gap);
    WordToken(s, b, m, file);
    if gap != "" {
      First(s, o, b, gap);
    }
  }

  lemma OpToken(s: string, i: nat, mode: Mode, a: nat, o: nat)
    requires i <= a && Spelled(s, a, o, Op(mode)) && SkipSpace(s, i) == a && (o < |s| ==> s[o] != '>')
    ensures Peek(s, i, {'<', '>'}) && GetToken(s, i).ps == SkipSpace(s, o) && ModeOf(GetToken(s, i).kind) == mode
  {
    First(s, a, o, Op(mode));
    if mode == Append {
      assert s[a..o][1] == s[a + 1];
    }
  }

  /** One round of parseredirs' loop. */
  lemma RdStep(s: string, i: nat, p: Piece, a: nat, o: nat, b: nat, m: nat, rs: seq<Redirection>)
    requires RdAt(s, i, p, a, o, b, m)
    ensures Spells(s, Span(b, m), p.file)
    ensures ParseRedirs(s, i, rs) == ParseRedirs(s, m, rs + [Redirection(Span(b, m), p.mode)])
  {
    OpToken(s, i, p.mode, a, o);
    WordToken(s, b, m, p.file);
    RedirsFirst(s, m, rs + [Redirection(Span(b, m), p.mode)]);
  }

  /** One round of parseexec's loop. */
  lemma ArgStep(s: string, i: nat, p: Piece, m: nat, argv: seq<Span>, rs: seq<Redirection>) returns (x: Span)
    requires p.Arg? && PieceAt(s, i, p, m) && |argv| + 1 < MAXARGS
    ensures Spells(s, x, p.word)
    ensures After(s, ParseRedirs(s, i, rs), argv) == After(s, ParseRedirs(s, m, rs), argv + [x])
  {
    var a := i + |p.sp|;
    Split(s, i, a, m, p.sp, p.word);
    SkipSpaces(s, i, a, p.sp);
    WordToken(s, a, m, p.word);
    x := Span(a, m);
    TokenFirst(s, i);
    assert ParseRedirs(s, i, rs) == Redirs(rs, a);
    RedirsFirst(s, m, rs);
  }

  lemma PiecesEnd(s: string, e: nat, argv: seq<Span>, rs: seq<Redirection>)
    requires Follows(s, e, ENDS)
    ensures After(s, ParseRedirs(s, e, rs), argv) == Ok(Wrap(Exec(argv), rs), SkipSpace(s, e))
  {
    TokenFirst(s, e);
    assert ParseRedirs(s, e, rs) == Redirs(rs, SkipSpace(s, e));
  }

  lemma Regroup<T>(a: seq<T>, x: T, b: seq<T>)
    ensures a + [x] + b == a + ([x] + b)
  {
  }

  /** parseexec, with argv and rs read, has read xs and fs more when it stops before e. */
  ghost predicate Reading(s: string, i: nat, e: nat, argv: seq<Span>, rs: seq<Redirection>, xs: seq<Span>,
                          fs: seq<Redirection>) {
    && i <= |s| && e <= |s|
    && After(s, ParseRedirs(s, i, rs), argv) == Ok(Wrap(Exec(argv + xs), rs + fs), SkipSpace(s, e))
  }

  lemma NothingFirst<T>(a: seq<T>)
    ensures [] + a == a
  {
  }

  lemma ReadingAll(s: string, i: nat, e: nat, xs: seq<Span>, fs: seq<Redirection>)
    requires Reading(s, i, e, [], [], xs, fs)
    ensures After(s, ParseRedirs(s, i, []), []) == Ok(Wrap(Exec(xs), fs), SkipSpace(s, e))
  {
    NothingFirst(xs);
    NothingFirst(fs);
  }

  lemma ConsArg(s: string, ps: seq<Piece>, x: Span, xs: seq<Span>)
    requires ps != [] && ps[0].Arg? && Spells(s, x, ps[0].word) && SpellsAll(s, xs, Args(ps[1..]))
    ensures SpellsAll(s, [x] + xs, Args(ps)) && Files(ps) == Files(ps[1..])
  {
    assert Args(ps) == [ps[0].word] + Args(ps[1..]);
  }

  lemma ConsFile(s: string, ps: seq<Piece>, f: Redirection, fs: seq<Redirection>)
    requires ps != [] && ps[0].Rd? && Spells(s, f.file, ps[0].file) && f.mode == ps[0].mode
    requires SpellsFiles(s, fs, Files(ps[1..]))
    ensures SpellsFiles(s, [f] + fs, Files(ps)) && Args(ps) == Args(ps[1..])
  {
    assert Files(ps) == [FileT(ps[0].file, ps[0].mode)] + Files(ps[1..]);
  }

  lemma ReadArg(s: string, i: nat, p: Piece, m: nat, e: nat, argv: seq<Span>, rs: seq<Redirection>, x: Span,
                xs: seq<Span>, fs: seq<Redirection>)
    requires i <= |s| && m <= |s| && Reading(s, m, e, argv + [x], rs, xs, fs)
    requires After(s, ParseRedirs(s, i, rs), argv) == After(s, ParseRedirs(s, m, rs), argv + [x])
    ensures Reading(s, i, e, argv, rs, [x] + xs, fs)
  {
    Regroup(argv, x, xs);
  }

  lemma ReadRd(s: string, i: nat, m: nat, e: nat, argv: seq<Span>, rs: seq<Redirection>, f: Redirection,
               xs: seq<Span>, fs: seq<Redirection>)
    requires i <= |s| && m <= |s| && Reading(s, m, e, argv, rs + [f], xs, fs)
    requires ParseRedirs(s, i, rs) == ParseRedirs(s, m, rs + [f])
    ensures Reading(s, i, e, argv, rs, xs, [f] + fs)
  {
    Regroup(rs, f, fs);
  }

  /** parseexec reads words and redirections, in any order, up to e. */
  lemma {:induction false} PiecesParse(s: string, i: nat, e: nat, ps: seq<Piece>, argv: seq<Span>, rs: seq<Redirection>)
    returns (xs: seq<Span>, fs: seq<Redirection>)
    requires PiecesAt(s, i, ps, e) && |argv| + |Args(ps)| < MAXARGS
    ensures SpellsAll(s, xs, Args(ps)) && SpellsFiles(s, fs, Files(ps)) && Reading(s, i, e, argv, rs, xs, fs)
    decreases |ps|
  {
    if ps == [] {
      xs, fs := [], [];
      PiecesEnd(s, e, argv, rs);
      assert argv + xs == argv && rs + fs == rs;
    } else {
      var m := FirstPiece(s, i, e, ps);
      if ps[0].Arg? {
        var x := ArgStep(s, i, ps[0], m, argv, rs);
        xs, fs := PiecesParse(s, m, e, ps[1..], argv + [x], rs);
        ReadArg(s, i, ps[0], m, e, argv, rs, x, xs, fs);
        ConsArg(s, ps, x, xs);
        xs := [x] + xs;
      } else {
        var a, o, b := RdSplit(s, i, ps[0], m);
        var f := Redirection(Span(b, m), ps[0].mode);
        RdStep(s, i, ps[0], a, o, b, m, rs);
        xs, fs := PiecesParse(s, m, e, ps[1..], argv, rs + [f]);
        ReadRd(s, i, m, e, argv, rs, f, xs, fs);
        ConsFile(s, ps, f, fs);
        fs := [f] + fs;
      }
    }
  }

  lemma RdsEnd(s: string, e: nat, rs: seq<Redirection>)
    requires Follows(s, e, ENDS)
    ensures ParseRedirs(s, e, rs) == Redirs(rs + [], SkipSpace(s, e))
  {
    assert rs + [] == rs;
  }

  /** parseredirs after a block. */
  lemma {:induction false} RdsParse(s: string, i: nat, e: nat, ps: seq<Piece>, rs: seq<Redirection>)
    returns (fs: seq<Redirection>)
    requires PiecesAt(s, i, ps, e) && NoArgs(ps)
    ensures SpellsFiles(s, fs, Files(ps)) && ParseRedirs(s, i, rs) == Redirs(rs + fs, SkipSpace(s, e))
    decreases |ps|
  {
    if ps == [] {
      fs := [];
      RdsEnd(s, e, rs);
    } else {
      var m := FirstPiece(s, i, e, ps);
      assert NoArgs(ps[1..]) && ps[0].Rd?;
      var a, o, b := RdSplit(s, i, ps[0], m);
      var f := Redirection(Span(b, m), ps[0].mode);
      RdStep(s, i, ps[0], a, o, b, m, rs);
      fs := RdsParse(s, m, e, ps[1..], rs + [f]);
      ConsFile(s, ps, f, fs);
      Regroup(rs, f, fs);
      fs := [f] + fs;
    }
  }

  /** A simple command does not look like a block. */
  lemma PiecesStart(s: string, i: nat, e: nat, ps: seq<Piece>)
    requires PiecesAt(s, i, ps, e)
    ensures !Peek(s, i, {'('})
  {
    if ps != [] {
      var m := FirstPiece(s, i, e, ps);
      PieceStart(s, i, ps[0], m);
    }
  }

  lemma PieceStart(s: string, i: nat, p: Piece, m: nat)
    requires PieceAt(s, i, p, m)
    ensures !Peek(s, i, {'('})
  {
    if p.Arg? {
      var a := i + |p.sp|;
      Split(s, i, a, m, p.sp, p.word);
      SkipSpaces(s, i, a, p.sp);
      WordToken(s, a, m, p.word);
    } else {
      var a, o, b := RdSplit(s, i, p, m);
      First(s, a, o, Op(p.mode));
    }
  }

  lemma SimpleParses(s: string, i: nat, e: nat, x: Syntax) returns (cmd: Cmd)
    requires x.Simple? && Good(x) && Spelled(s, i, e, Text(x)) && Follows(s, e, ENDS)
    ensures ParseExec(s, i) == Ok(cmd, SkipSpace(s, e)) && Reads(s, cmd, Meaning(x))
  {
    PiecesStart(s, i, e, x.ps);
    var xs, fs := PiecesParse(s, i, e, x.ps, [], []);
    ReadingAll(s, i, e, xs, fs);
    cmd := Wrap(Exec(xs), fs);
    WrapReads(s, Exec(xs), ExecT(Args(x.ps)), fs, Files(x.ps));
  }

  // ----- symbols between commands -----

  /** Spaces and symbol c from e, and m follows. */
  ghost predicate SymbolAt(s: string, e: nat, c: char, m: nat) {
    && e <= |s| && IsSymbol(c) && c != '>'
    && var j := SkipSpace(s, e); j < |s| && s[j] == c && m == j + 1
  }

  lemma SymbolSplit(s: string, e: nat, f: nat, sp: string, c: char, w: string) returns (m: nat)
    requires Spelled(s, e, f, sp + ([c] + w)) && Spaces(sp) && IsSymbol(c) && c != '>'
    ensures SymbolAt(s, e, c, m) && Spelled(s, m, f, w)
  {
    var j := e + |sp|;
    m := j + 1;
    Split(s, e, j, f, sp, [c] + w);
    Split(s, j, m, f, [c], w);
    SkipSpaces(s, e, j, sp);
    First(s, j, m, [c]);
  }

  lemma SymbolNext(s: string, e: nat, c: char, m: nat)
    requires SymbolAt(s, e, c, m)
    ensures Peek(s, e, {c}) && Peek(s, SkipSpace(s, e), {c}) && m <= |s|
    ensures GetToken(s, SkipSpace(s, e)).ps == SkipSpace(s, m)
  {
    TokenFirst(s, e);
    SymbolToken(s, SkipSpace(s, e));
  }

  lemma SymbolFollows(s: string, e: nat, c: char, m: nat, toks: set<char>)
    requires SymbolAt(s, e, c, m) && c in toks
    ensures Follows(s, e, toks)
  {
  }

  lemma NotThere(s: string, e: nat, toks: set<char>, c: char)
    requires Follows(s, e, toks) && c !in toks
    ensures !Peek(s, e, {c}) && !Peek(s, SkipSpace(s, e), {c})
  {
    TokenFirst(s, e);
  }

  // ----- the levels of the grammar -----

  lemma BlockSplit(s: string, i: nat, e: nat, x: Syntax) returns (a: nat, d: nat, g: nat)
    requires x.Block? && Good(x) && Spelled(s, i, e, Text(x))
    ensures SymbolAt(s, i, '(', a) && Spelled(s, a, d, Text(x.body)) && SymbolAt(s, d, ')', g)
    ensures Spelled(s, g, e, PiecesText(x.ps))
  {
    var tail := x.gap + (")" + PiecesText(x.ps));
    a := SymbolSplit(s, i, e, x.sp, '(', Text(x.body) + tail);
    d := a + |Text(x.body)|;
    Split(s, a, d, e, Text(x.body), tail);
    g := SymbolSplit(s, d, e, x.gap, ')', PiecesText(x.ps));
  }

  lemma BlockStep(s: string, i: nat, a: nat, body: Cmd, d: nat, g: nat, fs: seq<Redirection>, e: nat)
    requires SymbolAt(s, i, '(', a) && a <= d <= |s| && ParseLine(s, a) == Ok(body, SkipSpace(s, d))
    requires SymbolAt(s, d, ')', g) && e <= |s| && ParseRedirs(s, g, []) == Redirs(fs, SkipSpace(s, e))
    ensures ParseExec(s, i) == Ok(Wrap(body, fs), SkipSpace(s, e))
  {
    SymbolNext(s, i, '(', a);
    SymbolNext(s, d, ')', g);
    TokenFirst(s, i);
    LineFirst(s, a);
    RedirsFirst(s, g, []);
    assert ParseBlock(s, i) == Ok(Wrap(body, fs), SkipSpace(s, e));
  }

  lemma BlockReads(s: string, i: nat, e: nat, x: Syntax, a: nat, d: nat, g: nat, body: Cmd) returns (cmd: Cmd)
    requires x.Block? && GoodPieces(x.ps) && NoArgs(x.ps) && Spelled(s, g, e, PiecesText(x.ps)) && Follows(s, e, ENDS)
    requires SymbolAt(s, i, '(', a) && SymbolAt(s, d, ')', g) && a <= d
    requires ParseLine(s, a) == Ok(body, SkipSpace(s, d)) && Reads(s, body, Meaning(x.body))
    ensures ParseExec(s, i) == Ok(cmd, SkipSpace(s, e)) && Reads(s, cmd, Meaning(x))
  {
    var fs := RdsParse(s, g, e, x.ps, []);
    NothingFirst(fs);
    BlockStep(s, i, a, body, d, g, fs, e);
    cmd := Wrap(body, fs);
    WrapReads(s, body, Meaning(x.body), fs, Files(x.ps));
  }

  lemma {:induction false} ExecParses(s: string, i: nat, e: nat, x: Syntax) returns (cmd: Cmd)
    requires IsExec(x) && Good(x) && Spelled(s, i, e, Text(x)) && Follows(s, e, ENDS)
    ensures ParseExec(s, i) == Ok(cmd, SkipSpace(s, e)) && Reads(s, cmd, Meaning(x))
    decreases x, 0
  {
    if x.Simple? {
      cmd := SimpleParses(s, i, e, x);
    } else {
      var a, d, g := BlockSplit(s, i, e, x);
      SymbolFollows(s, d, ')', g, {')'});
      var body := LineParses(s, a, d, x.body);
      cmd := BlockReads(s, i, e, x, a, d, g, body);
    }
  }

  lemma PipeStep(s: string, i: nat, l: Cmd, m: nat, n: nat, r: Cmd, e: nat)
    requires i <= m && SymbolAt(s, m, '|', n) && ParseExec(s, i) == Ok(l, SkipSpace(s, m))
    requires e <= |s| && ParsePipe(s, n) == Ok(r, SkipSpace(s, e))
    ensures ParsePipe(s, i) == Ok(Pipe(l, r), SkipSpace(s, e))
  {
    SymbolNext(s, m, '|', n);
    LineFirst(s, n);
  }

  lemma {:induction false} PipeParses(s: string, i: nat, e: nat, x: Syntax) returns (cmd: Cmd)
    requires IsPipe(x) && Good(x) && Spelled(s, i, e, Text(x)) && Follows(s, e, {')', '&', ';'})
    ensures ParsePipe(s, i) == Ok(cmd, SkipSpace(s, e)) && Reads(s, cmd, Meaning(x))
    decreases x, 1
  {
    if IsExec(x) {
      cmd := ExecParses(s, i, e, x);
      NotThere(s, e, {')', '&', ';'}, '|');
      TokenFirst(s, e);
    } else {
      var m := i + |Text(x.left)|;
      Split(s, i, m, e, Text(x.left), x.sp + ("|" + Text(x.right)));
      var n := SymbolSplit(s, m, e, x.sp, '|', Text(x.right));
      SymbolFollows(s, m, '|', n, ENDS);
      var l := ExecParses(s, i, m, x.left);
      var r := PipeParses(s, n, e, x.right);
      PipeStep(s, i, l, m, n, r, e);
      cmd := Pipe(l, r);
    }
  }

  /** Up to here parseline has read cmd, and goes on with its loop over &. */
  ghost predicate Backing(s: string, i: nat, e: nat, cmd: Cmd) {
    && i <= |s| && e <= |s| && var r := ParsePipe(s, i);
       r.Ok? && ParseBacks(s, r.ps, r.cmd) == ParseBacks(s, SkipSpace(s, e), cmd)
  }

  lemma BackStep(s: string, i: nat, m: nat, sub: Cmd, e: nat)
    requires Backing(s, i, m, sub) && SymbolAt(s, m, '&', e)
    ensures Backing(s, i, e, Back(sub))
  {
    SymbolNext(s, m, '&', e);
  }

  lemma {:induction false} BackedParses(s: string, i: nat, e: nat, x: Syntax) returns (cmd: Cmd)
    requires IsBacked(x) && Good(x) && Spelled(s, i, e, Text(x)) && Follows(s, e, {')', '&', ';'})
    ensures Backing(s, i, e, cmd) && Reads(s, cmd, Meaning(x))
    decreases x, 2
  {
    if IsPipe(x) {
      cmd := PipeParses(s, i, e, x);
    } else {
      var m := i + |Text(x.cmd)|;
      Split(s, i, m, e, Text(x.cmd), x.sp + "&");
      assert x.sp + "&" == x.sp + ("&" + "");
      var n := SymbolSplit(s, m, e, x.sp, '&', "");
      SymbolFollows(s, m, '&', n, {')', '&', ';'});
      var sub := BackedParses(s, i, m, x.cmd);
      BackStep(s, i, m, sub, n);
      cmd := Back(sub);
    }
  }

  lemma LineEnd(s: string, i: nat, e: nat, cmd: Cmd)
    requires Backing(s, i, e, cmd) && Follows(s, e, {')'})
    ensures ParseLine(s, i) == Ok(cmd, SkipSpace(s, e))
  {
    NotThere(s, e, {')'}, '&');
    NotThere(s, e, {')'}, ';');
    TokenFirst(s, e);
  }

  lemma LineStep(s: string, i: nat, m: nat, l: Cmd, n: nat, r: Cmd, e: nat)
    requires Backing(s, i, m, l) && SymbolAt(s, m, ';', n)
    requires e <= |s| && ParseLine(s, n) == Ok(r, SkipSpace(s, e))
    ensures ParseLine(s, i) == Ok(List(l, r), SkipSpace(s, e))
  {
    SymbolNext(s, m, ';', n);
    TokenFirst(s, m);
    LineFirst(s, n);
  }

  lemma {:induction false} LineParses(s: string, i: nat, e: nat, x: Syntax) returns (cmd: Cmd)
    requires IsLine(x) && Good(x) && Spelled(s, i, e, Text(x)) && Follows(s, e, {')'})
    ensures ParseLine(s, i) == Ok(cmd, SkipSpace(s, e)) && Reads(s, cmd, Meaning(x))
    decreases x, 3
  {
    if IsBacked(x) {
      cmd := BackedParses(s, i, e, x);
      LineEnd(s, i, e, cmd);
    } else {
      var m := i + |Text(x.left)|;
      Split(s, i, m, e, Text(x.left), x.sp + (";" + Text(x.right)));
      var n := SymbolSplit(s, m, e, x.sp, ';', Text(x.right));
      SymbolFollows(s, m, ';', n, {')', '&', ';'});
      var l := BackedParses(s, i, m, x.left);
      var r := LineParses(s, n, e, x.right);
      LineStep(s, i, m, l, n, r, e);
      cmd := List(l, r);
    }
  }

  /** parsecmd reads every line of the language as what it stands for. */
  lemma TextParses(s: string, x: Syntax)
    requires IsText(s, x)
    ensures ParseCmd(s).Ok? && Reads(s, ParseCmd(s).cmd, Meaning(x))
  {
    var e := |Text(x)|;
    assert s[0..e] == s[..e] && s[e..|s|] == s[e..];
    SkipSpaces(s, e, |s|, s[e..]);
    var cmd := LineParses(s, 0, e, x);
  }
}
