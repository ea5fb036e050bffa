/** The parser of user/sh.c accepts nothing but the lines of the shell's language. */
module ShellSound {
  import opened ShellModel
  import opened ShellGrammar
  import opened ShellParses
  import opened ShellTokens

  // ----- tokens -----

  /** A word token: spaces from i to q, and a whole word from q to eq. */
  lemma WordRead(s: string, i: nat)
    requires i <= |s| && GetToken(s, i).kind == 'a'
    ensures var t := GetToken(s, i);
            && t.q == SkipSpace(s, i) && t.ps == SkipSpace(s, t.eq) && (t.eq < |s| ==> !IsWord(s[t.eq]))
            && Spelled(s, i, t.q, s[i..t.q]) && Spaces(s[i..t.q])
            && Spelled(s, t.q, t.eq, s[t.q..t.eq]) && GoodWord(s[t.q..t.eq])
            && Spells(s, Span(t.q, t.eq), s[t.q..t.eq])
            && IsWord(s[t.q])
  {
    var t := GetToken(s, i);
    SkippedAreSpaces(s, i);
    SkipWordWhole(s, t.q);
  }

  /** A redirection operator, after the spaces. */
  lemma OpRead(s: string, i: nat)
    requires i <= |s| && Peek(s, i, {'<', '>'})
    ensures var t := GetToken(s, i);
            && t.q == SkipSpace(s, i) && t.ps == SkipSpace(s, t.eq)
            && Spelled(s, i, t.q, s[i..t.q]) && Spaces(s[i..t.q])
            && Spelled(s, t.q, t.eq, Op(ModeOf(t.kind))) && i <= t.q < t.eq
  {
    SkippedAreSpaces(s, i);
  }

  /** A redirection, as the parser reads it, is one. */
  lemma RdRead(s: string, i: nat) returns (p: Piece, x: Redirection, m: nat)
    requires i <= |s| && Peek(s, i, {'<', '>'}) && GetToken(s, GetToken(s, i).ps).kind == 'a'
    ensures p.Rd? && GoodPiece(p) && Spelled(s, i, m, PieceText(p)) && i < m && (m < |s| ==> !IsWord(s[m]))
    ensures Spells(s, x.file, p.file) && x.mode == p.mode
    ensures forall rs :: ParseRedirs(s, i, rs) == ParseRedirs(s, m, rs + [x])
  {
    var op := GetToken(s, i);
    OpRead(s, i);
    TokenFirst(s, op.eq);
    var file := GetToken(s, op.eq);
    WordRead(s, op.eq);
    m := file.eq;
    var sp, o, gap, w := s[i..op.q], Op(ModeOf(op.kind)), s[op.eq..file.q], s[file.q..m];
    p := Rd(sp, ModeOf(op.kind), gap, w);
    x := Redirection(Span(file.q, m), ModeOf(op.kind));
    Join(s, op.eq, file.q, m, gap, w);
    Join(s, op.q, op.eq, m, o, gap + w);
    Join(s, i, op.q, m, sp, o + (gap + w));
    forall rs
      ensures ParseRedirs(s, i, rs) == ParseRedirs(s, m, rs + [x])
    {
      RedirsFirst(s, m, rs + [x]);
    }
  }

  lemma ArgRead(s: string, i: nat) returns (p: Piece, x: Span, m: nat)
    requires i <= |s| && GetToken(s, i).kind == 'a'
    ensures var t := GetToken(s, i); x == Span(t.q, t.eq) && m == t.eq && t.ps == SkipSpace(s, m) && t.q < |s|
    ensures p.Arg? && GoodPiece(p) && Spelled(s, i, m, PieceText(p)) && i < m <= |s| && (m < |s| ==> !IsWord(s[m]))
    ensures Spells(s, x, p.word) && (i < |s| && !IsWord(s[i]) ==> p.sp != "")
  {
    var t := GetToken(s, i);
    WordRead(s, i);
    m := t.eq;
    var sp, w := s[i..t.q], s[t.q..m];
    p := Arg(sp, w);
    x := Span(t.q, m);
    Join(s, i, t.q, m, sp, w);
  }

  // ----- simple commands -----

  /** ps is what stands from i to e, and reads as xs and fs. */
  ghost predicate Stands(s: string, i: nat, e: nat, ps: seq<Piece>, xs: seq<Span>, fs: seq<Redirection>) {
    && GoodPieces(ps) && Spelled(s, i, e, PiecesText(ps)) && SpellsAll(s, xs, Args(ps)) && SpellsFiles(s, fs, Files(ps))
    && (ps != [] && ps[0].Arg? && i < |s| && !IsWord(s[i]) ==> ps[0].sp != "")
  }

  lemma StandsNone(s: string, i: nat)
    requires i <= |s|
    ensures Stands(s, i, i, [], [], [])
  {
  }

  lemma GoodCons(p: Piece, ps: seq<Piece>)
    requires GoodPiece(p) && GoodPieces(ps) && (ps != [] && ps[0].Arg? ==> ps[0].sp != "")
    ensures GoodPieces([p] + ps)
  {
    var all := [p] + ps;
    forall k | 0 <= k < |all|
      ensures GoodPiece(all[k]) && (k > 0 && all[k].Arg? ==> all[k].sp != "")
    {
      if k > 0 {
        assert all[k] == ps[k - 1];
      }
    }
  }

  lemma TextCons(s: string, i: nat, m: nat, e: nat, p: Piece, ps: seq<Piece>)
    requires Spelled(s, i, m, PieceText(p)) && Spelled(s, m, e, PiecesText(ps))
    ensures Spelled(s, i, e, PiecesText([p] + ps)) && ([p] + ps)[1..] == ps && ([p] + ps)[0] == p
  {
    Join(s, i, m, e, PieceText(p), PiecesText(ps));
    assert ([p] + ps)[1..] == ps;
  }

  lemma StandsArg(s: string, i: nat, m: nat, e: nat, p: Piece, x: Span, ps: seq<Piece>, xs: seq<Span>,
                  fs: seq<Redirection>)
    requires p.Arg? && GoodPiece(p) && Spelled(s, i, m, PieceText(p)) && (m < |s| ==> !IsWord(s[m]))
    requires Spells(s, x, p.word) && (i < |s| && !IsWord(s[i]) ==> p.sp != "") && Stands(s, m, e, ps, xs, fs)
    ensures Stands(s, i, e, [p] + ps, [x] + xs, fs)
  {
    NotAtEnd(s, m, e, ps, xs, fs);
    GoodCons(p, ps);
    TextCons(s, i, m, e, p, ps);
    ConsArg(s, [p] + ps, x, xs);
  }

  lemma StandsRd(s: string, i: nat, m: nat, e: nat, p: Piece, x: Redirection, ps: seq<Piece>, xs: seq<Span>,
                 fs: seq<Redirection>)
    requires p.Rd? && GoodPiece(p) && Spelled(s, i, m, PieceText(p)) && (m < |s| ==> !IsWord(s[m]))
    requires Spells(s, x.file, p.file) && x.mode == p.mode && Stands(s, m, e, ps, xs, fs)
    ensures Stands(s, i, e, [p] + ps, xs, [x] + fs)
  {
    NotAtEnd(s, m, e, ps, xs, fs);
    GoodCons(p, ps);
    TextCons(s, i, m, e, p, ps);
    ConsFile(s, [p] + ps, x, fs);
  }

  /** A piece takes at least one character. */
  lemma NotAtEnd(s: string, m: nat, e: nat, ps: seq<Piece>, xs: seq<Span>, fs: seq<Redirection>)
    requires Stands(s, m, e, ps, xs, fs)
    ensures ps != [] ==> m < |s|
  {
    if ps != [] {
      var w := PieceText(ps[0]);
      assert GoodPiece(ps[0]) && w != "";
      Split(s, m, m + |w|, e, w, PiecesText(ps[1..]));
      First(s, m, m + |w|, w);
    }
  }

  /** What parseexec reads from i on, argv and rs being read, is words and redirections. */
  lemma {:induction false} PiecesSound(s: string, i: nat, argv: seq<Span>, rs: seq<Redirection>)
    returns (ps: seq<Piece>, xs: seq<Span>, fs: seq<Redirection>, e: nat)
    requires i <= |s| && |argv| < MAXARGS && After(s, ParseRedirs(s, i, rs), argv).Ok?
    ensures i <= e <= |s| && Stands(s, i, e, ps, xs, fs) && |argv| + |Args(ps)| < MAXARGS
    ensures Reading(s, i, e, argv, rs, xs, fs)
    decreases |s| - i
  {
    if Peek(s, i, {'<', '>'}) {
      var p, x, m := RdRead(s, i);
      ps, xs, fs, e := PiecesSound(s, m, argv, rs + [x]);
      StandsRd(s, i, m, e, p, x, ps, xs, fs);
      ReadRd(s, i, m, e, argv, rs, x, xs, fs);
      ConsFile(s, [p] + ps, x, fs);
      ps, fs := [p] + ps, [x] + fs;
    } else {
      ps, xs, fs, e := WordsSound(s, i, argv, rs);
    }
  }

  lemma {:induction false} WordsSound(s: string, i: nat, argv: seq<Span>, rs: seq<Redirection>)
    returns (ps: seq<Piece>, xs: seq<Span>, fs: seq<Redirection>, e: nat)
    requires i <= |s| && |argv| < MAXARGS && !Peek(s, i, {'<', '>'}) && After(s, ParseRedirs(s, i, rs), argv).Ok?
    ensures i <= e <= |s| && Stands(s, i, e, ps, xs, fs) && |argv| + |Args(ps)| < MAXARGS
    ensures Reading(s, i, e, argv, rs, xs, fs)
    decreases |s| - i, 0
  {
    ArgsFirst(s, i, argv, rs);
    var t := GetToken(s, i);
    if Peek(s, i, ENDS) || t.q == |s| {
      ps, xs, fs, e := [], [], [], i;
      TokenFirst(s, i);
      assert argv + xs == argv && rs + fs == rs;
    } else {
      var p, x, m := ArgRead(s, i);
      RedirsFirst(s, m, rs);
      assert After(s, ParseRedirs(s, i, rs), argv) == After(s, ParseRedirs(s, m, rs), argv + [x]);
      ps, xs, fs, e := PiecesSound(s, m, argv + [x], rs);
      StandsArg(s, i, m, e, p, x, ps, xs, fs);
      ReadArg(s, i, p, m, e, argv, rs, x, xs, fs);
      ConsArg(s, [p] + ps, x, xs);
      ps, xs := [p] + ps, [x] + xs;
    }
  }

  lemma {:induction false} RdsSound(s: string, i: nat, rs: seq<Redirection>)
    returns (ps: seq<Piece>, fs: seq<Redirection>, e: nat)
    requires i <= |s| && ParseRedirs(s, i, rs).Redirs?
    ensures i <= e <= |s| && Stands(s, i, e, ps, [], fs) && NoArgs(ps)
    ensures ParseRedirs(s, i, rs) == Redirs(rs + fs, SkipSpace(s, e))
    decreases |s| - i
  {
    if Peek(s, i, {'<', '>'}) {
      var p, x, m := RdRead(s, i);
      ps, fs, e := RdsSound(s, m, rs + [x]);
      StandsRd(s, i, m, e, p, x, ps, [], fs);
      Regroup(rs, x, fs);
      ps, fs := [p] + ps, [x] + fs;
    } else {
      ps, fs, e := [], [], i;
      assert rs + fs == rs;
    }
  }

  // ----- the levels of the grammar -----

  /** x is what stands from i to e, and cmd is what it means. */
  ghost predicate Holds(s: string, i: nat, e: nat, x: Syntax, cmd: Cmd) {
    i <= e <= |s| && Good(x) && Spelled(s, i, e, Text(x)) && Reads(s, cmd, Meaning(x))
  }

  lemma SimpleSound(s: string, i: nat) returns (x: Syntax, e: nat)
    requires i <= |s| && !Peek(s, i, {'('}) && ParseExec(s, i).Ok?
    ensures x.Simple? && Holds(s, i, e, x, ParseExec(s, i).cmd) && ParseExec(s, i).ps == SkipSpace(s, e)
  {
    var ps, xs, fs;
    ps, xs, fs, e := PiecesSound(s, i, [], []);
    x := Simple(ps);
    ReadingAll(s, i, e, xs, fs);
    WrapReads(s, Exec(xs), ExecT(Args(ps)), fs, Files(ps));
  }

  /** The symbol that peek has found. */
  lemma SymbolRead(s: string, e: nat, c: char) returns (sp: string, m: nat)
    requires e <= |s| && Peek(s, e, {c}) && IsSymbol(c) && c != '>'
    ensures Spaces(sp) && SymbolAt(s, e, c, m) && Spelled(s, e, m, sp + [c]) && e < m <= |s|
  {
    SkippedAreSpaces(s, e);
    var j := SkipSpace(s, e);
    sp, m := s[e..j], j + 1;
    assert s[j..m] == [c];
    Join(s, e, j, m, sp, [c]);
  }

  lemma JoinThree(s: string, i: nat, m: nat, n: nat, e: nat, a: string, sp: string, c: char, b: string)
    requires Spelled(s, i, m, a) && Spelled(s, m, n, sp + [c]) && Spelled(s, n, e, b)
    ensures Spelled(s, i, e, a + (sp + ([c] + b))) && Spelled(s, m, e, sp + ([c] + b))
  {
    Join(s, m, n, e, sp + [c], b);
    assert sp + [c] + b == sp + ([c] + b);
    Join(s, i, m, e, a, sp + ([c] + b));
  }

  lemma {:induction false} ExecSound(s: string, i: nat) returns (x: Syntax, e: nat)
    requires i <= |s| && ParseExec(s, i).Ok?
    ensures IsExec(x) && Holds(s, i, e, x, ParseExec(s, i).cmd) && ParseExec(s, i).ps == SkipSpace(s, e)
    decreases |s| - i, 0
  {
    if Peek(s, i, {'('}) {
      var sp, a := SymbolRead(s, i, '(');
      SymbolNext(s, i, '(', a);
      TokenFirst(s, i);
      LineFirst(s, a);
      var body, d := LineSound(s, a);
      x, e := BlockSound(s, i, sp, a, body, d);
    } else {
      x, e := SimpleSound(s, i);
    }
  }

  lemma BlockSound(s: string, i: nat, sp: string, a: nat, body: Syntax, d: nat) returns (x: Syntax, e: nat)
    requires i <= |s| && ParseExec(s, i).Ok? && Spaces(sp) && SymbolAt(s, i, '(', a) && Spelled(s, i, a, sp + "(")
    requires ParseLine(s, a).Ok? && IsLine(body) && Holds(s, a, d, body, ParseLine(s, a).cmd)
    requires ParseLine(s, a).ps == SkipSpace(s, d)
    ensures IsExec(x) && Holds(s, i, e, x, ParseExec(s, i).cmd) && ParseExec(s, i).ps == SkipSpace(s, e)
  {
    SymbolNext(s, i, '(', a);
    TokenFirst(s, i);
    LineFirst(s, a);
    TokenFirst(s, d);
    var gap, g := SymbolRead(s, d, ')');
    SymbolNext(s, d, ')', g);
    RedirsFirst(s, g, []);
    var ps, fs;
    ps, fs, e := RdsSound(s, g, []);
    x := Block(sp, body, gap, ps);
    NothingFirst(fs);
    BlockStep(s, i, a, ParseLine(s, a).cmd, d, g, fs, e);
    WrapReads(s, ParseLine(s, a).cmd, Meaning(body), fs, Files(ps));
    JoinThree(s, a, d, g, e, Text(body), gap, ')', PiecesText(ps));
    JoinThree(s, i, i, a, e, "", sp, '(', Text(body) + (gap + (")" + PiecesText(ps))));
  }

  lemma HoldsPipe(s: string, i: nat, m: nat, n: nat, e: nat, l: Syntax, lc: Cmd, sp: string, r: Syntax, rc: Cmd)
    requires Holds(s, i, m, l, lc) && Spaces(sp) && Spelled(s, m, n, sp + "|") && Holds(s, n, e, r, rc)
    ensures Holds(s, i, e, PipeS(l, sp, r), Pipe(lc, rc))
  {
    JoinThree(s, i, m, n, e, Text(l), sp, '|', Text(r));
  }

  lemma HoldsList(s: string, i: nat, m: nat, n: nat, e: nat, l: Syntax, lc: Cmd, sp: string, r: Syntax, rc: Cmd)
    requires Holds(s, i, m, l, lc) && Spaces(sp) && Spelled(s, m, n, sp + ";") && Holds(s, n, e, r, rc)
    ensures Holds(s, i, e, ListS(l, sp, r), List(lc, rc))
  {
    JoinThree(s, i, m, n, e, Text(l), sp, ';', Text(r));
  }

  lemma HoldsBack(s: string, i: nat, m: nat, n: nat, x: Syntax, cmd: Cmd, sp: string)
    requires Holds(s, i, m, x, cmd) && Spaces(sp) && Spelled(s, m, n, sp + "&")
    ensures Holds(s, i, n, BackS(x, sp), Back(cmd))
  {
    Join(s, i, m, n, Text(x), sp + "&");
  }

  lemma PipeOnly(s: string, i: nat, m: nat, lc: Cmd)
    requires i <= |s| && m <= |s| && ParseExec(s, i) == Ok(lc, SkipSpace(s, m)) && !Peek(s, m, {'|'})
    ensures ParsePipe(s, i) == Ok(lc, SkipSpace(s, m))
  {
    TokenFirst(s, m);
  }

  lemma PipeMore(s: string, i: nat, m: nat, lc: Cmd, n: nat)
    requires SymbolAt(s, m, '|', n) && i <= |s| && ParseExec(s, i) == Ok(lc, SkipSpace(s, m)) && ParsePipe(s, i).Ok?
    ensures n <= |s| && ParsePipe(s, n).Ok? && ParsePipe(s, i) == Ok(Pipe(lc, ParsePipe(s, n).cmd), ParsePipe(s, n).ps)
  {
    SymbolNext(s, m, '|', n);
    LineFirst(s, n);
  }

  lemma {:induction false} PipeSound(s: string, i: nat) returns (x: Syntax, e: nat)
    requires i <= |s| && ParsePipe(s, i).Ok?
    ensures IsPipe(x) && Holds(s, i, e, x, ParsePipe(s, i).cmd) && ParsePipe(s, i).ps == SkipSpace(s, e)
    decreases |s| - i, 1
  {
    var l, m := ExecSound(s, i);
    var lc := ParseExec(s, i).cmd;
    if Peek(s, m, {'|'}) {
      var sp, n := SymbolRead(s, m, '|');
      PipeMore(s, i, m, lc, n);
      var r;
      r, e := PipeSound(s, n);
      x := PipeS(l, sp, r);
      HoldsPipe(s, i, m, n, e, l, lc, sp, r, ParsePipe(s, n).cmd);
    } else {
      x, e := l, m;
      PipeOnly(s, i, m, lc);
    }
  }

  lemma BacksMore(s: string, m: nat, cmd: Cmd, n: nat)
    requires SymbolAt(s, m, '&', n)
    ensures n <= |s| && ParseBacks(s, m, cmd) == ParseBacks(s, n, Back(cmd))
  {
    SymbolNext(s, m, '&', n);
    TokenFirst(s, m);
    BacksFirst(s, n, Back(cmd));
  }

  /** From where cmd, which x stands for, is read, the loop over & goes on. */
  lemma {:induction false} BacksSound(s: string, i: nat, m: nat, x: Syntax, cmd: Cmd) returns (y: Syntax, e: nat)
    requires IsBacked(x) && Holds(s, i, m, x, cmd)
    ensures m <= e && IsBacked(y) && Holds(s, i, e, y, ParseBacks(s, m, cmd).0)
    ensures ParseBacks(s, m, cmd).1 == SkipSpace(s, e)
    decreases |s| - m
  {
    if Peek(s, m, {'&'}) {
      var sp, n := SymbolRead(s, m, '&');
      BacksMore(s, m, cmd, n);
      HoldsBack(s, i, m, n, x, cmd, sp);
      y, e := BacksSound(s, i, n, BackS(x, sp), Back(cmd));
    } else {
      y, e := x, m;
    }
  }

  /** parseline up to where it looks for ; */
  ghost predicate Backed(s: string, i: nat, m: nat, cmd: Cmd) {
    && i <= |s| && m <= |s| && var r := ParsePipe(s, i);
       r.Ok? && ParseBacks(s, r.ps, r.cmd) == (cmd, SkipSpace(s, m))
  }

  lemma LineOnly(s: string, i: nat, m: nat, lc: Cmd)
    requires Backed(s, i, m, lc) && !Peek(s, m, {';'})
    ensures ParseLine(s, i) == Ok(lc, SkipSpace(s, m))
  {
    TokenFirst(s, m);
  }

  lemma LineMore(s: string, i: nat, m: nat, lc: Cmd, n: nat)
    requires Backed(s, i, m, lc) && SymbolAt(s, m, ';', n) && ParseLine(s, i).Ok?
    ensures n <= |s| && ParseLine(s, n).Ok? && ParseLine(s, i) == Ok(List(lc, ParseLine(s, n).cmd), ParseLine(s, n).ps)
  {
    SymbolNext(s, m, ';', n);
    LineFirst(s, n);
  }

  lemma {:induction false} BackedSound(s: string, i: nat) returns (x: Syntax, m: nat, cmd: Cmd)
    requires i <= |s| && ParsePipe(s, i).Ok?
    ensures IsBacked(x) && Holds(s, i, m, x, cmd) && Backed(s, i, m, cmd)
    decreases |s| - i, 2
  {
    var p, k := PipeSound(s, i);
    BacksFirst(s, k, ParsePipe(s, i).cmd);
    x, m := BacksSound(s, i, k, p, ParsePipe(s, i).cmd);
    cmd := ParseBacks(s, k, ParsePipe(s, i).cmd).0;
  }

  lemma {:induction false} LineSound(s: string, i: nat) returns (x: Syntax, e: nat)
    requires i <= |s| && ParseLine(s, i).Ok?
    ensures IsLine(x) && Holds(s, i, e, x, ParseLine(s, i).cmd) && ParseLine(s, i).ps == SkipSpace(s, e)
    decreases |s| - i, 3
  {
    var l, m, lc := BackedSound(s, i);
    if Peek(s, m, {';'}) {
      var sp, n := SymbolRead(s, m, ';');
      LineMore(s, i, m, lc, n);
      var r;
      r, e := LineSound(s, n);
      x := ListS(l, sp, r);
      HoldsList(s, i, m, n, e, l, lc, sp, r, ParseLine(s, n).cmd);
    } else {
      x, e := l, m;
      LineOnly(s, i, m, lc);
    }
  }

  /** Every line parsecmd accepts is one of the language. */
  lemma ParsedIsText(s: string) returns (x: Syntax)
    requires ParseCmd(s).Ok?
    ensures IsText(s, x)
  {
    var e;
    x, e := LineSound(s, 0);
    TokenFirst(s, e);
    SkippedAreSpaces(s, e);
    assert s[0..e] == s[..e] && s[e..|s|] == s[e..];
  }

  /**
   parsecmd succeeds exactly on the lines of the shell's language, and whatever way a
   line is written in that language, the command it gives is what that stands for.
   */
  lemma ParsesExactly(s: string)
    ensures ParseCmd(s).Ok? <==> exists x :: IsText(s, x)
    ensures forall x :: IsText(s, x) ==> ParseCmd(s).Ok? && Reads(s, ParseCmd(s).cmd, Meaning(x))
  {
    forall x | IsText(s, x)
      ensures ParseCmd(s).Ok? && Reads(s, ParseCmd(s).cmd, Meaning(x))
    {
      TextParses(s, x);
    }
    if ParseCmd(s).Ok? {
      var x := ParsedIsText(s);
    }
  }
}
