/**
 The shell's language written down without its parser (user/sh.c): what a command
 line may look like, with any spaces, and which command it stands for. `|` binds
 tighter than `&`, and that tighter than `;`; `|` and `;` group to the right; words
 and redirections of a simple command come in any order.
 */
module ShellGrammar {
  import opened ShellModel

  /** A command with its words spelled out. */
  datatype Tree =
    | ExecT(argv: seq<string>)
    | RedirT(cmd: Tree, file: string, mode: Mode)
    | PipeT(left: Tree, right: Tree)
    | ListT(left: Tree, right: Tree)
    | BackT(cmd: Tree)

  /** A word or a redirection, with the spaces before it. */
  datatype Piece = Arg(sp: string, word: string) | Rd(sp: string, mode: Mode, gap: string, file: string)

  datatype Syntax =
    | Simple(ps: seq<Piece>)
    | Block(sp: string, body: Syntax, gap: string, ps: seq<Piece>)
    | PipeS(left: Syntax, sp: string, right: Syntax)
    | BackS(cmd: Syntax, sp: string)
    | ListS(left: Syntax, sp: string, right: Syntax)

  predicate IsExec(x: Syntax)
    decreases x, 0
  {
    x.Simple? || (x.Block? && IsLine(x.body))
  }

  predicate IsPipe(x: Syntax)
    decreases x, 1
  {
    IsExec(x) || (x.PipeS? && IsExec(x.left) && IsPipe(x.right))
  }

  predicate IsBacked(x: Syntax)
    decreases x, 2
  {
    IsPipe(x) || (x.BackS? && IsBacked(x.cmd))
  }

  predicate IsLine(x: Syntax)
    decreases x, 3
  {
    IsBacked(x) || (x.ListS? && IsBacked(x.left) && IsLine(x.right))
  }

  // ----- its text -----

  function Op(mode: Mode): (s: string) { match mode case In => "<" case Out => ">" case Append => ">>" }

  function PieceText(p: Piece): (s: string) {
    match p
    case Arg(sp, word) => sp + word
    case Rd(sp, mode, gap, file) => sp + (Op(mode) + (gap + file))
  }

  function PiecesText(ps: seq<Piece>): (s: string) {
    if ps == [] then "" else PieceText(ps[0]) + PiecesText(ps[1..])
  }

  function Text(x: Syntax): (s: string) {
    match x
    case Simple(ps) => PiecesText(ps)
    case Block(sp, body, gap, ps) => sp + ("(" + (Text(body) + (gap + (")" + PiecesText(ps)))))
    case PipeS(l, sp, r) => Text(l) + (sp + ("|" + Text(r)))
    case BackS(c, sp) => Text(c) + (sp + "&")
    case ListS(l, sp, r) => Text(l) + (sp + (";" + Text(r)))
  }

  predicate Spaces(sp: string) { forall i :: 0 <= i < |sp| ==> IsSpace(sp[i]) }
  predicate GoodWord(w: string) { w != "" && forall i :: 0 <= i < |w| ==> IsWord(w[i]) }

  predicate GoodPiece(p: Piece) {
    match p
    case Arg(sp, word) => Spaces(sp) && GoodWord(word)
    case Rd(sp, _, gap, file) => Spaces(sp) && Spaces(gap) && GoodWord(file)
  }

  /** Two words in a row need a space between them. */
  predicate GoodPieces(ps: seq<Piece>) {
    forall k :: 0 <= k < |ps| ==> GoodPiece(ps[k]) && (k > 0 && ps[k].Arg? ==> ps[k].sp != "")
  }

  predicate NoArgs(ps: seq<Piece>) { forall k :: 0 <= k < |ps| ==> ps[k].Rd? }

  /** At most MAXARGS - 1 words a simple command, and none after a block. */
  predicate Good(x: Syntax) {
    match x
    case Simple(ps) => GoodPieces(ps) && |Args(ps)| < MAXARGS
    case Block(sp, body, gap, ps) => Spaces(sp) && Good(body) && Spaces(gap) && GoodPieces(ps) && NoArgs(ps)
    case PipeS(l, sp, r) => Good(l) && Spaces(sp) && Good(r)
    case BackS(c, sp) => Good(c) && Spaces(sp)
    case ListS(l, sp, r) => Good(l) && Spaces(sp) && Good(r)
  }

  /** s is a line of that form, and perhaps spaces. */
  ghost predicate IsText(s: string, x: Syntax) {
    && IsLine(x) && Good(x) && |Text(x)| <= |s|
    && s[..|Text(x)|] == Text(x) && Spaces(s[|Text(x)|..])
  }

  // ----- its meaning -----

  datatype FileT = FileT(name: string, mode: Mode)

  function Args(ps: seq<Piece>): (ws: seq<string>) {
    if ps == [] then [] else (if ps[0].Arg? then [ps[0].word] else []) + Args(ps[1..])
  }

  function Files(ps: seq<Piece>): (fs: seq<FileT>) {
    if ps == [] then [] else (if ps[0].Rd? then [FileT(ps[0].file, ps[0].mode)] else []) + Files(ps[1..])
  }

  /** The redirections in the order of the text, the first one innermost. */
  function WrapT(t: Tree, fs: seq<FileT>): (r: Tree) {
    if fs == [] then t else RedirT(WrapT(t, fs[..|fs| - 1]), fs[|fs| - 1].name, fs[|fs| - 1].mode)
  }

  function Meaning(x: Syntax): (t: Tree) {
    match x
    case Simple(ps) => WrapT(ExecT(Args(ps)), Files(ps))
    case Block(_, body, _, ps) => WrapT(Meaning(body), Files(ps))
    case PipeS(l, _, r) => PipeT(Meaning(l), Meaning(r))
    case BackS(c, _) => BackT(Meaning(c))
    case ListS(l, _, r) => ListT(Meaning(l), Meaning(r))
  }

  // ----- commands as the parser builds them -----

  predicate Spells(s: string, x: Span, w: string) { x.q <= x.eq <= |s| && s[x.q..x.eq] == w }

  predicate SpellsAll(s: string, xs: seq<Span>, ws: seq<string>) {
    |xs| == |ws| && forall i :: 0 <= i < |ws| ==> Spells(s, xs[i], ws[i])
  }

  predicate SpellsFiles(s: string, rs: seq<Redirection>, fs: seq<FileT>) {
    |rs| == |fs| && forall i :: 0 <= i < |fs| ==> Spells(s, rs[i].file, fs[i].name) && rs[i].mode == fs[i].mode
  }

  /** cmd is t with its words given as spans of s. */
  predicate Reads(s: string, cmd: Cmd, t: Tree) {
    match t
    case ExecT(argv) => cmd.Exec? && SpellsAll(s, cmd.argv, argv)
    case RedirT(c, file, mode) => cmd.Redir? && Reads(s, cmd.cmd, c) && Spells(s, cmd.file, file) && cmd.mode == mode
    case PipeT(l, r) => cmd.Pipe? && Reads(s, cmd.left, l) && Reads(s, cmd.right, r)
    case ListT(l, r) => cmd.List? && Reads(s, cmd.left, l) && Reads(s, cmd.right, r)
    case BackT(c) => cmd.Back? && Reads(s, cmd.cmd, c)
  }

  lemma {:induction false} WrapLast(cmd: Cmd, rs: seq<Redirection>, last: Redirection)
    ensures Wrap(cmd, rs + [last]) == Redir(Wrap(cmd, rs), last.file, last.mode)
    decreases |rs|
  {
    var all := rs + [last];
    if rs == [] {
      assert all[1..] == [];
    } else {
      assert all[1..] == rs[1..] + [last];
      WrapLast(Redir(cmd, rs[0].file, rs[0].mode), rs[1..], last);
    }
  }

  lemma {:induction false} WrapReads(s: string, cmd: Cmd, t: Tree, rs: seq<Redirection>, fs: seq<FileT>)
    requires Reads(s, cmd, t) && SpellsFiles(s, rs, fs)
    ensures Reads(s, Wrap(cmd, rs), WrapT(t, fs))
    decreases |rs|
  {
    if rs != [] {
      var n := |rs| - 1;
      WrapReads(s, cmd, t, rs[..n], fs[..n]);
      WrapLast(cmd, rs[..n], rs[n]);
      assert rs[..n] + [rs[n]] == rs;
    }
  }

  // ----- pieces of the line -----

  /** s from i to e is w. */
  predicate Spelled(s: string, i: nat, e: nat, w: string) { i <= e <= |s| && s[i..e] == w }

  lemma Split(s: string, i: nat, m: nat, e: nat, a: string, b: string)
    requires Spelled(s, i, e, a + b) && m == i + |a|
    ensures Spelled(s, i, m, a) && Spelled(s, m, e, b)
  {
    var w := s[i..e];
    assert w[..|a|] == a && w[|a|..] == b;
    assert s[i..m] == w[..|a|] && s[m..e] == w[|a|..];
  }

  lemma Join(s: string, i: nat, m: nat, e: nat, a: string, b: string)
    requires Spelled(s, i, m, a) && Spelled(s, m, e, b)
    ensures Spelled(s, i, e, a + b)
  {
    assert s[i..e] == s[i..m] + s[m..e];
  }

  lemma First(s: string, i: nat, e: nat, w: string)
    requires Spelled(s, i, e, w) && w != ""
    ensures i < |s| && s[i] == w[0] && e == i + |w|
  {
    assert s[i..e][0] == s[i];
  }

  lemma {:induction false} SkipSpaces(s: string, i: nat, e: nat, sp: string)
    requires Spelled(s, i, e, sp) && Spaces(sp)
    ensures SkipSpace(s, i) == SkipSpace(s, e)
    decreases e - i
  {
    if i < e {
      First(s, i, e, sp);
      assert s[i + 1..e] == sp[1..];
      SkipSpaces(s, i + 1, e, sp[1..]);
    }
  }

  lemma {:induction false} SkippedAreSpaces(s: string, i: nat)
    requires i <= |s|
    ensures Spelled(s, i, SkipSpace(s, i), s[i..SkipSpace(s, i)]) && Spaces(s[i..SkipSpace(s, i)])
    decreases |s| - i
  {
    if i < |s| && IsSpace(s[i]) {
      SkippedAreSpaces(s, i + 1);
      var j := SkipSpace(s, i);
      assert s[i..j] == [s[i]] + s[i + 1..j];
    }
  }

  lemma {:induction false} SkipTwice(s: string, i: nat)
    requires i <= |s|
    ensures SkipSpace(s, SkipSpace(s, i)) == SkipSpace(s, i)
  {
  }

  /** All of the parser begins by skipping spaces. */
  lemma TokenFirst(s: string, i: nat)
    requires i <= |s|
    ensures GetToken(s, SkipSpace(s, i)) == GetToken(s, i) && SkipSpace(s, SkipSpace(s, i)) == SkipSpace(s, i)
  {
    SkipTwice(s, i);
  }

  lemma RedirsFirst(s: string, i: nat, rs: seq<Redirection>)
    requires i <= |s|
    ensures ParseRedirs(s, SkipSpace(s, i), rs) == ParseRedirs(s, i, rs)
  {
    TokenFirst(s, i);
  }

  lemma ArgsFirst(s: string, i: nat, argv: seq<Span>, rs: seq<Redirection>)
    requires i <= |s|
    ensures ParseArgs(s, SkipSpace(s, i), argv, rs) == ParseArgs(s, i, argv, rs)
  {
    TokenFirst(s, i);
  }

  lemma BacksFirst(s: string, i: nat, cmd: Cmd)
    requires i <= |s|
    ensures ParseBacks(s, SkipSpace(s, i), cmd) == ParseBacks(s, i, cmd)
  {
    TokenFirst(s, i);
  }

  lemma LineFirst(s: string, i: nat)
    requires i <= |s|
    ensures var j := SkipSpace(s, i);
            && ParseExec(s, j) == ParseExec(s, i) && ParsePipe(s, j) == ParsePipe(s, i)
            && ParseLine(s, j) == ParseLine(s, i)
  {
    TokenFirst(s, i);
    RedirsFirst(s, i, []);
    assert ParseBlock(s, SkipSpace(s, i)) == ParseBlock(s, i);
    assert ParseExec(s, SkipSpace(s, i)) == ParseExec(s, i);
    assert ParsePipe(s, SkipSpace(s, i)) == ParsePipe(s, i);
  }

  /** A symbol other than > at j. */
  lemma SymbolToken(s: string, j: nat)
    requires j < |s| && IsSymbol(s[j]) && s[j] != '>'
    ensures SkipSpace(s, j) == j && GetToken(s, j) == Token(s[j], j, j + 1, SkipSpace(s, j + 1))
  {
  }

  lemma {:induction false} WordEnds(s: string, i: nat, e: nat)
    requires i <= e <= |s| && (e < |s| ==> !IsWord(s[e])) && forall k :: i <= k < e ==> IsWord(s[k])
    ensures SkipWord(s, i) == e
    decreases e - i
  {
    if i < e {
      WordEnds(s, i + 1, e);
    }
  }

  lemma WordToken(s: string, i: nat, e: nat, w: string)
    requires Spelled(s, i, e, w) && GoodWord(w) && (e < |s| ==> !IsWord(s[e]))
    ensures i < |s| && IsWord(s[i]) && SkipSpace(s, i) == i
    ensures GetToken(s, i) == Token('a', i, e, SkipSpace(s, e)) && Spells(s, Span(i, e), w)
  {
    forall k | i <= k < e
      ensures IsWord(s[k])
    {
      assert s[i..e][k - i] == s[k];
    }
    WordEnds(s, i, e);
    First(s, i, e, w);
  }
}
