/** Every command the shell can hold is the meaning of some line, and is read back from it. */
module ShellRoundTrip {
  import opened ShellModel
  import opened ShellGrammar
  import opened ShellParses

  predicate GoodWords(ws: seq<string>) { forall i :: 0 <= i < |ws| ==> GoodWord(ws[i]) }

  /** At most MAXARGS - 1 words a command, of word characters. */
  predicate GoodTree(t: Tree) {
    match t
    case ExecT(argv) => |argv| < MAXARGS && GoodWords(argv)
    case RedirT(cmd, file, _) => GoodTree(cmd) && GoodWord(file)
    case PipeT(l, r) => GoodTree(l) && GoodTree(r)
    case ListT(l, r) => GoodTree(l) && GoodTree(r)
    case BackT(cmd) => GoodTree(cmd)
  }

  function Words(ws: seq<string>, sp: string): (ps: seq<Piece>)
    ensures |ps| == |ws| && forall k :: 0 <= k < |ws| ==> ps[k] == Arg(if k == 0 then sp else " ", ws[k])
  {
    if ws == [] then [] else [Arg(sp, ws[0])] + Words(ws[1..], " ")
  }

  /** t with every command within it between parentheses. */
  function Write(t: Tree): (x: Syntax)
    decreases t, 0
  {
    match t
    case ExecT(argv) => Simple(Words(argv, ""))
    case RedirT(cmd, file, mode) => Block("", Write(cmd), "", [Rd("", mode, "", file)])
    case PipeT(l, r) => PipeS(Paren(l), "", Paren(r))
    case ListT(l, r) => ListS(Paren(l), "", Paren(r))
    case BackT(cmd) => BackS(Paren(cmd), "")
  }

  function Paren(t: Tree): (x: Syntax)
    decreases t, 1
  {
    Block("", Write(t), "", [])
  }

  lemma {:induction false} WordsMean(ws: seq<string>, sp: string)
    ensures Args(Words(ws, sp)) == ws && Files(Words(ws, sp)) == []
    decreases |ws|
  {
    if ws != [] {
      var ps := Words(ws, sp);
      WordsMean(ws[1..], " ");
      assert ps[1..] == Words(ws[1..], " ") && ps[0] == Arg(sp, ws[0]);
    }
  }

  lemma Levels(x: Syntax)
    ensures IsExec(x) ==> IsPipe(x)
    ensures IsPipe(x) ==> IsBacked(x)
    ensures IsBacked(x) ==> IsLine(x)
  {
  }

  lemma {:induction false} WriteMeans(t: Tree)
    requires GoodTree(t)
    ensures IsLine(Write(t)) && Good(Write(t)) && Meaning(Write(t)) == t
    decreases t, 0
  {
    match t {
      case ExecT(argv) => ExecMeans(argv);
      case RedirT(cmd, file, mode) => {
        WriteMeans(cmd);
        RedirMeans(cmd, file, mode);
      }
      case PipeT(l, r) => {
        ParenMeans(l);
        ParenMeans(r);
        Levels(Paren(r));
        Levels(Write(t));
      }
      case ListT(l, r) => {
        ParenMeans(l);
        ParenMeans(r);
        Levels(Paren(l));
        Levels(Paren(r));
      }
      case BackT(cmd) => {
        ParenMeans(cmd);
        Levels(Paren(cmd));
        Levels(Write(t));
      }
    }
  }

  lemma ExecMeans(argv: seq<string>)
    requires |argv| < MAXARGS && GoodWords(argv)
    ensures var x := Write(ExecT(argv)); IsLine(x) && Good(x) && Meaning(x) == ExecT(argv)
  {
    WordsMean(argv, "");
    Levels(Write(ExecT(argv)));
  }

  lemma RedirMeans(t: Tree, file: string, mode: Mode)
    requires IsLine(Write(t)) && Good(Write(t)) && Meaning(Write(t)) == t && GoodWord(file)
    ensures var x := Write(RedirT(t, file, mode)); IsLine(x) && Good(x) && Meaning(x) == RedirT(t, file, mode)
  {
    Levels(Write(RedirT(t, file, mode)));
    var ps, f := [Rd("", mode, "", file)], FileT(file, mode);
    assert ps[1..] == [] && Files(ps[1..]) == [];
    assert Files(ps) == [f] + [] && [f] + [] == [f];
    assert [f][..0] == [] && WrapT(t, [f]) == RedirT(WrapT(t, []), file, mode);
  }

  lemma {:induction false} ParenMeans(t: Tree)
    requires GoodTree(t)
    ensures IsExec(Paren(t)) && Good(Paren(t)) && Meaning(Paren(t)) == t
    decreases t, 1
  {
    WriteMeans(t);
  }

  /** parsecmd undoes Write: for every command the shell can hold, parsing its written
      form succeeds and gives that command. */
  lemma RoundTrip(t: Tree)
    requires GoodTree(t)
    ensures var s := Text(Write(t)); ParseCmd(s).Ok? && Reads(s, ParseCmd(s).cmd, t)
  {
    WriteMeans(t);
    var s := Text(Write(t));
    assert s[..|s|] == s;
    TextParses(s, Write(t));
  }
}
