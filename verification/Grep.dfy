/**
 The pattern matcher of grep (user/grep.c) against the language a pattern stands
 for. Strings are without their terminating NUL.
 */
module Grep {
  /** One(c) stands for a single character, Many(c) for any number of them; c is a
      character, or '.' for any. */
  datatype Atom = One(c: char) | Many(c: char)
  datatype Pattern = Pattern(atoms: seq<Atom>, end: bool)

  predicate Fits(c: char, x: char) { c == '.' || c == x }

  /** What a pattern without a leading ^ means: '*' binds to the character before
      it, and a '$' that ends the pattern anchors it. */
  function Parse(re: string): (p: Pattern) {
    if re == [] then Pattern([], false)
    else if |re| > 1 && re[1] == '*' then
      var p := Parse(re[2..]);
      Pattern([Many(re[0])] + p.atoms, p.end)
    else if re == "$" then Pattern([], true)
    else
      var p := Parse(re[1..]);
      Pattern([One(re[0])] + p.atoms, p.end)
  }

  // ----- the language of a pattern -----

  /** w is an instance of one atom. */
  predicate Piece(a: Atom, w: string) {
    (a.One? ==> |w| == 1) && forall i :: 0 <= i < |w| ==> Fits(a.c, w[i])
  }

  function Join(pieces: seq<string>): (w: string) {
    if pieces == [] then [] else pieces[0] + Join(pieces[1..])
  }

  ghost predicate Cut(atoms: seq<Atom>, w: string, pieces: seq<string>) {
    && |pieces| == |atoms| && Join(pieces) == w
    && forall i :: 0 <= i < |atoms| ==> Piece(atoms[i], pieces[i])
  }

  /** w can be cut into consecutive instances of the atoms. */
  ghost predicate InLanguage(atoms: seq<Atom>, w: string) {
    exists pieces :: Cut(atoms, w, pieces)
  }

  ghost predicate HereUpTo(p: Pattern, text: string, j: nat) {
    j <= |text| && InLanguage(p.atoms, text[..j]) && (p.end ==> j == |text|)
  }

  /** Some prefix of text is in the language; with $, the whole of text. */
  ghost predicate Here(re: string, text: string) {
    exists j: nat :: HereUpTo(Parse(re), text, j)
  }

  ghost predicate FoundAt(re: string, text: string, i: nat, j: nat) {
    && i <= j <= |text|
    && var p := Parse(if re != [] && re[0] == '^' then re[1..] else re);
       InLanguage(p.atoms, text[i..j]) && (p.end ==> j == |text|) && (re != [] && re[0] == '^' ==> i == 0)
  }

  /** Some substring of text is in the language of re, at the ends of text where
      re is anchored. */
  ghost predicate Found(re: string, text: string) {
    exists i: nat, j: nat :: FoundAt(re, text, i, j)
  }

  // ----- the language, one atom at a time -----

  lemma NoAtoms(w: string)
    ensures InLanguage([], w) <==> w == []
  {
    assert w == [] ==> Cut([], w, []);
  }

  lemma FirstPiece(a: Atom, rest: seq<Atom>, w: string, k: nat)
    requires k <= |w| && Piece(a, w[..k]) && InLanguage(rest, w[k..])
    ensures InLanguage([a] + rest, w)
  {
    var pieces :| Cut(rest, w[k..], pieces);
    var all := [w[..k]] + pieces;
    assert all[1..] == pieces;
    assert Cut([a] + rest, w, all);
  }

  lemma SplitFirst(a: Atom, rest: seq<Atom>, w: string) returns (k: nat)
    requires InLanguage([a] + rest, w)
    ensures k <= |w| && Piece(a, w[..k]) && InLanguage(rest, w[k..])
  {
    var atoms := [a] + rest;
    var all :| Cut(atoms, w, all);
    k := |all[0]|;
    assert w[..k] == all[0] && Piece(atoms[0], all[0]);
    forall i | 0 <= i < |rest|
      ensures Piece(rest[i], all[1..][i])
    {
      assert Piece(atoms[i + 1], all[i + 1]);
    }
    assert Cut(rest, w[k..], all[1..]);
  }

  // ----- the cases of matchhere -----

  lemma HereStar(re: string, text: string)
    requires |re| > 1 && re[1] == '*'
    ensures Here(re, text) <==> exists k: nat :: StarTo(re[0], re[2..], text, k)
  {
    var p, rest := Parse(re), Parse(re[2..]);
    if Here(re, text) {
      var j: nat :| HereUpTo(p, text, j);
      var k := SplitFirst(Many(re[0]), rest.atoms, text[..j]);
      assert text[..j][..k] == text[..k] && text[..j][k..] == text[k..][..j - k];
      assert HereUpTo(rest, text[k..], j - k);
      assert StarTo(re[0], re[2..], text, k);
    }
    if exists k: nat :: StarTo(re[0], re[2..], text, k) {
      var k: nat :| StarTo(re[0], re[2..], text, k);
      var j: nat :| HereUpTo(rest, text[k..], j);
      assert text[..k + j][..k] == text[..k] && text[..k + j][k..] == text[k..][..j];
      FirstPiece(Many(re[0]), rest.atoms, text[..k + j], k);
      assert HereUpTo(p, text, k + j);
    }
  }

  /** k instances of the starred character, and re from there. */
  ghost predicate StarTo(c: char, re: string, text: string, k: nat) {
    k <= |text| && Piece(Many(c), text[..k]) && Here(re, text[k..])
  }

  lemma HereOne(re: string, text: string)
    requires re != [] && !(|re| > 1 && re[1] == '*') && re != "$"
    ensures Here(re, text) <==> text != [] && Fits(re[0], text[0]) && Here(re[1..], text[1..])
  {
    var p, rest := Parse(re), Parse(re[1..]);
    if Here(re, text) {
      var j: nat :| HereUpTo(p, text, j);
      var k := SplitFirst(One(re[0]), rest.atoms, text[..j]);
      assert text[..j][0] == text[0] && text[..j][k..] == text[1..][..j - 1];
      assert HereUpTo(rest, text[1..], j - 1);
    }
    if text != [] && Fits(re[0], text[0]) && Here(re[1..], text[1..]) {
      var j: nat :| HereUpTo(rest, text[1..], j);
      assert text[..1 + j][..1] == text[..1] && text[..1 + j][1..] == text[1..][..j];
      FirstPiece(One(re[0]), rest.atoms, text[..1 + j], 1);
      assert HereUpTo(p, text, 1 + j);
    }
  }

  lemma HereEnds(text: string)
    ensures Here([], text)
    ensures Here("$", text) <==> text == []
  {
    NoAtoms([]);
    assert text[..0] == [];
    assert HereUpTo(Parse([]), text, 0);
    NoAtoms(text);
    assert text[..|text|] == text;
    if text == [] {
      assert HereUpTo(Parse("$"), text, 0);
    }
  }

  // ----- the code -----

  /** matchhere */
  method MatchHere(re: string, text: string) returns (found: bool)
    ensures found <==> Here(re, text)
    decreases |re|, 0
  {
    HereEnds(text);
    if re == [] {
      return true;
    }
    if |re| > 1 && re[1] == '*' {
      HereStar(re, text);
      found := MatchStar(re[0], re[2..], text);
      return;
    }
    if re == "$" {
      return text == [];
    }
    HereOne(re, text);
    if text != [] && Fits(re[0], text[0]) {
      found := MatchHere(re[1..], text[1..]);
      return;
    }
    return false;
  }

  /** matchstar: c* and then re, at the beginning of text. */
  method MatchStar(c: char, re: string, text: string) returns (found: bool)
    ensures found <==> exists k: nat :: StarTo(c, re, text, k)
    decreases |re|, 1
  {
    var t := 0;
    while true
      invariant 0 <= t <= |text| && Piece(Many(c), text[..t])
      invariant forall k :: 0 <= k < t ==> !Here(re, text[k..])
      decreases |text| - t
    {
      found := MatchHere(re, text[t..]);
      if found {
        assert StarTo(c, re, text, t);
        return true;
      }
      if t == |text| || !Fits(c, text[t]) {
        break;
      }
      t := t + 1;
    }
    forall k | t < k <= |text|
      ensures !Piece(Many(c), text[..k])
    {
      assert text[..k][t] == text[t];
    }
    return false;
  }

  /** match: true exactly when the text holds an instance of the pattern. */
  method Match(re: string, text: string) returns (found: bool)
    ensures found <==> Found(re, text)
  {
    if re != [] && re[0] == '^' {
      FoundFrom(re, text, 0);
      found := MatchHere(re[1..], text);
      assert text[0..] == text;
      return;
    }
    var t := 0;
    while true
      invariant 0 <= t <= |text| && forall k :: 0 <= k < t ==> !Here(re, text[k..])
      decreases |text| - t
    {
      found := MatchHere(re, text[t..]);
      if found {
        FoundFrom(re, text, t);
        return true;
      }
      if t == |text| {
        break;
      }
      t := t + 1;
    }
    forall i: nat, j: nat | FoundAt(re, text, i, j)
      ensures false
    {
      FoundFrom(re, text, i);
    }
    return false;
  }

  /** A substring from i is a prefix of what follows i. */
  lemma FoundFrom(re: string, text: string, i: nat)
    requires i <= |text|
    ensures var anchored := re != [] && re[0] == '^';
            (exists j: nat :: FoundAt(re, text, i, j)) <==>
            Here(if anchored then re[1..] else re, text[i..]) && (anchored ==> i == 0)
  {
    var anchored := re != [] && re[0] == '^';
    var p := Parse(if anchored then re[1..] else re);
    if exists j: nat :: FoundAt(re, text, i, j) {
      var j: nat :| FoundAt(re, text, i, j);
      assert text[i..j] == text[i..][..j - i];
      assert HereUpTo(p, text[i..], j - i);
    }
    if Here(if anchored then re[1..] else re, text[i..]) && (anchored ==> i == 0) {
      var j: nat :| HereUpTo(p, text[i..], j);
      assert text[i..i + j] == text[i..][..j];
      assert FoundAt(re, text, i, i + j);
    }
  }
}
