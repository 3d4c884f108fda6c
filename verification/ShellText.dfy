/** The text of a line: what one writes, and that the shell reads it so. A line is written as parts, each a gap
    of blanks and then a word or an operator, and a last gap. */
module ShellText {
  import opened Shell
  import opened ShellGrammar

  datatype Piece = Text(t: string) | Op(o: string)

  datatype Part = Part(gap: string, piece: Piece)

  predicate Blank(c: char) {
    c == ' ' || c as int == 9 || c as int == 10 || c as int == 11 || c as int == 13
  }

  predicate Blanks(s: string) {
    forall i :: 0 <= i < |s| ==> Blank(s[i])
  }

  predicate Plain(c: char) {
    !Blank(c) && c !in "<>|&;()"
  }

  function Spelled(p: Piece): string {
    match p
    case Text(t) => t
    case Op(o) => o
  }

  predicate PieceOk(p: Piece) {
    match p
    case Text(t) => t != "" && forall i :: 0 <= i < |t| ==> Plain(t[i])
    case Op(o) => o in ["<", ">", ">>", "|", "&", ";", "(", ")"]
  }

  /** `q` may follow `p` at once. */
  predicate MayTouch(p: Piece, q: Piece) {
    !(p.Text? && q.Text?) && !(p == Op(">") && Spelled(q) in [">", ">>"])
  }

  predicate Lawful(ps: seq<Part>, tail: string) {
    if ps == [] then Blanks(tail) else
    && Blanks(ps[0].gap) && PieceOk(ps[0].piece)
    && (|ps| > 1 && ps[1].gap == "" ==> MayTouch(ps[0].piece, ps[1].piece))
    && Lawful(ps[1..], tail)
  }

  function Written(ps: seq<Part>, tail: string): string {
    if ps == [] then tail else ps[0].gap + Spelled(ps[0].piece) + Written(ps[1..], tail)
  }

  /** The token `t` of the line `s` is the piece `p`. */
  predicate IsPiece(s: string, t: Tok, p: Piece) {
    match p
    case Text(w) => t.Word? && t.a <= t.b <= |s| && s[t.a..t.b] == w
    case Op(o) => t == Sym(if o == ">>" then '+' else if |o| == 1 then o[0] else ' ')
  }

  predicate ArePieces(s: string, ts: seq<Tok>, ps: seq<Part>) {
    |ts| == |ps| && forall i :: 0 <= i < |ts| ==> IsPiece(s, ts[i], ps[i].piece)
  }

  lemma {:induction false} GapSkipped(s: string, i: nat, j: nat)
    requires i <= j <= |s| && Blanks(s[i..j]) && (j < |s| ==> !Blank(s[j]))
    ensures SkipSpace(s, i) == j
    decreases j - i
  {
    if i < j {
      assert Blank(s[i..j][0]);
      assert s[i + 1..j] == s[i..j][1..];
      GapSkipped(s, i + 1, j);
    }
  }

  lemma {:induction false} WordRead(s: string, i: nat, j: nat)
    requires i <= j <= |s| && (forall k :: i <= k < j ==> Plain(s[k])) && (j < |s| ==> !Plain(s[j]))
    ensures WordEnd(s, i) == j
    decreases j - i
  {
    if i < j { WordRead(s, i + 1, j); }
  }

  /** What comes right behind a piece does not prolong it. */
  lemma PieceEnds(p: Piece, ps: seq<Part>, tail: string)
    requires Lawful([Part("", p)] + ps, tail) && Written(ps, tail) != ""
    ensures p.Text? ==> !Plain(Written(ps, tail)[0])
    ensures p == Op(">") ==> Written(ps, tail)[0] != '>'
  {
    var all := [Part("", p)] + ps;
    assert all[1..] == ps;
    if ps == [] {
      assert Blank(tail[0]);
    } else if ps[0].gap == "" {
      var q := ps[0].piece;
      assert MayTouch(p, q) && PieceOk(q);
    } else {
      assert Blank(ps[0].gap[0]);
    }
  }

  lemma PieceRead(s: string, i: nat, p: Piece, rest: string)
    requires i <= |s| && s[i..] == Spelled(p) + rest && PieceOk(p)
    requires rest != "" && p.Text? ==> !Plain(rest[0])
    requires rest != "" && p == Op(">") ==> rest[0] != '>'
    ensures i < |s| && !IsSpace(s[i]) && TokenAt(s, i).1 == i + |Spelled(p)| && IsPiece(s, TokenAt(s, i).0, p)
  {
    var w := Spelled(p);
    var j := i + |w|;
    assert forall k :: i <= k < j ==> s[k] == s[i..][k - i] == w[k - i];
    assert j < |s| ==> s[j] == s[i..][|w|] == rest[0];
    if p.Text? {
      WordRead(s, i, j);
      assert s[i..j] == w;
    }
  }

  lemma Unfolded(ps: seq<Part>, tail: string)
    requires Lawful(ps, tail) && ps != []
    ensures Written(ps, tail) == ps[0].gap + Spelled(ps[0].piece) + Written(ps[1..], tail)
    ensures Blanks(ps[0].gap) && PieceOk(ps[0].piece) && Lawful(ps[1..], tail)
    ensures Written(ps[1..], tail) != "" ==>
              && (ps[0].piece.Text? ==> !Plain(Written(ps[1..], tail)[0]))
              && (ps[0].piece == Op(">") ==> Written(ps[1..], tail)[0] != '>')
  {
    var rest := ps[1..];
    if Written(rest, tail) != "" {
      assert ([Part("", ps[0].piece)] + rest)[1..] == rest;
      PieceEnds(ps[0].piece, rest, tail);
    }
  }

  /** The first piece. */
  lemma FirstRead(s: string, i: nat, ps: seq<Part>, tail: string)
    requires i <= |s| && s[i..] == Written(ps, tail) && Lawful(ps, tail) && ps != []
    ensures SkipSpace(s, i) < |s| && s[TokenAt(s, SkipSpace(s, i)).1..] == Written(ps[1..], tail)
    ensures IsPiece(s, TokenAt(s, SkipSpace(s, i)).0, ps[0].piece)
  {
    hide *;
    Unfolded(ps, tail);
    var gap, p, rest := ps[0].gap, ps[0].piece, Written(ps[1..], tail);
    var j := i + |gap|;
    assert s[i..j] == gap;
    assert s[j..] == Spelled(p) + rest;
    PieceRead(s, j, p, rest);
    BlankIsSpace(s[j]);
    GapSkipped(s, i, j);
    assert s[j + |Spelled(p)|..] == rest;
  }

  lemma BlankIsSpace(c: char)
    ensures Blank(c) <==> IsSpace(c)
  {
  }

  /** The tokens of a line, however it is written, are its pieces. */
  lemma {:induction false} ReadAsWritten(s: string, i: nat, ps: seq<Part>, tail: string)
    requires i <= |s| && s[i..] == Written(ps, tail) && Lawful(ps, tail)
    ensures ArePieces(s, Tokens(s, i), ps)
    decreases |ps|
  {
    if ps == [] {
      GapSkipped(s, i, |s|);
    } else {
      hide SkipSpace, Lawful, Written, TokenAt, IsPiece, Tokens;
      TokensFrom(s, i);
      FirstRead(s, i, ps, tail);
      Unfolded(ps, tail);
      ReadAsWritten(s, TokenAt(s, SkipSpace(s, i)).1, ps[1..], tail);
    }
  }

  lemma {:induction false} GapIsBlank(s: string, i: nat)
    requires i <= |s|
    ensures Blanks(s[i..SkipSpace(s, i)])
    decreases |s| - i
  {
    if i < |s| && IsSpace(s[i]) {
      GapIsBlank(s, i + 1);
      var j := SkipSpace(s, i);
      assert s[i..j] == [s[i]] + s[i + 1..j];
    }
  }

  lemma PieceFound(s: string, j: nat)
    requires j < |s| && !IsSpace(s[j])
    ensures PieceOk(if IsWordChar(s[j]) then Text(s[j..TokenAt(s, j).1]) else Op(s[j..TokenAt(s, j).1]))
  {
    var e := TokenAt(s, j).1;
    if !IsWordChar(s[j]) {
      assert s[j..e] == if e == j + 1 then [s[j]] else [s[j], s[j + 1]];
    }
  }

  lemma NextFound(s: string, j: nat, rest: seq<Part>, tail: string)
    requires j < |s| && !IsSpace(s[j]) && rest != [] && rest[0].gap == "" && Lawful(rest, tail)
    requires s[TokenAt(s, j).1..] == Written(rest, tail)
    ensures MayTouch(if IsWordChar(s[j]) then Text(s[j..TokenAt(s, j).1]) else Op(s[j..TokenAt(s, j).1]),
                     rest[0].piece)
  {
    var e, q := TokenAt(s, j).1, rest[0].piece;
    assert PieceOk(q) && s[e] == s[e..][0] == Spelled(q)[0];
    assert e == j + 1 ==> s[j..e] == [s[j]];
  }

  /** Every line can be written so, the tokens of which are then told by ReadAsWritten. */
  lemma {:induction false} EveryLineIsWritten(s: string, i: nat) returns (ps: seq<Part>, tail: string)
    requires i <= |s|
    ensures s[i..] == Written(ps, tail) && Lawful(ps, tail)
    decreases |s| - i
  {
    var j := SkipSpace(s, i);
    GapIsBlank(s, i);
    if j == |s| { return [], s[i..]; }
    var e := TokenAt(s, j).1;
    var rest;
    rest, tail := EveryLineIsWritten(s, e);
    var p := if IsWordChar(s[j]) then Text(s[j..e]) else Op(s[j..e]);
    ps := [Part(s[i..j], p)] + rest;
    assert ps[1..] == rest;
    assert s[i..] == s[i..j] + s[j..e] + s[e..];
    PieceFound(s, j);
    if rest != [] && rest[0].gap == "" { NextFound(s, j, rest, tail); }
  }
}
