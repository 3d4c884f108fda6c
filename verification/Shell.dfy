/** The parser of user/sh.c on characters: it keeps a cursor into the line, which holds no NUL, and
    follows the grammar on the tokens from there on. */
module Shell {
  import opened ShellGrammar

  predicate IsSpace(c: char) {
    c in [' ', '\t', '\r', '\n', 0x0B as char]
  }

  predicate IsSymbol(c: char) {
    c in ['<', '|', '>', '&', ';', '(', ')']
  }

  predicate IsWordChar(c: char) {
    !IsSpace(c) && !IsSymbol(c)
  }

  // ----- Tokens of a line -----

  function SkipSpace(s: string, i: nat): (j: nat)
    requires i <= |s|
    ensures i <= j <= |s| && (j < |s| ==> !IsSpace(s[j]))
    decreases |s| - i
  {
    if i < |s| && IsSpace(s[i]) then SkipSpace(s, i + 1) else i
  }

  function WordEnd(s: string, i: nat): (j: nat)
    requires i <= |s|
    ensures i <= j <= |s| && (j < |s| ==> !IsWordChar(s[j])) && forall k :: i <= k < j ==> IsWordChar(s[k])
    decreases |s| - i
  {
    if i < |s| && IsWordChar(s[i]) then WordEnd(s, i + 1) else i
  }

  /** The token that starts at `i`, and where it ends. */
  function TokenAt(s: string, i: nat): (r: (Tok, nat))
    requires i < |s| && !IsSpace(s[i])
    ensures i < r.1 <= |s|
  {
    if IsWordChar(s[i]) then
      var j := WordEnd(s, i);
      (Word(i, j), j)
    else if s[i] == '>' && i + 1 < |s| && s[i + 1] == '>' then (Sym('+'), i + 2)
    else (Sym(s[i]), i + 1)
  }

  /** The tokens of the line from position `i` on. */
  function Tokens(s: string, i: nat): seq<Tok>
    requires i <= |s|
    decreases |s| - i
  {
    var j := SkipSpace(s, i);
    if j == |s| then [] else
      var t := TokenAt(s, j);
      [t.0] + Tokens(s, t.1)
  }

  lemma {:induction false} SkipTwice(s: string, i: nat)
    requires i <= |s|
    ensures SkipSpace(s, SkipSpace(s, i)) == SkipSpace(s, i) && Tokens(s, SkipSpace(s, i)) == Tokens(s, i)
    decreases |s| - i
  {
    if i < |s| && IsSpace(s[i]) { SkipTwice(s, i + 1); }
  }

  lemma TokensFrom(s: string, i: nat)
    requires i <= |s|
    ensures Tokens(s, i) == Tokens(s, SkipSpace(s, i))
    ensures var p := SkipSpace(s, i);
      Tokens(s, p) == if p == |s| then [] else [TokenAt(s, p).0] + Tokens(s, TokenAt(s, p).1)
  {
    SkipTwice(s, i);
  }

  // ----- gettoken and peek -----

  method SkipSpaces(s: string, i: nat) returns (j: nat)
    requires i <= |s|
    ensures j == SkipSpace(s, i)
  {
    j := i;
    while j < |s| && IsSpace(s[j])
      invariant i <= j <= |s| && SkipSpace(s, j) == SkipSpace(s, i)
    {
      j := j + 1;
    }
  }

  method FindWordEnd(s: string, i: nat) returns (e: nat)
    requires i <= |s|
    ensures e == WordEnd(s, i)
  {
    e := i;
    while e < |s| && !IsSpace(s[e]) && !IsSymbol(s[e])
      invariant i <= e <= |s| && WordEnd(s, e) == WordEnd(s, i)
    {
      e := e + 1;
    }
  }

  /** gettoken: None at the end of the line, else the token; the cursor moves to the next one. */
  method GetToken(s: string, i: nat) returns (found: bool, tok: Tok, i': nat)
    requires i <= |s|
    ensures i <= i' <= |s| && Tokens(s, i) == if found then [tok] + Tokens(s, i') else []
    ensures if found then i < i' else Tokens(s, i') == []
  {
    hide Tokens, WordEnd, SkipSpace;
    var p := SkipSpaces(s, i);
    TokensFrom(s, i);
    tok := Sym(' ');
    if p == |s| { return false, tok, p; }
    found := true;
    var c := s[p];
    var e := p;
    if c == '|' || c == '(' || c == ')' || c == ';' || c == '&' || c == '<' {
      e := p + 1;
      tok := Sym(c);
    } else if c == '>' {
      e := p + 1;
      tok := Sym('>');
      if e < |s| && s[e] == '>' {
        tok := Sym('+');
        e := e + 1;
      }
    } else {
      e := FindWordEnd(s, p);
      tok := Word(p, e);
    }
    assert (tok, e) == TokenAt(s, p);
    TokensFrom(s, e);
    i' := SkipSpaces(s, e);
  }

  /** The characters a token can start with. */
  predicate Starts(ts: seq<Tok>, toks: seq<char>) {
    ts != [] && ts[0].Sym? && (if ts[0].c == '+' then '>' else ts[0].c) in toks
  }

  /** peek, for symbols. */
  method Peek(s: string, i: nat, toks: seq<char>) returns (b: bool, i': nat)
    requires i <= |s| && forall k :: 0 <= k < |toks| ==> IsSymbol(toks[k])
    ensures i <= i' <= |s| && Tokens(s, i') == Tokens(s, i)
    ensures b == Starts(Tokens(s, i), toks)
  {
    i' := SkipSpaces(s, i);
    SkipTwice(s, i);
    b := i' < |s| && s[i'] in toks;
  }

  // ----- The parse functions -----

  /** `pre` has been parsed already; the rest of the result is still to come. */
  function Prepend<T>(pre: seq<T>, r: Result<(seq<T>, seq<Tok>)>): Result<(seq<T>, seq<Tok>)> {
    match r
    case Ok(v) => Ok((pre + v.0, v.1))
    case Err(e) => Err(e)
  }

  lemma PrependNone<T>(pre: seq<T>, r: Result<(seq<T>, seq<Tok>)>)
    ensures Prepend([], r) == r && pre + [] == pre
  {
    if r.Ok? { assert [] + r.value.0 == r.value.0; }
  }

  /** parseredirs, giving the redirections to wrap around the command. */
  method ParseRedirsAt(s: string, i: nat) returns (r: Result<seq<Redir>>, i': nat)
    requires i <= |s|
    ensures i <= i' <= |s|
    ensures match ParseRedirs(Tokens(s, i))
      case Ok(v) => r == Ok(v.0) && Tokens(s, i') == v.1
      case Err(e) => r == Err(e)
  {
    hide Tokens, ParseRedirs;
    var rs: seq<Redir> := [];
    i' := i;
    ghost var p0 := ParseRedirs(Tokens(s, i));
    PrependNone(rs, p0);
    while true
      invariant i <= i' <= |s| && p0 == Prepend(rs, ParseRedirs(Tokens(s, i')))
      decreases |s| - i'
    {
      var more;
      more, i' := Peek(s, i', ['<', '>']);
      PrependNone(rs, p0);
      RedirsEnd(Tokens(s, i'));
      if !more { return Ok(rs), i'; }
      ghost var ts := Tokens(s, i');
      var found, tok, file;
      found, tok, i' := GetToken(s, i');
      assert ts == [tok] + Tokens(s, i');
      found, file, i' := GetToken(s, i');
      if !found || !file.Word? { return Err(MissingFile), i'; }
      assert ts[2..] == Tokens(s, i');
      RedirsStep(rs, ts);
      rs := rs + [Redir(tok.c, file)];
    }
  }

  lemma RedirsEnd(ts: seq<Tok>)
    ensures !AtRedir(ts) ==> ParseRedirs(ts) == Ok(([], ts))
    ensures AtRedir(ts) && (|ts| < 2 || !ts[1].Word?) ==> ParseRedirs(ts) == Err(MissingFile)
  {
  }

  lemma RedirsStep(rs: seq<Redir>, ts: seq<Tok>)
    requires AtRedir(ts) && |ts| >= 2 && ts[1].Word?
    ensures Prepend(rs, ParseRedirs(ts)) == Prepend(rs + [Redir(ts[0].c, ts[1])], ParseRedirs(ts[2..]))
  {
    var p := ParseRedirs(ts[2..]);
    if p.Ok? { assert rs + ([Redir(ts[0].c, ts[1])] + p.value.0) == rs + [Redir(ts[0].c, ts[1])] + p.value.0; }
  }

  /** The part of parseexec that collects words. The exec command is filled in place while redirections
      are wrapped around it, so the words and the redirections are collected side by side. */
  method ParseWordsAt(s: string, i: nat) returns (r: Result<Cmd>, i': nat)
    requires i <= |s| && !At(Tokens(s, i), '(')
    ensures i <= i' <= |s|
    ensures match ParseExec(Tokens(s, i))
      case Ok(v) => r == Ok(OfExec(v.0)) && Tokens(s, i') == v.1
      case Err(e) => r == Err(e)
  {
    hide Tokens, ParseRedirs, Wrap, ParseItems;
    var argv: seq<Tok> := [];
    var p;
    p, i' := ParseRedirsAt(s, i);
    if p.Err? { return Err(p.error), i'; }
    var redirs := p.value;
    ghost var p0, its: seq<Item> := ParseItems(Tokens(s, i'), 0), [];
    PrependNone(its, p0);
    assert redirs == p.value + AllRedirs(its);
    while true
      invariant i <= i' <= |s| && p0 == Prepend(its, ParseItems(Tokens(s, i'), |argv|))
      invariant argv == Argv(its) && redirs == p.value + AllRedirs(its)
      decreases |s| - i'
    {
      var stop;
      stop, i' := Peek(s, i', ['|', ')', '&', ';']);
      ghost var ts := Tokens(s, i');
      ItemsEnd(ts, |argv|);
      if stop { break; }
      var found, tok;
      found, tok, i' := GetToken(s, i');
      if !found { break; }
      if !tok.Word? { return Err(Syntax), i'; }
      if |argv| + 1 >= MAXARGS { return Err(TooManyArgs), i'; }
      assert ts[1..] == Tokens(s, i');
      var q;
      q, i' := ParseRedirsAt(s, i');
      if q.Err? { return Err(q.error), i'; }
      ItemsStep(its, ts, |argv|);
      ArgvSnoc(its, Item(tok, q.value));
      argv := argv + [tok];
      its := its + [Item(tok, q.value)];
      assert redirs + q.value == p.value + AllRedirs(its);
      redirs := redirs + q.value;
    }
    PrependNone(its, p0);
    r := Ok(Wrap(ExecCmd(argv), redirs));
  }

  lemma ItemsEnd(ts: seq<Tok>, argc: nat)
    ensures AtEnd(ts) ==> ParseItems(ts, argc) == Ok(([], ts))
    ensures !AtEnd(ts) && !ts[0].Word? ==> ParseItems(ts, argc) == Err(Syntax)
    ensures !AtEnd(ts) && ts[0].Word? && argc + 1 >= MAXARGS ==> ParseItems(ts, argc) == Err(TooManyArgs)
    ensures !AtEnd(ts) && ts[0].Word? && argc + 1 < MAXARGS && ParseRedirs(ts[1..]).Err? ==>
              ParseItems(ts, argc) == Err(ParseRedirs(ts[1..]).error)
  {
    hide ParseRedirs;
  }

  lemma ItemsStep(its: seq<Item>, ts: seq<Tok>, argc: nat)
    requires !AtEnd(ts) && ts[0].Word? && argc + 1 < MAXARGS && ParseRedirs(ts[1..]).Ok?
    ensures var v := ParseRedirs(ts[1..]).value;
      Prepend(its, ParseItems(ts, argc)) == Prepend(its + [Item(ts[0], v.0)], ParseItems(v.1, argc + 1))
  {
    hide ParseRedirs;
    var v := ParseRedirs(ts[1..]).value;
    var p := ParseItems(v.1, argc + 1);
    if p.Ok? { assert its + ([Item(ts[0], v.0)] + p.value.0) == its + [Item(ts[0], v.0)] + p.value.0; }
  }

  lemma {:induction false} ArgvSnoc(its: seq<Item>, it: Item)
    ensures Argv(its + [it]) == Argv(its) + [it.word] && AllRedirs(its + [it]) == AllRedirs(its) + it.redirs
  {
    if its != [] {
      ArgvSnoc(its[1..], it);
      assert (its + [it])[1..] == its[1..] + [it];
    }
  }

  /** parseexec and parseblock */
  method ParseExecAt(s: string, i: nat) returns (r: Result<Cmd>, i': nat)
    requires i <= |s|
    ensures i <= i' <= |s|
    ensures match ParseExec(Tokens(s, i))
      case Ok(v) => r == Ok(OfExec(v.0)) && Tokens(s, i') == v.1
      case Err(e) => r == Err(e)
    decreases |s| - i, 1
  {
    hide Tokens, ParseLine, ParseRedirs, OfLine, Wrap, ParseItems;
    var open;
    open, i' := Peek(s, i, ['(']);
    if !open {
      r, i' := ParseWordsAt(s, i');
      return;
    }
    ghost var ts := Tokens(s, i');
    var found, tok, line;
    found, tok, i' := GetToken(s, i');
    assert ts[1..] == Tokens(s, i');
    line, i' := ParseLineAt(s, i');
    if line.Err? { return line, i'; }
    var close;
    close, i' := Peek(s, i', [')']);
    if !close { return Err(MissingParen), i'; }
    ghost var us := Tokens(s, i');
    found, tok, i' := GetToken(s, i');
    assert us[1..] == Tokens(s, i');
    var after;
    after, i' := ParseRedirsAt(s, i');
    if after.Err? { return Err(after.error), i'; }
    r := Ok(Wrap(line.value, after.value));
  }

  /** parsepipe */
  method ParsePipeAt(s: string, i: nat) returns (r: Result<Cmd>, i': nat)
    requires i <= |s|
    ensures i <= i' <= |s|
    ensures match ParsePipe(Tokens(s, i))
      case Ok(v) => r == Ok(OfPipe(v.0)) && Tokens(s, i') == v.1
      case Err(e) => r == Err(e)
    decreases |s| - i, 2
  {
    hide Tokens, ParseExec, OfExec;
    r, i' := ParseExecAt(s, i);
    if r.Err? { return; }
    var more;
    more, i' := Peek(s, i', ['|']);
    if more {
      ghost var ts := Tokens(s, i');
      var found, tok, right;
      found, tok, i' := GetToken(s, i');
      assert ts[1..] == Tokens(s, i');
      right, i' := ParsePipeAt(s, i');
      if right.Err? { return right, i'; }
      r := Ok(PipeCmd(r.value, right.value));
    }
  }

  /** parseline */
  method ParseLineAt(s: string, i: nat) returns (r: Result<Cmd>, i': nat)
    requires i <= |s|
    ensures i <= i' <= |s|
    ensures match ParseLine(Tokens(s, i))
      case Ok(v) => r == Ok(OfLine(v.0)) && Tokens(s, i') == v.1
      case Err(e) => r == Err(e)
    decreases |s| - i, 3
  {
    hide Tokens, ParsePipe, OfPipe;
    var first;
    first, i' := ParsePipeAt(s, i);
    if first.Err? { return first, i'; }
    var cmd := first.value;
    ghost var ts0, n: nat, i1 := Tokens(s, i'), 0, i';
    while true
      invariant i <= i1 <= i' <= |s| && n <= |ts0| && ts0[n..] == Tokens(s, i')
      invariant CountAmps(ts0) == n + CountAmps(ts0[n..])
      invariant Backs(cmd, CountAmps(ts0[n..])) == Backs(first.value, CountAmps(ts0))
      decreases |s| - i'
    {
      var amp;
      amp, i' := Peek(s, i', ['&']);
      if !amp { break; }
      var found, tok;
      found, tok, i' := GetToken(s, i');
      assert ts0[n..][1..] == ts0[n + 1..] == Tokens(s, i');
      cmd := BackCmd(cmd);
      n := n + 1;
    }
    var more;
    more, i' := Peek(s, i', [';']);
    if more {
      ghost var ts := Tokens(s, i');
      var found, tok, right;
      found, tok, i' := GetToken(s, i');
      assert ts[1..] == Tokens(s, i');
      right, i' := ParseLineAt(s, i');
      if right.Err? { return right, i'; }
      cmd := ListCmd(cmd, right.value);
    }
    r := Ok(cmd);
  }

  /** parsecmd: the command that the tokens of the line stand for, or an error, for every line. */
  method ParseCmdAt(s: string) returns (r: Result<Cmd>)
    ensures r == ParseCmd(Tokens(s, 0))
  {
    var i;
    r, i := ParseLineAt(s, 0);
    if r.Err? { return; }
    SkipTwice(s, i);
    i := SkipSpaces(s, i);
    if i != |s| {
      return Err(Leftovers);
    }
  }

  // ----- nulterminate -----

  /** `t` is a whole word of the line. */
  predicate WordOf(s: string, t: Tok) {
    t.Word? && t.a < t.b <= |s| && (t.b < |s| ==> !IsWordChar(s[t.b])) && forall k :: t.a <= k < t.b ==>
        IsWordChar(s[k])
  }

  predicate AllWords(s: string, ts: seq<Tok>) {
    forall i :: 0 <= i < |ts| ==> ts[i].Word? ==> WordOf(s, ts[i])
  }

  lemma {:induction false} TokensAreWords(s: string, i: nat)
    requires i <= |s|
    ensures AllWords(s, Tokens(s, i))
    decreases |s| - i
  {
    var p := SkipSpace(s, i);
    TokensFrom(s, i);
    if p < |s| { TokensAreWords(s, TokenAt(s, p).1); }
  }

  /** All words in the command are words of the line. */
  predicate CmdWords(s: string, c: Cmd) {
    match c
    case ExecCmd(argv) => forall i :: 0 <= i < |argv| ==> WordOf(s, argv[i])
    case RedirCmd(d, file, _, _) => WordOf(s, file) && CmdWords(s, d)
    case PipeCmd(l, r) => CmdWords(s, l) && CmdWords(s, r)
    case ListCmd(l, r) => CmdWords(s, l) && CmdWords(s, r)
    case BackCmd(d) => CmdWords(s, d)
  }

  lemma {:induction false} WrapWords(s: string, c: Cmd, rs: seq<Redir>)
    requires CmdWords(s, c) && forall i :: 0 <= i < |rs| ==> WordOf(s, rs[i].file)
    ensures CmdWords(s, Wrap(c, rs))
    decreases |rs|
  {
    if rs != [] { WrapWords(s, Redirected(c, rs[0]), rs[1..]); }
  }

  lemma {:induction false} BacksWords(s: string, c: Cmd, n: nat)
    requires CmdWords(s, c)
    ensures CmdWords(s, Backs(c, n))
    decreases n
  {
    if n > 0 { BacksWords(s, BackCmd(c), n - 1); }
  }

  lemma {:induction false} RedirsWords(s: string, rs: seq<Redir>)
    requires RedirsOk(rs) && AllWords(s, YieldRedirs(rs))
    ensures forall i :: 0 <= i < |rs| ==> WordOf(s, rs[i].file)
  {
    if rs != [] {
      var ys := YieldRedirs(rs);
      assert ys[1] == rs[0].file;
      forall i | 0 <= i < |YieldRedirs(rs[1..])| ensures YieldRedirs(rs[1..])[i] == ys[i + 2] { }
      RedirsWords(s, rs[1..]);
    }
  }

  lemma AllWordsParts(s: string, a: seq<Tok>, b: seq<Tok>)
    requires AllWords(s, a + b)
    ensures AllWords(s, a) && AllWords(s, b)
  {
    forall i | 0 <= i < |a| ensures a[i].Word? ==> WordOf(s, a[i]) { assert (a + b)[i] == a[i]; }
    forall i | 0 <= i < |b| ensures b[i].Word? ==> WordOf(s, b[i]) { assert (a + b)[|a| + i] == b[i]; }
  }

  lemma {:induction false} ItemsWords(s: string, its: seq<Item>)
    requires ItemsOk(its) && AllWords(s, YieldItems(its))
    ensures forall i :: 0 <= i < |Argv(its)| ==> WordOf(s, Argv(its)[i])
    ensures forall i :: 0 <= i < |AllRedirs(its)| ==> WordOf(s, AllRedirs(its)[i].file)
  {
    if its != [] {
      hide WordOf;
      AllWordsParts(s, [its[0].word] + YieldRedirs(its[0].redirs), YieldItems(its[1..]));
      AllWordsParts(s, [its[0].word], YieldRedirs(its[0].redirs));
      assert [its[0].word][0] == its[0].word;
      RedirsWords(s, its[0].redirs);
      ItemsWords(s, its[1..]);
    }
  }

  lemma {:induction false} ExecWords(s: string, e: Exec)
    requires ExecOk(e) && AllWords(s, YieldExec(e))
    ensures CmdWords(s, OfExec(e))
    decreases e, 0
  {
    match e
    case Block(line, after) =>
      AllWordsParts(s, [Sym('(')] + YieldLine(line) + [Sym(')')], YieldRedirs(after));
      AllWordsParts(s, [Sym('(')] + YieldLine(line), [Sym(')')]);
      AllWordsParts(s, [Sym('(')], YieldLine(line));
      LineWords(s, line);
      RedirsWords(s, after);
      WrapWords(s, OfLine(line), after);
    case Simple(redirs, items) =>
      AllWordsParts(s, YieldRedirs(redirs), YieldItems(items));
      RedirsWords(s, redirs);
      ItemsWords(s, items);
      WrapWords(s, ExecCmd(Argv(items)), redirs + AllRedirs(items));
  }

  lemma {:induction false} PipeWords(s: string, p: Pipe)
    requires PipeOk(p) && AllWords(s, YieldPipe(p))
    ensures CmdWords(s, OfPipe(p))
    decreases p, 1
  {
    AllWordsParts(s, YieldExec(p.exec), if p.Into? then [Sym('|')] + YieldPipe(p.rest) else []);
    ExecWords(s, p.exec);
    if p.Into? {
      AllWordsParts(s, [Sym('|')], YieldPipe(p.rest));
      PipeWords(s, p.rest);
    }
  }

  lemma {:induction false} LineWords(s: string, l: Line)
    requires LineOk(l) && AllWords(s, YieldLine(l))
    ensures CmdWords(s, OfLine(l))
    decreases l, 2
  {
    AllWordsParts(s, YieldPipe(l.pipe) + Amps(l.amps), if l.Then? then [Sym(';')] + YieldLine(l.rest) else []);
    AllWordsParts(s, YieldPipe(l.pipe), Amps(l.amps));
    PipeWords(s, l.pipe);
    BacksWords(s, OfPipe(l.pipe), l.amps);
    if l.Then? {
      AllWordsParts(s, [Sym(';')], YieldLine(l.rest));
      LineWords(s, l.rest);
    }
  }

  /** What parsecmd returns is made of words of the line. */
  lemma ParsedWords(s: string)
    ensures ParseCmd(Tokens(s, 0)).Ok? ==> CmdWords(s, ParseCmd(Tokens(s, 0)).value)
  {
    var ts := Tokens(s, 0);
    if ParseCmd(ts).Ok? {
      LineSound(ts);
      TokensAreWords(s, 0);
      var v := ParseLine(ts).value;
      assert YieldLine(v.0) == ts;
      LineWords(s, v.0);
    }
  }

  function EndOf(t: Tok): nat {
    if t.Word? then t.b else 0
  }

  /** The ends of the words in a command. */
  function Ends(c: Cmd): set<nat> {
    match c
    case ExecCmd(argv) => set i | 0 <= i < |argv| :: EndOf(argv[i])
    case RedirCmd(d, file, _, _) => Ends(d) + {EndOf(file)}
    case PipeCmd(l, r) => Ends(l) + Ends(r)
    case ListCmd(l, r) => Ends(l) + Ends(r)
    case BackCmd(d) => Ends(d)
  }

  /** nulterminate, on the buffer with the line and its NUL. */
  method NulTerminate(c: Cmd, buf: array<char>, ghost s: string)
    requires buf.Length == |s| + 1 && CmdWords(s, c)
    modifies buf
    ensures forall k :: 0 <= k < buf.Length ==> buf[k] == if k in Ends(c) then '\0' else old(buf[k])
    decreases c
  {
    match c
    case ExecCmd(argv) =>
      for i := 0 to |argv|
        invariant forall k :: 0 <= k < buf.Length ==>
                    buf[k] == if k in (set j | 0 <= j < i :: EndOf(argv[j])) then '\0' else old(buf[k])
      {
        buf[argv[i].b] := '\0';
      }
    case RedirCmd(d, file, _, _) =>
      NulTerminate(d, buf, s);
      buf[file.b] := '\0';
    case PipeCmd(l, r) =>
      NulTerminate(l, buf, s);
      NulTerminate(r, buf, s);
    case ListCmd(l, r) =>
      NulTerminate(l, buf, s);
      NulTerminate(r, buf, s);
    case BackCmd(d) =>
      NulTerminate(d, buf, s);
  }

  /** The ends of words are not inside words. */
  lemma {:induction false} EndsOutside(s: string, c: Cmd, t: Tok, k: nat)
    requires CmdWords(s, c) && WordOf(s, t) && t.a <= k < t.b
    ensures k !in Ends(c)
  {
    match c
    case ExecCmd(argv) =>
      forall i | 0 <= i < |argv| ensures EndOf(argv[i]) != k { assert WordOf(s, argv[i]); }
    case RedirCmd(d, file, _, _) => EndsOutside(s, d, t, k);
    case PipeCmd(l, r) =>
      EndsOutside(s, l, t, k);
      EndsOutside(s, r, t, k);
    case ListCmd(l, r) =>
      EndsOutside(s, l, t, k);
      EndsOutside(s, r, t, k);
    case BackCmd(d) => EndsOutside(s, d, t, k);
  }

  /** parsecmd on the buffer: every word of the line is still there, and every word of the command ends
      in NUL. */
  method ParseBuffer(buf: array<char>, s: string) returns (r: Result<Cmd>)
    requires buf.Length == |s| + 1 && buf[..|s|] == s
    modifies buf
    ensures r == ParseCmd(Tokens(s, 0)) && (r.Ok? ==> CmdWords(s, r.value))
    ensures r.Ok? ==> forall k :: k in Ends(r.value) ==> 0 <= k < buf.Length && buf[k] == '\0'
    ensures forall t :: WordOf(s, t) ==> buf[t.a..t.b] == s[t.a..t.b]
  {
    r := ParseCmdAt(s);
    ParsedWords(s);
    if r.Ok? {
      EndsInside(s, r.value);
      NulTerminate(r.value, buf, s);
      forall t | WordOf(s, t)
        ensures buf[t.a..t.b] == s[t.a..t.b]
      {
        forall k | t.a <= k < t.b ensures buf[k] == s[k] { EndsOutside(s, r.value, t, k); }
      }
    }
  }

  lemma {:induction false} EndsInside(s: string, c: Cmd)
    requires CmdWords(s, c)
    ensures forall k :: k in Ends(c) ==> k <= |s|
  {
    match c
    case ExecCmd(argv) =>
    case RedirCmd(d, file, _, _) => EndsInside(s, d);
    case PipeCmd(l, r) =>
      EndsInside(s, l);
      EndsInside(s, r);
    case ListCmd(l, r) =>
      EndsInside(s, l);
      EndsInside(s, r);
    case BackCmd(d) => EndsInside(s, d);
  }
}
