/** The grammar of user/sh.c over tokens:

      line ::= pipe '&'* [';' line]
      pipe ::= exec ['|' pipe]
      exec ::= '(' line ')' redir*  |  redir* (word redir*)*     with at most nine words
      redir ::= ('<' | '>' | '>>') word

    Trees of this grammar, what they yield, the command they stand for, and the parser that finds them. */
module ShellGrammar {

  const MAXARGS: nat := 10

  /** A word is the text from `a` to `b`; the symbol for >> is '+', as in gettoken. */
  datatype Tok = Word(a: nat, b: nat) | Sym(c: char)

  datatype Error = Syntax | MissingFile | MissingParen | TooManyArgs | Leftovers

  datatype Result<T> = Ok(value: T) | Err(error: Error)

  datatype Redir = Redir(op: char, file: Tok)

  datatype Item = Item(word: Tok, redirs: seq<Redir>)

  datatype Exec = Block(line: Line, after: seq<Redir>) | Simple(redirs: seq<Redir>, items: seq<Item>)

  datatype Pipe = One(exec: Exec) | Into(exec: Exec, rest: Pipe)

  datatype Line = Last(pipe: Pipe, amps: nat) | Then(pipe: Pipe, amps: nat, rest: Line)

  // ----- What a tree yields -----

  predicate IsRedir(c: char) {
    c == '<' || c == '>' || c == '+'
  }

  predicate RedirOk(r: Redir) {
    IsRedir(r.op) && r.file.Word?
  }

  predicate RedirsOk(rs: seq<Redir>) {
    forall i :: 0 <= i < |rs| ==> RedirOk(rs[i])
  }

  predicate ItemsOk(its: seq<Item>) {
    forall i :: 0 <= i < |its| ==> its[i].word.Word? && RedirsOk(its[i].redirs)
  }

  predicate ExecOk(e: Exec) {
    match e
    case Block(line, after) => LineOk(line) && RedirsOk(after)
    case Simple(redirs, items) => RedirsOk(redirs) && ItemsOk(items) && |items| < MAXARGS
  }

  predicate PipeOk(p: Pipe) {
    ExecOk(p.exec) && (p.Into? ==> PipeOk(p.rest))
  }

  /** The tree is one of the grammar. */
  predicate LineOk(l: Line) {
    PipeOk(l.pipe) && (l.Then? ==> LineOk(l.rest))
  }

  function YieldRedirs(rs: seq<Redir>): seq<Tok> {
    if rs == [] then [] else [Sym(rs[0].op), rs[0].file] + YieldRedirs(rs[1..])
  }

  function YieldItems(its: seq<Item>): seq<Tok> {
    if its == [] then [] else [its[0].word] + YieldRedirs(its[0].redirs) + YieldItems(its[1..])
  }

  function YieldExec(e: Exec): seq<Tok> {
    match e
    case Block(line, after) => [Sym('(')] + YieldLine(line) + [Sym(')')] + YieldRedirs(after)
    case Simple(redirs, items) => YieldRedirs(redirs) + YieldItems(items)
  }

  function YieldPipe(p: Pipe): seq<Tok> {
    YieldExec(p.exec) + if p.Into? then [Sym('|')] + YieldPipe(p.rest) else []
  }

  function Amps(n: nat): seq<Tok> {
    if n == 0 then [] else [Sym('&')] + Amps(n - 1)
  }

  function YieldLine(l: Line): seq<Tok> {
    YieldPipe(l.pipe) + Amps(l.amps) + if l.Then? then [Sym(';')] + YieldLine(l.rest) else []
  }

  // ----- The parser -----

  /** The first token is the symbol c. */
  predicate At(ts: seq<Tok>, c: char) {
    ts != [] && ts[0] == Sym(c)
  }

  predicate AtRedir(ts: seq<Tok>) {
    ts != [] && ts[0].Sym? && IsRedir(ts[0].c)
  }

  /** Where parseexec stops taking words. */
  predicate AtEnd(ts: seq<Tok>) {
    ts == [] || At(ts, '|') || At(ts, ')') || At(ts, '&') || At(ts, ';')
  }

  /** parseredirs */
  function ParseRedirs(ts: seq<Tok>): (r: Result<(seq<Redir>, seq<Tok>)>)
    ensures r.Ok? ==> |r.value.1| <= |ts|
  {
    if !AtRedir(ts) then Ok(([], ts))
    else if |ts| < 2 || !ts[1].Word? then Err(MissingFile)
    else match ParseRedirs(ts[2..])
      case Ok(v) => Ok(([Redir(ts[0].c, ts[1])] + v.0, v.1))
      case Err(e) => Err(e)
  }

  /** The loop of parseexec, with argc words taken. */
  function ParseItems(ts: seq<Tok>, argc: nat): (r: Result<(seq<Item>, seq<Tok>)>)
    ensures r.Ok? ==> |r.value.1| <= |ts|
    decreases |ts|
  {
    if AtEnd(ts) then Ok(([], ts))
    else if !ts[0].Word? then Err(Syntax)
    else if argc + 1 >= MAXARGS then Err(TooManyArgs)
    else match ParseRedirs(ts[1..])
      case Err(e) => Err(e)
      case Ok(v) =>
        match ParseItems(v.1, argc + 1)
        case Err(e) => Err(e)
        case Ok(w) => Ok(([Item(ts[0], v.0)] + w.0, w.1))
  }

  /** parseexec and parseblock */
  function ParseExec(ts: seq<Tok>): (r: Result<(Exec, seq<Tok>)>)
    ensures r.Ok? ==> |r.value.1| <= |ts|
    decreases |ts|, 1
  {
    if At(ts, '(') then
      match ParseLine(ts[1..])
      case Err(e) => Err(e)
      case Ok(v) =>
        if !At(v.1, ')') then Err(MissingParen)
        else match ParseRedirs(v.1[1..])
          case Err(e) => Err(e)
          case Ok(w) => Ok((Block(v.0, w.0), w.1))
    else
      match ParseRedirs(ts)
      case Err(e) => Err(e)
      case Ok(v) =>
        match ParseItems(v.1, 0)
        case Err(e) => Err(e)
        case Ok(w) => Ok((Simple(v.0, w.0), w.1))
  }

  /** parsepipe */
  function ParsePipe(ts: seq<Tok>): (r: Result<(Pipe, seq<Tok>)>)
    ensures r.Ok? ==> |r.value.1| <= |ts|
    decreases |ts|, 2
  {
    match ParseExec(ts)
    case Err(e) => Err(e)
    case Ok(v) =>
      if At(v.1, '|') then
        match ParsePipe(v.1[1..])
        case Err(e) => Err(e)
        case Ok(w) => Ok((Into(v.0, w.0), w.1))
      else Ok((One(v.0), v.1))
  }

  function CountAmps(ts: seq<Tok>): (n: nat)
    ensures n <= |ts|
  {
    if At(ts, '&') then 1 + CountAmps(ts[1..]) else 0
  }

  /** parseline */
  function ParseLine(ts: seq<Tok>): (r: Result<(Line, seq<Tok>)>)
    ensures r.Ok? ==> |r.value.1| <= |ts|
    decreases |ts|, 3
  {
    match ParsePipe(ts)
    case Err(e) => Err(e)
    case Ok(v) =>
      var n := CountAmps(v.1);
      var rest := v.1[n..];
      if At(rest, ';') then
        match ParseLine(rest[1..])
        case Err(e) => Err(e)
        case Ok(w) => Ok((Then(v.0, n, w.0), w.1))
      else Ok((Last(v.0, n), rest))
  }

  // ----- Soundness: the parser returns a tree of the grammar that yields what it has taken -----

  lemma {:induction false} RedirsSound(ts: seq<Tok>)
    ensures ParseRedirs(ts).Ok? ==> var v := ParseRedirs(ts).value;
      RedirsOk(v.0) && YieldRedirs(v.0) + v.1 == ts && !AtRedir(v.1)
  {
    if AtRedir(ts) && |ts| >= 2 && ts[1].Word? {
      RedirsSound(ts[2..]);
    }
  }

  lemma Cat3(a: seq<Tok>, b: seq<Tok>, c: seq<Tok>)
    ensures (a + b) + c == a + (b + c)
  {
  }

  lemma Cat4(a: seq<Tok>, b: seq<Tok>, c: seq<Tok>, d: seq<Tok>)
    ensures a + b + c + d == a + (b + (c + d))
  {
  }

  lemma HeadTail(ts: seq<Tok>)
    requires ts != []
    ensures [ts[0]] + ts[1..] == ts
  {
  }

  lemma ItemsCons(it: Item, its: seq<Item>)
    requires it.word.Word? && RedirsOk(it.redirs) && ItemsOk(its)
    ensures YieldItems([it] + its) == [it.word] + YieldRedirs(it.redirs) + YieldItems(its) && ItemsOk([it] + its)
  {
    assert ([it] + its)[1..] == its;
  }

  lemma {:induction false} ItemsSound(ts: seq<Tok>, argc: nat)
    ensures ParseItems(ts, argc).Ok? ==> var v := ParseItems(ts, argc).value;
      ItemsOk(v.0) && YieldItems(v.0) + v.1 == ts && AtEnd(v.1) && (v.0 == [] || argc + |v.0| < MAXARGS)
    decreases |ts|
  {
    hide YieldItems, YieldRedirs, ParseRedirs, RedirsOk, ItemsOk;
    NoItems();
    if !AtEnd(ts) && ts[0].Word? && argc + 1 < MAXARGS {
      RedirsSound(ts[1..]);
      var p := ParseRedirs(ts[1..]);
      if p.Ok? {
        ItemsSound(p.value.1, argc + 1);
        var q := ParseItems(p.value.1, argc + 1);
        if q.Ok? {
          ItemsCons(Item(ts[0], p.value.0), q.value.0);
          Cat4([ts[0]], YieldRedirs(p.value.0), YieldItems(q.value.0), q.value.1);
          HeadTail(ts);
        }
      }
    }
  }

  lemma NoItems()
    ensures YieldItems([]) == [] && ItemsOk([])
  {
  }

  lemma {:induction false} ExecSound(ts: seq<Tok>)
    ensures ParseExec(ts).Ok? ==> var v := ParseExec(ts).value; ExecOk(v.0) && YieldExec(v.0) + v.1 == ts
    decreases |ts|, 1
  {
    hide YieldItems, YieldRedirs, YieldLine, ParseRedirs, ParseItems, ParseLine, RedirsOk, ItemsOk, LineOk;
    if At(ts, '(') {
      LineSound(ts[1..]);
      var p := ParseLine(ts[1..]);
      if p.Ok? && At(p.value.1, ')') {
        RedirsSound(p.value.1[1..]);
        var q := ParseRedirs(p.value.1[1..]);
        if q.Ok? {
          Cat4([ts[0]], YieldLine(p.value.0), [Sym(')')] + YieldRedirs(q.value.0), q.value.1);
          Cat3([ts[0]] + YieldLine(p.value.0), [Sym(')')], YieldRedirs(q.value.0));
          Cat3([Sym(')')], YieldRedirs(q.value.0), q.value.1);
          HeadTail(p.value.1);
          HeadTail(ts);
        }
      }
    } else {
      RedirsSound(ts);
      var p := ParseRedirs(ts);
      if p.Ok? {
        ItemsSound(p.value.1, 0);
        var q := ParseItems(p.value.1, 0);
        if q.Ok? {
          Cat3(YieldRedirs(p.value.0), YieldItems(q.value.0), q.value.1);
        }
      }
    }
  }

  lemma {:induction false} PipeSound(ts: seq<Tok>)
    ensures ParsePipe(ts).Ok? ==> var v := ParsePipe(ts).value; PipeOk(v.0) && YieldPipe(v.0) + v.1 == ts
    decreases |ts|, 2
  {
    hide YieldExec, ParseExec, ExecOk;
    ExecSound(ts);
    var p := ParseExec(ts);
    if p.Ok? && At(p.value.1, '|') {
      PipeSound(p.value.1[1..]);
      var q := ParsePipe(p.value.1[1..]);
      if q.Ok? {
        Cat3(YieldExec(p.value.0), [Sym('|')] + YieldPipe(q.value.0), q.value.1);
        Cat3([Sym('|')], YieldPipe(q.value.0), q.value.1);
        HeadTail(p.value.1);
      }
    }
  }

  lemma {:induction false} AmpsSound(ts: seq<Tok>)
    ensures Amps(CountAmps(ts)) + ts[CountAmps(ts)..] == ts && !At(ts[CountAmps(ts)..], '&')
  {
    if At(ts, '&') {
      AmpsSound(ts[1..]);
      assert ts[1..][CountAmps(ts[1..])..] == ts[CountAmps(ts)..];
    }
  }

  lemma {:induction false} LineSound(ts: seq<Tok>)
    ensures ParseLine(ts).Ok? ==> var v := ParseLine(ts).value; LineOk(v.0) && YieldLine(v.0) + v.1 == ts
    decreases |ts|, 3
  {
    hide YieldPipe, ParsePipe, PipeOk, Amps, CountAmps;
    PipeSound(ts);
    var p := ParsePipe(ts);
    if p.Ok? {
      AmpsSound(p.value.1);
      var n := CountAmps(p.value.1);
      var rest := p.value.1[n..];
      Cat3(YieldPipe(p.value.0), Amps(n), rest);
      if At(rest, ';') {
        LineSound(rest[1..]);
        var q := ParseLine(rest[1..]);
        if q.Ok? {
          Cat4(YieldPipe(p.value.0), Amps(n), [Sym(';')] + YieldLine(q.value.0), q.value.1);
          Cat3([Sym(';')], YieldLine(q.value.0), q.value.1);
          HeadTail(rest);
        }
      }
    }
  }

  // ----- Completeness: the parser finds every tree of the grammar -----

  lemma {:induction false} RedirsComplete(rs: seq<Redir>, rest: seq<Tok>)
    requires RedirsOk(rs) && !AtRedir(rest)
    ensures ParseRedirs(YieldRedirs(rs) + rest) == Ok((rs, rest))
  {
    if rs != [] {
      RedirsComplete(rs[1..], rest);
      var ts := YieldRedirs(rs) + rest;
      assert ts[2..] == YieldRedirs(rs[1..]) + rest;
      assert [Redir(ts[0].c, ts[1])] + rs[1..] == rs;
    } else {
      assert YieldRedirs(rs) + rest == rest;
    }
  }

  /** Items start with a word. */
  lemma ItemsHead(its: seq<Item>, rest: seq<Tok>)
    requires ItemsOk(its) && AtEnd(rest)
    ensures var ts := YieldItems(its) + rest;
            !AtRedir(ts) && !At(ts, '(') && (its != [] ==> !AtEnd(ts) && ts[0] == its[0].word)
    ensures its == [] ==> YieldItems(its) + rest == rest
  {
    if its == [] { assert YieldItems(its) + rest == rest; }
  }

  lemma Cons(t: Tok, ts: seq<Tok>)
    ensures ([t] + ts)[0] == t && ([t] + ts)[1..] == ts
  {
  }

  lemma {:induction false} ItemsComplete(its: seq<Item>, argc: nat, rest: seq<Tok>)
    requires ItemsOk(its) && (its == [] || argc + |its| < MAXARGS) && AtEnd(rest)
    ensures ParseItems(YieldItems(its) + rest, argc) == Ok((its, rest))
  {
    hide YieldRedirs, ParseRedirs, RedirsOk, AtRedir, AtEnd;
    ItemsHead(its, rest);
    if its != [] {
      var w, rs, tail := its[0].word, its[0].redirs, YieldItems(its[1..]) + rest;
      ItemsComplete(its[1..], argc + 1, rest);
      ItemsHead(its[1..], rest);
      RedirsComplete(rs, tail);
      Cat4([w], YieldRedirs(rs), YieldItems(its[1..]), rest);
      Cons(w, YieldRedirs(rs) + tail);
      assert [Item(w, rs)] + its[1..] == its;
    }
  }

  lemma SimpleHead(redirs: seq<Redir>, items: seq<Item>, rest: seq<Tok>)
    requires RedirsOk(redirs) && ItemsOk(items) && AtEnd(rest)
    ensures !At(YieldRedirs(redirs) + (YieldItems(items) + rest), '(')
  {
    hide YieldItems;
    ItemsHead(items, rest);
    if redirs == [] { assert YieldRedirs(redirs) + (YieldItems(items) + rest) == YieldItems(items) + rest; }
  }

  lemma {:induction false} ExecComplete(e: Exec, rest: seq<Tok>)
    requires ExecOk(e) && AtEnd(rest)
    ensures ParseExec(YieldExec(e) + rest) == Ok((e, rest))
    decreases e, 0
  {
    hide YieldItems, YieldRedirs, YieldLine, ParseRedirs, ParseItems, ParseLine, RedirsOk, ItemsOk, LineOk;
    match e
    case Block(line, after) =>
      var tail := [Sym(')')] + (YieldRedirs(after) + rest);
      LineComplete(line, tail);
      RedirsComplete(after, rest);
      Cat4([Sym('(')] + YieldLine(line), [Sym(')')], YieldRedirs(after), rest);
      Cat3([Sym('(')], YieldLine(line), tail);
      Cons(Sym('('), YieldLine(line) + tail);
      Cons(Sym(')'), YieldRedirs(after) + rest);
    case Simple(redirs, items) =>
      var tail := YieldItems(items) + rest;
      ItemsComplete(items, 0, rest);
      ItemsHead(items, rest);
      SimpleHead(redirs, items, rest);
      RedirsComplete(redirs, tail);
      Cat3(YieldRedirs(redirs), YieldItems(items), rest);
  }

  lemma {:induction false} PipeComplete(p: Pipe, rest: seq<Tok>)
    requires PipeOk(p) && AtEnd(rest) && !At(rest, '|')
    ensures ParsePipe(YieldPipe(p) + rest) == Ok((p, rest))
    decreases p, 1
  {
    hide YieldExec, ParseExec, ExecOk;
    if p.Into? {
      var tail := [Sym('|')] + (YieldPipe(p.rest) + rest);
      PipeComplete(p.rest, rest);
      ExecComplete(p.exec, tail);
      Cat3(YieldExec(p.exec), [Sym('|')] + YieldPipe(p.rest), rest);
      Cat3([Sym('|')], YieldPipe(p.rest), rest);
      Cons(Sym('|'), YieldPipe(p.rest) + rest);
    } else {
      ExecComplete(p.exec, rest);
      assert YieldPipe(p) == YieldExec(p.exec);
    }
  }

  lemma {:induction false} AmpsComplete(n: nat, rest: seq<Tok>)
    requires !At(rest, '&')
    ensures CountAmps(Amps(n) + rest) == n && (Amps(n) + rest)[n..] == rest
  {
    if n > 0 {
      AmpsComplete(n - 1, rest);
      assert (Amps(n) + rest)[1..] == Amps(n - 1) + rest;
      assert (Amps(n) + rest)[n..] == (Amps(n - 1) + rest)[n - 1..];
    } else {
      assert Amps(n) + rest == rest;
    }
  }

  lemma AmpsEnd(n: nat, rest: seq<Tok>)
    requires rest == [] || At(rest, ')') || At(rest, ';')
    ensures AtEnd(Amps(n) + rest) && !At(Amps(n) + rest, '|')
  {
  }

  lemma {:induction false} LineComplete(l: Line, rest: seq<Tok>)
    requires LineOk(l) && (rest == [] || At(rest, ')'))
    ensures ParseLine(YieldLine(l) + rest) == Ok((l, rest))
    decreases l, 2
  {
    hide YieldPipe, ParsePipe, PipeOk, CountAmps, Amps;
    var tail := if l.Then? then [Sym(';')] + YieldLine(l.rest) else [];
    var more := tail + rest;
    if l.Then? {
      LineComplete(l.rest, rest);
      Cat3([Sym(';')], YieldLine(l.rest), rest);
      Cons(Sym(';'), YieldLine(l.rest) + rest);
    } else {
      assert more == rest;
    }
    AmpsComplete(l.amps, more);
    AmpsEnd(l.amps, more);
    PipeComplete(l.pipe, Amps(l.amps) + more);
    Cat4(YieldPipe(l.pipe), Amps(l.amps), tail, rest);
  }

  // ----- Commands -----

  datatype Cmd =
    | ExecCmd(argv: seq<Tok>)
    | RedirCmd(cmd: Cmd, file: Tok, mode: nat, fd: nat)
    | PipeCmd(left: Cmd, right: Cmd)
    | ListCmd(left: Cmd, right: Cmd)
    | BackCmd(cmd: Cmd)

  const O_RDONLY: nat := 0x000
  const O_WRONLY: nat := 0x001
  const O_CREATE: nat := 0x200
  const O_TRUNC: nat := 0x400

  /** What the command does with descriptor 0 or 1 for the operator <, > or >>. */
  function Redirected(c: Cmd, r: Redir): Cmd {
    if r.op == '<' then RedirCmd(c, r.file, O_RDONLY, 0)
    else if r.op == '>' then RedirCmd(c, r.file, O_WRONLY + O_CREATE + O_TRUNC, 1)
    else RedirCmd(c, r.file, O_WRONLY + O_CREATE, 1)
  }

  /** Redirections wrap the command, the first innermost. */
  function Wrap(c: Cmd, rs: seq<Redir>): Cmd
    decreases |rs|
  {
    if rs == [] then c else Wrap(Redirected(c, rs[0]), rs[1..])
  }

  function Argv(its: seq<Item>): seq<Tok> {
    if its == [] then [] else [its[0].word] + Argv(its[1..])
  }

  function AllRedirs(its: seq<Item>): seq<Redir> {
    if its == [] then [] else its[0].redirs + AllRedirs(its[1..])
  }

  function OfExec(e: Exec): Cmd {
    match e
    case Block(line, after) => Wrap(OfLine(line), after)
    case Simple(redirs, items) => Wrap(ExecCmd(Argv(items)), redirs + AllRedirs(items))
  }

  function OfPipe(p: Pipe): Cmd {
    if p.Into? then PipeCmd(OfExec(p.exec), OfPipe(p.rest)) else OfExec(p.exec)
  }

  function Backs(c: Cmd, n: nat): Cmd
    decreases n
  {
    if n == 0 then c else Backs(BackCmd(c), n - 1)
  }

  /** The command a line stands for. */
  function OfLine(l: Line): Cmd {
    var c := Backs(OfPipe(l.pipe), l.amps);
    if l.Then? then ListCmd(c, OfLine(l.rest)) else c
  }

  /** parsecmd */
  function ParseCmd(ts: seq<Tok>): Result<Cmd> {
    match ParseLine(ts)
    case Err(e) => Err(e)
    case Ok(v) => if v.1 == [] then Ok(OfLine(v.0)) else Err(Leftovers)
  }

  /** parsecmd accepts exactly the sentences of the grammar, and returns what the tree stands for. */
  lemma ParsesTheGrammar(ts: seq<Tok>)
    ensures ParseCmd(ts).Ok? <==> exists l :: LineOk(l) && YieldLine(l) == ts
    ensures forall l :: LineOk(l) && YieldLine(l) == ts ==> ParseCmd(ts) == Ok(OfLine(l))
  {
    LineSound(ts);
    if ParseCmd(ts).Ok? {
      var v := ParseLine(ts).value;
      assert YieldLine(v.0) + v.1 == YieldLine(v.0);
    }
    forall l | LineOk(l) && YieldLine(l) == ts
      ensures ParseCmd(ts) == Ok(OfLine(l))
    {
      LineComplete(l, []);
      assert YieldLine(l) + [] == ts;
    }
  }

  /** No sentence has two trees. */
  lemma Unambiguous(l: Line, k: Line)
    requires LineOk(l) && LineOk(k) && YieldLine(l) == YieldLine(k)
    ensures l == k
  {
    LineComplete(l, []);
    LineComplete(k, []);
  }
}
