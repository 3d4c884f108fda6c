/** What a line of the shell does, said of its text, and what runcmd of user/sh.c does with the command that
    parsecmd makes of it: the same programs with the same words, connected in the same way. */
module ShellMeaning {
  import opened ShellGrammar
  import opened Wrappers

  /** What a descriptor stands for: what the shell has there, a file opened in some mode, an end of a pipe. */
  datatype Desc = Std(fd: nat) | File(file: Tok, mode: nat) | ReadEnd(n: nat) | WriteEnd(n: nat)

  /** Descriptors 0 and 1. */
  datatype IO = IO(input: Desc, output: Desc)

  /** A program that is started: its words, its descriptors, and whether the shell goes on without it. */
  datatype Job = Job(argv: seq<Tok>, io: IO, back: bool)

  // ----- runcmd -----

  /** The calls of pipe. */
  function Pipes(c: Cmd): nat {
    match c
    case ExecCmd(_) => 0
    case RedirCmd(d, _, _, _) => Pipes(d)
    case PipeCmd(l, r) => 1 + Pipes(l) + Pipes(r)
    case ListCmd(l, r) => Pipes(l) + Pipes(r)
    case BackCmd(d) => Pipes(d)
  }

  /** The programs that runcmd starts, from left to right, with pipes numbered from `n` on. */
  function Runs(c: Cmd, io: IO, back: bool, n: nat): seq<Job> {
    match c
    case ExecCmd(argv) => if argv == [] then [] else [Job(argv, io, back)]
    case RedirCmd(d, file, mode, fd) =>
      Runs(d, if fd == 0 then io.(input := File(file, mode)) else io.(output := File(file, mode)), back, n)
    case PipeCmd(l, r) =>
      Runs(l, io.(output := WriteEnd(n)), back, n + 1) + Runs(r, io.(input := ReadEnd(n)), back, n + 1 + Pipes(l))
    case ListCmd(l, r) => Runs(l, io, back, n) + Runs(r, io, back, n + Pipes(l))
    case BackCmd(d) => Runs(d, io, true, n)
  }

  // ----- What the text says -----

  /** The words that are not files of redirections. */
  function WordsOf(ts: seq<Tok>): seq<Tok> {
    if ts == [] then []
    else if AtRedir(ts) then (if |ts| == 1 then [] else WordsOf(ts[2..]))
    else (if ts[0].Word? then [ts[0]] else []) + WordsOf(ts[1..])
  }

  /** The file behind the first '<'. */
  function FirstIn(ts: seq<Tok>): Option<Tok> {
    if |ts| < 2 then None
    else if ts[0] == Sym('<') then Some(ts[1])
    else FirstIn(ts[1..])
  }

  /** The file behind the first '>' or '>>', and whether it is to be emptied. */
  function FirstOut(ts: seq<Tok>): Option<(Tok, bool)> {
    if |ts| < 2 then None
    else if ts[0] == Sym('>') then Some((ts[1], true))
    else if ts[0] == Sym('+') then Some((ts[1], false))
    else FirstOut(ts[1..])
  }

  /** Input from the first file behind '<', opened for reading; output to the first behind '>' or '>>', opened for
      writing, created if missing and emptied only for '>'. */
  function Opened(io: IO, ts: seq<Tok>): IO {
    IO(match FirstIn(ts) { case Some(f) => File(f, 0x000) case None => io.input },
       match FirstOut(ts) { case Some(f) => File(f.0, if f.1 then 0x601 else 0x201) case None => io.output })
  }

  function Bars(ts: seq<Tok>): nat {
    if ts == [] then 0 else (if ts[0] == Sym('|') then 1 else 0) + Bars(ts[1..])
  }

  function MeansExec(e: Exec, io: IO, back: bool, n: nat): seq<Job> {
    match e
    case Block(line, after) => MeansLine(line, Opened(io, YieldRedirs(after)), back, n)
    case Simple(_, _) =>
      var ts := YieldExec(e);
      if WordsOf(ts) == [] then [] else [Job(WordsOf(ts), Opened(io, ts), back)]
  }

  /** A pipe connects the output of what is to its left with the input of all that is to its right. */
  function MeansPipe(p: Pipe, io: IO, back: bool, n: nat): seq<Job> {
    match p
    case One(e) => MeansExec(e, io, back, n)
    case Into(e, rest) =>
      MeansExec(e, io.(output := WriteEnd(n)), back, n + 1)
      + MeansPipe(rest, io.(input := ReadEnd(n)), back, n + 1 + Bars(YieldExec(e)))
  }

  /** What is before a '&' is left running. */
  function MeansLine(l: Line, io: IO, back: bool, n: nat): seq<Job> {
    MeansPipe(l.pipe, io, back || l.amps > 0, n)
    + if l.Then? then MeansLine(l.rest, io, back, n + Bars(YieldPipe(l.pipe))) else []
  }

  // ----- They agree -----

  /** One redirection, of descriptor 0 or 1. */
  function OpenedBy(io: IO, r: Redir): IO {
    if r.op == '<' then io.(input := File(r.file, 0x000))
    else io.(output := File(r.file, if r.op == '>' then 0x601 else 0x201))
  }

  /** Redirections from the last to the first, as runcmd meets them. */
  function OpenedAll(io: IO, rs: seq<Redir>): IO {
    if rs == [] then io else OpenedBy(OpenedAll(io, rs[1..]), rs[0])
  }

  lemma {:induction false} WrapRuns(c: Cmd, rs: seq<Redir>, io: IO, back: bool, n: nat)
    requires RedirsOk(rs)
    ensures Runs(Wrap(c, rs), io, back, n) == Runs(c, OpenedAll(io, rs), back, n) && Pipes(Wrap(c, rs)) == Pipes(c)
    decreases |rs|
  {
    if rs != [] {
      assert RedirOk(rs[0]);
      WrapRuns(Redirected(c, rs[0]), rs[1..], io, back, n);
    }
  }

  /** A word in front changes nothing. */
  lemma WordFirst(io: IO, t: Tok, ts: seq<Tok>)
    requires t.Word?
    ensures Opened(io, [t] + ts) == Opened(io, ts)
    ensures FirstIn([t] + ts) == FirstIn(ts) && FirstOut([t] + ts) == FirstOut(ts) && Bars([t] + ts) == Bars(ts)
    ensures WordsOf([t] + ts) == [t] + WordsOf(ts)
  {
    assert ([t] + ts)[1..] == ts;
  }

  /** A redirection in front. */
  lemma RedirFirst(io: IO, r: Redir, ts: seq<Tok>)
    requires RedirOk(r)
    ensures Opened(io, [Sym(r.op), r.file] + ts) == OpenedBy(Opened(io, ts), r)
    ensures WordsOf([Sym(r.op), r.file] + ts) == WordsOf(ts) && Bars([Sym(r.op), r.file] + ts) == Bars(ts)
  {
    var all := [Sym(r.op), r.file] + ts;
    WordFirst(io, r.file, ts);
    assert all[1..] == [r.file] + ts && all[2..] == ts;
  }

  lemma {:induction false} RedirsFirst(io: IO, rs: seq<Redir>, ts: seq<Tok>)
    requires RedirsOk(rs)
    ensures Opened(io, YieldRedirs(rs) + ts) == OpenedAll(Opened(io, ts), rs)
    ensures WordsOf(YieldRedirs(rs) + ts) == WordsOf(ts) && Bars(YieldRedirs(rs) + ts) == Bars(ts)
  {
    hide Opened, WordsOf, Bars, OpenedBy;
    if rs == [] {
      assert YieldRedirs(rs) + ts == ts;
    } else {
      assert RedirOk(rs[0]);
      RedirsFirst(io, rs[1..], ts);
      RedirFirst(io, rs[0], YieldRedirs(rs[1..]) + ts);
      assert YieldRedirs(rs) + ts == [Sym(rs[0].op), rs[0].file] + (YieldRedirs(rs[1..]) + ts);
    }
  }

  lemma {:induction false} OpenedBoth(io: IO, a: seq<Redir>, b: seq<Redir>)
    ensures OpenedAll(io, a + b) == OpenedAll(OpenedAll(io, b), a)
  {
    if a == [] {
      assert a + b == b;
    } else {
      assert (a + b)[1..] == a[1..] + b;
      OpenedBoth(io, a[1..], b);
    }
  }

  lemma ItemFirst(io: IO, it: Item, tail: seq<Tok>)
    requires RedirsOk(it.redirs) && it.word.Word?
    ensures var ys := [it.word] + YieldRedirs(it.redirs) + tail;
      && Opened(io, ys) == OpenedAll(Opened(io, tail), it.redirs)
      && WordsOf(ys) == [it.word] + WordsOf(tail) && Bars(ys) == Bars(tail)
  {
    hide *;
    RedirsFirst(io, it.redirs, tail);
    WordFirst(io, it.word, YieldRedirs(it.redirs) + tail);
    assert [it.word] + YieldRedirs(it.redirs) + tail == [it.word] + (YieldRedirs(it.redirs) + tail);
  }

  lemma {:induction false} ItemsFirst(io: IO, its: seq<Item>, ts: seq<Tok>)
    requires ItemsOk(its)
    ensures Opened(io, YieldItems(its) + ts) == OpenedAll(Opened(io, ts), AllRedirs(its))
    ensures WordsOf(YieldItems(its) + ts) == Argv(its) + WordsOf(ts) && Bars(YieldItems(its) + ts) == Bars(ts)
  {
    hide WordsOf, Bars, OpenedAll, RedirsOk, Opened, YieldRedirs;
    NoRedirs(Opened(io, ts));
    if its == [] {
      assert YieldItems(its) + ts == ts;
    } else {
      var it, tail := its[0], YieldItems(its[1..]) + ts;
      ItemsFirst(io, its[1..], ts);
      ItemFirst(io, it, tail);
      OpenedBoth(Opened(io, ts), it.redirs, AllRedirs(its[1..]));
      assert YieldItems(its) + ts == [it.word] + YieldRedirs(it.redirs) + tail;
    }
  }

  lemma NoRedirs(io: IO)
    ensures OpenedAll(io, []) == io && Opened(io, []) == io && WordsOf([]) == [] && Bars([]) == 0
  {
  }

  /** A simple command. */
  lemma SimpleMeans(redirs: seq<Redir>, items: seq<Item>, io: IO)
    requires RedirsOk(redirs) && ItemsOk(items)
    ensures var ts := YieldRedirs(redirs) + YieldItems(items);
      && OpenedAll(io, redirs + AllRedirs(items)) == Opened(io, ts) && Argv(items) == WordsOf(ts) && Bars(ts) == 0
  {
    hide WordsOf, Bars, OpenedAll, RedirsOk, Opened;
    NoRedirs(io);
    ItemsFirst(io, items, []);
    assert YieldItems(items) + [] == YieldItems(items) && Argv(items) + [] == Argv(items);
    RedirsFirst(io, redirs, YieldItems(items));
    OpenedBoth(io, redirs, AllRedirs(items));
  }

  lemma {:induction false} AllRedirsOk(redirs: seq<Redir>, items: seq<Item>)
    requires RedirsOk(redirs) && ItemsOk(items)
    ensures RedirsOk(redirs + AllRedirs(items))
    decreases |items|
  {
    if items != [] {
      AllRedirsOk(items[0].redirs, items[1..]);
    }
  }

  lemma {:induction false} BarsBoth(a: seq<Tok>, b: seq<Tok>)
    ensures Bars(a + b) == Bars(a) + Bars(b)
  {
    if a == [] {
      assert a + b == b;
    } else {
      assert (a + b)[1..] == a[1..] + b;
      BarsBoth(a[1..], b);
    }
  }

  lemma {:induction false} AmpsBars(k: nat)
    ensures Bars(Amps(k)) == 0
  {
    if k > 0 {
      AmpsBars(k - 1);
      assert Amps(k)[1..] == Amps(k - 1);
    }
  }

  lemma OneTok(t: Tok)
    ensures Bars([t]) == if t == Sym('|') then 1 else 0
  {
    assert [t][1..] == [];
  }

  lemma {:induction false} BacksRun(c: Cmd, k: nat, io: IO, back: bool, n: nat)
    ensures Runs(Backs(c, k), io, back, n) == Runs(c, io, back || k > 0, n) && Pipes(Backs(c, k)) == Pipes(c)
    decreases k
  {
    if k > 0 { BacksRun(BackCmd(c), k - 1, io, back, n); }
  }

  lemma {:induction false} ExecMeans(e: Exec, io: IO, back: bool, n: nat)
    requires ExecOk(e)
    ensures Runs(OfExec(e), io, back, n) == MeansExec(e, io, back, n) && Pipes(OfExec(e)) == Bars(YieldExec(e))
    decreases e, 0
  {
    hide WordsOf, Bars, OpenedAll, RedirsOk, Opened, ItemsOk, Wrap, YieldRedirs, YieldItems;
    match e
    case Block(line, after) =>
      NoRedirs(io);
      RedirsFirst(io, after, []);
      assert YieldRedirs(after) + [] == YieldRedirs(after);
      WrapRuns(OfLine(line), after, io, back, n);
      LineMeans(line, OpenedAll(io, after), back, n);
      BarsBoth([Sym('(')] + YieldLine(line) + [Sym(')')], YieldRedirs(after));
      BarsBoth([Sym('(')] + YieldLine(line), [Sym(')')]);
      BarsBoth([Sym('(')], YieldLine(line));
      OneTok(Sym('('));
      OneTok(Sym(')'));
    case Simple(redirs, items) =>
      SimpleMeans(redirs, items, io);
      AllRedirsOk(redirs, items);
      WrapRuns(ExecCmd(Argv(items)), redirs + AllRedirs(items), io, back, n);
  }

  lemma {:induction false} PipeMeans(p: Pipe, io: IO, back: bool, n: nat)
    requires PipeOk(p)
    ensures Runs(OfPipe(p), io, back, n) == MeansPipe(p, io, back, n) && Pipes(OfPipe(p)) == Bars(YieldPipe(p))
    decreases p, 1
  {
    hide Bars, MeansExec, OfExec, YieldExec, ExecOk;
    if p.Into? {
      ExecMeans(p.exec, io.(output := WriteEnd(n)), back, n + 1);
      PipeMeans(p.rest, io.(input := ReadEnd(n)), back, n + 1 + Bars(YieldExec(p.exec)));
      BarsBoth(YieldExec(p.exec), [Sym('|')] + YieldPipe(p.rest));
      BarsBoth([Sym('|')], YieldPipe(p.rest));
      OneTok(Sym('|'));
    } else {
      ExecMeans(p.exec, io, back, n);
      assert YieldPipe(p) == YieldExec(p.exec);
    }
  }

  /** The command of a line runs what the line says. */
  lemma {:induction false} LineMeans(l: Line, io: IO, back: bool, n: nat)
    requires LineOk(l)
    ensures Runs(OfLine(l), io, back, n) == MeansLine(l, io, back, n) && Pipes(OfLine(l)) == Bars(YieldLine(l))
    decreases l, 2
  {
    hide Bars, MeansPipe, OfPipe, YieldPipe, PipeOk, Backs, Amps;
    PipeMeans(l.pipe, io, back || l.amps > 0, n);
    BacksRun(OfPipe(l.pipe), l.amps, io, back, n);
    AmpsBars(l.amps);
    BarsBoth(YieldPipe(l.pipe), Amps(l.amps));
    if l.Then? {
      LineMeans(l.rest, io, back, n + Bars(YieldPipe(l.pipe)));
      BarsBoth(YieldPipe(l.pipe) + Amps(l.amps), [Sym(';')] + YieldLine(l.rest));
      BarsBoth([Sym(';')], YieldLine(l.rest));
      OneTok(Sym(';'));
    } else {
      assert YieldLine(l) == YieldPipe(l.pipe) + Amps(l.amps);
    }
  }

  // ----- The words of a line -----

  function AllWords(js: seq<Job>): seq<Tok> {
    if js == [] then [] else js[0].argv + AllWords(js[1..])
  }

  lemma {:induction false} AllWordsBoth(a: seq<Job>, b: seq<Job>)
    ensures AllWords(a + b) == AllWords(a) + AllWords(b)
  {
    if a == [] {
      assert a + b == b;
    } else {
      assert (a + b)[1..] == a[1..] + b;
      AllWordsBoth(a[1..], b);
    }
  }

  /** A symbol that is no redirection is no word. */
  lemma SymFirst(c: char, ts: seq<Tok>)
    requires !IsRedir(c)
    ensures WordsOf([Sym(c)] + ts) == WordsOf(ts)
  {
    assert ([Sym(c)] + ts)[1..] == ts;
  }

  lemma {:induction false} AmpsFirst(k: nat, ts: seq<Tok>)
    ensures WordsOf(Amps(k) + ts) == WordsOf(ts)
  {
    if k == 0 {
      assert Amps(k) + ts == ts;
    } else {
      AmpsFirst(k - 1, ts);
      SymFirst('&', Amps(k - 1) + ts);
      assert Amps(k) + ts == [Sym('&')] + (Amps(k - 1) + ts);
    }
  }

  lemma {:induction false} ExecWords(e: Exec, io: IO, back: bool, n: nat, ts: seq<Tok>)
    requires ExecOk(e)
    ensures WordsOf(YieldExec(e) + ts) == AllWords(MeansExec(e, io, back, n)) + WordsOf(ts)
    decreases e, 0
  {
    hide WordsOf, OpenedAll, RedirsOk, Opened, ItemsOk, YieldRedirs, YieldItems;
    match e
    case Block(line, after) =>
      var tail := YieldRedirs(after) + ts;
      RedirsFirst(io, after, ts);
      SymFirst(')', tail);
      LineWords(line, Opened(io, YieldRedirs(after)), back, n, [Sym(')')] + tail);
      SymFirst('(', YieldLine(line) + ([Sym(')')] + tail));
      assert YieldExec(e) + ts == [Sym('(')] + (YieldLine(line) + ([Sym(')')] + tail));
    case Simple(redirs, items) =>
      RedirsFirst(io, redirs, YieldItems(items) + ts);
      ItemsFirst(io, items, ts);
      SimpleMeans(redirs, items, io);
      OneJob(e, io, back, n);
      assert YieldExec(e) + ts == YieldRedirs(redirs) + (YieldItems(items) + ts);
  }

  lemma OneJob(e: Exec, io: IO, back: bool, n: nat)
    requires e.Simple?
    ensures AllWords(MeansExec(e, io, back, n)) == WordsOf(YieldExec(e))
  {
    hide WordsOf;
    var js := MeansExec(e, io, back, n);
    assert js != [] ==> js[1..] == [];
  }

  lemma {:induction false} PipeWords(p: Pipe, io: IO, back: bool, n: nat, ts: seq<Tok>)
    requires PipeOk(p)
    ensures WordsOf(YieldPipe(p) + ts) == AllWords(MeansPipe(p, io, back, n)) + WordsOf(ts)
    decreases p, 1
  {
    hide WordsOf, MeansExec, YieldExec, ExecOk, Bars, AllWords;
    if p.Into? {
      var tail := YieldPipe(p.rest) + ts;
      var io', k := io.(input := ReadEnd(n)), n + 1 + Bars(YieldExec(p.exec));
      PipeWords(p.rest, io', back, k, ts);
      SymFirst('|', tail);
      ExecWords(p.exec, io.(output := WriteEnd(n)), back, n + 1, [Sym('|')] + tail);
      AllWordsBoth(MeansExec(p.exec, io.(output := WriteEnd(n)), back, n + 1), MeansPipe(p.rest, io', back, k));
      assert YieldPipe(p) + ts == YieldExec(p.exec) + ([Sym('|')] + tail);
    } else {
      ExecWords(p.exec, io, back, n, ts);
      assert YieldPipe(p) == YieldExec(p.exec);
    }
  }

  /** The words of the programs, from left to right, are those of the line. */
  lemma {:induction false} LineWords(l: Line, io: IO, back: bool, n: nat, ts: seq<Tok>)
    requires LineOk(l)
    ensures WordsOf(YieldLine(l) + ts) == AllWords(MeansLine(l, io, back, n)) + WordsOf(ts)
    decreases l, 2
  {
    hide WordsOf, MeansPipe, YieldPipe, PipeOk, Bars, AllWords, Amps;
    var b, k := back || l.amps > 0, n + Bars(YieldPipe(l.pipe));
    if l.Then? {
      var tail := YieldLine(l.rest) + ts;
      LineWords(l.rest, io, back, k, ts);
      SymFirst(';', tail);
      AmpsFirst(l.amps, [Sym(';')] + tail);
      PipeWords(l.pipe, io, b, n, Amps(l.amps) + ([Sym(';')] + tail));
      AllWordsBoth(MeansPipe(l.pipe, io, b, n), MeansLine(l.rest, io, back, k));
      assert YieldLine(l) + ts == YieldPipe(l.pipe) + (Amps(l.amps) + ([Sym(';')] + tail));
    } else {
      AmpsFirst(l.amps, ts);
      PipeWords(l.pipe, io, b, n, Amps(l.amps) + ts);
      assert YieldLine(l) + ts == YieldPipe(l.pipe) + (Amps(l.amps) + ts);
      assert MeansLine(l, io, back, n) == MeansPipe(l.pipe, io, b, n);
    }
  }

  /** parsecmd and runcmd: what is parsed and run is what the line says, and its words are those of the line. */
  lemma ParsedRuns(ts: seq<Tok>, io: IO)
    requires ParseCmd(ts).Ok?
    ensures exists l :: LineOk(l) && YieldLine(l) == ts
                        && Runs(ParseCmd(ts).value, io, false, 0) == MeansLine(l, io, false, 0)
    ensures AllWords(Runs(ParseCmd(ts).value, io, false, 0)) == WordsOf(ts)
  {
    ParsesTheGrammar(ts);
    var l :| LineOk(l) && YieldLine(l) == ts;
    LineMeans(l, io, false, 0);
    LineWords(l, io, false, 0, []);
    assert YieldLine(l) + [] == ts;
  }

  // ----- What a refusal says of the line -----

  function WordCount(ts: seq<Tok>): nat {
    if ts == [] then 0 else (if ts[0].Word? then 1 else 0) + WordCount(ts[1..])
  }

  /** The token behind `i` is no file though token `i` is a redirection. */
  predicate NoFileAt(ts: seq<Tok>, i: nat) {
    i < |ts| && (ts[i] == Sym('<') || ts[i] == Sym('>') || ts[i] == Sym('+')) && (i + 1 == |ts| || !ts[i + 1].Word?)
  }

  /** Token `i` is a symbol that is no redirection and cannot end a simple command. */
  predicate OddAt(ts: seq<Tok>, i: nat) {
    i < |ts| && ts[i].Sym? && ts[i].c !in {'<', '>', '+', '|', ')', '&', ';'}
  }

  predicate OpenAt(ts: seq<Tok>, i: nat) {
    i < |ts| && ts[i] == Sym('(')
  }

  /** What the error `e` says of the tokens from the one on at which it was found, with `argc` words before
      them. */
  ghost predicate Blames(ts: seq<Tok>, argc: nat, e: Error) {
    match e
    case MissingFile => exists i: nat :: NoFileAt(ts, i)
    case Syntax => exists i: nat :: OddAt(ts, i)
    case TooManyArgs => argc + WordCount(ts) >= 10
    case MissingParen => exists i: nat :: OpenAt(ts, i)
    case Leftovers => false
  }

  lemma {:induction false} CountBoth(a: seq<Tok>, b: seq<Tok>)
    ensures WordCount(a + b) == WordCount(a) + WordCount(b)
  {
    if a == [] {
      assert a + b == b;
    } else {
      assert (a + b)[1..] == a[1..] + b;
      CountBoth(a[1..], b);
    }
  }

  /** What is wrong with a rest is wrong with the whole. */
  lemma RestBlames(a: seq<Tok>, b: seq<Tok>, argc: nat, n: nat, e: Error)
    requires Blames(b, n, e) && n <= argc + WordCount(a)
    ensures Blames(a + b, argc, e)
  {
    CountBoth(a, b);
    var k := |a|;
    if e == MissingFile {
      var i: nat :| NoFileAt(b, i);
      assert NoFileAt(a + b, k + i);
    } else if e == Syntax {
      var i: nat :| OddAt(b, i);
      assert OddAt(a + b, k + i);
    } else if e == MissingParen {
      var i: nat :| OpenAt(b, i);
      assert OpenAt(a + b, k + i);
    }
  }

  lemma {:induction false} RedirsBlame(ts: seq<Tok>)
    ensures ParseRedirs(ts).Err? ==> Blames(ts, 0, ParseRedirs(ts).error)
  {
    if AtRedir(ts) {
      if |ts| < 2 || !ts[1].Word? {
        assert NoFileAt(ts, 0);
      } else {
        RedirsBlame(ts[2..]);
        assert ts == ts[..2] + ts[2..];
        if ParseRedirs(ts).Err? { RestBlames(ts[..2], ts[2..], 0, 0, ParseRedirs(ts).error); }
      }
    }
  }

  lemma {:induction false} ItemsBlame(ts: seq<Tok>, argc: nat)
    requires !AtRedir(ts)
    ensures ParseItems(ts, argc).Err? ==> Blames(ts, argc, ParseItems(ts, argc).error)
    decreases |ts|
  {
    hide Blames, ParseRedirs;
    if !AtEnd(ts) {
      var e := ParseItems(ts, argc);
      FirstBlame(ts, argc);
      if ts[0].Word? && argc + 1 < MAXARGS {
        assert ts == ts[..1] + ts[1..];
        OneWord(ts);
        RedirsBlame(ts[1..]);
        var p := ParseRedirs(ts[1..]);
        if p.Err? {
          RestBlames(ts[..1], ts[1..], argc, 0, p.error);
        } else {
          RedirsSound(ts[1..]);
          ItemsBlame(p.value.1, argc + 1);
          if e.Err? {
            RestBlames(YieldRedirs(p.value.0), p.value.1, argc + 1, argc + 1, e.error);
            RestBlames(ts[..1], ts[1..], argc, argc + 1, e.error);
          }
        }
      }
    }
  }

  lemma OneWord(ts: seq<Tok>)
    requires ts != [] && ts[0].Word?
    ensures WordCount(ts[..1]) == 1
  {
    assert ts[..1][1..] == [];
  }

  lemma FirstBlame(ts: seq<Tok>, argc: nat)
    requires !AtEnd(ts)
    ensures !ts[0].Word? && !AtRedir(ts) ==> Blames(ts, argc, Syntax)
    ensures ts[0].Word? && argc + 1 >= MAXARGS ==> Blames(ts, argc, TooManyArgs)
  {
    if !ts[0].Word? && !AtRedir(ts) { assert OddAt(ts, 0); }
  }

  lemma {:induction false} ExecBlames(ts: seq<Tok>)
    ensures ParseExec(ts).Err? ==> Blames(ts, 0, ParseExec(ts).error)
    decreases |ts|, 1
  {
    hide Blames, ParseRedirs, ParseItems, ParseLine;
    var r := ParseExec(ts);
    if r.Err? && At(ts, '(') {
      assert ts == ts[..1] + ts[1..];
      ParenBlames(ts);
      LineBlames(ts[1..]);
      var p := ParseLine(ts[1..]);
      if p.Err? {
        RestBlames(ts[..1], ts[1..], 0, 0, r.error);
      } else if At(p.value.1, ')') {
        LineSound(ts[1..]);
        var v := p.value.1;
        RedirsBlame(v[1..]);
        assert v == v[..1] + v[1..];
        RestBlames(v[..1], v[1..], 0, 0, r.error);
        RestBlames(YieldLine(p.value.0), v, 0, 0, r.error);
        RestBlames(ts[..1], ts[1..], 0, 0, r.error);
      }
    } else if r.Err? {
      RedirsBlame(ts);
      var p := ParseRedirs(ts);
      if p.Ok? {
        RedirsSound(ts);
        ItemsBlame(p.value.1, 0);
        RestBlames(YieldRedirs(p.value.0), p.value.1, 0, 0, r.error);
      }
    }
  }

  lemma ParenBlames(ts: seq<Tok>)
    requires At(ts, '(')
    ensures Blames(ts, 0, MissingParen)
  {
    assert OpenAt(ts, 0);
  }

  lemma {:induction false} PipeBlames(ts: seq<Tok>)
    ensures ParsePipe(ts).Err? ==> Blames(ts, 0, ParsePipe(ts).error)
    decreases |ts|, 2
  {
    hide Blames, ParseExec;
    var r := ParsePipe(ts);
    ExecBlames(ts);
    var p := ParseExec(ts);
    if r.Err? && p.Ok? {
      var v := p.value.1;
      ExecSound(ts);
      PipeBlames(v[1..]);
      assert v == v[..1] + v[1..];
      RestBlames(v[..1], v[1..], 0, 0, r.error);
      RestBlames(YieldExec(p.value.0), v, 0, 0, r.error);
    }
  }

  lemma {:induction false} LineBlames(ts: seq<Tok>)
    ensures ParseLine(ts).Err? ==> Blames(ts, 0, ParseLine(ts).error)
    decreases |ts|, 3
  {
    hide Blames, ParsePipe, CountAmps;
    var r := ParseLine(ts);
    PipeBlames(ts);
    var p := ParsePipe(ts);
    if r.Err? && p.Ok? {
      PipeSound(ts);
      var v := p.value.1;
      var n := CountAmps(v);
      LineBlames(v[n..][1..]);
      assert v[n..][1..] == v[n + 1..] && v == v[..n + 1] + v[n + 1..];
      RestBlames(v[..n + 1], v[n + 1..], 0, 0, r.error);
      RestBlames(YieldPipe(p.value.0), v, 0, 0, r.error);
    }
  }

  /** What a panic of parsecmd says of the line: a redirection without a file, a symbol that cannot stand in a
      simple command, ten words or more, an opening parenthesis, or a sentence and something behind it. */
  lemma RefusalMeans(ts: seq<Tok>)
    requires ParseCmd(ts).Err?
    ensures if ParseCmd(ts) == Err(Leftovers) then exists l :: LineOk(l) && YieldLine(l) < ts
            else Blames(ts, 0, ParseCmd(ts).error)
  {
    LineBlames(ts);
    LineSound(ts);
    if ParseLine(ts).Ok? {
      var v := ParseLine(ts).value;
      assert LineOk(v.0) && YieldLine(v.0) < ts;
    }
  }
}
