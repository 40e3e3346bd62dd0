/** The grammar of user/sh.c: what its parser makes of a sequence of tokens, for words of any kind. */
module Shell {
  /** Symbols stand for themselves, and '+' for ">>". */
  datatype Tok<W> = Sym(c: char) | Word(w: W)

  /** Redirections by the token that makes them: '<', '>' or '+'. */
  datatype Cmd<W> =
    | Exec(argv: seq<W>)
    | Redir(cmd: Cmd<W>, file: W, mode: char)
    | Pipe(left: Cmd<W>, right: Cmd<W>)
    | List(left: Cmd<W>, right: Cmd<W>)
    | Back(cmd: Cmd<W>)

  datatype Result<W> = Ok(cmd: Cmd<W>, rest: seq<Tok<W>>) | Panic(message: string)

  const MAXARGS := 10

  predicate IsSym<W>(ts: seq<Tok<W>>, chars: string) {
    ts != [] && ts[0].Sym? && ts[0].c in chars
  }

  // ---------- the parser ----------

  function ParseLine<W>(ts: seq<Tok<W>>): (r: Result<W>)
    ensures r.Ok? ==> |r.rest| <= |ts|
    decreases |ts|, 3
  {
    var p := ParsePipe(ts);
    if p.Panic? then p else
    var b := Backs(p.cmd, p.rest);
    if !IsSym(b.1, ";") then Ok(b.0, b.1) else
    var l := ParseLine(b.1[1..]);
    if l.Panic? then l else Ok(List(b.0, l.cmd), l.rest)
  }

  /** The loop over "&". */
  function Backs<W>(cmd: Cmd<W>, ts: seq<Tok<W>>): (r: (Cmd<W>, seq<Tok<W>>))
    ensures |r.1| <= |ts|
    decreases |ts|
  {
    if IsSym(ts, "&") then Backs(Back(cmd), ts[1..]) else (cmd, ts)
  }

  function ParsePipe<W>(ts: seq<Tok<W>>): (r: Result<W>)
    ensures r.Ok? ==> |r.rest| <= |ts|
    decreases |ts|, 2
  {
    var e := ParseExec(ts);
    if e.Panic? || !IsSym(e.rest, "|") then e else
    var p := ParsePipe(e.rest[1..]);
    if p.Panic? then p else Ok(Pipe(e.cmd, p.cmd), p.rest)
  }

  function ParseRedirs<W>(cmd: Cmd<W>, ts: seq<Tok<W>>): (r: Result<W>)
    ensures r.Ok? ==> |r.rest| <= |ts|
    decreases |ts|, 0
  {
    if !IsSym(ts, "<>+") then Ok(cmd, ts)
    else if |ts| < 2 || !ts[1].Word? then Panic("missing file for redirection")
    else ParseRedirs(Redir(cmd, ts[1].w, ts[0].c), ts[2..])
  }

  function ParseBlock<W>(ts: seq<Tok<W>>): (r: Result<W>)
    requires IsSym(ts, "(")
    ensures r.Ok? ==> |r.rest| <= |ts|
    decreases |ts|, 0
  {
    var l := ParseLine(ts[1..]);
    if l.Panic? then l
    else if !IsSym(l.rest, ")") then Panic("syntax - missing )")
    else ParseRedirs(l.cmd, l.rest[1..])
  }

  function ParseExec<W>(ts: seq<Tok<W>>): (r: Result<W>)
    ensures r.Ok? ==> |r.rest| <= |ts|
    decreases |ts|, 1
  {
    if IsSym(ts, "(") then ParseBlock(ts)
    else
      var r := ParseRedirs(Exec([]), ts);
      if r.Panic? then r else Args([], r.cmd, r.rest)
  }

  /** The loop over arguments: `argv` so far, in the command `cmd` that redirections have wrapped. */
  function Args<W>(argv: seq<W>, cmd: Cmd<W>, ts: seq<Tok<W>>): (r: Result<W>)
    ensures r.Ok? ==> |r.rest| <= |ts|
    decreases |ts|, 0
  {
    if IsSym(ts, "|)&;") || ts == [] then Ok(cmd, ts)
    else if !ts[0].Word? then Panic("syntax")
    else if |argv| + 1 >= MAXARGS then Panic("too many args")
    else
      var r := ParseRedirs(WithArg(cmd, ts[0].w), ts[1..]);
      if r.Panic? then r else Args(argv + [ts[0].w], r.cmd, r.rest)
  }

  /** The exec command inside the redirections gets another argument. */
  function WithArg<W>(cmd: Cmd<W>, w: W): (r: Cmd<W>) {
    match cmd
    case Exec(argv) => Exec(argv + [w])
    case Redir(c, file, mode) => Redir(WithArg(c, w), file, mode)
    case _ => cmd
  }

  // ---------- printing and parsing back ----------

  function Words<W>(argv: seq<W>): (ts: seq<Tok<W>>) {
    seq(|argv|, i requires 0 <= i < |argv| => Word(argv[i]))
  }

  function Parens<W>(ts: seq<Tok<W>>): (r: seq<Tok<W>>) {
    [Sym('(')] + ts + [Sym(')')]
  }

  /** The command with every part in parentheses. */
  function Print<W>(c: Cmd<W>): (ts: seq<Tok<W>>) {
    match c
    case Exec(argv) => Words(argv)
    case Redir(d, file, mode) => Parens(Print(d)) + [Sym(mode), Word(file)]
    case Pipe(l, r) => Parens(Print(l)) + [Sym('|')] + Parens(Print(r))
    case List(l, r) => Parens(Print(l)) + [Sym(';')] + Parens(Print(r))
    case Back(d) => Parens(Print(d)) + [Sym('&')]
  }

  /** At most nine arguments, and redirections of the three kinds. */
  predicate Printable<W>(c: Cmd<W>) {
    match c
    case Exec(argv) => |argv| < MAXARGS
    case Redir(d, _, mode) => mode in "<>+" && Printable(d)
    case Pipe(l, r) => Printable(l) && Printable(r)
    case List(l, r) => Printable(l) && Printable(r)
    case Back(d) => Printable(d)
  }

  /** The end of the input or of a block. */
  predicate AtEnd<W>(ts: seq<Tok<W>>) {
    ts == [] || ts[0] == Sym(')')
  }

  lemma {:induction false} ArgsOfWords<W>(done: seq<W>, argv: seq<W>, rest: seq<Tok<W>>)
    requires |done| + |argv| < MAXARGS && AtEnd(rest)
    ensures Args(done, Exec(done), Words(argv) + rest) == Ok(Exec(done + argv), rest)
    decreases |argv|
  {
    var ts := Words(argv) + rest;
    if argv == [] {
      assert ts == rest && done + argv == done;
    } else {
      assert ts[0] == Word(argv[0]) && ts[1..] == Words(argv[1..]) + rest;
      assert !IsSym(ts, "|)&;");
      assert !IsSym(ts[1..], "<>+") by {
        assert |argv| > 1 ==> ts[1..][0] == Word(argv[1]);
      }
      ArgsOfWords(done + [argv[0]], argv[1..], rest);
      assert done + [argv[0]] + argv[1..] == done + argv;
    }
  }

  /** A parenthesised command, then whatever redirections follow. */
  lemma BlockBack<W>(c: Cmd<W>, rest: seq<Tok<W>>)
    requires ParseLine(Print(c) + [Sym(')')] + rest) == Ok(c, [Sym(')')] + rest)
    ensures ParseExec(Parens(Print(c)) + rest) == ParseRedirs(c, rest)
  {
    var ts := Parens(Print(c)) + rest;
    assert ts[0] == Sym('(') && ts[1..] == Print(c) + [Sym(')')] + rest;
    assert ([Sym(')')] + rest)[1..] == rest;
  }

  lemma NoRedirs<W>(c: Cmd<W>, ts: seq<Tok<W>>)
    requires !IsSym(ts, "<>+")
    ensures ParseRedirs(c, ts) == Ok(c, ts)
  {
  }

  lemma NoPipe<W>(ts: seq<Tok<W>>)
    requires ParseExec(ts).Ok? && !IsSym(ParseExec(ts).rest, "|")
    ensures ParsePipe(ts) == ParseExec(ts)
  {
  }

  lemma LineEnds<W>(ts: seq<Tok<W>>, c: Cmd<W>, rest: seq<Tok<W>>)
    requires ParsePipe(ts) == Ok(c, rest) && AtEnd(rest)
    ensures ParseLine(ts) == Ok(c, rest)
  {
  }

  /** Parsing what was printed gives the command back, whatever ends it. */
  lemma {:induction false} PrintParse<W>(c: Cmd<W>, rest: seq<Tok<W>>)
    requires Printable(c) && AtEnd(rest)
    ensures ParseLine(Print(c) + rest) == Ok(c, rest)
    decreases c, 1
  {
    match c
    case Exec(argv) => ExecBack(argv, rest);
    case Redir(d, file, mode) => RedirBack(d, file, mode, rest);
    case Pipe(l, r) => PipeBack(l, r, rest);
    case List(l, r) => ListBack(l, r, rest);
    case Back(d) => BackBack(d, rest);
  }

  lemma ExecBack<W>(argv: seq<W>, rest: seq<Tok<W>>)
    requires |argv| < MAXARGS && AtEnd(rest)
    ensures ParseLine(Words(argv) + rest) == Ok(Exec(argv), rest)
  {
    var ts := Words(argv) + rest;
    assert argv != [] ==> ts[0] == Word(argv[0]);
    assert argv == [] ==> ts == rest;
    NoRedirs(Exec([]), ts);
    ArgsOfWords([], argv, rest);
    assert [] + argv == argv;
    NoPipe(ts);
    LineEnds(ts, Exec(argv), rest);
  }

  lemma RedirBack<W>(d: Cmd<W>, file: W, mode: char, rest: seq<Tok<W>>)
    requires Printable(Redir(d, file, mode)) && AtEnd(rest)
    ensures ParseLine(Print(Redir(d, file, mode)) + rest) == Ok(Redir(d, file, mode), rest)
    decreases Redir(d, file, mode), 0
  {
    var tail: seq<Tok<W>> := [Sym(mode), Word(file)] + rest;
    var ts := Print(Redir(d, file, mode)) + rest;
    assert ts == Parens(Print(d)) + tail;
    Inner(d, tail);
    assert tail[2..] == rest;
    NoRedirs(Redir(d, file, mode), rest);
    NoPipe(ts);
    LineEnds(ts, Redir(d, file, mode), rest);
  }

  /** A part in parentheses parses as that part. */
  lemma Inner<W>(d: Cmd<W>, tail: seq<Tok<W>>)
    requires Printable(d)
    ensures ParseExec(Parens(Print(d)) + tail) == ParseRedirs(d, tail)
    decreases d, 2
  {
    PrintParse(d, [Sym(')')] + tail);
    assert Print(d) + ([Sym(')')] + tail) == Print(d) + [Sym(')')] + tail;
    BlockBack(d, tail);
  }

  lemma PipeBack<W>(l: Cmd<W>, r: Cmd<W>, rest: seq<Tok<W>>)
    requires Printable(l) && Printable(r) && AtEnd(rest)
    ensures ParseLine(Print(Pipe(l, r)) + rest) == Ok(Pipe(l, r), rest)
    decreases Pipe(l, r), 0
  {
    var right := Parens(Print(r)) + rest;
    var tail := [Sym('|')] + right;
    var ts := Print(Pipe(l, r)) + rest;
    assert ts == Parens(Print(l)) + tail && tail[1..] == right;
    Inner(l, tail);
    NoRedirs(l, tail);
    Inner(r, rest);
    NoRedirs(r, rest);
    NoPipe(right);
    LineEnds(ts, Pipe(l, r), rest);
  }

  lemma ListBack<W>(l: Cmd<W>, r: Cmd<W>, rest: seq<Tok<W>>)
    requires Printable(l) && Printable(r) && AtEnd(rest)
    ensures ParseLine(Print(List(l, r)) + rest) == Ok(List(l, r), rest)
    decreases List(l, r), 0
  {
    var right := Parens(Print(r)) + rest;
    var tail := [Sym(';')] + right;
    var ts := Print(List(l, r)) + rest;
    assert ts == Parens(Print(l)) + tail && tail[1..] == right;
    Inner(l, tail);
    NoRedirs(l, tail);
    NoPipe(ts);
    assert Backs(l, tail) == (l, tail);
    Inner(r, rest);
    NoRedirs(r, rest);
    NoPipe(right);
    LineEnds(right, r, rest);
  }

  lemma BackBack<W>(d: Cmd<W>, rest: seq<Tok<W>>)
    requires Printable(d) && AtEnd(rest)
    ensures ParseLine(Print(Back(d)) + rest) == Ok(Back(d), rest)
    decreases Back(d), 0
  {
    var tail := [Sym('&')] + rest;
    var ts := Print(Back(d)) + rest;
    assert ts == Parens(Print(d)) + tail && tail[1..] == rest;
    Inner(d, tail);
    NoRedirs(d, tail);
    NoPipe(ts);
    assert Backs(d, tail) == Backs(Back(d), rest) == (Back(d), rest);
  }

  // ---------- words of another kind ----------

  function MapTok<A, B>(f: A -> B, t: Tok<A>): (r: Tok<B>) {
    match t
    case Sym(c) => Sym(c)
    case Word(w) => Word(f(w))
  }

  function MapToks<A, B>(f: A -> B, ts: seq<Tok<A>>): (r: seq<Tok<B>>) {
    seq(|ts|, i requires 0 <= i < |ts| => MapTok(f, ts[i]))
  }

  function MapCmd<A, B>(f: A -> B, c: Cmd<A>): (r: Cmd<B>) {
    match c
    case Exec(argv) => Exec(seq(|argv|, i requires 0 <= i < |argv| => f(argv[i])))
    case Redir(d, file, mode) => Redir(MapCmd(f, d), f(file), mode)
    case Pipe(l, r) => Pipe(MapCmd(f, l), MapCmd(f, r))
    case List(l, r) => List(MapCmd(f, l), MapCmd(f, r))
    case Back(d) => Back(MapCmd(f, d))
  }

  function MapResult<A, B>(f: A -> B, r: Result<A>): (s: Result<B>) {
    if r.Ok? then Ok(MapCmd(f, r.cmd), MapToks(f, r.rest)) else Panic(r.message)
  }

  lemma MapTail<A, B>(f: A -> B, ts: seq<Tok<A>>, n: nat)
    requires n <= |ts|
    ensures MapToks(f, ts[n..]) == MapToks(f, ts)[n..]
  {
  }

  lemma MapSym<A, B>(f: A -> B, ts: seq<Tok<A>>, chars: string)
    ensures IsSym(MapToks(f, ts), chars) <==> IsSym(ts, chars)
  {
  }

  lemma MapArg<A, B>(f: A -> B, c: Cmd<A>, w: A)
    ensures MapCmd(f, WithArg(c, w)) == WithArg(MapCmd(f, c), f(w))
  {
    match c
    case Exec(argv) =>
      assert MapCmd(f, WithArg(c, w)).argv == WithArg(MapCmd(f, c), f(w)).argv;
    case Redir(d, _, _) => MapArg(f, d, w);
    case _ =>
  }

  lemma {:induction false} MapRedirs<A, B>(f: A -> B, c: Cmd<A>, ts: seq<Tok<A>>)
    ensures ParseRedirs(MapCmd(f, c), MapToks(f, ts)) == MapResult(f, ParseRedirs(c, ts))
    decreases |ts|, 0
  {
    MapSym(f, ts, "<>+");
    if IsSym(ts, "<>+") && |ts| >= 2 && ts[1].Word? {
      MapTail(f, ts, 2);
      MapRedirs(f, Redir(c, ts[1].w, ts[0].c), ts[2..]);
    }
  }

  lemma {:induction false} MapArgs<A, B>(f: A -> B, argv: seq<A>, argv': seq<B>, c: Cmd<A>, ts: seq<Tok<A>>)
    requires |argv'| == |argv|
    ensures Args(argv', MapCmd(f, c), MapToks(f, ts)) == MapResult(f, Args(argv, c, ts))
    decreases |ts|, 0
  {
    MapSym(f, ts, "|)&;");
    if !(IsSym(ts, "|)&;") || ts == []) && ts[0].Word? && |argv| + 1 < MAXARGS {
      var w := ts[0].w;
      MapTail(f, ts, 1);
      MapArg(f, c, w);
      MapRedirs(f, WithArg(c, w), ts[1..]);
      var r := ParseRedirs(WithArg(c, w), ts[1..]);
      if r.Ok? {
        MapArgs(f, argv + [w], argv' + [f(w)], r.cmd, r.rest);
      }
    }
  }

  lemma {:induction false} MapBacks<A, B>(f: A -> B, c: Cmd<A>, ts: seq<Tok<A>>)
    ensures var r := Backs(c, ts); Backs(MapCmd(f, c), MapToks(f, ts)) == (MapCmd(f, r.0), MapToks(f, r.1))
    decreases |ts|
  {
    MapSym(f, ts, "&");
    if IsSym(ts, "&") {
      MapTail(f, ts, 1);
      MapBacks(f, Back(c), ts[1..]);
    }
  }

  lemma {:induction false} MapExec<A, B>(f: A -> B, ts: seq<Tok<A>>)
    ensures ParseExec(MapToks(f, ts)) == MapResult(f, ParseExec(ts))
    decreases |ts|, 1
  {
    MapSym(f, ts, "(");
    if IsSym(ts, "(") {
      MapTail(f, ts, 1);
      MapLine(f, ts[1..]);
      var l := ParseLine(ts[1..]);
      if l.Ok? {
        MapSym(f, l.rest, ")");
        if IsSym(l.rest, ")") {
          MapTail(f, l.rest, 1);
          MapRedirs(f, l.cmd, l.rest[1..]);
        }
      }
    } else {
      assert MapCmd(f, Exec([])) == Exec([]);
      MapRedirs(f, Exec([]), ts);
      var r := ParseRedirs(Exec([]), ts);
      if r.Ok? {
        MapArgs(f, [], [], r.cmd, r.rest);
      }
    }
  }

  lemma {:induction false} MapPipe<A, B>(f: A -> B, ts: seq<Tok<A>>)
    ensures ParsePipe(MapToks(f, ts)) == MapResult(f, ParsePipe(ts))
    decreases |ts|, 2
  {
    MapExec(f, ts);
    var e := ParseExec(ts);
    if e.Ok? {
      MapSym(f, e.rest, "|");
      if IsSym(e.rest, "|") {
        MapTail(f, e.rest, 1);
        MapPipe(f, e.rest[1..]);
      }
    }
  }

  /** The parser does not look into words. */
  lemma {:induction false} MapLine<A, B>(f: A -> B, ts: seq<Tok<A>>)
    ensures ParseLine(MapToks(f, ts)) == MapResult(f, ParseLine(ts))
    decreases |ts|, 3
  {
    MapPipe(f, ts);
    var p := ParsePipe(ts);
    if p.Ok? {
      MapBacks(f, p.cmd, p.rest);
      var b := Backs(p.cmd, p.rest);
      MapSym(f, b.1, ";");
      if IsSym(b.1, ";") {
        MapTail(f, b.1, 1);
        MapLine(f, b.1[1..]);
      }
    }
  }

  // ---------- where words come from ----------

  /** Every word of the command is one of `ok`. */
  ghost predicate Uses<W(!new)>(c: Cmd<W>, ok: iset<W>) {
    match c
    case Exec(argv) => forall i | 0 <= i < |argv| :: argv[i] in ok
    case Redir(d, file, _) => Uses(d, ok) && file in ok
    case Pipe(l, r) => Uses(l, ok) && Uses(r, ok)
    case List(l, r) => Uses(l, ok) && Uses(r, ok)
    case Back(d) => Uses(d, ok)
  }

  ghost predicate Has<W(!new)>(ts: seq<Tok<W>>, ok: iset<W>) {
    forall i | 0 <= i < |ts| :: ts[i].Word? ==> ts[i].w in ok
  }

  ghost predicate UsesResult<W(!new)>(r: Result<W>, ok: iset<W>) {
    r.Ok? ==> Uses(r.cmd, ok) && Has(r.rest, ok)
  }

  lemma UsesArg<W(!new)>(c: Cmd<W>, w: W, ok: iset<W>)
    requires Uses(c, ok) && w in ok
    ensures Uses(WithArg(c, w), ok)
  {
  }

  lemma {:induction false} RedirWords<W(!new)>(c: Cmd<W>, ts: seq<Tok<W>>, ok: iset<W>)
    requires Uses(c, ok) && Has(ts, ok)
    ensures UsesResult(ParseRedirs(c, ts), ok)
    decreases |ts|
  {
    if IsSym(ts, "<>+") && |ts| >= 2 && ts[1].Word? {
      RedirWords(Redir(c, ts[1].w, ts[0].c), ts[2..], ok);
    }
  }

  lemma {:induction false} ArgsWords<W(!new)>(argv: seq<W>, c: Cmd<W>, ts: seq<Tok<W>>, ok: iset<W>)
    requires Uses(c, ok) && Has(ts, ok)
    ensures UsesResult(Args(argv, c, ts), ok)
    decreases |ts|
  {
    if !(IsSym(ts, "|)&;") || ts == []) && ts[0].Word? && |argv| + 1 < MAXARGS {
      UsesArg(c, ts[0].w, ok);
      RedirWords(WithArg(c, ts[0].w), ts[1..], ok);
      var r := ParseRedirs(WithArg(c, ts[0].w), ts[1..]);
      if r.Ok? {
        ArgsWords(argv + [ts[0].w], r.cmd, r.rest, ok);
      }
    }
  }

  lemma {:induction false} BacksWords<W(!new)>(c: Cmd<W>, ts: seq<Tok<W>>, ok: iset<W>)
    requires Uses(c, ok) && Has(ts, ok)
    ensures Uses(Backs(c, ts).0, ok) && Has(Backs(c, ts).1, ok)
    decreases |ts|
  {
    if IsSym(ts, "&") {
      BacksWords(Back(c), ts[1..], ok);
    }
  }

  /** Every word of a parsed command is a word of the input. */
  lemma {:induction false} LineWords<W(!new)>(ts: seq<Tok<W>>, ok: iset<W>)
    requires Has(ts, ok)
    ensures UsesResult(ParseLine(ts), ok)
    decreases |ts|, 3
  {
    PipeWords(ts, ok);
    var p := ParsePipe(ts);
    if p.Ok? {
      BacksWords(p.cmd, p.rest, ok);
      var b := Backs(p.cmd, p.rest);
      if IsSym(b.1, ";") {
        LineWords(b.1[1..], ok);
      }
    }
  }

  lemma {:induction false} PipeWords<W(!new)>(ts: seq<Tok<W>>, ok: iset<W>)
    requires Has(ts, ok)
    ensures UsesResult(ParsePipe(ts), ok)
    decreases |ts|, 2
  {
    ExecWords(ts, ok);
    var e := ParseExec(ts);
    if e.Ok? && IsSym(e.rest, "|") {
      PipeWords(e.rest[1..], ok);
    }
  }

  lemma {:induction false} ExecWords<W(!new)>(ts: seq<Tok<W>>, ok: iset<W>)
    requires Has(ts, ok)
    ensures UsesResult(ParseExec(ts), ok)
    decreases |ts|, 1
  {
    if IsSym(ts, "(") {
      LineWords(ts[1..], ok);
      var l := ParseLine(ts[1..]);
      if l.Ok? && IsSym(l.rest, ")") {
        RedirWords(l.cmd, l.rest[1..], ok);
      }
    } else {
      RedirWords(Exec([]), ts, ok);
      var r := ParseRedirs(Exec([]), ts);
      if r.Ok? {
        ArgsWords([], r.cmd, r.rest, ok);
      }
    }
  }
}
