/** The grammar that the parser of user/sh.c follows, written as trees of what stands in the input: the
    parser accepts exactly the inputs of these trees, and makes of each the command its tree stands for. */
module ShellGrammar {
  import opened Shell
  import opened ShellParser

  /** "<", ">" or ">>" and a file. */
  datatype To<W> = To(mode: char, file: W)

  /** What a simple command consists of. */
  datatype Item<W> = Arg(w: W) | File(to: To<W>)

  datatype LineTree<W> = Last(pipe: PipeTree<W>, backs: nat) | Then(pipe: PipeTree<W>, backs: nat, next: LineTree<W>)
  datatype PipeTree<W> = One(part: PartTree<W>) | Into(part: PartTree<W>, next: PipeTree<W>)
  datatype PartTree<W> = Simple(items: seq<Item<W>>) | Block(line: LineTree<W>, tos: seq<To<W>>)

  // ---------- what stands in the input ----------

  function ShowTos<W>(tos: seq<To<W>>): (ts: seq<Tok<W>>) {
    if tos == [] then [] else [Sym(tos[0].mode), Word(tos[0].file)] + ShowTos(tos[1..])
  }

  function ShowItem<W>(item: Item<W>): (ts: seq<Tok<W>>) {
    match item
    case Arg(w) => [Word(w)]
    case File(to) => [Sym(to.mode), Word(to.file)]
  }

  function ShowItems<W>(items: seq<Item<W>>): (ts: seq<Tok<W>>) {
    if items == [] then [] else ShowItem(items[0]) + ShowItems(items[1..])
  }

  function ShowBacks<W>(n: nat): (ts: seq<Tok<W>>) {
    seq(n, _ => Sym('&'))
  }

  function ShowLine<W>(l: LineTree<W>): (ts: seq<Tok<W>>) {
    match l
    case Last(p, n) => ShowPipe(p) + ShowBacks(n)
    case Then(p, n, next) => ShowPipe(p) + ShowBacks(n) + [Sym(';')] + ShowLine(next)
  }

  function ShowPipe<W>(p: PipeTree<W>): (ts: seq<Tok<W>>) {
    match p
    case One(x) => ShowPart(x)
    case Into(x, next) => ShowPart(x) + [Sym('|')] + ShowPipe(next)
  }

  function ShowPart<W>(x: PartTree<W>): (ts: seq<Tok<W>>) {
    match x
    case Simple(items) => ShowItems(items)
    case Block(l, tos) => Parens(ShowLine(l)) + ShowTos(tos)
  }

  // ---------- what it stands for ----------

  /** The first redirection is the innermost. */
  function Wrap<W>(c: Cmd<W>, tos: seq<To<W>>): (r: Cmd<W>) {
    if tos == [] then c else Redir(Wrap(c, tos[..|tos| - 1]), tos[|tos| - 1].file, tos[|tos| - 1].mode)
  }

  function ArgsOf<W>(items: seq<Item<W>>): (argv: seq<W>) {
    if items == [] then [] else (if items[0].Arg? then [items[0].w] else []) + ArgsOf(items[1..])
  }

  function TosOf<W>(items: seq<Item<W>>): (tos: seq<To<W>>) {
    if items == [] then [] else (if items[0].File? then [items[0].to] else []) + TosOf(items[1..])
  }

  function Backed<W>(c: Cmd<W>, n: nat): (r: Cmd<W>) {
    if n == 0 then c else Back(Backed(c, n - 1))
  }

  function LineCmd<W>(l: LineTree<W>): (c: Cmd<W>) {
    match l
    case Last(p, n) => Backed(PipeCmd(p), n)
    case Then(p, n, next) => List(Backed(PipeCmd(p), n), LineCmd(next))
  }

  function PipeCmd<W>(p: PipeTree<W>): (c: Cmd<W>) {
    match p
    case One(x) => PartCmd(x)
    case Into(x, next) => Pipe(PartCmd(x), PipeCmd(next))
  }

  function PartCmd<W>(x: PartTree<W>): (c: Cmd<W>) {
    match x
    case Simple(items) => Wrap(Exec(ArgsOf(items)), TosOf(items))
    case Block(l, tos) => Wrap(LineCmd(l), tos)
  }

  // ---------- which trees there are ----------

  predicate TosOk<W>(tos: seq<To<W>>) {
    forall k | 0 <= k < |tos| :: tos[k].mode in "<>+"
  }

  predicate LineOk<W>(l: LineTree<W>) {
    match l
    case Last(p, _) => PipeOk(p)
    case Then(p, _, next) => PipeOk(p) && LineOk(next)
  }

  predicate PipeOk<W>(p: PipeTree<W>) {
    match p
    case One(x) => PartOk(x)
    case Into(x, next) => PartOk(x) && PipeOk(next)
  }

  /** A simple command has at most nine arguments. */
  predicate PartOk<W>(x: PartTree<W>) {
    match x
    case Simple(items) => TosOk(TosOf(items)) && |ArgsOf(items)| <= 9
    case Block(l, tos) => LineOk(l) && TosOk(tos)
  }

  // ---------- redirections and arguments ----------

  lemma {:induction false} WrapFirst<W>(c: Cmd<W>, tos: seq<To<W>>)
    requires tos != []
    ensures Wrap(c, tos) == Wrap(Redir(c, tos[0].file, tos[0].mode), tos[1..])
  {
    var n := |tos| - 1;
    if n > 0 {
      WrapFirst(c, tos[..n]);
      assert tos[..n][1..] == tos[1..][..n - 1];
    } else {
      assert tos[..n] == [] && tos[1..] == [];
    }
  }

  lemma WrapLast<W>(c: Cmd<W>, tos: seq<To<W>>, to: To<W>)
    ensures Wrap(c, tos + [to]) == Redir(Wrap(c, tos), to.file, to.mode)
  {
    assert (tos + [to])[..|tos|] == tos;
  }

  lemma {:induction false} ArgInside<W>(argv: seq<W>, tos: seq<To<W>>, w: W)
    ensures WithArg(Wrap(Exec(argv), tos), w) == Wrap(Exec(argv + [w]), tos)
  {
    if tos != [] {
      ArgInside(argv, tos[..|tos| - 1], w);
    }
  }

  /** Nothing follows that belongs to redirections. */
  predicate NoTo<W>(rest: seq<Tok<W>>) {
    !IsSym(rest, "<>+")
  }

  lemma {:induction false} TosParse<W>(c: Cmd<W>, tos: seq<To<W>>, rest: seq<Tok<W>>)
    requires TosOk(tos) && NoTo(rest)
    ensures ParseRedirs(c, ShowTos(tos) + rest) == Ok(Wrap(c, tos), rest)
    decreases |tos|
  {
    var ts := ShowTos(tos) + rest;
    if tos == [] {
      assert ts == rest;
    } else {
      assert ts[0] == Sym(tos[0].mode) && ts[1] == Word(tos[0].file) && ts[2..] == ShowTos(tos[1..]) + rest;
      WrapFirst(c, tos);
      TosParse(Redir(c, tos[0].file, tos[0].mode), tos[1..], rest);
    }
  }

  lemma TosFront<W>(to: To<W>, tos: seq<To<W>>, rest: seq<Tok<W>>)
    ensures ShowTos([to] + tos) + rest == ShowItem(File(to)) + (ShowTos(tos) + rest)
    ensures TosOk([to] + tos) <==> to.mode in "<>+" && TosOk(tos)
  {
    var all := [to] + tos;
    assert all[1..] == tos;
    assert forall k | 0 <= k < |tos| :: tos[k] == all[k + 1];
  }

  /** The first redirection of what is parsed as redirections. */
  lemma TosHead<W>(c: Cmd<W>, ts: seq<Tok<W>>) returns (to: To<W>)
    requires ParseRedirs(c, ts).Ok? && !NoTo(ts)
    ensures to.mode in "<>+" && |ts| >= 2 && ts == ShowItem(File(to)) + ts[2..]
    ensures ParseRedirs(c, ts) == ParseRedirs(Redir(c, to.file, to.mode), ts[2..])
  {
    to := To(ts[0].c, ts[1].w);
    assert ts[0] == Sym(to.mode) && ts[1] == Word(to.file);
  }

  lemma {:induction false} TosParsed<W>(c: Cmd<W>, ts: seq<Tok<W>>) returns (tos: seq<To<W>>)
    requires ParseRedirs(c, ts).Ok?
    ensures var r := ParseRedirs(c, ts);
            TosOk(tos) && ts == ShowTos(tos) + r.rest && r.cmd == Wrap(c, tos)
    decreases |ts|
  {
    if NoTo(ts) {
      tos := [];
      assert ts == ShowTos(tos) + ts;
    } else {
      hide ParseRedirs, ShowTos, TosOk, Wrap, ShowItem;
      var to := TosHead(c, ts);
      var more := TosParsed(Redir(c, to.file, to.mode), ts[2..]);
      tos := [to] + more;
      TosFront(to, more, ParseRedirs(c, ts).rest);
      assert tos[1..] == more;
      WrapFirst(c, tos);
    }
  }

  /** The end of a simple command. */
  predicate PartEnds<W>(rest: seq<Tok<W>>) {
    rest == [] || IsSym(rest, "|)&;")
  }

  /** The rest of a simple command: first redirections, then the loop over arguments. */
  function Items<W>(argv: seq<W>, cmd: Cmd<W>, ts: seq<Tok<W>>): (r: Result<W>) {
    var r := ParseRedirs(cmd, ts);
    if r.Panic? then r else Args(argv, r.cmd, r.rest)
  }

  lemma ItemsEnd<W>(argv: seq<W>, cmd: Cmd<W>, ts: seq<Tok<W>>)
    requires PartEnds(ts)
    ensures Items(argv, cmd, ts) == Ok(cmd, ts)
  {
    assert NoTo(ts);
  }

  lemma ItemsTo<W>(argv: seq<W>, tos: seq<To<W>>, to: To<W>, ts: seq<Tok<W>>)
    requires to.mode in "<>+"
    ensures Items(argv, Wrap(Exec(argv), tos), ShowItem(File(to)) + ts) == Items(argv, Wrap(Exec(argv), tos + [to]), ts)
  {
    var all := ShowItem(File(to)) + ts;
    assert all[0] == Sym(to.mode) && all[1] == Word(to.file) && all[2..] == ts;
    WrapLast(Exec(argv), tos, to);
  }

  lemma ItemsArg<W>(argv: seq<W>, tos: seq<To<W>>, w: W, ts: seq<Tok<W>>)
    ensures Items(argv, Wrap(Exec(argv), tos), ShowItem(Arg(w)) + ts)
            == if |argv| >= 9 then Panic("too many args") else Items(argv + [w], Wrap(Exec(argv + [w]), tos), ts)
  {
    var all := ShowItem(Arg(w)) + ts;
    assert all[0] == Word(w) && all[1..] == ts;
    ArgInside(argv, tos, w);
  }

  /** What one more item in front adds. */
  lemma ItemFront<W>(item: Item<W>, items: seq<Item<W>>, rest: seq<Tok<W>>)
    ensures ShowItems([item] + items) + rest == ShowItem(item) + (ShowItems(items) + rest)
    ensures ArgsOf([item] + items) == if item.Arg? then [item.w] + ArgsOf(items) else ArgsOf(items)
    ensures TosOf([item] + items) == if item.File? then [item.to] + TosOf(items) else TosOf(items)
  {
    assert ([item] + items)[1..] == items;
    assert [] + ArgsOf(items) == ArgsOf(items) && [] + TosOf(items) == TosOf(items);
  }

  lemma {:induction false} ItemsParse<W>(argv: seq<W>, tos: seq<To<W>>, items: seq<Item<W>>, rest: seq<Tok<W>>)
    requires TosOk(TosOf(items)) && |argv| + |ArgsOf(items)| <= 9 && PartEnds(rest)
    ensures Items(argv, Wrap(Exec(argv), tos), ShowItems(items) + rest)
            == Ok(Wrap(Exec(argv + ArgsOf(items)), tos + TosOf(items)), rest)
    decreases |items|
  {
    hide Items, Wrap, ShowItem, PartEnds;
    if items == [] {
      assert ShowItems(items) + rest == rest && argv + ArgsOf(items) == argv && tos + TosOf(items) == tos;
      ItemsEnd(argv, Wrap(Exec(argv), tos), rest);
    } else {
      var item, more := items[0], items[1..];
      assert items == [item] + more;
      ItemFront(item, more, rest);
      hide ShowItems, ArgsOf, TosOf, TosOk;
      if item.File? {
        TosFront(item.to, TosOf(more), rest);
        ItemsTo(argv, tos, item.to, ShowItems(more) + rest);
        ItemsParse(argv, tos + [item.to], more, rest);
        assert tos + [item.to] + TosOf(more) == tos + TosOf(items);
      } else {
        ItemsArg(argv, tos, item.w, ShowItems(more) + rest);
        ItemsParse(argv + [item.w], tos, more, rest);
        assert argv + [item.w] + ArgsOf(more) == argv + ArgsOf(items);
      }
    }
  }

  /** The first item of what is parsed as items. */
  lemma ItemsHead<W>(argv: seq<W>, cmd: Cmd<W>, ts: seq<Tok<W>>) returns (item: Item<W>)
    requires Items(argv, cmd, ts).Ok? && !PartEnds(ts)
    ensures ShowItem(item) <= ts && ts == ShowItem(item) + ts[|ShowItem(item)|..]
    ensures item.File? ==> item.to.mode in "<>+"
  {
    if NoTo(ts) {
      item := Arg(ts[0].w);
      assert ts[0] == Word(item.w);
    } else {
      item := File(To(ts[0].c, ts[1].w));
      assert ts[0] == Sym(item.to.mode) && ts[1] == Word(item.to.file);
    }
  }

  lemma {:induction false} ItemsParsed<W>(argv: seq<W>, tos: seq<To<W>>, ts: seq<Tok<W>>) returns (items: seq<Item<W>>)
    requires |argv| <= 9 && Items(argv, Wrap(Exec(argv), tos), ts).Ok?
    ensures var r := Items(argv, Wrap(Exec(argv), tos), ts);
            && TosOk(TosOf(items)) && |argv| + |ArgsOf(items)| <= 9 && ts == ShowItems(items) + r.rest
            && r.cmd == Wrap(Exec(argv + ArgsOf(items)), tos + TosOf(items))
    decreases |ts|
  {
    hide Items, Wrap, PartEnds;
    if PartEnds(ts) {
      items := [];
      ItemsEnd(argv, Wrap(Exec(argv), tos), ts);
      assert ts == ShowItems(items) + ts && argv + ArgsOf(items) == argv && tos + TosOf(items) == tos;
    } else {
      var item := ItemsHead(argv, Wrap(Exec(argv), tos), ts);
      var tail := ts[|ShowItem(item)|..];
      var more;
      if item.File? {
        ItemsTo(argv, tos, item.to, tail);
        more := ItemsParsed(argv, tos + [item.to], tail);
        assert tos + [item.to] + TosOf(more) == tos + ([item.to] + TosOf(more));
      } else {
        ItemsArg(argv, tos, item.w, tail);
        more := ItemsParsed(argv + [item.w], tos, tail);
        assert argv + [item.w] + ArgsOf(more) == argv + ([item.w] + ArgsOf(more));
      }
      items := [item] + more;
      ItemFront(item, more, Items(argv, Wrap(Exec(argv), tos), ts).rest);
    }
  }

  // ---------- every tree is parsed ----------

  predicate PipeEnds<W>(rest: seq<Tok<W>>) {
    rest == [] || IsSym(rest, ")&;")
  }

  lemma {:induction false} BacksParse<W>(c: Cmd<W>, k: nat, n: nat, rest: seq<Tok<W>>)
    requires !IsSym(rest, "&")
    ensures Backs(Backed(c, k), ShowBacks(n) + rest) == (Backed(c, k + n), rest)
    decreases n
  {
    var ts := ShowBacks(n) + rest;
    if n == 0 {
      assert ts == rest;
    } else {
      assert ts[0] == Sym('&') && ts[1..] == ShowBacks(n - 1) + rest;
      BacksParse(c, k + 1, n - 1, rest);
    }
  }

  lemma {:induction false} PartParse<W>(x: PartTree<W>, rest: seq<Tok<W>>)
    requires PartOk(x) && PartEnds(rest)
    ensures ParseExec(ShowPart(x) + rest) == Ok(PartCmd(x), rest)
    decreases x
  {
    match x
    case Simple(items) =>
      hide Args, ParseRedirs, Wrap;
      SimpleStart(items, rest);
      WrapNone<W>(Exec([]));
      ItemsParse([], [], items, rest);
      NoneBefore(items);
    case Block(l, tos) =>
      hide ParseRedirs, ParseLine, Wrap, ShowTos, ShowLine;
      var tail := ShowTos(tos) + rest;
      var inner := ShowLine(l) + ([Sym(')')] + tail);
      assert ShowPart(x) + rest == [Sym('(')] + inner && ([Sym('(')] + inner)[1..] == inner;
      assert ([Sym(')')] + tail)[1..] == tail;
      LineParse(l, [Sym(')')] + tail);
      TosParse(LineCmd(l), tos, rest);
  }

  lemma NoneBefore<W>(items: seq<Item<W>>)
    ensures [] + ArgsOf(items) == ArgsOf(items) && [] + TosOf(items) == TosOf(items)
  {
  }

  lemma SimpleStart<W>(items: seq<Item<W>>, rest: seq<Tok<W>>)
    requires TosOk(TosOf(items)) && PartEnds(rest)
    ensures !IsSym(ShowItems(items) + rest, "(")
  {
    if items != [] && items[0].File? {
      assert TosOf(items)[0] == items[0].to;
    }
  }

  lemma {:induction false} PipeParse<W>(p: PipeTree<W>, rest: seq<Tok<W>>)
    requires PipeOk(p) && PipeEnds(rest)
    ensures ParsePipe(ShowPipe(p) + rest) == Ok(PipeCmd(p), rest)
    decreases p
  {
    match p
    case One(x) => PartParse(x, rest);
    case Into(x, next) =>
      var tail := [Sym('|')] + (ShowPipe(next) + rest);
      assert ShowPipe(p) + rest == ShowPart(x) + tail && tail[1..] == ShowPipe(next) + rest;
      PartParse(x, tail);
      PipeParse(next, rest);
  }

  lemma {:induction false} LineParse<W>(l: LineTree<W>, rest: seq<Tok<W>>)
    requires LineOk(l) && AtEnd(rest)
    ensures ParseLine(ShowLine(l) + rest) == Ok(LineCmd(l), rest)
    decreases l
  {
    hide ParsePipe, ShowPipe, PipeCmd, PipeOk, Backs;
    var tail := if l.Last? then rest else [Sym(';')] + (ShowLine(l.next) + rest);
    var more := ShowBacks(l.backs) + tail;
    assert ShowLine(l) + rest == ShowPipe(l.pipe) + more;
    assert PipeEnds(more) by { assert l.backs > 0 ==> more[0] == Sym('&'); }
    PipeParse(l.pipe, more);
    BacksParse(PipeCmd(l.pipe), 0, l.backs, tail);
    if l.Then? {
      assert tail[1..] == ShowLine(l.next) + rest;
      LineParse(l.next, rest);
    }
  }

  // ---------- everything parsed is a tree ----------

  lemma {:induction false} BacksParsed<W>(c: Cmd<W>, k: nat, ts: seq<Tok<W>>) returns (n: nat)
    ensures var r := Backs(Backed(c, k), ts); ts == ShowBacks(n) + r.1 && r.0 == Backed(c, k + n)
    decreases |ts|
  {
    if IsSym(ts, "&") {
      var m := BacksParsed(c, k + 1, ts[1..]);
      n := m + 1;
      assert ts == [ts[0]] + ts[1..] && ShowBacks<W>(n) == [Sym('&')] + ShowBacks(m);
    } else {
      n := 0;
    }
  }

  lemma Split<W>(ts: seq<Tok<W>>, c: char)
    requires IsSym(ts, [c])
    ensures ts == [Sym(c)] + ts[1..]
  {
  }

  lemma BlockParts<W>(ts: seq<Tok<W>>)
    requires IsSym(ts, "(") && ParseExec(ts).Ok?
    ensures var l := ParseLine(ts[1..]);
            && l.Ok? && IsSym(l.rest, ")") && ParseExec(ts) == ParseRedirs(l.cmd, l.rest[1..])
  {
  }

  lemma {:induction false} PartParsed<W>(ts: seq<Tok<W>>) returns (x: PartTree<W>)
    requires ParseExec(ts).Ok?
    ensures var r := ParseExec(ts); PartOk(x) && ts == ShowPart(x) + r.rest && r.cmd == PartCmd(x)
    decreases |ts|, 1
  {
    if IsSym(ts, "(") {
      hide ParseExec, ParseLine, ParseRedirs, TosOk, LineOk, ShowLine, LineCmd, ShowTos, Wrap;
      BlockParts(ts);
      var l := LineParsed(ts[1..]);
      var rest := ParseLine(ts[1..]).rest;
      var tos := TosParsed(LineCmd(l), rest[1..]);
      x := Block(l, tos);
      Split(ts, '(');
      Split(rest, ')');
      var last := ParseExec(ts).rest;
      assert [Sym('(')] + (ShowLine(l) + ([Sym(')')] + (ShowTos(tos) + last)))
             == Parens(ShowLine(l)) + ShowTos(tos) + last;
    } else {
      hide Args, ParseRedirs, Wrap, ArgsOf, TosOf, ShowItems;
      WrapNone<W>(Exec([]));
      var items := ItemsParsed([], [], ts);
      x := Simple(items);
      NoneBefore(items);
    }
  }

  lemma WrapNone<W>(c: Cmd<W>)
    ensures Wrap(c, []) == c
  {
  }

  lemma {:induction false} PipeParsed<W>(ts: seq<Tok<W>>) returns (p: PipeTree<W>)
    requires ParsePipe(ts).Ok?
    ensures var r := ParsePipe(ts); PipeOk(p) && ts == ShowPipe(p) + r.rest && r.cmd == PipeCmd(p)
    decreases |ts|, 2
  {
    hide ParseExec, PartOk, ShowPart, PartCmd;
    var x := PartParsed(ts);
    var rest := ParseExec(ts).rest;
    if IsSym(rest, "|") {
      var next := PipeParsed(rest[1..]);
      p := Into(x, next);
      Split(rest, '|');
      var last := ParsePipe(ts).rest;
      assert ShowPart(x) + ([Sym('|')] + (ShowPipe(next) + last)) == ShowPart(x) + [Sym('|')] + ShowPipe(next) + last;
    } else {
      p := One(x);
    }
  }

  lemma {:induction false} LineParsed<W>(ts: seq<Tok<W>>) returns (l: LineTree<W>)
    requires ParseLine(ts).Ok?
    ensures var r := ParseLine(ts); LineOk(l) && ts == ShowLine(l) + r.rest && r.cmd == LineCmd(l)
    decreases |ts|, 3
  {
    hide ParsePipe, PipeOk, ShowPipe, PipeCmd, Backs, ShowBacks, Backed;
    var p := PipeParsed(ts);
    var tail := ParsePipe(ts).rest;
    var n := BacksParsed(PipeCmd(p), 0, tail);
    BackedNone(PipeCmd(p));
    var rest := Backs(PipeCmd(p), tail).1;
    assert ShowPipe(p) + (ShowBacks(n) + rest) == ShowPipe(p) + ShowBacks(n) + rest;
    if IsSym(rest, ";") {
      var next := LineParsed(rest[1..]);
      l := Then(p, n, next);
      Split(rest, ';');
      var last := ParseLine(ts).rest;
      assert ShowPipe(p) + ShowBacks(n) + ([Sym(';')] + (ShowLine(next) + last))
             == ShowPipe(p) + ShowBacks(n) + [Sym(';')] + ShowLine(next) + last;
    } else {
      l := Last(p, n);
    }
  }

  lemma BackedNone<W>(c: Cmd<W>)
    ensures Backed(c, 0) == c
  {
  }

  /** The command the grammar gives these tokens. */
  ghost predicate Derives<W(!new)>(ts: seq<Tok<W>>, c: Cmd<W>) {
    exists l: LineTree<W> :: LineOk(l) && ShowLine(l) == ts && LineCmd(l) == c
  }

  /** The parser accepts what the grammar derives, and nothing else, with the same command. */
  lemma ParsesGrammar<W(!new)>(ts: seq<Tok<W>>, c: Cmd<W>)
    ensures Parse(ts) == Ok(c, []) <==> Derives(ts, c)
  {
    if Parse(ts) == Ok(c, []) {
      var l := LineParsed(ts);
      assert ShowLine(l) == ts;
    }
    if Derives(ts, c) {
      var l: LineTree<W> :| LineOk(l) && ShowLine(l) == ts && LineCmd(l) == c;
      LineParse(l, []);
      assert ts + [] == ts;
    }
  }
}
