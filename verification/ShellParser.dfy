/** The parser of user/sh.c on a line of text: a cursor moves over the line, words are stretches of
    it, and a last pass puts a NUL after each word. */
module ShellParser {
  import opened Shell

  const WHITESPACE := " \t\r\n\U{00000B}"
  const SYMBOLS := "<|>&;()"

  /** The pointers q and eq of a word. */
  datatype Range = Range(q: nat, eq: nat)

  /** The line has no NUL inside: it is a C string. */
  predicate NoNul(s: string) {
    '\0' !in s
  }

  function Skip(s: string, i: nat): (j: nat)
    requires i <= |s|
    ensures i <= j <= |s| && (j < |s| ==> s[j] !in WHITESPACE) && forall k | i <= k < j :: s[k] in WHITESPACE
    decreases |s| - i
  {
    if i < |s| && s[i] in WHITESPACE then Skip(s, i + 1) else i
  }

  predicate WordChar(c: char) {
    c !in WHITESPACE && c !in SYMBOLS
  }

  function WordEnd(s: string, i: nat): (j: nat)
    requires i <= |s|
    ensures i <= j <= |s| && (j < |s| ==> !WordChar(s[j])) && forall k | i <= k < j :: WordChar(s[k])
    decreases |s| - i
  {
    if i < |s| && WordChar(s[i]) then WordEnd(s, i + 1) else i
  }

  /** The tokens of the line from `i` on. */
  function Lex(s: string, i: nat): (ts: seq<Tok<Range>>)
    requires i <= |s|
    decreases |s| - i
  {
    var j := Skip(s, i);
    if j == |s| then []
    else if WordChar(s[j]) then [Word(Range(j, WordEnd(s, j)))] + Lex(s, WordEnd(s, j))
    else if s[j] == '>' && j + 1 < |s| && s[j + 1] == '>' then [Sym('+')] + Lex(s, j + 2)
    else [Sym(s[j])] + Lex(s, j + 1)
  }

  lemma LexSkip(s: string, i: nat)
    requires i <= |s|
    ensures Lex(s, Skip(s, i)) == Lex(s, i)
  {
    SkipSkip(s, i);
  }

  /** The token at the cursor, when there is no white space before it. */
  lemma LexAt(s: string, j: nat)
    requires j < |s| && Skip(s, j) == j
    ensures WordChar(s[j]) ==> WordEnd(s, j) > j && Lex(s, j) == [Word(Range(j, WordEnd(s, j)))] + Lex(s, WordEnd(s, j))
    ensures !WordChar(s[j]) && s[j] == '>' && j + 1 < |s| && s[j + 1] == '>' ==> Lex(s, j) == [Sym('+')] + Lex(s, j + 2)
    ensures !WordChar(s[j]) && !(s[j] == '>' && j + 1 < |s| && s[j + 1] == '>')
            ==> Lex(s, j) == [Sym(s[j])] + Lex(s, j + 1)
  {
  }

  predicate SymbolChar(c: char) {
    c == '|' || c == '(' || c == ')' || c == ';' || c == '&' || c == '<' || c == '>'
  }

  lemma SymbolOrWord(c: char)
    requires c !in WHITESPACE
    ensures WordChar(c) <==> !SymbolChar(c)
  {
  }

  lemma SkipSkip(s: string, i: nat)
    requires i <= |s|
    ensures Skip(s, Skip(s, i)) == Skip(s, i)
  {
  }

  /** Skips white space, as the loops do. */
  method SkipWhite(s: string, i: nat) returns (j: nat)
    requires i <= |s|
    ensures j == Skip(s, i) && Lex(s, j) == Lex(s, i)
  {
    j := i;
    while j < |s| && s[j] in WHITESPACE
      invariant i <= j <= |s| && Skip(s, j) == Skip(s, i)
    {
      j := j + 1;
    }
    LexSkip(s, i);
  }

  /** The next token: 'a' for a word, NUL at the end.  The cursor moves behind it and the white space
      after it. */
  method GetToken(s: string, i: nat) returns (tok: char, q: nat, eq: nat, j: nat)
    requires i <= |s| && NoNul(s)
    ensures j <= |s|
    ensures Lex(s, i) == [] ==> tok == '\0' && Lex(s, j) == []
    ensures Lex(s, i) != [] ==> && Lex(s, j) == Lex(s, i)[1..]
                                && Lex(s, i)[0] == (if tok == 'a' then Word(Range(q, eq)) else Sym(tok)) && tok != '\0'
  {
    hide Lex, WordChar, Skip, WordEnd;
    j := SkipWhite(s, i);
    q := j;
    SkipSkip(s, i);
    if j == |s| {
      LexEnd(s);
      return '\0', q, j, j;
    }
    assert s[j] in s;
    LexAt(s, j);
    SymbolOrWord(s[j]);
    tok := s[j];
    if s[j] == '|' || s[j] == '(' || s[j] == ')' || s[j] == ';' || s[j] == '&' || s[j] == '<' {
      j := j + 1;
    } else if s[j] == '>' {
      j := j + 1;
      if j < |s| && s[j] == '>' {
        tok := '+';
        j := j + 1;
      }
    } else {
      tok := 'a';
      j := ScanWord(s, j);
    }
    eq := j;
    j := SkipWhite(s, j);
  }

  lemma LexEnd(s: string)
    ensures Lex(s, |s|) == []
  {
  }

  /** The loop over the characters of a word. */
  method ScanWord(s: string, q: nat) returns (j: nat)
    requires q <= |s|
    ensures j == WordEnd(s, q)
  {
    j := q;
    while j < |s| && s[j] !in WHITESPACE && s[j] !in SYMBOLS
      invariant q <= j <= |s| && WordEnd(s, j) == WordEnd(s, q)
    {
      j := j + 1;
    }
  }

  /** The character a token begins with. */
  function First(c: char): (r: char) {
    if c == '+' then '>' else c
  }

  /** Whether the next token begins with one of the characters; the cursor moves up to it. */
  method Peek(s: string, i: nat, toks: string) returns (found: bool, j: nat)
    requires i <= |s| && forall c | c in toks :: c in SYMBOLS
    ensures j <= |s| && Lex(s, j) == Lex(s, i)
    ensures found <==> Lex(s, i) != [] && Lex(s, i)[0].Sym? && First(Lex(s, i)[0].c) in toks
  {
    hide Lex, WordChar, Skip, WordEnd;
    j := SkipWhite(s, i);
    SkipSkip(s, i);
    found := j < |s| && s[j] in toks;
    if j == |s| {
      LexEnd(s);
    } else {
      LexAt(s, j);
      SymbolOrWord(s[j]);
      NoSymbol(s[j], toks);
    }
  }

  lemma NoSymbol(c: char, toks: string)
    requires forall x | x in toks :: x in SYMBOLS
    ensures WordChar(c) ==> c !in toks
  {
  }

  // ---------- the parser ----------

  datatype Parsed = Done(cmd: Cmd<Range>, i: nat) | Failed(message: string)

  /** The method has done what the grammar says, and the cursor is before the tokens left. */
  ghost predicate Agrees(s: string, r: Parsed, spec: Result<Range>) {
    match spec
    case Ok(cmd, rest) => r.Done? && r.cmd == cmd && r.i <= |s| && Lex(s, r.i) == rest
    case Panic(message) => r == Failed(message)
  }

  method ParseRedirections(cmd: Cmd<Range>, s: string, i: nat) returns (r: Parsed)
    requires i <= |s| && NoNul(s)
    ensures Agrees(s, r, ParseRedirs(cmd, Lex(s, i)))
  {
    hide Lex;
    var c, j: nat := cmd, i;
    while true
      invariant j <= |s| && ParseRedirs(c, Lex(s, j)) == ParseRedirs(cmd, Lex(s, i))
      decreases |Lex(s, j)|
    {
      var found;
      found, j := Peek(s, j, "<>");
      if !found {
        return Done(c, j);
      }
      var tok, q, eq;
      tok, q, eq, j := GetToken(s, j);
      var kind;
      kind, q, eq, j := GetToken(s, j);
      if kind != 'a' {
        return Failed("missing file for redirection");
      }
      c := Redir(c, Range(q, eq), tok);
    }
  }

  method ParseLineAt(s: string, i: nat) returns (r: Parsed)
    requires i <= |s| && NoNul(s)
    ensures Agrees(s, r, ParseLine(Lex(s, i)))
    decreases |Lex(s, i)|, 3
  {
    hide Lex, ParsePipe;
    r := ParsePipeAt(s, i);
    if r.Failed? {
      return;
    }
    var cmd, j: nat := r.cmd, r.i;
    ghost var p := ParsePipe(Lex(s, i));
    var found;
    found, j := Peek(s, j, "&");
    while found
      invariant j <= |s| && Backs(cmd, Lex(s, j)) == Backs(p.cmd, p.rest) && (found <==> IsSym(Lex(s, j), "&"))
      decreases |Lex(s, j)|
    {
      var tok, q, eq;
      tok, q, eq, j := GetToken(s, j);
      cmd := Back(cmd);
      found, j := Peek(s, j, "&");
    }
    found, j := Peek(s, j, ";");
    if found {
      var tok, q, eq;
      tok, q, eq, j := GetToken(s, j);
      r := ParseLineAt(s, j);
      if r.Done? {
        r := Done(List(cmd, r.cmd), r.i);
      }
    } else {
      r := Done(cmd, j);
    }
  }

  method ParsePipeAt(s: string, i: nat) returns (r: Parsed)
    requires i <= |s| && NoNul(s)
    ensures Agrees(s, r, ParsePipe(Lex(s, i)))
    decreases |Lex(s, i)|, 2
  {
    hide Lex, ParseExec;
    r := ParseExecAt(s, i);
    if r.Failed? {
      return;
    }
    var cmd := r.cmd;
    var found, j := Peek(s, r.i, "|");
    if found {
      var tok, q, eq;
      tok, q, eq, j := GetToken(s, j);
      r := ParsePipeAt(s, j);
      if r.Done? {
        r := Done(Pipe(cmd, r.cmd), r.i);
      }
    } else {
      r := Done(cmd, j);
    }
  }

  method ParseBlockAt(s: string, i: nat) returns (r: Parsed)
    requires i <= |s| && NoNul(s) && IsSym(Lex(s, i), "(")
    ensures Agrees(s, r, ParseBlock(Lex(s, i)))
    decreases |Lex(s, i)|, 0
  {
    hide Lex, ParseLine, ParseRedirs;
    var found, j := Peek(s, i, "(");
    var tok, q, eq;
    tok, q, eq, j := GetToken(s, j);
    r := ParseLineAt(s, j);
    if r.Failed? {
      return;
    }
    var cmd := r.cmd;
    found, j := Peek(s, r.i, ")");
    if !found {
      return Failed("syntax - missing )");
    }
    tok, q, eq, j := GetToken(s, j);
    r := ParseRedirections(cmd, s, j);
  }

  method ParseExecAt(s: string, i: nat) returns (r: Parsed)
    requires i <= |s| && NoNul(s)
    ensures Agrees(s, r, ParseExec(Lex(s, i)))
    decreases |Lex(s, i)|, 1
  {
    hide Lex, ParseBlock, ParseRedirs;
    var found, j: nat := Peek(s, i, "(");
    if found {
      r := ParseBlockAt(s, j);
      return;
    }
    r := ParseRedirections(Exec([]), s, j);
    if r.Failed? {
      return;
    }
    var cmd, argv := r.cmd, [];
    j := r.i;
    ghost var p := ParseRedirs(Exec([]), Lex(s, i));
    while true
      invariant j <= |s| && Args(argv, cmd, Lex(s, j)) == Args([], p.cmd, p.rest)
      decreases |Lex(s, j)|
    {
      found, j := Peek(s, j, "|)&;");
      if found {
        return Done(cmd, j);
      }
      var tok, q, eq;
      ghost var before := Lex(s, j);
      tok, q, eq, j := GetToken(s, j);
      if tok == '\0' {
        return Done(cmd, j);
      }
      if tok != 'a' {
        return Failed("syntax");
      }
      if |argv| + 1 >= MAXARGS {
        return Failed("too many args");
      }
      assert before != [] && !IsSym(before, "|)&;");
      r := ParseRedirections(WithArg(cmd, Range(q, eq)), s, j);
      if r.Failed? {
        return;
      }
      argv, cmd, j := argv + [Range(q, eq)], r.cmd, r.i;
    }
  }

  /** The whole line: what is left over is a syntax error. */
  function Parse<W>(ts: seq<Tok<W>>): (r: Result<W>) {
    var l := ParseLine(ts);
    if l.Panic? || l.rest == [] then l else Panic("syntax")
  }

  method ParseCmd(s: string) returns (r: Parsed)
    requires NoNul(s)
    ensures Agrees(s, r, Parse(Lex(s, 0))) && (r.Done? ==> r.i == |s|)
  {
    hide Lex, ParseLine;
    r := ParseLineAt(s, 0);
    if r.Failed? {
      return;
    }
    var j := SkipWhite(s, r.i);
    LexNone(s, j);
    if j != |s| {
      return Failed("syntax");
    }
    LexEnd(s);
    r := Done(r.cmd, j);
  }

  lemma LexNone(s: string, j: nat)
    requires j <= |s| && exists i: nat :: i <= |s| && j == Skip(s, i)
    ensures Lex(s, j) == [] <==> j == |s|
  {
    var i: nat :| i <= |s| && j == Skip(s, i);
    SkipSkip(s, i);
  }

  // ---------- NUL after every word ----------

  ghost function Ends(c: Cmd<Range>): (ends: set<nat>) {
    match c
    case Exec(argv) => set i | 0 <= i < |argv| :: argv[i].eq
    case Redir(d, file, _) => Ends(d) + {file.eq}
    case Pipe(l, r) => Ends(l) + Ends(r)
    case List(l, r) => Ends(l) + Ends(r)
    case Back(d) => Ends(d)
  }

  /** `buf` is `s` with NULs at `ends`. */
  ghost predicate CutAt(s: seq<char>, buf: seq<char>, ends: set<nat>) {
    |buf| == |s| && forall k: nat | k < |s| :: buf[k] == if k in ends then '\0' else s[k]
  }

  method NulTerminate(c: Cmd<Range>, buf: array<char>)
    requires forall e | e in Ends(c) :: e < buf.Length
    modifies buf
    ensures CutAt(old(buf[..]), buf[..], Ends(c))
    decreases c
  {
    match c
    case Exec(argv) =>
      var i := 0;
      while i < |argv|
        invariant i <= |argv| && CutAt(old(buf[..]), buf[..], set k | 0 <= k < i :: argv[k].eq)
      {
        assert argv[i].eq in Ends(c);
        buf[argv[i].eq] := '\0';
        i := i + 1;
      }
    case Redir(d, file, _) =>
      assert Ends(c) == Ends(d) + {file.eq} && file.eq in Ends(c);
      NulTerminate(d, buf);
      buf[file.eq] := '\0';
    case Pipe(l, r) =>
      assert Ends(c) == Ends(l) + Ends(r);
      NulTerminate(l, buf);
      NulTerminate(r, buf);
    case List(l, r) =>
      assert Ends(c) == Ends(l) + Ends(r);
      NulTerminate(l, buf);
      NulTerminate(r, buf);
    case Back(d) =>
      assert Ends(c) == Ends(d);
      NulTerminate(d, buf);
  }

  /** The C string that begins at `q`. */
  function CString(buf: seq<char>, q: nat): (s: string)
    requires q <= |buf|
    decreases |buf| - q
  {
    if q == |buf| || buf[q] == '\0' then [] else [buf[q]] + CString(buf, q + 1)
  }

  /** Words of a line are apart: none ends inside or right before another. */
  ghost predicate WordAt(s: string, w: Range) {
    w.q < w.eq <= |s| && w.eq == WordEnd(s, w.q) && (w.q == 0 || !WordChar(s[w.q - 1]))
  }

  lemma {:induction false} LexWords(s: string, i: nat)
    requires i <= |s| && (i == 0 || i == |s| || !WordChar(s[i - 1]) || !WordChar(s[i]))
    ensures Has(Lex(s, i), iset w: Range | WordAt(s, w))
    decreases |s| - i
  {
    hide Lex, WordChar, Skip, WordEnd;
    var ok := iset w: Range | WordAt(s, w);
    var j := Skip(s, i);
    LexSkip(s, i);
    SkipSkip(s, i);
    if j == |s| {
      LexEnd(s);
    } else {
      LexAt(s, j);
      BeforeWord(s, i, j);
      if WordChar(s[j]) {
        var e := WordEnd(s, j);
        LexWords(s, e);
        HasCons(Word(Range(j, e)), Lex(s, e), ok);
      } else if s[j] == '>' && j + 1 < |s| && s[j + 1] == '>' {
        NotWord('>');
        LexWords(s, j + 2);
        HasCons(Sym('+'), Lex(s, j + 2), ok);
      } else {
        LexWords(s, j + 1);
        HasCons(Sym(s[j]), Lex(s, j + 1), ok);
      }
    }
  }

  lemma NotWord(c: char)
    requires c in SYMBOLS
    ensures !WordChar(c)
  {
  }

  lemma BeforeWord(s: string, i: nat, j: nat)
    requires i <= j < |s| && j == Skip(s, i) && (i == 0 || !WordChar(s[i - 1]) || !WordChar(s[i]))
    ensures WordChar(s[j]) ==> j == 0 || !WordChar(s[j - 1])
  {
    assert j > i ==> s[j - 1] in WHITESPACE;
  }

  lemma HasCons<W(!new)>(t: Tok<W>, ts: seq<Tok<W>>, ok: iset<W>)
    requires Has(ts, ok) && (t.Word? ==> t.w in ok)
    ensures Has([t] + ts, ok)
  {
  }

  lemma EndOutside(s: string, w: Range, v: Range)
    requires WordAt(s, w) && WordAt(s, v)
    ensures !(w.q <= v.eq < w.eq)
  {
    assert v.eq < |s| ==> !WordChar(s[v.eq]);
  }

  ghost predicate WordOf(c: Cmd<Range>, w: Range) {
    match c
    case Exec(argv) => w in argv
    case Redir(d, file, _) => WordOf(d, w) || w == file
    case Pipe(l, r) => WordOf(l, w) || WordOf(r, w)
    case List(l, r) => WordOf(l, w) || WordOf(r, w)
    case Back(d) => WordOf(d, w)
  }

  lemma UsesWord(c: Cmd<Range>, ok: iset<Range>, w: Range)
    requires Uses(c, ok) && WordOf(c, w)
    ensures w in ok
  {
  }

  lemma EndsOfWords(c: Cmd<Range>, ok: iset<Range>, e: nat)
    requires Uses(c, ok) && e in Ends(c)
    ensures exists w :: w in ok && w.eq == e
  {
  }

  lemma CStringWord(s: string, buf: seq<char>, q: nat, e: nat)
    requires q <= e <= |s| && |buf| == |s| + 1 && buf[e] == '\0'
             && forall k | q <= k < e :: buf[k] == s[k] && s[k] != '\0'
    ensures CString(buf, q) == s[q..e]
    decreases e - q
  {
    if q < e {
      CStringWord(s, buf, q + 1, e);
      assert s[q..e] == [s[q]] + s[q + 1..e];
    }
  }

  lemma WordEnds(c: Cmd<Range>, w: Range)
    requires WordOf(c, w)
    ensures w.eq in Ends(c)
  {
    if c.Exec? {
      var i :| 0 <= i < |c.argv| && c.argv[i] == w;
    }
  }

  /** After the last pass, each argument and file name, read as a C string, is its token's text. */
  lemma ArgumentsAreTokens(s: string, cmd: Cmd<Range>, buf: seq<char>, w: Range)
    requires NoNul(s) && Parse(Lex(s, 0)) == Ok(cmd, []) && CutAt(s + ['\0'], buf, Ends(cmd)) && WordOf(cmd, w)
    ensures w.q < w.eq <= |s| && CString(buf, w.q) == s[w.q..w.eq]
  {
    hide Lex, ParseLine;
    var ok := iset v: Range | WordAt(s, v);
    LexWords(s, 0);
    LineWords(Lex(s, 0), ok);
    UsesWord(cmd, ok, w);
    WordEnds(cmd, w);
    forall k | w.q <= k < w.eq ensures buf[k] == s[k] && s[k] != '\0' {
      assert s[k] in s;
      forall v | v in ok ensures v.eq != k {
        EndOutside(s, w, v);
      }
      if k in Ends(cmd) {
        EndsOfWords(cmd, ok, k);
      }
    }
    CStringWord(s, buf, w.q, w.eq);
  }

  // ---------- text and back ----------

  function TokText(t: Tok<string>): (s: string) {
    match t
    case Sym(c) => if c == '+' then ">>" else [c]
    case Word(w) => w
  }

  /** The tokens with a space after each. */
  function Text(ts: seq<Tok<string>>): (s: string) {
    if ts == [] then [] else TokText(ts[0]) + " " + Text(ts[1..])
  }

  predicate ValidWord(w: string) {
    w != [] && forall i | 0 <= i < |w| :: WordChar(w[i])
  }

  predicate ValidTok(t: Tok<string>) {
    match t
    case Sym(c) => SymbolChar(c) || c == '+'
    case Word(w) => ValidWord(w)
  }

  /** The text of a word of the line. */
  function Slice(s: string, r: Range): (w: string) {
    if r.q <= r.eq <= |s| then s[r.q..r.eq] else []
  }

  /** The text without its white space. */
  function Strip(s: string): (r: string) {
    if s == [] then [] else (if s[0] in " \t\r\n\U{00000B}" then [] else [s[0]]) + Strip(s[1..])
  }

  /** The tokens without anything between them. */
  function Joined(s: string, ts: seq<Tok<Range>>): (r: string) {
    if ts == [] then [] else TokText(MapTok(w => Slice(s, w), ts[0])) + Joined(s, ts[1..])
  }

  /** A token of the line: a symbol, or a word, which has neither symbols nor white space in it. */
  predicate TokenOf(s: string, t: Tok<Range>) {
    match t
    case Sym(c) => c in "<|>&;()+"
    case Word(w) => w.q < w.eq <= |s| && forall k | w.q <= k < w.eq :: s[k] !in " \t\r\n\U{00000B}<|>&;()"
  }

  /** The tokens are the line without its white space, in order and with nothing left out. */
  lemma {:induction false} LexKeeps(s: string, i: nat)
    requires i <= |s|
    ensures Joined(s, Lex(s, i)) == Strip(s[i..])
    ensures forall k | 0 <= k < |Lex(s, i)| :: TokenOf(s, Lex(s, i)[k])
    decreases |s| - i
  {
    hide Lex, WordChar, Skip, WordEnd, TokenOf, Joined, Strip;
    var j := Skip(s, i);
    LexSkip(s, i);
    SkipSkip(s, i);
    StripWhite(s, i, j);
    if j == |s| {
      LexEnd(s);
      assert s[j..] == [];
      JoinedNone(s);
    } else {
      LexAt(s, j);
      SymbolOrWord(s[j]);
      if WordChar(s[j]) {
        var e := WordEnd(s, j);
        LexKeeps(s, e);
        StripWord(s, j, e);
        JoinedFront(s, Word(Range(j, e)), Lex(s, e));
      } else {
        var n := if s[j] == '>' && j + 1 < |s| && s[j + 1] == '>' then j + 2 else j + 1;
        LexKeeps(s, n);
        StripSymbol(s, j, n);
        JoinedFront(s, if n == j + 2 then Sym('+') else Sym(s[j]), Lex(s, n));
      }
    }
  }

  lemma JoinedNone(s: string)
    ensures Joined(s, []) == [] && Strip([]) == []
  {
  }

  lemma JoinedFront(s: string, t: Tok<Range>, ts: seq<Tok<Range>>)
    ensures Joined(s, [t] + ts) == TokText(MapTok(w => Slice(s, w), t)) + Joined(s, ts)
  {
    assert ([t] + ts)[1..] == ts;
  }

  lemma {:induction false} StripWhite(s: string, i: nat, j: nat)
    requires i <= j <= |s| && forall k | i <= k < j :: s[k] in WHITESPACE
    ensures Strip(s[i..]) == Strip(s[j..])
    decreases j - i
  {
    if i < j {
      assert s[i..][0] == s[i] && s[i..][1..] == s[i + 1..];
      StripWhite(s, i + 1, j);
    }
  }

  lemma {:induction false} StripWord(s: string, j: nat, e: nat)
    requires j <= e <= |s| && forall k | j <= k < e :: WordChar(s[k])
    ensures Strip(s[j..]) == s[j..e] + Strip(s[e..]) && (j < e ==> TokenOf(s, Word(Range(j, e))))
    decreases e - j
  {
    if j < e {
      assert s[j..][0] == s[j] && s[j..][1..] == s[j + 1..];
      StripWord(s, j + 1, e);
      assert s[j..e] == [s[j]] + s[j + 1..e];
    }
  }

  lemma StripSymbol(s: string, j: nat, n: nat)
    requires j < |s| && SymbolChar(s[j])
    requires n == if s[j] == '>' && j + 1 < |s| && s[j + 1] == '>' then j + 2 else j + 1
    ensures Strip(s[j..]) == (if n == j + 2 then ">>" else [s[j]]) + Strip(s[n..])
    ensures TokenOf(s, if n == j + 2 then Sym('+') else Sym(s[j]))
  {
    assert s[j..][0] == s[j] && s[j..][1..] == s[j + 1..];
    if n == j + 2 {
      assert s[j + 1..][0] == '>' && s[j + 1..][1..] == s[j + 2..];
    }
  }

  lemma {:induction false} LexText(s: string, i: nat, ts: seq<Tok<string>>)
    requires i <= |s| && s[i..] == Text(ts) && forall k | 0 <= k < |ts| :: ValidTok(ts[k])
    ensures MapToks(r => Slice(s, r), Lex(s, i)) == ts
    decreases |ts|
  {
    hide Lex, ValidTok, Slice, TokText;
    if ts == [] {
      LexEnd(s);
    } else {
      var t, n := ts[0], i + |TokText(ts[0])|;
      TextHead(s, i, ts);
      LexText(s, n + 1, ts[1..]);
      LexGap(s, n);
      TokenHere(s, i, t);
      assert Lex(s, i) == [Lex(s, i)[0]] + Lex(s, n + 1);
      MapCons(r => Slice(s, r), Lex(s, i)[0], Lex(s, n + 1));
      assert ts == [t] + ts[1..];
    }
  }

  lemma MapCons<A, B>(f: A -> B, t: Tok<A>, ts: seq<Tok<A>>)
    ensures MapToks(f, [t] + ts) == [MapTok(f, t)] + MapToks(f, ts)
  {
  }

  lemma TextHead(s: string, i: nat, ts: seq<Tok<string>>)
    requires i <= |s| && s[i..] == Text(ts) && ts != []
    ensures var n := i + |TokText(ts[0])|; n < |s| && s[i..n] == TokText(ts[0]) && s[n] == ' '
                                           && s[n + 1..] == Text(ts[1..])
  {
    hide TokText;
    var text, rest := TokText(ts[0]), s[i..];
    assert rest == text + " " + Text(ts[1..]);
    assert rest[..|text|] == text && rest[|text|] == ' ' && rest[|text| + 1..] == Text(ts[1..]);
  }

  lemma LexGap(s: string, n: nat)
    requires n < |s| && s[n] == ' '
    ensures Lex(s, n) == Lex(s, n + 1)
  {
    assert Skip(s, n) == Skip(s, n + 1);
  }

  /** The token whose text is at the cursor, with a space after it. */
  lemma TokenHere(s: string, i: nat, t: Tok<string>)
    requires ValidTok(t) && var n := i + |TokText(t)|; n < |s| && s[i..n] == TokText(t) && s[n] == ' '
    ensures var n := i + |TokText(t)|;
            Lex(s, i) != [] && Lex(s, i)[1..] == Lex(s, n) && MapTok(r => Slice(s, r), Lex(s, i)[0]) == t
  {
    hide Lex, WordEnd, Skip;
    var n := i + |TokText(t)|;
    assert s[i] == s[i..n][0] == TokText(t)[0];
    FirstNotWhite(t);
    SkipNone(s, i);
    LexAt(s, i);
    SymbolOrWord(s[i]);
    match t
    case Word(w) =>
      forall k | i <= k < n ensures WordChar(s[k]) {
        assert s[k] == s[i..n][k - i] == w[k - i];
      }
      WordStops(s, i, n);
    case Sym(c) =>
      if c == '+' {
        assert s[i + 1] == s[i..n][1] == '>';
      }
  }

  lemma FirstNotWhite(t: Tok<string>)
    requires ValidTok(t)
    ensures TokText(t) != [] && TokText(t)[0] !in WHITESPACE
  {
  }

  lemma SkipNone(s: string, i: nat)
    requires i < |s| && s[i] !in WHITESPACE
    ensures Skip(s, i) == i
  {
  }

  lemma WordStops(s: string, i: nat, n: nat)
    requires i <= n < |s| && s[n] == ' ' && forall k | i <= k < n :: WordChar(s[k])
    ensures WordEnd(s, i) == n
    decreases n - i
  {
    if i < n {
      WordStops(s, i + 1, n);
    }
  }

  lemma {:induction false} PrintValid(c: Cmd<string>)
    requires Printable(c) && Uses(c, iset w | ValidWord(w))
    ensures forall k | 0 <= k < |Print(c)| :: ValidTok(Print(c)[k])
  {
    match c
    case Exec(argv) =>
    case Redir(d, _, _) => PrintValid(d);
    case Pipe(l, r) => PrintValid(l); PrintValid(r);
    case List(l, r) => PrintValid(l); PrintValid(r);
    case Back(d) => PrintValid(d);
  }

  /** Parsing the fully parenthesised text of a command gives that command. */
  lemma ParseOfText(c: Cmd<string>)
    requires Printable(c) && Uses(c, iset w | ValidWord(w))
    ensures var s := Text(Print(c));
            var r := Parse(Lex(s, 0));
            r.Ok? && MapCmd(x => Slice(s, x), r.cmd) == c
  {
    hide Lex, Print, Text, ParseLine;
    var s := Text(Print(c));
    var f := x => Slice(s, x);
    PrintValid(c);
    LexText(s, 0, Print(c));
    MapLine(f, Lex(s, 0));
    PrintParse(c, []);
    assert Print(c) + [] == Print(c);
  }
}
