/**
 The shell's command language (sh.c): tokens, command trees, what a line of tokens means,
 and how a tree is written down so that it means that tree.
*/
module ShGrammar {
  const MAXARGS: nat := 10

  // ---------- characters and tokens ----------

  /** " \t\r\n\v" */
  predicate IsSpace(c: char) {
    c == ' ' || c == '\t' || c == '\r' || c == '\n' || c == '\U{0B}'
  }

  predicate IsSymbol(c: char) {
    c in "<|>&;()"
  }

  predicate InWord(c: char) {
    !IsSpace(c) && !IsSymbol(c) && c != '\0'
  }

  /** Append is >>. */
  datatype Token = Sym(c: char) | Append | Word(w: string)

  /** Where the word that goes on at i ends. */
  function WordEnd(s: string, i: nat): (e: nat)
    requires i <= |s|
    ensures i <= e <= |s| && (forall k :: i <= k < e ==> InWord(s[k])) && (e < |s| ==> !InWord(s[e]))
    decreases |s| - i
  {
    if i < |s| && InWord(s[i]) then WordEnd(s, i + 1) else i
  }

  /** The tokens of s from i on. Text stops at a NUL. */
  function Lex(s: string, i: nat): seq<Token>
    requires i <= |s|
    decreases |s| - i
  {
    if i == |s| || s[i] == '\0' then []
    else if IsSpace(s[i]) then Lex(s, i + 1)
    else if s[i] == '>' && i + 1 < |s| && s[i + 1] == '>' then [Append] + Lex(s, i + 2)
    else if IsSymbol(s[i]) then [Sym(s[i])] + Lex(s, i + 1)
    else
      var e := WordEnd(s, i + 1);
      [Word(s[i..e])] + Lex(s, e)
  }

  // ---------- command trees ----------

  /** W is how words are given: as text, or as places in a buffer. Both > and >> open the
      file for writing in the same way. */
  datatype Cmd<W> =
    | Exec(argv: seq<W>)
    | Redir(cmd: Cmd<W>, file: W, write: bool)
    | Pipe(left: Cmd<W>, right: Cmd<W>)
    | List(left: Cmd<W>, right: Cmd<W>)
    | Back(cmd: Cmd<W>)

  /** The source's panics. */
  datatype Error = MissingFile | MissingParen | BadToken | TooManyArgs | Leftovers

  datatype Result<T> = Ok(value: T) | Panic(error: Error)

  type Line = Cmd<string>

  /** A tree and the tokens after it. */
  datatype Parsed = Parsed(cmd: Line, rest: seq<Token>)

  // ---------- what tokens mean ----------

  predicate Starts(ts: seq<Token>, chars: string) {
    ts != [] && ts[0].Sym? && ts[0].c in chars
  }

  predicate StartsRedir(ts: seq<Token>) {
    ts != [] && (ts[0] == Sym('<') || ts[0] == Sym('>') || ts[0] == Append)
  }

  datatype Redirection = Redirection(file: string, write: bool)

  /** Redirections around base, the first innermost. */
  function Wrap(base: Line, rs: seq<Redirection>): Line {
    if rs == [] then base
    else Redir(Wrap(base, rs[..|rs| - 1]), rs[|rs| - 1].file, rs[|rs| - 1].write)
  }

  function RedirList(ts: seq<Token>): (r: Result<(seq<Redirection>, seq<Token>)>)
    ensures r.Ok? ==> |r.value.1| <= |ts| && !StartsRedir(r.value.1)
  {
    if !StartsRedir(ts) then Ok(([], ts))
    else if |ts| == 1 || !ts[1].Word? then Panic(MissingFile)
    else
      match RedirList(ts[2..])
      case Panic(e) => Panic(e)
      case Ok((rs, rest)) => Ok(([Redirection(ts[1].w, ts[0] != Sym('<'))] + rs, rest))
  }

  /** A simple command's words and redirections, as they come. */
  function ParseArgs(argv: seq<string>, rs: seq<Redirection>, ts: seq<Token>): (r: Result<Parsed>)
    requires |argv| < MAXARGS
    ensures r.Ok? ==> |r.value.rest| <= |ts|
    decreases |ts|
  {
    if ts == [] || Starts(ts, "|)&;") then Ok(Parsed(Wrap(Exec(argv), rs), ts))
    else if !ts[0].Word? then Panic(BadToken)
    else if |argv| + 1 >= MAXARGS then Panic(TooManyArgs)
    else
      match RedirList(ts[1..])
      case Panic(e) => Panic(e)
      case Ok((more, rest)) => ParseArgs(argv + [ts[0].w], rs + more, rest)
  }

  /** Redirections after a block. */
  function ParseAfter(c: Line, ts: seq<Token>): (r: Result<Parsed>)
    ensures r.Ok? ==> |r.value.rest| <= |ts|
  {
    match RedirList(ts)
    case Panic(e) => Panic(e)
    case Ok((rs, rest)) => Ok(Parsed(Wrap(c, rs), rest))
  }

  function ParseExec(ts: seq<Token>): (r: Result<Parsed>)
    ensures r.Ok? ==> |r.value.rest| <= |ts|
    decreases |ts|, 1
  {
    if Starts(ts, "(") then
      match ParseLine(ts[1..])
      case Panic(e) => Panic(e)
      case Ok(p) =>
        if Starts(p.rest, ")") then ParseAfter(p.cmd, p.rest[1..]) else Panic(MissingParen)
    else
      match RedirList(ts)
      case Panic(e) => Panic(e)
      case Ok((rs, rest)) => ParseArgs([], rs, rest)
  }

  function ParsePipe(ts: seq<Token>): (r: Result<Parsed>)
    ensures r.Ok? ==> |r.value.rest| <= |ts|
    decreases |ts|, 2
  {
    match ParseExec(ts)
    case Panic(e) => Panic(e)
    case Ok(p) =>
      if !Starts(p.rest, "|") then Ok(p)
      else
        match ParsePipe(p.rest[1..])
        case Panic(e) => Panic(e)
        case Ok(q) => Ok(Parsed(Pipe(p.cmd, q.cmd), q.rest))
  }

  function ParseBacks(c: Line, ts: seq<Token>): (p: Parsed)
    ensures |p.rest| <= |ts| && !Starts(p.rest, "&")
    decreases |ts|
  {
    if Starts(ts, "&") then ParseBacks(Back(c), ts[1..]) else Parsed(c, ts)
  }

  function ParseLine(ts: seq<Token>): (r: Result<Parsed>)
    ensures r.Ok? ==> |r.value.rest| <= |ts|
    decreases |ts|, 3
  {
    match ParsePipe(ts)
    case Panic(e) => Panic(e)
    case Ok(p0) =>
      var p := ParseBacks(p0.cmd, p0.rest);
      if !Starts(p.rest, ";") then Ok(p)
      else
        match ParseLine(p.rest[1..])
        case Panic(e) => Panic(e)
        case Ok(q) => Ok(Parsed(List(p.cmd, q.cmd), q.rest))
  }

  function ParseCmd(ts: seq<Token>): Result<Line> {
    match ParseLine(ts)
    case Panic(e) => Panic(e)
    case Ok(p) => if p.rest == [] then Ok(p.cmd) else Panic(Leftovers)
  }

  // ---------- writing a tree down ----------

  function Words(argv: seq<string>): seq<Token> {
    if argv == [] then [] else [Word(argv[0])] + Words(argv[1..])
  }

  predicate Compound(c: Line) {
    c.List? || c.Back? || c.Pipe?
  }

  function LineTokens(c: Line): seq<Token>
    decreases c, 4
  {
    match c
    case List(l, r) => AmpTokens(l) + [Sym(';')] + LineTokens(r)
    case _ => AmpTokens(c)
  }

  function AmpTokens(c: Line): seq<Token>
    decreases c, if c.List? then 7 else 3
  {
    match c
    case Back(d) => AmpTokens(d) + [Sym('&')]
    case _ => PipeTokens(c)
  }

  function PipeTokens(c: Line): seq<Token>
    decreases c, if c.List? || c.Back? then 6 else 2
  {
    match c
    case Pipe(l, r) => AtomTokens(l) + [Sym('|')] + PipeTokens(r)
    case _ => AtomTokens(c)
  }

  /** A simple command, or anything else in parentheses. */
  function AtomTokens(c: Line): seq<Token>
    decreases c, if Compound(c) then 5 else 1
  {
    match c
    case Exec(argv) => Words(argv)
    case Redir(d, f, w) => AtomTokens(d) + RedirTokens(Redirection(f, w))
    case _ => [Sym('(')] + LineTokens(c) + [Sym(')')]
  }

  function RedirTokens(r: Redirection): seq<Token> {
    [if r.write then Sym('>') else Sym('<'), Word(r.file)]
  }

  /** No simple command has more than nine words. */
  predicate Small(c: Line) {
    match c
    case Exec(argv) => |argv| < MAXARGS
    case Redir(d, _, _) => Small(d)
    case Pipe(l, r) => Small(l) && Small(r)
    case List(l, r) => Small(l) && Small(r)
    case Back(d) => Small(d)
  }

  // ---------- what is written down is read back ----------

  predicate EndsAt(ts: seq<Token>, chars: string) {
    ts == [] || Starts(ts, chars)
  }

  function AllRedirTokens(rs: seq<Redirection>): seq<Token> {
    if rs == [] then [] else RedirTokens(rs[0]) + AllRedirTokens(rs[1..])
  }

  lemma {:induction false} RedirListReads(rs: seq<Redirection>, rest: seq<Token>)
    requires !StartsRedir(rest)
    ensures RedirList(AllRedirTokens(rs) + rest) == Ok((rs, rest))
  {
    var ts := AllRedirTokens(rs) + rest;
    if rs == [] {
      assert ts == rest;
    } else {
      RedirListReads(rs[1..], rest);
      assert ts[2..] == AllRedirTokens(rs[1..]) + rest;
      assert ts[0] == RedirTokens(rs[0])[0] && ts[1] == Word(rs[0].file);
      assert [Redirection(rs[0].file, ts[0] != Sym('<'))] + rs[1..] == rs;
    }
  }

  lemma ArgsStep(argv: seq<string>, rs: seq<Redirection>, ts: seq<Token>, more: seq<Redirection>, rest: seq<Token>)
    requires |argv| + 1 < MAXARGS && ts != [] && ts[0].Word? && RedirList(ts[1..]) == Ok((more, rest))
    ensures ParseArgs(argv, rs, ts) == ParseArgs(argv + [ts[0].w], rs + more, rest)
  {
  }

  lemma ArgsEnd(argv: seq<string>, rs: seq<Redirection>, rest: seq<Token>)
    requires |argv| < MAXARGS && EndsAt(rest, "|)&;")
    ensures ParseArgs(argv, rs, rest) == Ok(Parsed(Wrap(Exec(argv), rs), rest))
  {
  }

  lemma NoRedirYet(ts: seq<Token>)
    requires !StartsRedir(ts)
    ensures RedirList(ts) == Ok(([], ts))
  {
  }

  lemma HeadOff(a: seq<Token>, b: seq<Token>, c: seq<Token>)
    requires a != []
    ensures (a + b + c)[0] == a[0] && (a + b + c)[1..] == a[1..] + b + c
  {
  }

  lemma WordsShape(ws: seq<string>, rs: seq<Redirection>, rest: seq<Token>)
    requires ws != []
    ensures var ts := Words(ws) + AllRedirTokens(rs) + rest;
            ts != [] && ts[0] == Word(ws[0]) && ts[1..] == Words(ws[1..]) + AllRedirTokens(rs) + rest
  {
    assert Words(ws)[0] == Word(ws[0]) && Words(ws)[1..] == Words(ws[1..]);
    HeadOff(Words(ws), AllRedirTokens(rs), rest);
  }

  lemma {:induction false} ArgsRead(argv: seq<string>, ws: seq<string>, rs: seq<Redirection>, rest: seq<Token>)
    requires |argv| + |ws| < MAXARGS && EndsAt(rest, "|)&;") && ws != []
    ensures ParseArgs(argv, [], Words(ws) + AllRedirTokens(rs) + rest) == Ok(Parsed(Wrap(Exec(argv + ws), rs), rest))
    decreases |ws|
  {
    hide ParseArgs, RedirList;
    var ts := Words(ws) + AllRedirTokens(rs) + rest;
    var none: seq<Redirection> := [];
    WordsShape(ws, rs, rest);
    if |ws| == 1 {
      assert ts[1..] == AllRedirTokens(rs) + rest && argv + [ws[0]] == argv + ws;
      RedirListReads(rs, rest);
      ArgsStep(argv, none, ts, rs, rest);
      assert none + rs == rs;
      ArgsEnd(argv + ws, rs, rest);
    } else {
      WordsShape(ws[1..], rs, rest);
      NoRedirYet(ts[1..]);
      ArgsStep(argv, none, ts, none, ts[1..]);
      assert none + none == none;
      ArgsRead(argv + [ws[0]], ws[1..], rs, rest);
      assert argv + [ws[0]] + ws[1..] == argv + ws;
    }
  }

  /** What the redirections of c are around, and the redirections. */
  function Base(c: Line): Line {
    if c.Redir? then Base(c.cmd) else c
  }

  function Redirs(c: Line): seq<Redirection> {
    if c.Redir? then Redirs(c.cmd) + [Redirection(c.file, c.write)] else []
  }

  lemma {:induction false} AllRedirsMore(rs: seq<Redirection>, r: Redirection)
    ensures AllRedirTokens(rs + [r]) == AllRedirTokens(rs) + RedirTokens(r)
  {
    if rs != [] {
      AllRedirsMore(rs[1..], r);
      assert (rs + [r])[1..] == rs[1..] + [r];
    }
  }

  lemma {:induction false} AtomIs(c: Line)
    ensures !Base(c).Redir? && c == Wrap(Base(c), Redirs(c))
    ensures AtomTokens(c) == AtomTokens(Base(c)) + AllRedirTokens(Redirs(c))
    ensures Small(c) ==> Small(Base(c))
  {
    if c.Redir? {
      AtomIs(c.cmd);
      AllRedirsMore(Redirs(c.cmd), Redirection(c.file, c.write));
      assert Redirs(c)[..|Redirs(c)| - 1] == Redirs(c.cmd);
    }
  }

  /** Redirections take no more levels than what they are around. */
  function Level(c: Line): nat {
    match c
    case Exec(_) => 0
    case Redir(d, _, _) => Level(d) + 1
    case Pipe(l, r) => Level(l) + Level(r) + 1
    case List(l, r) => Level(l) + Level(r) + 1
    case Back(d) => Level(d) + 1
  }

  lemma {:induction false} BaseLevel(c: Line)
    ensures Level(Base(c)) <= Level(c) && (c.Redir? ==> Level(Base(c)) < Level(c))
  {
    if c.Redir? { BaseLevel(c.cmd); }
  }

  lemma ExecStep(ts: seq<Token>, rs: seq<Redirection>, rest: seq<Token>)
    requires !Starts(ts, "(") && RedirList(ts) == Ok((rs, rest))
    ensures ParseExec(ts) == ParseArgs([], rs, rest)
  {
  }

  lemma ExecReads(ws: seq<string>, rs: seq<Redirection>, rest: seq<Token>)
    requires |ws| < MAXARGS && EndsAt(rest, "|)&;")
    ensures ParseExec(Words(ws) + AllRedirTokens(rs) + rest) == Ok(Parsed(Wrap(Exec(ws), rs), rest))
  {
    hide ParseExec, ParseArgs, RedirList, Words, AllRedirTokens;
    if ws == [] {
      ExecReadsNoWords(rs, rest);
      assert Words(ws) + AllRedirTokens(rs) + rest == AllRedirTokens(rs) + rest by { NoWords(); }
    } else {
      ExecReadsWords(ws, rs, rest);
    }
  }

  lemma NoWords()
    ensures Words([]) == []
  {
  }

  lemma ExecReadsNoWords(rs: seq<Redirection>, rest: seq<Token>)
    requires EndsAt(rest, "|)&;")
    ensures ParseExec(AllRedirTokens(rs) + rest) == Ok(Parsed(Wrap(Exec([]), rs), rest))
  {
    RedirListReads(rs, rest);
    RedirsShape(rs, rest);
    hide ParseExec, ParseArgs, RedirList, AllRedirTokens;
    ExecStep(AllRedirTokens(rs) + rest, rs, rest);
    ArgsEnd([], rs, rest);
  }

  lemma ExecReadsWords(ws: seq<string>, rs: seq<Redirection>, rest: seq<Token>)
    requires 0 < |ws| < MAXARGS && EndsAt(rest, "|)&;")
    ensures ParseExec(Words(ws) + AllRedirTokens(rs) + rest) == Ok(Parsed(Wrap(Exec(ws), rs), rest))
  {
    var ts := Words(ws) + AllRedirTokens(rs) + rest;
    var none: seq<Redirection> := [];
    WordsShape(ws, rs, rest);
    NoRedirYet(ts);
    hide ParseExec, ParseArgs, RedirList, AllRedirTokens, Words;
    ExecStep(ts, none, ts);
    ArgsRead([], ws, rs, rest);
    assert [] + ws == ws;
  }

  lemma RedirsShape(rs: seq<Redirection>, rest: seq<Token>)
    requires EndsAt(rest, "|)&;")
    ensures !Starts(AllRedirTokens(rs) + rest, "(")
  {
    if rs == [] {
      assert AllRedirTokens(rs) + rest == rest;
    } else {
      assert (AllRedirTokens(rs) + rest)[0] == RedirTokens(rs[0])[0];
    }
  }

  lemma BlockStep(ts: seq<Token>, p: Parsed, rs: seq<Redirection>, rest: seq<Token>)
    requires Starts(ts, "(") && ParseLine(ts[1..]) == Ok(p) && Starts(p.rest, ")")
             && RedirList(p.rest[1..]) == Ok((rs, rest))
    ensures ParseExec(ts) == Ok(Parsed(Wrap(p.cmd, rs), rest))
  {
  }

  lemma AtomShape(b: Line, rs: seq<Redirection>, rest: seq<Token>)
    requires Compound(b)
    ensures var ts := AtomTokens(b) + AllRedirTokens(rs) + rest;
            ts != [] && ts[0] == Sym('(') && ts[1..] == LineTokens(b) + ([Sym(')')] + (AllRedirTokens(rs) + rest))
  {
    hide LineTokens, AllRedirTokens;
  }

  lemma {:induction false} AtomReads(c: Line, rest: seq<Token>)
    requires Small(c) && EndsAt(rest, "|)&;")
    ensures ParseExec(AtomTokens(c) + rest) == Ok(Parsed(c, rest))
    decreases Level(c), if Compound(c) then 5 else 1
  {
    hide RedirList, ParseExec, ParseLine;
    var b, rs := Base(c), Redirs(c);
    AtomIs(c);
    BaseLevel(c);
    if b.Exec? {
      ExecReads(b.argv, rs, rest);
    } else {
      var after := AllRedirTokens(rs) + rest;
      var ts := AtomTokens(c) + rest;
      AtomShape(b, rs, rest);
      LineReads(b, [Sym(')')] + after);
      RedirListReads(rs, rest);
      hide LineTokens, AllRedirTokens;
      assert ([Sym(')')] + after)[1..] == after;
      BlockStep(ts, Parsed(b, [Sym(')')] + after), rs, rest);
    }
  }

  lemma {:induction false} PipeReads(c: Line, rest: seq<Token>)
    requires Small(c) && EndsAt(rest, ")&;")
    ensures ParsePipe(PipeTokens(c) + rest) == Ok(Parsed(c, rest))
    decreases Level(c), if c.List? || c.Back? then 6 else 2
  {
    match c {
      case Pipe(l, r) =>
        var more := [Sym('|')] + (PipeTokens(r) + rest);
        AtomReads(l, more);
        assert PipeTokens(c) + rest == AtomTokens(l) + more;
        PipeReads(r, rest);
        assert more[1..] == PipeTokens(r) + rest;
      case _ =>
        AtomReads(c, rest);
    }
  }

  /** parseline up to its semicolon. */
  function ParseAmp(ts: seq<Token>): Result<Parsed> {
    match ParsePipe(ts)
    case Panic(e) => Panic(e)
    case Ok(p) => Ok(ParseBacks(p.cmd, p.rest))
  }

  lemma {:induction false} AmpReads(c: Line, rest: seq<Token>)
    requires Small(c) && EndsAt(rest, ")&;")
    ensures ParseAmp(AmpTokens(c) + rest) == Ok(ParseBacks(c, rest))
    decreases Level(c), if c.List? then 7 else 3
  {
    match c {
      case Back(d) =>
        AmpReads(d, [Sym('&')] + rest);
        assert AmpTokens(c) + rest == AmpTokens(d) + ([Sym('&')] + rest);
        assert ([Sym('&')] + rest)[1..] == rest;
      case _ =>
        PipeReads(c, rest);
    }
  }

  lemma {:induction false} LineReads(c: Line, rest: seq<Token>)
    requires Small(c) && EndsAt(rest, ")")
    ensures ParseLine(LineTokens(c) + rest) == Ok(Parsed(c, rest))
    decreases Level(c), 4
  {
    match c {
      case List(l, r) =>
        var more := [Sym(';')] + (LineTokens(r) + rest);
        AmpReads(l, more);
        assert LineTokens(c) + rest == AmpTokens(l) + more;
        LineReads(r, rest);
        assert more[1..] == LineTokens(r) + rest;
      case _ =>
        AmpReads(c, rest);
    }
  }

  /** Every tree whose simple commands have at most nine words is what its tokens mean. */
  lemma TokensRoundTrip(c: Line)
    requires Small(c)
    ensures ParseCmd(LineTokens(c)) == Ok(c)
  {
    LineReads(c, []);
    assert LineTokens(c) + [] == LineTokens(c);
  }

  // ---------- tokens as text ----------

  predicate LegalToken(t: Token) {
    match t
    case Sym(c) => IsSymbol(c)
    case Append => true
    case Word(w) => LegalWord(w)
  }

  predicate LegalWord(w: string) {
    w != "" && forall k :: 0 <= k < |w| ==> InWord(w[k])
  }

  function Show(t: Token): string {
    match t
    case Sym(c) => [c]
    case Append => ">>"
    case Word(w) => w
  }

  /** Tokens with a space after each. */
  function ShowAll(ts: seq<Token>): string {
    if ts == [] then "" else Show(ts[0]) + " " + ShowAll(ts[1..])
  }

  lemma {:induction false} WordEndShift(p: string, s: string, i: nat)
    requires i <= |s|
    ensures WordEnd(p + s, |p| + i) == |p| + WordEnd(s, i)
    decreases |s| - i
  {
    if i < |s| && InWord(s[i]) { WordEndShift(p, s, i + 1); }
  }

  /** The first token of s from i, if any, and where it ends. */
  function LexOne(s: string, i: nat): (seq<Token>, nat)
    requires i < |s| && s[i] != '\0'
  {
    if IsSpace(s[i]) then ([], i + 1)
    else if s[i] == '>' && i + 1 < |s| && s[i + 1] == '>' then ([Append], i + 2)
    else if IsSymbol(s[i]) then ([Sym(s[i])], i + 1)
    else ([Word(s[i..WordEnd(s, i + 1)])], WordEnd(s, i + 1))
  }

  lemma LexIs(s: string, i: nat)
    requires i < |s| && s[i] != '\0'
    ensures i < LexOne(s, i).1 <= |s| && Lex(s, i) == LexOne(s, i).0 + Lex(s, LexOne(s, i).1)
  {
  }

  lemma LexOneShift(p: string, s: string, i: nat)
    requires i < |s| && s[i] != '\0'
    ensures (p + s)[|p| + i] == s[i]
    ensures LexOne(p + s, |p| + i).0 == LexOne(s, i).0 && LexOne(p + s, |p| + i).1 == |p| + LexOne(s, i).1
  {
    assert (p + s)[|p| + i] == s[i];
    if i + 1 < |s| { assert (p + s)[|p| + (i + 1)] == s[i + 1]; }
    WordEndShift(p, s, i + 1);
    var e := WordEnd(s, i + 1);
    SliceShift(p, s, i, e);
  }

  lemma SliceShift(p: string, s: string, i: nat, e: nat)
    requires i <= e <= |s|
    ensures (p + s)[|p| + i..|p| + e] == s[i..e]
  {
  }

  /** What comes before does not change the tokens. */
  lemma {:induction false} LexShift(p: string, s: string, i: nat)
    requires i <= |s|
    ensures Lex(p + s, |p| + i) == Lex(s, i)
    decreases |s| - i
  {
    if i < |s| && s[i] != '\0' {
      LexOneShift(p, s, i);
      LexIs(s, i);
      LexIs(p + s, |p| + i);
      hide Lex, LexOne, WordEnd, IsSpace, IsSymbol, InWord;
      LexShift(p, s, LexOne(s, i).1);
    }
  }

  lemma {:induction false} WordEndsAt(w: string, s: string, i: nat)
    requires 0 < i <= |w| && LegalWord(w)
    ensures WordEnd(w + " " + s, i) == |w|
    decreases |w| - i
  {
    if i < |w| { WordEndsAt(w, s, i + 1); }
  }

  ghost predicate AllLegal(ts: seq<Token>) {
    forall t :: t in ts ==> LegalToken(t)
  }

  lemma LexFirst(t: Token, rest: string)
    requires LegalToken(t)
    ensures Lex(Show(t) + " " + rest, 0) == [t] + Lex(rest, 0)
  {
    var first := Show(t);
    var s := first + " " + rest;
    LexShift(first + " ", rest, 0);
    assert s[|first|] == ' ';
    assert Lex(s, |first|) == Lex(s, |first| + 1) == Lex(rest, 0);
    if t.Word? {
      WordEndsAt(t.w, rest, 1);
      assert s[0..|first|] == t.w && InWord(s[0]) by { assert s[0] == t.w[0]; }
    }
  }

  lemma {:induction false} LexShows(ts: seq<Token>)
    requires AllLegal(ts)
    ensures Lex(ShowAll(ts), 0) == ts
  {
    if ts != [] {
      assert ts[0] in ts;
      LexShows(ts[1..]);
      LexFirst(ts[0], ShowAll(ts[1..]));
    }
  }

  predicate Legal(c: Line) {
    match c
    case Exec(argv) => |argv| < MAXARGS && forall w :: w in argv ==> LegalWord(w)
    case Redir(d, f, _) => Legal(d) && LegalWord(f)
    case Pipe(l, r) => Legal(l) && Legal(r)
    case List(l, r) => Legal(l) && Legal(r)
    case Back(d) => Legal(d)
  }

  function Print(c: Line): string {
    ShowAll(LineTokens(c))
  }

  function Parse(s: string): Result<Line> {
    ParseCmd(Lex(s, 0))
  }

  /** parse(print(c)) == c. */
  lemma RoundTrip(c: Line)
    requires Legal(c)
    ensures Parse(Print(c)) == Ok(c)
  {
    LegalSmall(c);
    LegalLine(c);
    LexShows(LineTokens(c));
    TokensRoundTrip(c);
  }

  lemma LegalSmall(c: Line)
    requires Legal(c)
    ensures Small(c)
  {
  }

  lemma {:induction false} LegalWords(argv: seq<string>)
    requires forall w :: w in argv ==> LegalWord(w)
    ensures AllLegal(Words(argv))
  {
    if argv != [] { LegalWords(argv[1..]); }
  }

  lemma {:induction false} LegalLine(c: Line)
    requires Legal(c)
    ensures AllLegal(LineTokens(c)) && AllLegal(AmpTokens(c)) && AllLegal(PipeTokens(c)) && AllLegal(AtomTokens(c))
    decreases c
  {
    match c {
      case Exec(argv) =>
        LegalWords(argv);
        assert LineTokens(c) == AmpTokens(c) == PipeTokens(c) == AtomTokens(c) == Words(argv);
      case Redir(d, f, w) =>
        LegalLine(d);
        assert AllLegal(RedirTokens(Redirection(f, w)));
        assert LineTokens(c) == AmpTokens(c) == PipeTokens(c) == AtomTokens(c);
      case Pipe(l, r) =>
        LegalLine(l);
        LegalLine(r);
        assert LineTokens(c) == AmpTokens(c) == PipeTokens(c) == AtomTokens(l) + [Sym('|')] + PipeTokens(r);
        assert AllLegal(PipeTokens(c));
        assert AtomTokens(c) == [Sym('(')] + LineTokens(c) + [Sym(')')];
      case List(l, r) =>
        LegalLine(l);
        LegalLine(r);
        assert LineTokens(c) == AmpTokens(l) + [Sym(';')] + LineTokens(r);
        assert AllLegal(LineTokens(c));
        assert AmpTokens(c) == PipeTokens(c) == AtomTokens(c) == [Sym('(')] + LineTokens(c) + [Sym(')')];
      case Back(d) =>
        LegalLine(d);
        assert LineTokens(c) == AmpTokens(c) == AmpTokens(d) + [Sym('&')];
        assert AllLegal(LineTokens(c));
        assert PipeTokens(c) == AtomTokens(c) == [Sym('(')] + LineTokens(c) + [Sym(')')];
    }
  }
}
