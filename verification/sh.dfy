/**
 The shell's parser (sh.c) over a line of text: one cursor, moved by gettoken and peek, and
 a recursive descent. Words are recorded as places in the buffer; nulterminate ends them.
*/
module Sh {
  import opened ShGrammar

  /** argv and eargv, file and efile: where a word starts, and where it ends. */
  datatype Span = Span(q: nat, eq: nat)

  type Place = Cmd<Span>

  /** The text of a C string has no NUL. */
  predicate NulFree(s: string) {
    forall i :: 0 <= i < |s| ==> s[i] != '\0'
  }

  /** A whole word: word characters, then something else or the end. */
  predicate SpanOk(s: string, w: Span) {
    w.q < w.eq <= |s| && (forall k :: w.q <= k < w.eq ==> InWord(s[k])) && (w.eq < |s| ==> !InWord(s[w.eq]))
  }

  predicate SpansOk(s: string, c: Place) {
    match c
    case Exec(argv) => forall k :: 0 <= k < |argv| ==> SpanOk(s, argv[k])
    case Redir(d, f, _) => SpansOk(s, d) && SpanOk(s, f)
    case Pipe(l, r) => SpansOk(s, l) && SpansOk(s, r)
    case List(l, r) => SpansOk(s, l) && SpansOk(s, r)
    case Back(d) => SpansOk(s, d)
  }

  function SpellWord(s: string, w: Span): string {
    if w.q <= w.eq <= |s| then s[w.q..w.eq] else ""
  }

  function SpellAll(s: string, argv: seq<Span>): (r: seq<string>)
    ensures |r| == |argv|
  {
    if argv == [] then [] else SpellAll(s, argv[..|argv| - 1]) + [SpellWord(s, argv[|argv| - 1])]
  }

  /** The tree with its words spelled out. */
  function Spell(s: string, c: Place): Line {
    match c
    case Exec(argv) => Exec(SpellAll(s, argv))
    case Redir(d, f, w) => Redir(Spell(s, d), SpellWord(s, f), w)
    case Pipe(l, r) => Pipe(Spell(s, l), Spell(s, r))
    case List(l, r) => List(Spell(s, l), Spell(s, r))
    case Back(d) => Back(Spell(s, d))
  }

  /** What the parser found is what the grammar says. */
  ghost predicate Agrees(s: string, r: Result<Place>, spec: Result<Parsed>, ps: nat)
    requires ps <= |s|
  {
    match spec
    case Panic(e) => r == Panic(e)
    case Ok(p) => r.Ok? && SpansOk(s, r.value) && Spell(s, r.value) == p.cmd && Lex(s, ps) == p.rest
  }

  function TokenOf(s: string, ret: char, w: Span): seq<Token> {
    if ret == '\0' then []
    else if ret == 'a' then [Word(SpellWord(s, w))]
    else if ret == '+' then [Append]
    else [Sym(ret)]
  }

  // ---------- redirections, one by one ----------

  ghost predicate RedirsAgree(s: string, r: Result<Place>, cmd: Place, spec: Result<(seq<Redirection>, seq<Token>)>,
                              ps: nat)
    requires ps <= |s|
  {
    match spec
    case Panic(e) => r == Panic(e)
    case Ok((rs, rest)) =>
      r.Ok? && SpansOk(s, r.value) && Spell(s, r.value) == Wrap(Spell(s, cmd), rs) && Lex(s, ps) == rest
  }

  /** The redirections already read, and then the others. */
  function AfterDone(done: seq<Redirection>, r: Result<(seq<Redirection>, seq<Token>)>)
    : Result<(seq<Redirection>, seq<Token>)>
  {
    match r
    case Panic(e) => Panic(e)
    case Ok((rs, rest)) => Ok((done + rs, rest))
  }

  lemma NothingDone(r: Result<(seq<Redirection>, seq<Token>)>)
    ensures AfterDone([], r) == r
  {
    if r.Ok? { assert [] + r.value.0 == r.value.0; }
  }

  lemma RedirMore(done: seq<Redirection>, x: Redirection, l: seq<Token>, rest: seq<Token>)
    requires StartsRedir(l) && |l| > 1 && l[1] == Word(x.file) && x.write == (l[0] != Sym('<')) && l[2..] == rest
    ensures AfterDone(done, RedirList(l)) == AfterDone(done + [x], RedirList(rest))
  {
    match RedirList(rest) {
      case Panic(e) =>
      case Ok((rs, after)) => assert done + ([x] + rs) == done + [x] + rs;
    }
  }

  lemma RedirEnds(done: seq<Redirection>, l: seq<Token>)
    requires !StartsRedir(l)
    ensures AfterDone(done, RedirList(l)) == Ok((done, l))
  {
    assert done + [] == done;
  }

  lemma OneRedir(l: seq<Token>, tok: char, w: Span, s: string, l1: seq<Token>)
    requires StartsRedir(l) && l == TokenOf(s, tok, w) + l1 && (tok == '\0' ==> l1 == [])
    ensures l1 == l[1..] && (tok == '<' <==> l[0] == Sym('<'))
  {
  }

  lemma OneFile(done: seq<Redirection>, l: seq<Token>, kind: char, w: Span, s: string, l1: seq<Token>, l2: seq<Token>)
    requires StartsRedir(l) && l1 == l[1..] && l1 == TokenOf(s, kind, w) + l2 && (kind == '\0' ==> l2 == [])
    ensures kind == 'a' ==> |l| > 1 && l[1] == Word(SpellWord(s, w)) && l[2..] == l2
    ensures kind != 'a' ==> AfterDone(done, RedirList(l)) == Panic(MissingFile)
  {
    assert kind != '\0' ==> l1[0] == TokenOf(s, kind, w)[0];
    assert |l| > 1 ==> l[1] == l1[0] && l[2..] == l1[1..];
  }

  lemma RedirsDone(done: seq<Redirection>, l: seq<Token>)
    requires !StartsRedir(l)
    ensures RedirList(l) == Ok(([], l))
  {
  }

  // ---------- the grammar, one step at a time ----------

  lemma OneSym(l: seq<Token>, tok: char, w: Span, s: string, rest: seq<Token>, c: char)
    requires Starts(l, [c]) && l == TokenOf(s, tok, w) + rest && (tok == '\0' ==> rest == [])
    ensures rest == l[1..] && tok != '\0'
  {
  }

  lemma BlockIs(l: seq<Token>)
    requires Starts(l, "(")
    ensures ShGrammar.ParseExec(l) ==
              match ShGrammar.ParseLine(l[1..])
              case Panic(e) => Panic(e)
              case Ok(p) => if Starts(p.rest, ")") then ParseAfter(p.cmd, p.rest[1..]) else Panic(MissingParen)
  {
  }

  lemma ExecIs(l: seq<Token>)
    requires !Starts(l, "(")
    ensures ShGrammar.ParseExec(l) ==
              match RedirList(l)
              case Panic(e) => Panic(e)
              case Ok((rs, rest)) => ParseArgs([], rs, rest)
  {
  }

  lemma ArgsIs(argv: seq<string>, rs: seq<Redirection>, l: seq<Token>)
    requires |argv| < MAXARGS && l != [] && !Starts(l, "|)&;")
    ensures !l[0].Word? ==> ParseArgs(argv, rs, l) == Panic(BadToken)
    ensures l[0].Word? && |argv| + 1 >= MAXARGS ==> ParseArgs(argv, rs, l) == Panic(TooManyArgs)
    ensures l[0].Word? && |argv| + 1 < MAXARGS && RedirList(l[1..]).Panic? ==>
              ParseArgs(argv, rs, l) == Panic(RedirList(l[1..]).error)
    ensures l[0].Word? && |argv| + 1 < MAXARGS && RedirList(l[1..]).Ok? ==>
              ParseArgs(argv, rs, l)
                == ParseArgs(argv + [l[0].w], rs + RedirList(l[1..]).value.0, RedirList(l[1..]).value.1)
  {
  }

  lemma PipeIs(l: seq<Token>)
    ensures ShGrammar.ParsePipe(l) ==
              match ShGrammar.ParseExec(l)
              case Panic(e) => Panic(e)
              case Ok(p) =>
                if !Starts(p.rest, "|") then Ok(p)
                else
                  match ShGrammar.ParsePipe(p.rest[1..])
                  case Panic(e) => Panic(e)
                  case Ok(q) => Ok(Parsed(Pipe(p.cmd, q.cmd), q.rest))
  {
  }

  lemma LineIs(l: seq<Token>)
    ensures ShGrammar.ParseLine(l) ==
              match ShGrammar.ParsePipe(l)
              case Panic(e) => Panic(e)
              case Ok(p0) =>
                var p := ParseBacks(p0.cmd, p0.rest);
                if !Starts(p.rest, ";") then Ok(p)
                else
                  match ShGrammar.ParseLine(p.rest[1..])
                  case Panic(e) => Panic(e)
                  case Ok(q) => Ok(Parsed(List(p.cmd, q.cmd), q.rest))
  {
  }

  lemma {:induction false} WrapWrap(c: Line, a: seq<Redirection>, b: seq<Redirection>)
    ensures Wrap(Wrap(c, a), b) == Wrap(c, a + b)
  {
    if b == [] {
      assert a + b == a;
    } else {
      WrapWrap(c, a, b[..|b| - 1]);
      assert (a + b)[..|a + b| - 1] == a + b[..|b| - 1];
    }
  }

  /** The simple command inside c gets its words. */
  function SetArgv(c: Place, argv: seq<Span>): Place {
    match c
    case Redir(d, f, w) => Redir(SetArgv(d, argv), f, w)
    case _ => Exec(argv)
  }

  lemma {:induction false} SetArgvIs(s: string, c: Place, rs: seq<Redirection>, argv: seq<Span>)
    requires SpansOk(s, c) && Spell(s, c) == Wrap(Exec([]), rs) && forall k :: 0 <= k < |argv| ==> SpanOk(s, argv[k])
    ensures SpansOk(s, SetArgv(c, argv)) && Spell(s, SetArgv(c, argv)) == Wrap(Exec(SpellAll(s, argv)), rs)
  {
    if c.Redir? {
      SetArgvIs(s, c.cmd, rs[..|rs| - 1], argv);
    }
  }

  class Parser {
    const s: string
    var ps: nat

    ghost predicate Valid()
      reads this
    {
      ps <= |s| && NulFree(s)
    }

    ghost function Left(): seq<Token>
      requires Valid()
      reads this
    {
      Lex(s, ps)
    }

    constructor (s: string)
      requires NulFree(s)
      ensures Valid() && this.s == s && ps == 0
    {
      this.s, ps := s, 0;
    }

    method SkipSpace()
      requires Valid()
      modifies this`ps
      ensures Valid() && old(ps) <= ps && Left() == old(Left()) && (ps < |s| ==> !IsSpace(s[ps]))
    {
      while ps < |s| && IsSpace(s[ps])
        invariant Valid() && old(ps) <= ps && Left() == old(Left())
      {
        ps := ps + 1;
      }
    }

    /** The next token, '\0' at the end, 'a' for a word, '+' for >>, and where it lies. */
    method GetToken() returns (ret: char, w: Span)
      requires Valid()
      modifies this`ps
      ensures Valid() && old(ps) <= ps && old(Left()) == TokenOf(s, ret, w) + Left()
      ensures ret == '\0' ==> Left() == []
      ensures ret != '\0' ==> old(ps) < ps
      ensures ret == 'a' ==> SpanOk(s, w)
      ensures ret != '\0' && ret != 'a' && ret != '+' ==> IsSymbol(ret)
    {
      SkipSpace();
      var q := ps;
      if ps == |s| {
        ret := '\0';
      } else if s[ps] == '>' {
        ret := '>';
        ps := ps + 1;
        if ps < |s| && s[ps] == '>' {
          ret := '+';
          ps := ps + 1;
        }
      } else if IsSymbol(s[ps]) {
        ret := s[ps];
        ps := ps + 1;
      } else {
        ret := 'a';
        ghost var e := WordEnd(s, ps + 1);
        while ps < |s| && !IsSpace(s[ps]) && !IsSymbol(s[ps])
          invariant q <= ps <= e <= |s| && (ps > q ==> WordEnd(s, ps) == e)
          invariant ps == q ==> InWord(s[ps])
          decreases |s| - ps
        {
          ps := ps + 1;
        }
      }
      w := Span(q, ps);
      SkipSpace();
    }

    /** Whether the next token starts with one of these characters. */
    method Peek(toks: string) returns (r: bool)
      requires Valid()
      modifies this`ps
      ensures Valid() && old(ps) <= ps && Left() == old(Left()) && (ps < |s| ==> !IsSpace(s[ps]))
      ensures r <==> ps < |s| && s[ps] in toks
      ensures (forall c :: c in toks ==> IsSymbol(c) && c != '>') ==> (r <==> Starts(Left(), toks))
      ensures toks == "<>" ==> (r <==> StartsRedir(Left()))
    {
      SkipSpace();
      r := ps < |s| && s[ps] in toks;
    }

    /** Redirections around cmd, as they come. */
    method ParseRedirs(cmd: Place) returns (r: Result<Place>)
      requires Valid() && SpansOk(s, cmd)
      modifies this`ps
      ensures Valid() && old(ps) <= ps
      ensures RedirsAgree(s, r, cmd, RedirList(old(Left())), ps)
    {
      hide Lex, RedirList, AfterDone;
      var c := cmd;
      ghost var done: seq<Redirection> := [];
      ghost var spec := RedirList(Left());
      NothingDone(spec);
      var more := Peek("<>");
      while more
        invariant Valid() && old(ps) <= ps && SpansOk(s, c) && Spell(s, c) == Wrap(Spell(s, cmd), done)
        invariant (more <==> StartsRedir(Left())) && spec == AfterDone(done, RedirList(Left()))
        decreases |s| - ps, more
      {
        ghost var l := Left();
        var tok, w0 := GetToken();
        ghost var l1 := Left();
        OneRedir(l, tok, w0, s, l1);
        var kind, w := GetToken();
        OneFile(done, l, kind, w, s, l1, Left());
        if kind != 'a' { return Panic(MissingFile); }
        c := Redir(c, w, tok != '<');
        ghost var x := Redirection(SpellWord(s, w), tok != '<');
        RedirMore(done, x, l, Left());
        done := done + [x];
        more := Peek("<>");
      }
      RedirEnds(done, Left());
      RedirsDone(done, Left());
      return Ok(c);
    }

    /** A block in parentheses, with redirections after it. */
    method ParseBlock() returns (r: Result<Place>)
      requires Valid() && Starts(Left(), "(")
      modifies this`ps
      ensures Valid() && old(ps) <= ps && Agrees(s, r, ShGrammar.ParseExec(old(Left())), ps)
      decreases |s| - ps, 0
    {
      hide ShGrammar.ParseLine, Lex;
      ghost var l := Left();
      var open := Peek("(");
      var tok, w := GetToken();
      OneSym(l, tok, w, s, Left(), '(');
      r := ParseLine();
      BlockIs(l);
      if r.Panic? { return; }
      var close := Peek(")");
      if !close { return Panic(MissingParen); }
      ghost var m := Left();
      tok, w := GetToken();
      OneSym(m, tok, w, s, Left(), ')');
      r := ParseRedirs(r.value);
    }

    /** A simple command: words and redirections; or a block. */
    method ParseExec() returns (r: Result<Place>)
      requires Valid()
      modifies this`ps
      ensures Valid() && old(ps) <= ps && Agrees(s, r, ShGrammar.ParseExec(old(Left())), ps)
      decreases |s| - ps, 1
    {
      hide ShGrammar.ParseExec, ParseArgs, Lex, RedirList;
      ghost var spec := ShGrammar.ParseExec(Left());
      var block := Peek("(");
      if block {
        r := ParseBlock();
        return;
      }
      ExecIs(Left());
      r := ParseRedirs(Exec([]));
      if r.Panic? { return; }
      r := ParseWords(r.value, spec);
    }

    /** parseexec's loop over words. ret has the first redirections already; the words go
        into the simple command that is inside them. */
    method ParseWords(ret0: Place, ghost spec: Result<Parsed>) returns (r: Result<Place>)
      requires Valid() && SpansOk(s, ret0)
      requires exists rs :: Spell(s, ret0) == Wrap(Exec([]), rs) && spec == ParseArgs([], rs, Left())
      modifies this`ps
      ensures Valid() && old(ps) <= ps && Agrees(s, r, spec, ps)
    {
      hide ParseArgs, Lex, RedirList, Wrap, SpellWord, SetArgv;
      ghost var rs :| Spell(s, ret0) == Wrap(Exec([]), rs) && spec == ParseArgs([], rs, Left());
      var ret, argv := ret0, [];
      var end := Peek("|)&;");
      while !end
        invariant Valid() && old(ps) <= ps && SpansOk(s, ret) && |argv| < MAXARGS
        invariant forall k :: 0 <= k < |argv| ==> SpanOk(s, argv[k])
        invariant Spell(s, ret) == Wrap(Exec([]), rs) && spec == ParseArgs(SpellAll(s, argv), rs, Left())
        invariant end <==> Starts(Left(), "|)&;")
        decreases |s| - ps, !end
      {
        ghost var l := Left();
        var tok, w := GetToken();
        if tok == '\0' { break; }
        ArgsIs(SpellAll(s, argv), rs, l);
        if tok != 'a' { return Panic(BadToken); }
        argv := argv + [w];
        if |argv| >= MAXARGS { return Panic(TooManyArgs); }
        ghost var l1 := Left();
        r := ParseRedirs(ret);
        if r.Panic? { return; }
        ret := r.value;
        ghost var more := RedirList(l1).value.0;
        WrapWrap(Exec([]), rs, more);
        rs := rs + more;
        end := Peek("|)&;");
      }
      ArgsEnd(SpellAll(s, argv), rs, Left());
      SetArgvIs(s, ret, rs, argv);
      return Ok(SetArgv(ret, argv));
    }

    method ParsePipe() returns (r: Result<Place>)
      requires Valid()
      modifies this`ps
      ensures Valid() && old(ps) <= ps && Agrees(s, r, ShGrammar.ParsePipe(old(Left())), ps)
      decreases |s| - ps, 2
    {
      hide ShGrammar.ParseExec, ShGrammar.ParsePipe, Lex;
      PipeIs(Left());
      r := ParseExec();
      if r.Panic? { return; }
      var cmd := r.value;
      var bar := Peek("|");
      if bar {
        ghost var l := Left();
        var tok, w := GetToken();
        OneSym(l, tok, w, s, Left(), '|');
        r := ParsePipe();
        if r.Ok? { r := Ok(Pipe(cmd, r.value)); }
      }
    }

    method ParseLine() returns (r: Result<Place>)
      requires Valid()
      modifies this`ps
      ensures Valid() && old(ps) <= ps && Agrees(s, r, ShGrammar.ParseLine(old(Left())), ps)
      decreases |s| - ps, 3
    {
      hide ShGrammar.ParsePipe, ShGrammar.ParseLine, ParseBacks, Lex;
      LineIs(Left());
      r := ParsePipe();
      if r.Panic? { return; }
      var cmd := ParseAmps(r.value);
      var semi := Peek(";");
      if semi {
        ghost var l := Left();
        var tok, w := GetToken();
        OneSym(l, tok, w, s, Left(), ';');
        r := ParseLine();
        if r.Ok? { r := Ok(List(cmd, r.value)); }
      } else {
        r := Ok(cmd);
      }
    }

    /** parseline's loop over ampersands. */
    method ParseAmps(c: Place) returns (cmd: Place)
      requires Valid() && SpansOk(s, c)
      modifies this`ps
      ensures Valid() && old(ps) <= ps && SpansOk(s, cmd)
      ensures ParseBacks(Spell(s, c), old(Left())) == Parsed(Spell(s, cmd), Left())
    {
      hide Lex;
      ghost var spec := ParseBacks(Spell(s, c), Left());
      cmd := c;
      var amp := Peek("&");
      while amp
        invariant Valid() && old(ps) <= ps && SpansOk(s, cmd)
        invariant (amp <==> Starts(Left(), "&")) && spec == ParseBacks(Spell(s, cmd), Left())
        decreases |s| - ps, amp
      {
        ghost var l := Left();
        var tok, w := GetToken();
        OneSym(l, tok, w, s, Left(), '&');
        cmd := Back(cmd);
        amp := Peek("&");
      }
    }
  }

  /** parsecmd, up to nulterminate: the tree that the line's tokens mean, or the panic. */
  method ParseCmd(s: string) returns (r: Result<Place>)
    requires NulFree(s)
    ensures match Parse(s)
            case Panic(e) => r == Panic(e)
            case Ok(c) => r.Ok? && SpansOk(s, r.value) && Spell(s, r.value) == c
  {
    var p := new Parser(s);
    r := p.ParseLine();
    if r.Panic? { return; }
    var any := p.Peek("");
    if p.ps != |s| { r := Panic(Leftovers); }
  }

  // ---------- nulterminate ----------

  function EndsOf(argv: seq<Span>): set<nat> {
    if argv == [] then {} else EndsOf(argv[..|argv| - 1]) + {argv[|argv| - 1].eq}
  }

  /** Where nulterminate writes. */
  function Ends(c: Place): set<nat> {
    match c
    case Exec(argv) => EndsOf(argv)
    case Redir(d, f, _) => Ends(d) + {f.eq}
    case Pipe(l, r) => Ends(l) + Ends(r)
    case List(l, r) => Ends(l) + Ends(r)
    case Back(d) => Ends(d)
  }

  /** buf with NULs at these places. */
  ghost predicate Ended(was: seq<char>, now: seq<char>, ends: set<nat>) {
    |now| == |was| && forall i: nat :: i < |was| ==> now[i] == if i in ends then '\0' else was[i]
  }

  lemma EndedBoth(a: seq<char>, b: seq<char>, c: seq<char>, d: set<nat>, e: set<nat>)
    requires Ended(a, b, d) && Ended(b, c, e)
    ensures Ended(a, c, d + e)
  {
  }

  method NulTerminate(c: Place, buf: array<char>, ghost s: string)
    requires SpansOk(s, c) && buf.Length == |s| + 1
    modifies buf
    ensures Ended(old(buf[..]), buf[..], Ends(c))
    decreases c
  {
    match c {
      case Exec(argv) =>
        var i := 0;
        while i < |argv|
          invariant 0 <= i <= |argv| && Ended(old(buf[..]), buf[..], EndsOf(argv[..i]))
        {
          assert SpanOk(s, argv[i]) && argv[..i + 1][..i] == argv[..i];
          buf[argv[i].eq] := '\0';
          i := i + 1;
        }
        assert argv[..i] == argv;
      case Redir(d, f, _) =>
        NulTerminate(d, buf, s);
        buf[f.eq] := '\0';
      case Pipe(l, r) =>
        NulTerminate(l, buf, s);
        ghost var b := buf[..];
        NulTerminate(r, buf, s);
        EndedBoth(old(buf[..]), b, buf[..], Ends(l), Ends(r));
      case List(l, r) =>
        NulTerminate(l, buf, s);
        ghost var b := buf[..];
        NulTerminate(r, buf, s);
        EndedBoth(old(buf[..]), b, buf[..], Ends(l), Ends(r));
      case Back(d) =>
        NulTerminate(d, buf, s);
    }
  }

  /** The C string at q. */
  function CString(buf: seq<char>, q: nat): string
    decreases |buf| - q
  {
    if q < |buf| && buf[q] != '\0' then [buf[q]] + CString(buf, q + 1) else ""
  }

  function CStrings(buf: seq<char>, argv: seq<Span>): seq<string> {
    if argv == [] then [] else CStrings(buf, argv[..|argv| - 1]) + [CString(buf, argv[|argv| - 1].q)]
  }

  /** The tree as runcmd sees it: each word is the C string at its pointer. */
  function Final(buf: seq<char>, c: Place): Line {
    match c
    case Exec(argv) => Exec(CStrings(buf, argv))
    case Redir(d, f, w) => Redir(Final(buf, d), CString(buf, f.q), w)
    case Pipe(l, r) => Pipe(Final(buf, l), Final(buf, r))
    case List(l, r) => List(Final(buf, l), Final(buf, r))
    case Back(d) => Back(Final(buf, d))
  }

  lemma {:induction false} CStringIs(buf: seq<char>, q: nat, e: nat)
    requires q <= e < |buf| && buf[e] == '\0' && forall k :: q <= k < e ==> buf[k] != '\0'
    ensures CString(buf, q) == buf[q..e]
    decreases e - q
  {
    if q < e { CStringIs(buf, q + 1, e); }
  }

  /** NULs only where no word is. */
  ghost predicate EndsOk(s: string, ends: set<nat>) {
    forall e :: e in ends ==> e <= |s| && (e < |s| ==> !InWord(s[e]))
  }

  /** A word in the finished buffer, when its end is marked, is that word and no more. */
  lemma WordFinal(s: string, buf: seq<char>, ends: set<nat>, w: Span)
    requires SpanOk(s, w) && w.eq in ends && EndsOk(s, ends) && Ended(s + "\0", buf, ends)
    ensures CString(buf, w.q) == SpellWord(s, w)
  {
    forall k | w.q <= k < w.eq ensures buf[k] == s[k] && buf[k] != '\0' {
      assert InWord(s[k]);
    }
    CStringIs(buf, w.q, w.eq);
    assert buf[w.q..w.eq] == s[w.q..w.eq];
  }

  lemma {:induction false} WordsFinal(s: string, buf: seq<char>, ends: set<nat>, argv: seq<Span>)
    requires (forall k :: 0 <= k < |argv| ==> SpanOk(s, argv[k])) && EndsOf(argv) <= ends
    requires EndsOk(s, ends) && Ended(s + "\0", buf, ends)
    ensures CStrings(buf, argv) == SpellAll(s, argv)
  {
    if argv != [] {
      WordsFinal(s, buf, ends, argv[..|argv| - 1]);
      WordFinal(s, buf, ends, argv[|argv| - 1]);
    }
  }

  lemma {:induction false} TreeFinal(s: string, buf: seq<char>, ends: set<nat>, c: Place)
    requires SpansOk(s, c) && Ends(c) <= ends && EndsOk(s, ends) && Ended(s + "\0", buf, ends)
    ensures Final(buf, c) == Spell(s, c)
  {
    match c {
      case Exec(argv) => WordsFinal(s, buf, ends, argv);
      case Redir(d, f, _) =>
        TreeFinal(s, buf, ends, d);
        WordFinal(s, buf, ends, f);
      case Pipe(l, r) =>
        TreeFinal(s, buf, ends, l);
        TreeFinal(s, buf, ends, r);
      case List(l, r) =>
        TreeFinal(s, buf, ends, l);
        TreeFinal(s, buf, ends, r);
      case Back(d) => TreeFinal(s, buf, ends, d);
    }
  }

  lemma {:induction false} EndsOfOk(s: string, argv: seq<Span>)
    requires forall k :: 0 <= k < |argv| ==> SpanOk(s, argv[k])
    ensures EndsOk(s, EndsOf(argv))
  {
    if argv != [] { EndsOfOk(s, argv[..|argv| - 1]); }
  }

  lemma {:induction false} EndsAreOk(s: string, c: Place)
    requires SpansOk(s, c)
    ensures EndsOk(s, Ends(c))
  {
    match c {
      case Exec(argv) => EndsOfOk(s, argv);
      case Redir(d, f, _) => EndsAreOk(s, d);
      case Pipe(l, r) => EndsAreOk(s, l); EndsAreOk(s, r);
      case List(l, r) => EndsAreOk(s, l); EndsAreOk(s, r);
      case Back(d) => EndsAreOk(s, d);
    }
  }

  /** parsecmd: the tree left in the buffer is the tree that the line means, every word a C
      string of its own. */
  method ParseCommand(buf: array<char>, s: string) returns (r: Result<Place>)
    requires NulFree(s) && buf[..] == s + "\0"
    modifies buf
    ensures match Parse(s)
            case Panic(e) => r == Panic(e) && buf[..] == old(buf[..])
            case Ok(c) => r.Ok? && Final(buf[..], r.value) == c
  {
    r := ParseCmd(s);
    if r.Ok? {
      NulTerminate(r.value, buf, s);
      EndsAreOk(s, r.value);
      TreeFinal(s, buf[..], Ends(r.value), r.value);
    }
  }
}
