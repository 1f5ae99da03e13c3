/**
 What the shell's characters mean (sh.c lines 262-308), with every character written out:
 which ones words are made of, which separate them, and which stand for themselves.
*/
module ShLines {
  import opened ShGrammar

  /** Space, tab, carriage return, newline and vertical tab. */
  predicate Blank(g: string) {
    forall c :: c in g ==> c == ' ' || c == '\t' || c == '\r' || c == '\n' || c == '\U{0B}'
  }

  /** Not empty, without a blank, one of <|>&;() or a NUL. */
  predicate Plain(w: string) {
    w != "" && forall c :: c in w ==>
      && c != ' ' && c != '\t' && c != '\r' && c != '\n' && c != '\U{0B}' && c != '\0'
      && c != '<' && c != '|' && c != '>' && c != '&' && c != ';' && c != '(' && c != ')'
  }

  /** Nothing, or something that a word cannot go on with. */
  predicate Breaks(r: string) {
    r == "" || !Plain([r[0]])
  }

  // ---------- the tokens of a line, character by character ----------

  lemma {:induction false} WordEnds(w: string, r: string, i: nat)
    requires Plain(w) && Breaks(r) && i <= |w|
    ensures WordEnd(w + r, i) == |w|
    decreases |w| - i
  {
    if i < |w| {
      assert (w + r)[i] == w[i] && w[i] in w;
      WordEnds(w, r, i + 1);
    } else if r != "" {
      assert (w + r)[i] == r[0];
      assert forall c :: c in [r[0]] ==> c == r[0];
    }
  }

  lemma LexWord(w: string, r: string)
    requires Plain(w) && Breaks(r)
    ensures Lex(w + r, 0) == [Word(w)] + Lex(r, 0)
  {
    assert (w + r)[0] == w[0] && w[0] in w;
    WordEnds(w, r, 1);
    LexShift(w, r, 0);
    assert (w + r)[0..|w|] == w;
  }

  lemma {:induction false} LexBlank(g: string, r: string)
    requires Blank(g)
    ensures Lex(g + r, 0) == Lex(r, 0)
  {
    if g == "" {
      assert g + r == r;
    } else {
      assert g[0] in g && (g + r)[0] == g[0];
      assert forall c :: c in g[1..] ==> c in g;
      LexBlank(g[1..], r);
      assert g + r == [g[0]] + (g[1..] + r);
      LexShift([g[0]], g[1..] + r, 0);
    }
  }

  /** >> is one token; the others stand for themselves. */
  lemma LexSymbol(c: char, r: string)
    requires c == '<' || c == '|' || c == '>' || c == '&' || c == ';' || c == '(' || c == ')'
    ensures c != '>' || r == "" || r[0] != '>' ==> Lex([c] + r, 0) == [Sym(c)] + Lex(r, 0)
    ensures c == '>' ==> Lex([c] + [c] + r, 0) == [Append] + Lex(r, 0)
  {
    LexShift([c], r, 0);
    if c == '>' {
      assert [c] + [c] + r == ">>" + r;
      LexShift(">>", r, 0);
    }
  }

  /** A line ends with its text, or at a NUL. */
  lemma LexEnd(r: string)
    ensures Lex("", 0) == [] && Lex("\0" + r, 0) == []
  {
  }

  // ---------- lines of words ----------

  /** The words with the gaps between, before and after them. */
  function Joined(ws: seq<string>, gaps: seq<string>): string
    requires |gaps| == |ws| + 1
  {
    if ws == [] then gaps[0] else gaps[0] + (ws[0] + Joined(ws[1..], gaps[1..]))
  }

  ghost predicate Spaced(ws: seq<string>, gaps: seq<string>) {
    && |gaps| == |ws| + 1 && (forall i :: 0 <= i < |ws| ==> Plain(ws[i]))
    && (forall i :: 0 <= i < |gaps| ==> Blank(gaps[i])) && (forall i :: 0 < i < |ws| ==> gaps[i] != "")
  }

  lemma BreaksBlank(g: string, r: string)
    requires Blank(g) && (g == "" ==> r == "")
    ensures Breaks(g + r)
  {
    if g != "" { assert g[0] in g && g[0] in [(g + r)[0]]; }
  }

  lemma {:induction false} WordsLex(ws: seq<string>, gaps: seq<string>)
    requires Spaced(ws, gaps)
    ensures Lex(Joined(ws, gaps), 0) == Words(ws)
    ensures ws == [] || gaps[0] != "" ==> Breaks(Joined(ws, gaps))
  {
    if ws == [] {
      LexBlank(gaps[0], "");
      assert gaps[0] + "" == gaps[0];
      BreaksBlank(gaps[0], "");
    } else {
      var rest := Joined(ws[1..], gaps[1..]);
      assert gaps[1..][0] == gaps[1];
      WordsLex(ws[1..], gaps[1..]);
      LexWord(ws[0], rest);
      LexBlank(gaps[0], ws[0] + rest);
      if gaps[0] != "" { BreaksBlank(gaps[0], ws[0] + rest); }
    }
  }

  /** Up to nine words, however blanks separate them, are one simple command of just these
      words; more are too many. */
  lemma WordsAreOneCommand(ws: seq<string>, gaps: seq<string>)
    requires Spaced(ws, gaps)
    ensures |ws| <= 9 ==> Parse(Joined(ws, gaps)) == Ok(Exec(ws))
    ensures |ws| > 9 ==> Parse(Joined(ws, gaps)) == Panic(TooManyArgs)
  {
    WordsLex(ws, gaps);
    if |ws| <= 9 {
      TokensRoundTrip(Exec(ws));
      assert LineTokens(Exec(ws)) == AmpTokens(Exec(ws)) == PipeTokens(Exec(ws)) == AtomTokens(Exec(ws));
    } else {
      TooManyWords(ws);
    }
  }

  lemma TooManyWords(ws: seq<string>)
    requires |ws| > 9
    ensures ParseCmd(Words(ws)) == Panic(TooManyArgs)
  {
    NoRedirIn(ws);
    NoRedirYet(Words(ws));
    var none: seq<Redirection> := [];
    ExecStep(Words(ws), none, Words(ws));
    TooMany([], ws);
    hide ParseExec, ParseArgs, RedirList;
    assert ParseExec(Words(ws)) == Panic(TooManyArgs);
    assert ParsePipe(Words(ws)) == Panic(TooManyArgs);
  }

  lemma NoRedirIn(ws: seq<string>)
    ensures !StartsRedir(Words(ws)) && !Starts(Words(ws), "(")
  {
  }

  lemma {:induction false} TooMany(argv: seq<string>, ws: seq<string>)
    requires |argv| < 10 <= |argv| + |ws|
    ensures ParseArgs(argv, [], Words(ws)) == Panic(TooManyArgs)
    decreases |ws|
  {
    assert Words(ws)[0] == Word(ws[0]) && Words(ws)[1..] == Words(ws[1..]);
    if |argv| + 1 < 10 {
      NoRedirIn(ws[1..]);
      var none: seq<Redirection> := [];
      ArgsStep(argv, none, Words(ws), none, Words(ws[1..]));
      assert none + none == none;
      TooMany(argv + [ws[0]], ws[1..]);
    }
  }

  /** As they are usually written: single spaces between, and a newline. */
  lemma PlainLine(ws: seq<string>, line: string)
    requires 1 <= |ws| <= 9 && forall i :: 0 <= i < |ws| ==> Plain(ws[i])
    requires line == Joined(ws, [""] + Spaces(|ws| - 1) + ["\n"])
    ensures Parse(line) == Ok(Exec(ws))
  {
    hide Parse, Joined, Spaced;
    SingleSpaces(ws);
    WordsAreOneCommand(ws, [""] + Spaces(|ws| - 1) + ["\n"]);
  }

  lemma SingleSpaces(ws: seq<string>)
    requires ws != [] && forall i :: 0 <= i < |ws| ==> Plain(ws[i])
    ensures Spaced(ws, [""] + Spaces(|ws| - 1) + ["\n"])
  {
    hide Plain;
    var gaps := [""] + Spaces(|ws| - 1) + ["\n"];
    assert Blank("") && Blank(" ") && Blank("\n");
    hide Blank;
    forall i | 0 <= i < |gaps|
      ensures gaps[i] == if i == 0 then "" else if i < |ws| then " " else "\n"
    {
    }
  }

  function Spaces(n: nat): (r: seq<string>)
    ensures |r| == n && forall i :: 0 <= i < n ==> r[i] == " "
  {
    seq(n, _ => " ")
  }

  // ---------- words that touch a symbol ----------

  lemma LexTwo(a: string, c: char, b: string)
    requires Plain(a) && Plain(b) && c in "<|>;"
    ensures Lex(a + [c] + b, 0) == [Word(a), Sym(c), Word(b)]
  {
    assert b[0] in b;
    assert b + "" == b;
    LexWord(b, "");
    LexSymbol(c, b);
    assert c in [([c] + b)[0]];
    LexWord(a, [c] + b);
    assert a + [c] + b == a + ([c] + b);
  }

  lemma TwoCommands(a: string, b: string)
    requires Plain(a) && Plain(b)
    ensures Parse(a + "|" + b) == Ok(Pipe(Exec([a]), Exec([b])))
    ensures Parse(a + ";" + b) == Ok(List(Exec([a]), Exec([b])))
  {
    LexTwo(a, '|', b);
    LexTwo(a, ';', b);
    var pipe: Line, both: Line := Pipe(Exec([a]), Exec([b])), List(Exec([a]), Exec([b]));
    OneWord(a);
    OneWord(b);
    TokensRoundTrip(pipe);
    TokensRoundTrip(both);
    assert LineTokens(pipe) == AmpTokens(pipe) == PipeTokens(pipe) == [Word(a), Sym('|'), Word(b)];
    assert LineTokens(both) == [Word(a), Sym(';'), Word(b)];
  }

  lemma OneWord(a: string)
    ensures LineTokens(Exec([a])) == AmpTokens(Exec([a])) == PipeTokens(Exec([a])) == AtomTokens(Exec([a])) == [Word(a)]
  {
    assert Words([a]) == [Word(a)];
  }

  lemma OneRedirection(a: string, f: string)
    requires Plain(a) && Plain(f)
    ensures Parse(a + "<" + f) == Ok(Redir(Exec([a]), f, false))
    ensures Parse(a + ">" + f) == Ok(Redir(Exec([a]), f, true))
    ensures Parse(a + ">>" + f) == Ok(Redir(Exec([a]), f, true))
  {
    LexTwo(a, '<', f);
    LexTwo(a, '>', f);
    LexAppend(a, f);
    RedirsFrom(a, Sym('<'), f);
    RedirsFrom(a, Sym('>'), f);
    RedirsFrom(a, Append, f);
  }

  lemma LexAppend(a: string, f: string)
    requires Plain(a) && Plain(f)
    ensures Lex(a + ">>" + f, 0) == [Word(a), Append, Word(f)]
  {
    assert f + "" == f;
    LexWord(f, "");
    LexSymbol('>', f);
    assert ">>" + f == ['>'] + ['>'] + f;
    assert '>' in [(">>" + f)[0]];
    LexWord(a, ">>" + f);
    assert a + ">>" + f == a + (">>" + f);
  }

  lemma Alone(ts: seq<Token>, c: Line)
    requires ParseExec(ts) == Ok(Parsed(c, []))
    ensures ParseCmd(ts) == Ok(c)
  {
    hide ParseExec;
    assert ParseBacks(c, []) == Parsed(c, []);
    assert ParsePipe(ts) == Ok(Parsed(c, []));
  }

  lemma RedirsFrom(a: string, t: Token, f: string)
    requires t == Sym('<') || t == Sym('>') || t == Append
    ensures ParseCmd([Word(a), t, Word(f)]) == Ok(Redir(Exec([a]), f, t != Sym('<')))
  {
    var ts := [Word(a), t, Word(f)];
    var one := [Redirection(f, t != Sym('<'))];
    var none: seq<Redirection> := [];
    NoRedirYet(ts);
    ExecStep(ts, none, ts);
    OneRedirIn(t, f);
    assert ts[1..] == [t, Word(f)] && none + one == one && [] + [a] == [a];
    ArgsStep([], none, ts, one, []);
    ArgsEnd([a], one, []);
    hide ParseExec, ParseArgs, RedirList;
    assert ParseExec(ts) == Ok(Parsed(Redir(Exec([a]), f, t != Sym('<')), [])) by { assert one[..0] == []; }
    Alone(ts, Redir(Exec([a]), f, t != Sym('<')));
  }

  lemma OneRedirIn(t: Token, f: string)
    requires t == Sym('<') || t == Sym('>') || t == Append
    ensures RedirList([t, Word(f)]) == Ok(([Redirection(f, t != Sym('<'))], []))
  {
    assert [t, Word(f)][2..] == [] && RedirList([]) == Ok(([], []));
    assert [Redirection(f, t != Sym('<'))] + [] == [Redirection(f, t != Sym('<'))];
  }

  lemma InParentheses(a: string)
    requires Plain(a)
    ensures Parse("(" + a + ")") == Ok(Exec([a]))
  {
    LexLast(a, ')');
    LexSymbol('(', a + ")");
    assert "(" + a + ")" == ['('] + (a + ")");
    hide Lex, ParseCmd;
    assert Lex("(" + a + ")", 0) == [Sym('('), Word(a), Sym(')')];
    Block(a);
  }

  lemma InBackground(a: string)
    requires Plain(a)
    ensures Parse(a + "&") == Ok(Back(Exec([a])))
  {
    LexLast(a, '&');
    hide Lex, ParseCmd;
    var back: Line := Back(Exec([a]));
    OneWord(a);
    assert LineTokens(back) == AmpTokens(back) == [Word(a), Sym('&')];
    TokensRoundTrip(back);
  }

  lemma LexLast(a: string, c: char)
    requires Plain(a) && (c == ')' || c == '&')
    ensures Lex(a + [c], 0) == [Word(a), Sym(c)]
  {
    LexEnd("");
    LexSymbol(c, "");
    assert [c] + "" == [c] && c in [[c][0]];
    LexWord(a, [c]);
  }

  lemma Block(a: string)
    ensures ParseCmd([Sym('('), Word(a), Sym(')')]) == Ok(Exec([a]))
  {
    var ts := [Sym('('), Word(a), Sym(')')];
    OneWord(a);
    LineReads(Exec([a]), [Sym(')')]);
    assert ts[1..] == LineTokens(Exec([a])) + [Sym(')')];
    NoRedirYet([]);
    assert [Sym(')')][1..] == [];
    hide RedirList, ParseArgs;
    assert ParseExec(ts) == Ok(Parsed(Exec([a]), [])) by { hide ParseLine; }
    Alone(ts, Exec([a]));
  }
}
