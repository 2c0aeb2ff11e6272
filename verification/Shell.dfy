/** sh.c: gettoken, peek, the parse functions and nulterminate, on the line buffer. A node that the
    shell fills in after linking it is here put together when it is complete. */
module Shell {
  import opened ShellGrammar
  import opened ShellText

  // ----- words of a parsed command -----

  /** A word of the line: as long as it can be. */
  ghost predicate Good(s: seq<char>, w: Span) {
    w.q < w.eq <= |s| && (forall k :: w.q <= k < w.eq ==> InWord(s[k])) && (w.eq < |s| ==> !InWord(s[w.eq]))
  }

  /** The words of argv and the file names. */
  function Spans(c: Cmd<Span>): set<Span> {
    match c
    case Exec(args) => set w | w in args
    case Redir(b, r) => Spans(b) + {r.file}
    case Pipe(l, r) => Spans(l) + Spans(r)
    case List(l, r) => Spans(l) + Spans(r)
    case Back(b) => Spans(b)
  }

  ghost predicate AllGood(s: seq<char>, c: Cmd<Span>) {
    forall w :: w in Spans(c) ==> Good(s, w)
  }

  ghost predicate GoodFiles(s: seq<char>, rs: seq<Redirect<Span>>) {
    forall k :: 0 <= k < |rs| ==> Good(s, rs[k].file)
  }

  lemma {:induction false} WrapGood(s: seq<char>, c: Cmd<Span>, rs: seq<Redirect<Span>>)
    requires AllGood(s, c) && GoodFiles(s, rs)
    ensures AllGood(s, Wrap(c, rs))
    decreases |rs|
  {
    if rs != [] {
      WrapGood(s, c, rs[..|rs| - 1]);
    }
  }

  /** Where nulterminate puts a NUL. */
  function Ends(c: Cmd<Span>): set<nat> {
    set w | w in Spans(c) :: w.eq
  }

  /** The C string at q. */
  function CString(b: seq<char>, q: nat): seq<char>
    decreases |b| - q
  {
    if q >= |b| || b[q] == NUL then [] else [b[q]] + CString(b, q + 1)
  }

  lemma {:induction false} CStringIs(b: seq<char>, q: nat, eq: nat)
    requires q <= eq < |b| && b[eq] == NUL && forall k :: q <= k < eq ==> b[k] != NUL
    ensures CString(b, q) == b[q..eq]
    decreases eq - q
  {
    if q < eq {
      CStringIs(b, q + 1, eq);
      assert b[q..eq] == [b[q]] + b[q + 1..eq];
    }
  }

  /** No end of a word lies inside a word. */
  lemma Terminated(s: seq<char>, b: seq<char>, c: Cmd<Span>, w: Span)
    requires AllGood(s, c) && w in Spans(c) && |b| > |s| && b[|s|] == NUL
    requires forall k :: 0 <= k < |s| ==> b[k] == if k in Ends(c) then NUL else s[k]
    ensures CString(b, w.q) == s[w.q..w.eq]
  {
    forall v | v in Spans(c) ensures !(w.q <= v.eq < w.eq) {
      assert Good(s, v) && Good(s, w);
    }
    assert w.eq in Ends(c);
    assert b[w.eq] == NUL;
    CStringIs(b, w.q, w.eq);
  }

  /** What peek sees of the next token. */
  lemma FirstChar(s: seq<char>, p: nat)
    requires p <= |s| && Line(s)
    ensures var toks, b := Lex(s, p), Skip(s, p);
            && (toks == [] <==> b == |s|)
            && (b < |s| ==>
                  && (Is(toks, '<') <==> s[b] == '<') && (Is(toks, '>') || Is(toks, '+') <==> s[b] == '>')
                  && (Is(toks, '|') <==> s[b] == '|') && (Is(toks, '&') <==> s[b] == '&')
                     && (Is(toks, ';') <==> s[b] == ';')
                  && (Is(toks, '(') <==> s[b] == '(') && (Is(toks, ')') <==> s[b] == ')')
                  && (toks[0].Word? <==> !Symbol(s[b])))
  {
  }

  /** The token that stands at b, and what follows it. */
  lemma TokenIs(s: seq<char>, b: nat)
    requires b < |s| && Line(s) && Skip(s, b) == b && !White(s[b])
    ensures var toks, e := Lex(s, b), TokenEnd(s, b);
            && toks != [] && toks[1..] == Lex(s, e)
            && (if Symbol(s[b]) then toks[0] == Sym(if e == b + 2 then '+' else s[b])
                else toks[0] == Word(Span(b, e)) && e == WordEnd(s, b) && Good(s, Span(b, e)))
  {
    LexFirst(s, b);
  }

  /** The redirections rs, and those toks go on with. */
  function RedirsAfter<T>(rs: seq<Redirect<T>>, toks: seq<Token<T>>): Result<(seq<Redirect<T>>, seq<Token<T>>)> {
    match Redirs(toks)
    case Err(e) => Err(e)
    case Ok(p) => Ok((rs + p.0, p.1))
  }

  lemma RedirsNext<T>(rs: seq<Redirect<T>>, toks: seq<Token<T>>)
    ensures rs == [] ==> RedirsAfter(rs, toks) == Redirs(toks)
    ensures !IsRedirect(toks) ==> RedirsAfter(rs, toks) == Ok((rs, toks))
    ensures IsRedirect(toks) && (|toks| < 2 || !toks[1].Word?) ==> RedirsAfter(rs, toks) == Err(MissingFile)
    ensures IsRedirect(toks) && |toks| >= 2 && toks[1].Word? ==>
              RedirsAfter(rs, toks)
                == RedirsAfter(rs + [Redirect(toks[1].w, if Is(toks, '<') then 0 else 1)], toks[2..])
  {
    assert rs + [] == rs;
    assert Redirs(toks).Ok? ==> [] + Redirs(toks).value.0 == Redirs(toks).value.0;
    if IsRedirect(toks) && |toks| >= 2 && toks[1].Word? {
      OneMore(rs, toks, Redirect(toks[1].w, if Is(toks, '<') then 0 else 1));
    }
  }

  lemma OneMore<T>(rs: seq<Redirect<T>>, toks: seq<Token<T>>, r: Redirect<T>)
    requires IsRedirect(toks) && |toks| >= 2 && toks[1].Word?
    requires r == Redirect(toks[1].w, if Is(toks, '<') then 0 else 1)
    ensures RedirsAfter(rs, toks) == RedirsAfter(rs + [r], toks[2..])
  {
    match Redirs(toks[2..])
    case Err(_) =>
    case Ok(p) =>
      assert Redirs(toks) == Ok(([r] + p.0, p.1));
      assert rs + ([r] + p.0) == rs + [r] + p.0;
  }

  class Parser {
    const buf: array<char>
    const es: nat            // the end of the line, where its NUL is
    var s: nat               // *ps

    ghost predicate Valid()
      reads this, buf
    {
      es < buf.Length && s <= es && buf[es] == NUL && Line(buf[..es])
    }

    ghost function Toks(): seq<Token<Span>>
      reads this, buf
      requires Valid()
    {
      Lex(buf[..es], s)
    }

    /** s = the line, es = s + strlen(s) */
    constructor (buf: array<char>, es: nat)
      requires es < buf.Length && buf[es] == NUL && forall k :: 0 <= k < es ==> buf[k] != NUL
      ensures Valid() && this.buf == buf && this.es == es && s == 0
    {
      this.buf := buf;
      this.es := es;
      s := 0;
    }

    method SkipWhite()
      requires Valid()
      modifies this`s
      ensures Valid() && s == Skip(buf[..es], old(s)) && Toks() == old(Toks())
    {
      while s < es && White(buf[s])
        invariant s <= es && Skip(buf[..es], s) == Skip(buf[..es], old(s))
      {
        s := s + 1;
      }
      LexSame(buf[..es], s, old(s));
    }

    method SkipWord()
      requires Valid()
      modifies this`s
      ensures Valid() && s == WordEnd(buf[..es], old(s))
    {
      while s < es && !White(buf[s]) && !Symbol(buf[s])
        invariant s <= es && WordEnd(buf[..es], s) == WordEnd(buf[..es], old(s))
      {
        s := s + 1;
      }
    }

    method Peek(toks: string) returns (found: bool)
      requires Valid()
      modifies this`s
      ensures Valid() && old(s) <= s && s == Skip(buf[..es], s) && Toks() == old(Toks())
      ensures found <==> s < es && buf[s] in toks
    {
      SkipWhite();
      found := buf[s] != NUL && buf[s] in toks;
    }

    /** tok is 0 at the end, 'a' for a word, '+' for >>. */
    method Gettoken() returns (tok: char, q: nat, eq: nat)
      requires Valid()
      modifies this`s
      ensures Valid() && old(s) <= s
      ensures old(Toks()) == [] ==> tok == NUL && Toks() == []
      ensures old(Toks()) != [] ==>
                && old(s) < s && Toks() == old(Toks())[1..]
                && (old(Toks())[0].Word? ==>
                    tok == 'a' && old(Toks())[0].w == Span(q, eq) && Good(buf[..es], Span(q, eq)))
                && (old(Toks())[0].Sym? ==> tok == old(Toks())[0].c && tok != 'a' && tok != NUL)
    {
      hide Lex, Good, Skip, WordEnd, Line;
      ghost var line := buf[..es];
      SkipWhite();
      q := s;
      tok := buf[s];
      if s < es {
        TokenIs(line, s);
      } else {
        LexEmpty(line);
      }
      if tok == NUL {
      } else if tok == '>' {
        s := s + 1;
        if buf[s] == '>' {
          tok := '+';
          s := s + 1;
        }
      } else if Symbol(tok) {
        s := s + 1;
      } else {
        tok := 'a';
        SkipWord();
      }
      eq := s;
      assert q < es ==> s == TokenEnd(line, q);
      SkipWhite();
    }

    // ----- the parse functions -----

    /** The redirections that stand here, in order. */
    method Parseredirs() returns (r: Result<seq<Redirect<Span>>>)
      requires Valid()
      modifies this`s
      ensures Valid() && old(s) <= s
      ensures match Redirs(old(Toks()))
              case Err(e) => r == Err(e)
              case Ok(p) => r == Ok(p.0) && Toks() == p.1 && GoodFiles(buf[..es], p.0)
    {
      hide Lex, Redirs, RedirsAfter;
      ghost var line, toks := buf[..es], Toks();
      RedirsNext([], toks);
      var rs: seq<Redirect<Span>> := [];
      var more := PeekFor("<>");
      while more
        invariant Valid() && old(s) <= s && GoodFiles(line, rs) && (more <==> IsRedirect(Toks()))
        invariant Redirs(toks) == RedirsAfter(rs, Toks())
        decreases es - s
      {
        ghost var here := Toks();
        RedirsNext(rs, here);
        var tok, q, eq := Gettoken();
        var word;
        word, q, eq := Gettoken();
        if word != 'a' {
          return Err(MissingFile);
        }
        rs := rs + [Redirect(Span(q, eq), if tok == '<' then 0 else 1)];
        more := PeekFor("<>");
      }
      RedirsNext(rs, Toks());
      r := Ok(rs);
    }

    /** peek for one of the sets the parser uses, in terms of the next token. */
    method PeekFor(toks: string) returns (found: bool)
      requires Valid() && toks in {"<>", "|)&;", "(", ")", "|", "&", ";"}
      modifies this`s
      ensures Valid() && old(s) <= s && Toks() == old(Toks())
      ensures found <==>
                if toks == "<>" then IsRedirect(Toks())
                else if toks == "|)&;" then EndsExec(Toks())
                else Is(Toks(), toks[0])
    {
      found := Peek(toks);
      FirstChar(buf[..es], s);
    }

    /** parseexec */
    method Parseexec() returns (r: Result<Cmd<Span>>)
      requires Valid()
      modifies this`s
      ensures Valid() && old(s) <= s
      ensures match ExecP(old(Toks()))
              case Err(e) => r == Err(e)
              case Ok(p) => r == Ok(p.0) && Toks() == p.1 && AllGood(buf[..es], p.0)
      decreases es - s, 1
    {
      hide Lex;
      ghost var line, toks := buf[..es], Toks();
      var block := PeekFor("(");
      if block {
        r := Parseblock();
        return;
      }
      var args: seq<Span> := [];
      var rs := [];
      var more := Parseredirs();
      match more {
        case Err(e) => return Err(e);
        case Ok(these) => rs := these;
      }
      var ends := PeekFor("|)&;");
      while !ends
        invariant Valid() && old(s) <= s && |args| < MAXARGS && GoodFiles(line, rs) && (ends <==> EndsExec(Toks()))
        invariant forall k :: 0 <= k < |args| ==> Good(line, args[k])
        invariant forall k :: 0 <= k < |rs| ==> rs[k].fd <= 1
        invariant ExecP(toks) == ExecLoop(args, rs, Toks())
        decreases es - s
      {
        var tok, q, eq := Gettoken();
        if tok == NUL {
          break;
        }
        if tok != 'a' {
          return Err(BadToken);
        }
        if |args| + 1 >= MAXARGS {
          return Err(TooManyArgs);
        }
        args := args + [Span(q, eq)];
        more := Parseredirs();
        match more {
          case Err(e) => return Err(e);
          case Ok(these) => rs := rs + these;
        }
        ends := PeekFor("|)&;");
      }
      WrapGood(line, Exec(args), rs);
      r := Ok(Wrap(Exec(args), rs));
    }

    /** parseblock */
    method Parseblock() returns (r: Result<Cmd<Span>>)
      requires Valid() && Is(Toks(), '(')
      modifies this`s
      ensures Valid() && old(s) <= s
      ensures match ExecP(old(Toks()))
              case Err(e) => r == Err(e)
              case Ok(p) => r == Ok(p.0) && Toks() == p.1 && AllGood(buf[..es], p.0)
      decreases es - s, 0
    {
      hide Lex;
      var tok, q, eq := Gettoken();
      r := Parseline();
      if r.Err? {
        return;
      }
      var cmd := r.value;
      var closed := PeekFor(")");
      if !closed {
        return Err(MissingParen);
      }
      tok, q, eq := Gettoken();
      var rs := Parseredirs();
      match rs {
        case Err(e) => return Err(e);
        case Ok(these) =>
          WrapGood(buf[..es], cmd, these);
          r := Ok(Wrap(cmd, these));
      }
    }

    /** parsepipe */
    method Parsepipe() returns (r: Result<Cmd<Span>>)
      requires Valid()
      modifies this`s
      ensures Valid() && old(s) <= s
      ensures match PipeP(old(Toks()))
              case Err(e) => r == Err(e)
              case Ok(p) => r == Ok(p.0) && Toks() == p.1 && AllGood(buf[..es], p.0)
      decreases es - s, 2
    {
      hide Lex;
      r := Parseexec();
      if r.Err? {
        return;
      }
      var cmd := r.value;
      var piped := PeekFor("|");
      if piped {
        var tok, q, eq := Gettoken();
        r := Parsepipe();
        if r.Ok? {
          r := Ok(Pipe(cmd, r.value));
        }
      }
    }

    /** parseline */
    method Parseline() returns (r: Result<Cmd<Span>>)
      requires Valid()
      modifies this`s
      ensures Valid() && old(s) <= s
      ensures match LineP(old(Toks()))
              case Err(e) => r == Err(e)
              case Ok(p) => r == Ok(p.0) && Toks() == p.1 && AllGood(buf[..es], p.0)
      decreases es - s, 3
    {
      hide Lex;
      r := Parsepipe();
      if r.Err? {
        return;
      }
      var cmd := r.value;
      ghost var after := Toks();
      var more := PeekFor("&");
      while more
        invariant Valid() && old(s) <= s && AllGood(buf[..es], cmd) && (more <==> Is(Toks(), '&'))
        invariant Backs(r.value, after) == Backs(cmd, Toks())
        decreases es - s
      {
        var tok, q, eq := Gettoken();
        cmd := Back(cmd);
        more := PeekFor("&");
      }
      var listed := PeekFor(";");
      if listed {
        var tok, q, eq := Gettoken();
        r := Parseline();
        if r.Ok? {
          r := Ok(List(cmd, r.value));
        }
      } else {
        r := Ok(cmd);
      }
    }

    // ----- nulterminate, parsecmd -----

    /** Writes a NUL behind every word of the command, and nowhere else. */
    method Nulterminate(c: Cmd<Span>)
      requires forall w :: w in Spans(c) ==> w.eq < buf.Length
      modifies buf
      ensures forall k :: 0 <= k < buf.Length ==> buf[k] == if k in Ends(c) then NUL else old(buf[k])
      decreases c
    {
      match c
      case Exec(args) =>
        var i := 0;
        while i < |args|
          invariant i <= |args|
          invariant forall k :: 0 <= k < buf.Length ==> buf[k] == if EndsOne(args[..i], k) then NUL else old(buf[k])
        {
          assert args[i] in Spans(c);
          buf[args[i].eq] := NUL;
          EndsNext(args, i);
          i := i + 1;
        }
        EndsAll(args);
      case Redir(b, r) =>
        Nulterminate(b);
        assert r.file in Spans(c);
        buf[r.file.eq] := NUL;
        RedirEnds(b, r);
      case Pipe(l, r) =>
        Nulterminate(l);
        Nulterminate(r);
        assert Ends(c) == Ends(l) + Ends(r);
      case List(l, r) =>
        Nulterminate(l);
        Nulterminate(r);
        assert Ends(c) == Ends(l) + Ends(r);
      case Back(b) =>
        Nulterminate(b);
    }

    /** The command on the line, or the panic; then each of its words, read as a C string, is the text
        that gettoken found. */
    method Parsecmd() returns (r: Result<Cmd<Span>>)
      requires Valid() && s == 0
      modifies this`s, buf
      ensures r == Parse(Lex(old(buf[..es]), 0))
      ensures r.Ok? ==> forall w :: w in Spans(r.value) ==>
                w.q < w.eq <= es && CString(buf[..], w.q) == old(buf[..es])[w.q..w.eq]
    {
      ghost var line := buf[..es];
      r := Parseline();
      if r.Err? {
        return;
      }
      var c := r.value;
      SkipWhite();
      FirstChar(line, s);
      if s != es {
        return Err(Leftovers);
      }
      assert forall w :: w in Spans(c) ==> Good(line, w);
      Nulterminate(c);
      forall w | w in Spans(c) ensures w.q < w.eq <= es && CString(buf[..], w.q) == line[w.q..w.eq] {
        assert Good(line, w);
        Terminated(line, buf[..], c, w);
      }
    }
  }

  ghost predicate EndsOne(args: seq<Span>, k: nat) {
    exists i :: 0 <= i < |args| && args[i].eq == k
  }

  lemma EndsNext(args: seq<Span>, i: nat)
    requires i < |args|
    ensures forall k: nat :: EndsOne(args[..i + 1], k) <==> EndsOne(args[..i], k) || k == args[i].eq
  {
    forall k: nat ensures EndsOne(args[..i + 1], k) <==> EndsOne(args[..i], k) || k == args[i].eq {
      if EndsOne(args[..i], k) {
        var j :| 0 <= j < i && args[..i][j].eq == k;
        assert args[..i + 1][j].eq == k;
      }
      assert args[..i + 1][i] == args[i];
      if EndsOne(args[..i + 1], k) && k != args[i].eq {
        var j :| 0 <= j < i + 1 && args[..i + 1][j].eq == k;
        assert args[..i][j].eq == k;
      }
    }
  }

  lemma EndsAll(args: seq<Span>)
    ensures forall k: nat :: EndsOne(args[..|args|], k) <==> k in Ends(Exec(args))
  {
    assert args[..|args|] == args;
    forall k: nat ensures EndsOne(args, k) <==> k in Ends(Exec(args)) {
      if EndsOne(args, k) {
        var j :| 0 <= j < |args| && args[j].eq == k;
        assert args[j] in Spans(Exec(args));
      }
      if k in Ends(Exec(args)) {
        var w :| w in Spans(Exec(args)) && w.eq == k;
        var j :| 0 <= j < |args| && args[j] == w;
      }
    }
  }

  lemma RedirEnds(b: Cmd<Span>, r: Redirect<Span>)
    ensures Ends(Redir(b, r)) == Ends(b) + {r.file.eq}
  {
    forall k: nat ensures k in Ends(Redir(b, r)) <==> k in Ends(b) + {r.file.eq} {
      if k == r.file.eq {
        assert r.file in Spans(Redir(b, r));
      }
    }
  }
}
