/** The command language of sh.c over tokens: what its recursive-descent parser accepts and builds,
    and that it undoes printing. T is what stands for a word. */
module ShellGrammar {
  const MAXARGS: nat := 10

  /** Sym('+') is the token >>. */
  datatype Token<T> = Word(w: T) | Sym(c: char)

  /** fd is 0 for <, 1 for > and >>, which the parser treats alike. */
  datatype Redirect<T> = Redirect(file: T, fd: nat)

  datatype Cmd<T> =
    | Exec(args: seq<T>)
    | Redir(cmd: Cmd<T>, redirect: Redirect<T>)
    | Pipe(left: Cmd<T>, right: Cmd<T>)
    | List(left: Cmd<T>, right: Cmd<T>)
    | Back(cmd: Cmd<T>)

  datatype Error = MissingFile | MissingParen | BadToken | TooManyArgs | Leftovers

  datatype Result<A> = Ok(value: A) | Err(error: Error)

  predicate Is<T>(toks: seq<Token<T>>, c: char) {
    toks != [] && toks[0].Sym? && toks[0].c == c
  }

  predicate IsRedirect<T>(toks: seq<Token<T>>) {
    Is(toks, '<') || Is(toks, '>') || Is(toks, '+')
  }

  /** peek(ps, es, "|)&;") */
  predicate EndsExec<T>(toks: seq<Token<T>>) {
    Is(toks, '|') || Is(toks, ')') || Is(toks, '&') || Is(toks, ';')
  }

  /** At most nine words each, and redirections of 0 or 1. */
  predicate WellFormed<T>(c: Cmd<T>) {
    match c
    case Exec(args) => |args| < MAXARGS
    case Redir(d, r) => WellFormed(d) && r.fd <= 1
    case Pipe(l, r) => WellFormed(l) && WellFormed(r)
    case List(l, r) => WellFormed(l) && WellFormed(r)
    case Back(d) => WellFormed(d)
  }

  /** The redirections of rs around c, first innermost. */
  function Wrap<T>(c: Cmd<T>, rs: seq<Redirect<T>>): (r: Cmd<T>)
    ensures WellFormed(c) && (forall k :: 0 <= k < |rs| ==> rs[k].fd <= 1) ==> WellFormed(r)
    decreases |rs|
  {
    if rs == [] then c else Redir(Wrap(c, rs[..|rs| - 1]), rs[|rs| - 1])
  }

  // ----- the parser -----

  /** parseredirs */
  function Redirs<T>(toks: seq<Token<T>>): (r: Result<(seq<Redirect<T>>, seq<Token<T>>)>)
    ensures r.Ok? ==> |r.value.1| <= |toks| && !IsRedirect(r.value.1)
    ensures r.Ok? ==> forall k :: 0 <= k < |r.value.0| ==> r.value.0[k].fd <= 1
    decreases |toks|
  {
    if !IsRedirect(toks) then Ok(([], toks))
    else if |toks| < 2 || !toks[1].Word? then Err(MissingFile)
    else
      match Redirs(toks[2..])
      case Err(e) => Err(e)
      case Ok(p) => Ok(([Redirect(toks[1].w, if Is(toks, '<') then 0 else 1)] + p.0, p.1))
  }

  /** The loop of parseexec, with the words and redirections so far. */
  function ExecLoop<T>(args: seq<T>, rs: seq<Redirect<T>>, toks: seq<Token<T>>): (r: Result<(Cmd<T>, seq<Token<T>>)>)
    requires |args| < MAXARGS && forall k :: 0 <= k < |rs| ==> rs[k].fd <= 1
    ensures r.Ok? ==> |r.value.1| <= |toks| && WellFormed(r.value.0)
    decreases |toks|
  {
    if toks == [] || EndsExec(toks) then Ok((Wrap(Exec(args), rs), toks))
    else if !toks[0].Word? then Err(BadToken)
    else if |args| + 1 >= MAXARGS then Err(TooManyArgs)
    else
      match Redirs(toks[1..])
      case Err(e) => Err(e)
      case Ok(p) => ExecLoop(args + [toks[0].w], rs + p.0, p.1)
  }

  /** parseexec, with parseblock */
  function ExecP<T>(toks: seq<Token<T>>): (r: Result<(Cmd<T>, seq<Token<T>>)>)
    ensures r.Ok? ==> |r.value.1| <= |toks| && WellFormed(r.value.0)
    decreases |toks|, 0
  {
    if Is(toks, '(') then
      match LineP(toks[1..])
      case Err(e) => Err(e)
      case Ok(p) =>
        if !Is(p.1, ')') then Err(MissingParen)
        else
          match Redirs(p.1[1..])
          case Err(e) => Err(e)
          case Ok(q) => Ok((Wrap(p.0, q.0), q.1))
    else
      match Redirs(toks)
      case Err(e) => Err(e)
      case Ok(p) => ExecLoop([], p.0, p.1)
  }

  /** parsepipe */
  function PipeP<T>(toks: seq<Token<T>>): (r: Result<(Cmd<T>, seq<Token<T>>)>)
    ensures r.Ok? ==> |r.value.1| <= |toks| && WellFormed(r.value.0)
    decreases |toks|, 1
  {
    match ExecP(toks)
    case Err(e) => Err(e)
    case Ok(p) =>
      if !Is(p.1, '|') then Ok(p)
      else
        match PipeP(p.1[1..])
        case Err(e) => Err(e)
        case Ok(q) => Ok((Pipe(p.0, q.0), q.1))
  }

  /** The loop of parseline. */
  function Backs<T>(c: Cmd<T>, toks: seq<Token<T>>): (r: (Cmd<T>, seq<Token<T>>))
    ensures |r.1| <= |toks| && !Is(r.1, '&') && (WellFormed(c) ==> WellFormed(r.0))
    decreases |toks|
  {
    if Is(toks, '&') then Backs(Back(c), toks[1..]) else (c, toks)
  }

  /** parseline */
  function LineP<T>(toks: seq<Token<T>>): (r: Result<(Cmd<T>, seq<Token<T>>)>)
    ensures r.Ok? ==> |r.value.1| <= |toks| && WellFormed(r.value.0)
    decreases |toks|, 2
  {
    match PipeP(toks)
    case Err(e) => Err(e)
    case Ok(p) =>
      var (c, rest) := Backs(p.0, p.1);
      if !Is(rest, ';') then Ok((c, rest))
      else
        match LineP(rest[1..])
        case Err(e) => Err(e)
        case Ok(q) => Ok((List(c, q.0), q.1))
  }

  /** parsecmd */
  function Parse<T>(toks: seq<Token<T>>): (r: Result<Cmd<T>>)
    ensures r.Ok? ==> WellFormed(r.value)
  {
    match LineP(toks)
    case Err(e) => Err(e)
    case Ok(p) => if p.1 != [] then Err(Leftovers) else Ok(p.0)
  }

  // ----- printing -----

  /** What a place in the grammar takes without parentheses. */
  datatype Level = AnyLine | Backed | Piped | Simple

  function Rank(lvl: Level): nat {
    match lvl
    case AnyLine => 0
    case Backed => 1
    case Piped => 2
    case Simple => 3
  }

  /** The most demanding place a command fits. */
  function BestLevel<T>(c: Cmd<T>): Level {
    match c
    case Exec(_) => Simple
    case Redir(_, _) => Simple
    case Pipe(_, _) => Piped
    case Back(_) => Backed
    case List(_, _) => AnyLine
  }

  function PrintWords<T>(ws: seq<T>): (toks: seq<Token<T>>)
    ensures |toks| == |ws| && forall k :: 0 <= k < |ws| ==> toks[k] == Word(ws[k])
  {
    seq(|ws|, k requires 0 <= k < |ws| => Word(ws[k]))
  }

  function PrintRedirect<T>(r: Redirect<T>): seq<Token<T>> {
    [Sym(if r.fd == 0 then '<' else '>'), Word(r.file)]
  }

  /** Parentheses only where they are needed. */
  function Print<T>(c: Cmd<T>, lvl: Level): seq<Token<T>>
    decreases c, Rank(lvl)
  {
    if Rank(BestLevel(c)) < Rank(lvl) then [Sym('(')] + Print(c, AnyLine) + [Sym(')')]
    else
      match c
      case Exec(args) => PrintWords(args)
      case Redir(d, r) => Print(d, Simple) + PrintRedirect(r)
      case Pipe(l, r) => Print(l, Simple) + [Sym('|')] + Print(r, Piped)
      case List(l, r) => Print(l, Backed) + [Sym(';')] + Print(r, AnyLine)
      case Back(d) => Print(d, Backed) + [Sym('&')]
  }

  // ----- parsing undoes printing -----

  /** The parser stops a command of this level here. */
  predicate Stops<T>(rest: seq<Token<T>>, lvl: Level) {
    match lvl
    case AnyLine => rest == [] || Is(rest, ')')
    case Backed => rest == [] || Is(rest, ')') || Is(rest, ';')
    case Piped => rest == [] || Is(rest, ')') || Is(rest, ';') || Is(rest, '&')
    case Simple => rest == [] || EndsExec(rest)
  }

  /** A command without its outermost redirections, and those. */
  function Base<T>(c: Cmd<T>): (b: Cmd<T>)
    ensures !b.Redir?
  {
    if c.Redir? then Base(c.cmd) else c
  }

  function Redirections<T>(c: Cmd<T>): seq<Redirect<T>> {
    if c.Redir? then Redirections(c.cmd) + [c.redirect] else []
  }

  function PrintRedirections<T>(rs: seq<Redirect<T>>): (toks: seq<Token<T>>)
    ensures rs != [] ==> IsRedirect(toks)
    ensures rs == [] ==> toks == []
  {
    if rs == [] then [] else PrintRedirect(rs[0]) + PrintRedirections(rs[1..])
  }

  lemma {:induction false} PrintRedirectionsMore<T>(rs: seq<Redirect<T>>, r: Redirect<T>)
    ensures PrintRedirections(rs + [r]) == PrintRedirections(rs) + PrintRedirect(r)
  {
    if rs == [] {
      assert rs + [r] == [r];
    } else {
      PrintRedirectionsMore(rs[1..], r);
      assert (rs + [r])[1..] == rs[1..] + [r];
    }
  }

  lemma {:induction false} SplitRedirections<T>(c: Cmd<T>)
    requires WellFormed(c)
    ensures c == Wrap(Base(c), Redirections(c)) && WellFormed(Base(c))
    ensures forall k :: 0 <= k < |Redirections(c)| ==> Redirections(c)[k].fd <= 1
    ensures Print(c, Simple) == Print(Base(c), Simple) + PrintRedirections(Redirections(c))
  {
    if c.Redir? {
      hide PrintRedirections, PrintRedirect;
      SplitRedirections(c.cmd);
      var rs := Redirections(c.cmd);
      PrintRedirectionsMore(rs, c.redirect);
      assert Redirections(c)[..|Redirections(c)| - 1] == rs;
      assert Print(c.cmd, Simple) + PrintRedirect(c.redirect)
          == Print(Base(c.cmd), Simple) + (PrintRedirections(rs) + PrintRedirect(c.redirect));
    }
  }

  lemma {:induction false} ParsesRedirections<T>(rs: seq<Redirect<T>>, rest: seq<Token<T>>)
    requires !IsRedirect(rest) && forall k :: 0 <= k < |rs| ==> rs[k].fd <= 1
    ensures Redirs(PrintRedirections(rs) + rest) == Ok((rs, rest))
  {
    hide PrintRedirections, Redirs, PrintRedirect;
    if rs != [] {
      ParsesRedirections(rs[1..], rest);
      FirstRedirection(rs, rest);
      OneRedirection(PrintRedirections(rs) + rest, rs[0], rs[1..], PrintRedirections(rs[1..]) + rest, rest);
      assert rs == [rs[0]] + rs[1..];
    } else {
      NoRedirection(rest);
      assert PrintRedirections(rs) + rest == rest;
    }
  }

  lemma FirstRedirection<T>(rs: seq<Redirect<T>>, rest: seq<Token<T>>)
    requires rs != []
    ensures PrintRedirections(rs) + rest == PrintRedirect(rs[0]) + (PrintRedirections(rs[1..]) + rest)
  {
    hide PrintRedirect;
  }

  lemma NoRedirection<T>(rest: seq<Token<T>>)
    requires !IsRedirect(rest)
    ensures Redirs(rest) == Ok(([], rest))
  {
  }

  lemma OneRedirection<T>(toks: seq<Token<T>>, r: Redirect<T>, rs: seq<Redirect<T>>, more: seq<Token<T>>,
                          rest: seq<Token<T>>)
    requires toks == PrintRedirect(r) + more && r.fd <= 1 && Redirs(more) == Ok((rs, rest))
    ensures Redirs(toks) == Ok(([r] + rs, rest))
  {
    assert toks[2..] == more;
  }

  lemma {:induction false} ParsesWords<T>(args: seq<T>, ws: seq<T>, rs: seq<Redirect<T>>, rest: seq<Token<T>>)
    requires |args| + |ws| < MAXARGS && Stops(rest, Simple) && (ws == [] ==> rs == [])
    requires forall k :: 0 <= k < |rs| ==> rs[k].fd <= 1
    ensures ExecLoop(args, [], PrintWords(ws) + PrintRedirections(rs) + rest) == Ok((Wrap(Exec(args + ws), rs), rest))
    decreases |ws|
  {
    var toks := PrintWords(ws) + PrintRedirections(rs) + rest;
    if ws == [] {
      assert toks == rest && args + ws == args;
    } else {
      var more := PrintWords(ws[1..]) + PrintRedirections(rs) + rest;
      assert toks[0] == Word(ws[0]) && toks[1..] == more;
      assert args + [ws[0]] + ws[1..] == args + ws;
      if |ws| > 1 {
        assert more[0] == Word(ws[1]);
        ParsesWords(args + [ws[0]], ws[1..], rs, rest);
        NextWord(args, toks, [], more);
      } else {
        assert more == PrintRedirections(rs) + rest;
        ParsesRedirections(rs, rest);
        assert args + [ws[0]] == args + ws;
        NextWord(args, toks, rs, rest);
      }
    }
  }

  lemma NextWord<T>(args: seq<T>, toks: seq<Token<T>>, rs: seq<Redirect<T>>, rest: seq<Token<T>>)
    requires toks != [] && toks[0].Word? && |args| + 1 < MAXARGS && Redirs(toks[1..]) == Ok((rs, rest))
    ensures ExecLoop(args, [], toks) == ExecLoop(args + [toks[0].w], rs, rest)
  {
    assert [] + rs == rs;
  }

  /** Parentheses come first, then the place in the grammar. */
  function Need<T>(c: Cmd<T>, lvl: Level): nat {
    if Rank(BestLevel(c)) < Rank(lvl) then 1 else 0
  }

  lemma {:induction false} ParsesSimple<T>(c: Cmd<T>, rest: seq<Token<T>>)
    requires WellFormed(c) && Stops(rest, Simple)
    ensures ExecP(Print(c, Simple) + rest) == Ok((c, rest))
    decreases c, Need(c, Simple), 1
  {
    hide Print, PrintRedirections, PrintWords, ExecP, LineP, Redirs, Wrap, Redirections, Base;
    var b, rs := Base(c), Redirections(c);
    SplitRedirections(c);
    BaseSmaller(c);
    if b.Exec? {
      PrintsWords(b);
      ParsesPlain(b.args, rs, rest);
    } else {
      var after := [Sym(')')] + (PrintRedirections(rs) + rest);
      ParsesLine(b, after);
      ParsesRedirections(rs, rest);
      SimpleBlock(c, b, after, rs, rest);
    }
  }

  lemma SimpleBlock<T>(c: Cmd<T>, b: Cmd<T>, after: seq<Token<T>>, rs: seq<Redirect<T>>, rest: seq<Token<T>>)
    requires !b.Exec? && !b.Redir? && c == Wrap(b, rs) && Print(c, Simple) == Print(b, Simple) + PrintRedirections(rs)
    requires after == [Sym(')')] + (PrintRedirections(rs) + rest)
    requires LineP(Print(b, AnyLine) + after) == Ok((b, after))
    requires Redirs(PrintRedirections(rs) + rest) == Ok((rs, rest))
    ensures ExecP(Print(c, Simple) + rest) == Ok((c, rest))
  {
    assert Print(b, Simple) == [Sym('(')] + Print(b, AnyLine) + [Sym(')')];
    hide Print, PrintRedirections, LineP, Redirs, Wrap, ExecP;
    Bracketed(Print(b, AnyLine), PrintRedirections(rs), rest);
    ParsesBlock(Print(c, Simple) + rest, b, after, rs, rest);
  }

  lemma Bracketed<T>(l: seq<Token<T>>, p: seq<Token<T>>, r: seq<Token<T>>)
    ensures var toks := [Sym('(')] + l + [Sym(')')] + p + r; var after := [Sym(')')] + (p + r);
            Is(toks, '(') && toks[1..] == l + after && Is(after, ')') && after[1..] == p + r
  {
  }

  lemma ParsesBlock<T>(toks: seq<Token<T>>, b: Cmd<T>, after: seq<Token<T>>, rs: seq<Redirect<T>>, rest: seq<Token<T>>)
    requires Is(toks, '(') && LineP(toks[1..]) == Ok((b, after)) && Is(after, ')')
    requires Redirs(after[1..]) == Ok((rs, rest))
    ensures ExecP(toks) == Ok((Wrap(b, rs), rest))
  {
  }

  lemma PrintsWords<T>(c: Cmd<T>)
    requires c.Exec?
    ensures Print(c, Simple) == PrintWords(c.args)
  {
  }

  lemma BaseSmaller<T>(c: Cmd<T>)
    ensures Base(c) == c || Base(c) < c
  {
  }

  /** Words, then redirections: with no words those are read before the loop. */
  lemma ParsesPlain<T>(ws: seq<T>, rs: seq<Redirect<T>>, rest: seq<Token<T>>)
    requires |ws| < MAXARGS && Stops(rest, Simple) && forall k :: 0 <= k < |rs| ==> rs[k].fd <= 1
    ensures ExecP(PrintWords(ws) + PrintRedirections(rs) + rest) == Ok((Wrap(Exec(ws), rs), rest))
  {
    var toks := PrintWords(ws) + PrintRedirections(rs) + rest;
    if ws == [] {
      assert toks == PrintRedirections(rs) + rest;
      ParsesRedirections(rs, rest);
    } else {
      assert Redirs(toks) == Ok(([], toks));
      ParsesWords([], ws, rs, rest);
      assert [] + ws == ws;
    }
  }

  lemma {:induction false} ParsesPiped<T>(c: Cmd<T>, rest: seq<Token<T>>)
    requires WellFormed(c) && Stops(rest, Piped)
    ensures PipeP(Print(c, Piped) + rest) == Ok((c, rest))
    decreases c, Need(c, Piped), 2
  {
    if c.Pipe? {
      var after := [Sym('|')] + (Print(c.right, Piped) + rest);
      assert Print(c, Piped) + rest == Print(c.left, Simple) + after;
      ParsesSimple(c.left, after);
      ParsesPiped(c.right, rest);
      assert after[1..] == Print(c.right, Piped) + rest;
    } else {
      assert Print(c, Piped) == Print(c, Simple);
      ParsesSimple(c, rest);
    }
  }

  /** What parseline's loop makes of it; rest may go on with &. */
  lemma {:induction false} ParsesBacked<T>(c: Cmd<T>, rest: seq<Token<T>>)
    requires WellFormed(c) && Stops(rest, Piped)
    ensures PipeP(Print(c, Backed) + rest).Ok?
    ensures var p := PipeP(Print(c, Backed) + rest).value; Backs(p.0, p.1) == Backs(c, rest)
    decreases c, Need(c, Backed), 3
  {
    if c.Back? {
      var after := [Sym('&')] + rest;
      assert Print(c, Backed) + rest == Print(c.cmd, Backed) + after;
      ParsesBacked(c.cmd, after);
      assert after[1..] == rest;
    } else {
      assert Print(c, Backed) == Print(c, Piped);
      ParsesPiped(c, rest);
    }
  }

  lemma {:induction false} ParsesLine<T>(c: Cmd<T>, rest: seq<Token<T>>)
    requires WellFormed(c) && Stops(rest, AnyLine)
    ensures LineP(Print(c, AnyLine) + rest) == Ok((c, rest))
    decreases c, Need(c, AnyLine), 4
  {
    if c.List? {
      var after := [Sym(';')] + (Print(c.right, AnyLine) + rest);
      assert Print(c, AnyLine) + rest == Print(c.left, Backed) + after;
      ParsesBacked(c.left, after);
      ParsesLine(c.right, rest);
      assert after[1..] == Print(c.right, AnyLine) + rest;
    } else {
      assert Print(c, AnyLine) == Print(c, Backed);
      ParsesBacked(c, rest);
    }
  }

  /** Every command with at most nine words a piece comes back from its printed form. */
  lemma RoundTrip<T>(c: Cmd<T>)
    requires WellFormed(c)
    ensures Parse(Print(c, AnyLine)) == Ok(c)
  {
    ParsesLine(c, []);
    assert Print(c, AnyLine) + [] == Print(c, AnyLine);
  }

  /** And whatever the parser returns can be printed and parsed again. */
  lemma Reparse<T>(toks: seq<Token<T>>)
    requires Parse(toks).Ok?
    ensures Parse(Print(Parse(toks).value, AnyLine)) == Parse(toks)
  {
    RoundTrip(Parse(toks).value);
  }
}
