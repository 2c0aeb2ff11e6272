/** The grammar of command lines as rules, and the parser as exactly what follows from them. */
module ShellSyntax {
  import opened ShellGrammar

  // ----- simple commands -----

  /** A word, or a redirection: '<', '>' or '+' for >>, and a file. */
  datatype Piece<T> = Arg(w: T) | Into(op: char, file: T)

  function PieceTokens<T>(p: Piece<T>): seq<Token<T>> {
    match p
    case Arg(w) => [Word(w)]
    case Into(op, file) => [Sym(op), Word(file)]
  }

  function Tokens<T>(ps: seq<Piece<T>>): seq<Token<T>> {
    if ps == [] then [] else PieceTokens(ps[0]) + Tokens(ps[1..])
  }

  /** The words, in order. */
  function Args<T>(ps: seq<Piece<T>>): seq<T> {
    if ps == [] then [] else PieceArgs(ps[0]) + Args(ps[1..])
  }

  function PieceArgs<T>(p: Piece<T>): seq<T> {
    if p.Arg? then [p.w] else []
  }

  /** The redirections, in order: of descriptor 0 for '<' and of 1 for the others. */
  function Files<T>(ps: seq<Piece<T>>): seq<Redirect<T>> {
    if ps == [] then [] else PieceFiles(ps[0]) + Files(ps[1..])
  }

  function PieceFiles<T>(p: Piece<T>): seq<Redirect<T>> {
    if p.Into? then [Redirect(p.file, if p.op == '<' then 0 else 1)] else []
  }

  predicate Ops<T>(ps: seq<Piece<T>>) {
    forall k :: 0 <= k < |ps| && ps[k].Into? ==> ps[k].op == '<' || ps[k].op == '>' || ps[k].op == '+'
  }

  predicate OnlyFiles<T>(ps: seq<Piece<T>>) {
    forall k :: 0 <= k < |ps| ==> ps[k].Into?
  }

  // ----- the rules -----

  /** At most nine words and any redirections, in any order. */
  ghost predicate IsSimple<T(!new)>(toks: seq<Token<T>>, c: Cmd<T>) {
    exists ps: seq<Piece<T>> ::
      Ops(ps) && toks == Tokens(ps) && |Args(ps)| <= 9 && c == Wrap(Exec(Args(ps)), Files(ps))
  }

  /** A line in parentheses, and redirections of it. */
  ghost predicate IsBlock<T(!new)>(toks: seq<Token<T>>, c: Cmd<T>)
    decreases |toks|, 1
  {
    exists k: nat, b: Cmd<T>, ps: seq<Piece<T>> :: BlockAt(toks, c, k, b, ps)
  }

  ghost predicate BlockAt<T(!new)>(toks: seq<Token<T>>, c: Cmd<T>, k: nat, b: Cmd<T>, ps: seq<Piece<T>>)
    decreases |toks|, 0
  {
    && 0 < k < |toks| && toks[0] == Sym('(') && toks[k] == Sym(')') && IsLine(toks[1..k], b)
    && Ops(ps) && OnlyFiles(ps) && toks[k + 1..] == Tokens(ps) && c == Wrap(b, Files(ps))
  }

  ghost predicate IsExec<T(!new)>(toks: seq<Token<T>>, c: Cmd<T>)
    decreases |toks|, 2
  {
    IsSimple(toks, c) || IsBlock(toks, c)
  }

  /** pipe: exec, or exec | pipe */
  ghost predicate IsPipe<T(!new)>(toks: seq<Token<T>>, c: Cmd<T>)
    decreases |toks|, 3
  {
    || IsExec(toks, c)
    || exists k :: 0 <= k < |toks| && PipeAt(toks, c, k)
  }

  ghost predicate PipeAt<T(!new)>(toks: seq<Token<T>>, c: Cmd<T>, k: nat)
    requires k < |toks|
    decreases |toks|, 0
  {
    c.Pipe? && toks[k] == Sym('|') && IsExec(toks[..k], c.left) && IsPipe(toks[k + 1..], c.right)
  }

  /** backed: pipe, or backed & */
  ghost predicate IsBacked<T(!new)>(toks: seq<Token<T>>, c: Cmd<T>)
    decreases |toks|, 4
  {
    || IsPipe(toks, c)
    || (c.Back? && toks != [] && toks[|toks| - 1] == Sym('&') && IsBacked(toks[..|toks| - 1], c.cmd))
  }

  /** line: backed, or backed ; line */
  ghost predicate IsLine<T(!new)>(toks: seq<Token<T>>, c: Cmd<T>)
    decreases |toks|, 5
  {
    || IsBacked(toks, c)
    || exists k :: 0 <= k < |toks| && LineAt(toks, c, k)
  }

  ghost predicate LineAt<T(!new)>(toks: seq<Token<T>>, c: Cmd<T>, k: nat)
    requires k < |toks|
    decreases |toks|, 0
  {
    c.List? && toks[k] == Sym(';') && IsBacked(toks[..k], c.left) && IsLine(toks[k + 1..], c.right)
  }

  // ----- what the rules allow is parsed -----

  /** How many redirections stand in front. */
  function Leading<T>(ps: seq<Piece<T>>): (n: nat)
    ensures n <= |ps| && OnlyFiles(ps[..n]) && (n < |ps| ==> ps[n].Arg?)
  {
    if ps == [] || ps[0].Arg? then 0 else 1 + Leading(ps[1..])
  }

  lemma First<T>(ps: seq<Piece<T>>)
    requires ps != []
    ensures Tokens(ps) == PieceTokens(ps[0]) + Tokens(ps[1..])
    ensures Args(ps) == PieceArgs(ps[0]) + Args(ps[1..]) && Files(ps) == PieceFiles(ps[0]) + Files(ps[1..])
  {
  }

  lemma Assoc<X>(a: seq<X>, b: seq<X>, c: seq<X>)
    ensures a + (b + c) == a + b + c
  {
  }

  lemma {:induction false} RedirsTaken<T>(ps: seq<Piece<T>>, rest: seq<Token<T>>)
    requires Ops(ps) && !IsRedirect(rest)
    ensures var n := Leading(ps);
            Redirs(Tokens(ps) + rest) == Ok((Files(ps[..n]), Tokens(ps[n..]) + rest))
  {
    hide Tokens, Files, Redirs;
    if ps == [] {
      NoPieces<T>();
      assert Tokens(ps) + rest == rest && ps[..0] == [] && ps[0..] == [];
      NoRedirection(rest);
    } else if ps[0].Arg? {
      NoPieces<T>();
      First(ps);
      assert ps[0..] == ps && ps[..0] == [];
      NoRedirection(Tokens(ps) + rest);
    } else {
      RedirsTaken(ps[1..], rest);
      var n, toks := Leading(ps[1..]), Tokens(ps) + rest;
      First(ps);
      First(ps[..1 + n]);
      assert ps[..1 + n][0] == ps[0] && ps[..1 + n][1..] == ps[1..][..n] && ps[1 + n..] == ps[1..][n..];
      Assoc(PieceTokens(ps[0]), Tokens(ps[1..]), rest);
      OneTaken(ps[0], Tokens(ps[1..]) + rest);
    }
  }

  lemma NoPieces<T>()
    ensures Tokens<T>([]) == [] && Args<T>([]) == [] && Files<T>([]) == []
  {
  }

  lemma OneTaken<T>(p: Piece<T>, more: seq<Token<T>>)
    requires p.Into? && Ops([p]) && Redirs(more).Ok?
    ensures Redirs(PieceTokens(p) + more) == Ok((PieceFiles(p) + Redirs(more).value.0, Redirs(more).value.1))
  {
    assert [p][0] == p;
    assert (PieceTokens(p) + more)[2..] == more;
  }

  lemma {:induction false} Joined<T>(ps: seq<Piece<T>>, qs: seq<Piece<T>>)
    ensures Tokens(ps + qs) == Tokens(ps) + Tokens(qs)
    ensures Args(ps + qs) == Args(ps) + Args(qs) && Files(ps + qs) == Files(ps) + Files(qs)
  {
    hide Tokens, Args, Files;
    if ps == [] {
      NoPieces<T>();
      assert ps + qs == qs;
    } else {
      Joined(ps[1..], qs);
      First(ps);
      First(ps + qs);
      assert (ps + qs)[0] == ps[0] && (ps + qs)[1..] == ps[1..] + qs;
      Assoc(PieceTokens(ps[0]), Tokens(ps[1..]), Tokens(qs));
      Assoc(PieceArgs(ps[0]), Args(ps[1..]), Args(qs));
      Assoc(PieceFiles(ps[0]), Files(ps[1..]), Files(qs));
      hide PieceTokens, PieceArgs, PieceFiles;
    }
  }

  lemma {:induction false} NoArgs<T>(ps: seq<Piece<T>>)
    requires OnlyFiles(ps)
    ensures Args(ps) == []
  {
    if ps != [] {
      NoArgs(ps[1..]);
    }
  }

  lemma {:induction false} LoopTakes<T>(args: seq<T>, rs: seq<Redirect<T>>, ps: seq<Piece<T>>, rest: seq<Token<T>>)
    requires Ops(ps) && (ps == [] || ps[0].Arg?) && |args| + |Args(ps)| <= 9 && Stops(rest, Simple)
    requires forall k :: 0 <= k < |rs| ==> rs[k].fd <= 1
    ensures ExecLoop(args, rs, Tokens(ps) + rest) == Ok((Wrap(Exec(args + Args(ps)), rs + Files(ps)), rest))
    decreases |ps|
  {
    hide Tokens, Args, Files, Redirs, ExecLoop, Wrap;
    NoPieces<T>();
    if ps == [] {
      LoopEnds(args, rs, rest);
      assert Tokens(ps) + rest == rest && args + [] == args && rs + [] == rs;
    } else {
      var qs := ps[1..];
      var n := Leading(qs);
      RedirsTaken(qs, rest);
      First(ps);
      Assoc(PieceTokens(ps[0]), Tokens(qs), rest);
      assert qs == qs[..n] + qs[n..];
      Joined(qs[..n], qs[n..]);
      NoArgs(qs[..n]);
      assert [] + Args(qs[n..]) == Args(qs[n..]);
      FilesFd(qs[..n]);
      LoopTakes(args + [ps[0].w], rs + Files(qs[..n]), qs[n..], rest);
      LoopNext(args, rs, ps[0].w, Tokens(qs) + rest);
      Assoc(args, [ps[0].w], Args(qs[n..]));
      Assoc(rs, Files(qs[..n]), Files(qs[n..]));
      assert [] + Files(qs) == Files(qs);
    }
  }

  lemma {:induction false} FilesFd<T>(ps: seq<Piece<T>>)
    ensures forall k :: 0 <= k < |Files(ps)| ==> Files(ps)[k].fd <= 1
  {
    if ps != [] {
      FilesFd(ps[1..]);
    }
  }

  lemma {:induction false} LoopEnds<T>(args: seq<T>, rs: seq<Redirect<T>>, rest: seq<Token<T>>)
    requires |args| <= 9 && Stops(rest, Simple) && forall k :: 0 <= k < |rs| ==> rs[k].fd <= 1
    ensures ExecLoop(args, rs, rest) == Ok((Wrap(Exec(args), rs), rest))
  {
  }

  lemma {:induction false} LoopNext<T>(args: seq<T>, rs: seq<Redirect<T>>, w: T, more: seq<Token<T>>)
    requires |args| < 9 && Redirs(more).Ok? && forall k :: 0 <= k < |rs| ==> rs[k].fd <= 1
    ensures ExecLoop(args, rs, [Word(w)] + more)
            == ExecLoop(args + [w], rs + Redirs(more).value.0, Redirs(more).value.1)
  {
    assert ([Word(w)] + more)[1..] == more;
  }

  /** Words and redirections in any order: the words in order, wrapped in the redirections in order. */
  lemma Interleaved<T>(ps: seq<Piece<T>>, rest: seq<Token<T>>)
    requires forall k :: 0 <= k < |ps| && ps[k].Into? ==> ps[k].op == '<' || ps[k].op == '>' || ps[k].op == '+'
    requires |Args(ps)| <= 9
    requires rest == [] || rest[0] == Sym('|') || rest[0] == Sym(')') || rest[0] == Sym('&') || rest[0] == Sym(';')
    ensures ExecP(Tokens(ps) + rest) == Ok((Wrap(Exec(Args(ps)), Files(ps)), rest))
    ensures var c := Wrap(Exec(Args(ps)), Files(ps)); Base(c) == Exec(Args(ps)) && Redirections(c) == Files(ps)
  {
    hide Tokens, Args, Files, Redirs, ExecLoop, Wrap, ExecP;
    var n := Leading(ps);
    RedirsTaken(ps, rest);
    assert ps == ps[..n] + ps[n..];
    Joined(ps[..n], ps[n..]);
    NoArgs(ps[..n]);
    FilesFd(ps[..n]);
    assert [] + Args(ps[n..]) == Args(ps[n..]);
    LoopTakes([], Files(ps[..n]), ps[n..], rest);
    NotABlock(ps, rest);
    ExecUnrolls(Tokens(ps) + rest);
    Unwrapped(Exec(Args(ps)), Files(ps));
  }

  lemma ExecUnrolls<T>(toks: seq<Token<T>>)
    requires !Is(toks, '(') && Redirs(toks).Ok?
    ensures ExecP(toks) == ExecLoop([], Redirs(toks).value.0, Redirs(toks).value.1)
  {
    hide ExecLoop, Redirs;
  }

  lemma NotABlock<T>(ps: seq<Piece<T>>, rest: seq<Token<T>>)
    requires Ops(ps) && Stops(rest, Simple)
    ensures !Is(Tokens(ps) + rest, '(')
  {
    if ps == [] {
      assert Tokens(ps) + rest == rest;
    } else {
      assert (Tokens(ps) + rest)[0] == PieceTokens(ps[0])[0];
    }
  }

  lemma {:induction false} Unwrapped<T>(c: Cmd<T>, rs: seq<Redirect<T>>)
    requires !c.Redir?
    ensures Base(Wrap(c, rs)) == c && Redirections(Wrap(c, rs)) == rs
    decreases |rs|
  {
    if rs != [] {
      Unwrapped(c, rs[..|rs| - 1]);
      assert rs == rs[..|rs| - 1] + [rs[|rs| - 1]];
    }
  }

  lemma SimpleAllowed<T(!new)>(toks: seq<Token<T>>, c: Cmd<T>, rest: seq<Token<T>>)
    requires IsSimple(toks, c) && Stops(rest, Simple)
    ensures ExecP(toks + rest) == Ok((c, rest))
  {
    hide ExecP, Tokens, Args, Files, Wrap;
    var ps: seq<Piece<T>> :|
      Ops(ps) && toks == Tokens(ps) && |Args(ps)| <= 9 && c == Wrap(Exec(Args(ps)), Files(ps));
    Interleaved(ps, rest);
  }

  lemma {:induction false} ExecAllowed<T(!new)>(toks: seq<Token<T>>, c: Cmd<T>, rest: seq<Token<T>>)
    requires IsExec(toks, c) && Stops(rest, Simple)
    ensures ExecP(toks + rest) == Ok((c, rest))
    decreases |toks|, 1
  {
    hide Tokens, Files, Wrap, Redirs, ExecP, LineP, Leading, IsLine, IsSimple;
    if IsSimple(toks, c) {
      SimpleAllowed(toks, c, rest);
    } else {
      assert IsBlock(toks, c);
      var k: nat, b: Cmd<T>, ps: seq<Piece<T>> :| BlockAt(toks, c, k, b, ps);
      var after := toks[k..] + rest;
      LineAllowed(toks[1..k], b, after);
      RedirsTaken(ps, rest);
      AllLeading(ps);
      Brackets(toks, k, rest);
      BlockParses(toks + rest, b, after, Files(ps), rest);
    }
  }

  lemma Brackets<X>(s: seq<X>, k: nat, rest: seq<X>)
    requires 0 < k < |s|
    ensures (s + rest)[0] == s[0] && (s + rest)[1..] == s[1..k] + (s[k..] + rest)
    ensures (s[k..] + rest)[0] == s[k] && (s[k..] + rest)[1..] == s[k + 1..] + rest
  {
  }

  lemma {:induction false} AllLeading<T>(ps: seq<Piece<T>>)
    requires OnlyFiles(ps)
    ensures Leading(ps) == |ps| && ps[..|ps|] == ps && Tokens(ps[|ps|..]) == []
  {
    if ps != [] {
      AllLeading(ps[1..]);
    }
  }

  lemma BlockParses<T>(toks: seq<Token<T>>, b: Cmd<T>, after: seq<Token<T>>, rs: seq<Redirect<T>>, rest: seq<Token<T>>)
    requires Is(toks, '(') && LineP(toks[1..]) == Ok((b, after)) && Is(after, ')')
    requires Redirs(after[1..]) == Ok((rs, [] + rest))
    ensures ExecP(toks) == Ok((Wrap(b, rs), rest))
  {
    assert [] + rest == rest;
  }

  lemma CutAt<X>(s: seq<X>, k: nat, rest: seq<X>)
    requires k < |s|
    ensures s + rest == s[..k] + (s[k..] + rest) && (s[k..] + rest)[0] == s[k]
    ensures (s[k..] + rest)[1..] == s[k + 1..] + rest
  {
  }

  lemma {:induction false} PipeAllowed<T(!new)>(toks: seq<Token<T>>, c: Cmd<T>, rest: seq<Token<T>>)
    requires IsPipe(toks, c) && Stops(rest, Piped)
    ensures PipeP(toks + rest) == Ok((c, rest))
    decreases |toks|, 2
  {
    if IsExec(toks, c) {
      ExecAllowed(toks, c, rest);
    } else {
      var k :| 0 <= k < |toks| && PipeAt(toks, c, k);
      var after := toks[k..] + rest;
      CutAt(toks, k, rest);
      ExecAllowed(toks[..k], c.left, after);
      PipeAllowed(toks[k + 1..], c.right, rest);
    }
  }

  lemma {:induction false} BackedAllowed<T(!new)>(toks: seq<Token<T>>, c: Cmd<T>, rest: seq<Token<T>>)
    requires IsBacked(toks, c) && Stops(rest, Piped)
    ensures PipeP(toks + rest).Ok?
    ensures var p := PipeP(toks + rest).value; Backs(p.0, p.1) == Backs(c, rest)
    decreases |toks|, 3
  {
    if IsPipe(toks, c) {
      PipeAllowed(toks, c, rest);
    } else {
      var after := [Sym('&')] + rest;
      BackedAllowed(toks[..|toks| - 1], c.cmd, after);
      assert toks + rest == toks[..|toks| - 1] + after && after[1..] == rest;
    }
  }

  lemma {:induction false} LineAllowed<T(!new)>(toks: seq<Token<T>>, c: Cmd<T>, rest: seq<Token<T>>)
    requires IsLine(toks, c) && Stops(rest, AnyLine)
    ensures LineP(toks + rest) == Ok((c, rest))
    decreases |toks|, 4
  {
    if IsBacked(toks, c) {
      BackedAllowed(toks, c, rest);
    } else {
      var k :| 0 <= k < |toks| && LineAt(toks, c, k);
      var after := toks[k..] + rest;
      CutAt(toks, k, rest);
      BackedAllowed(toks[..k], c.left, after);
      LineAllowed(toks[k + 1..], c.right, rest);
    }
  }

  // ----- what is parsed the rules allow -----

  lemma {:induction false} RedirsFound<T>(toks: seq<Token<T>>) returns (ps: seq<Piece<T>>)
    requires Redirs(toks).Ok?
    ensures Ops(ps) && OnlyFiles(ps) && Files(ps) == Redirs(toks).value.0 && toks == Tokens(ps) + Redirs(toks).value.1
    decreases |toks|
  {
    hide Tokens, Files, Redirs;
    NoPieces<T>();
    RedirsUnroll(toks);
    if !IsRedirect(toks) {
      ps := [];
      assert [] + toks == toks;
    } else {
      var qs := RedirsFound(toks[2..]);
      ps := [Into(toks[0].c, toks[1].w)] + qs;
      First(ps);
      assert ps[1..] == qs;
      assert toks == [toks[0], toks[1]] + toks[2..];
      Assoc(PieceTokens(ps[0]), Tokens(qs), Redirs(toks).value.1);
    }
  }

  lemma RedirsUnroll<T>(toks: seq<Token<T>>)
    requires Redirs(toks).Ok?
    ensures !IsRedirect(toks) ==> Redirs(toks).value == ([], toks)
    ensures IsRedirect(toks) ==>
              && |toks| >= 2 && toks[1].Word? && Redirs(toks[2..]).Ok?
              && Redirs(toks).value.0 == PieceFiles(Into(toks[0].c, toks[1].w)) + Redirs(toks[2..]).value.0
              && Redirs(toks).value.1 == Redirs(toks[2..]).value.1
  {
  }

  lemma {:induction false} LoopFound<T>(args: seq<T>, rs: seq<Redirect<T>>, toks: seq<Token<T>>)
    returns (ps: seq<Piece<T>>)
    requires |args| <= 9 && (forall k :: 0 <= k < |rs| ==> rs[k].fd <= 1) && ExecLoop(args, rs, toks).Ok?
    ensures var (c, rest) := ExecLoop(args, rs, toks).value;
            && Ops(ps) && toks == Tokens(ps) + rest && |args| + |Args(ps)| <= 9 && Stops(rest, Simple)
            && c == Wrap(Exec(args + Args(ps)), rs + Files(ps))
    decreases |toks|
  {
    hide Tokens, Args, Files, Redirs, Wrap;
    NoPieces<T>();
    if toks == [] || EndsExec(toks) {
      ps := [];
      assert args + [] == args && rs + [] == rs && [] + toks == toks;
    } else {
      var fs := RedirsFound(toks[1..]);
      var p := Redirs(toks[1..]).value;
      var qs := LoopFound(args + [toks[0].w], rs + p.0, p.1);
      var rest := ExecLoop(args, rs, toks).value.1;
      hide ExecLoop;
      ps := [Arg(toks[0].w)] + (fs + qs);
      OnePiece(ps, toks[0].w, fs, qs);
      assert toks == [toks[0]] + toks[1..];
      Assoc(args, [toks[0].w], Args(qs));
      Assoc(rs, p.0, Files(qs));
      Assoc(Tokens(fs), Tokens(qs), rest);
      Assoc([toks[0]], Tokens(fs) + Tokens(qs), rest);
    }
  }

  lemma OnePiece<T>(ps: seq<Piece<T>>, w: T, fs: seq<Piece<T>>, qs: seq<Piece<T>>)
    requires ps == [Arg(w)] + (fs + qs) && OnlyFiles(fs) && Ops(fs) && Ops(qs)
    ensures Ops(ps) && Tokens(ps) == [Word(w)] + (Tokens(fs) + Tokens(qs))
    ensures Args(ps) == [w] + Args(qs) && Files(ps) == Files(fs) + Files(qs)
  {
    Joined(fs, qs);
    NoArgs(fs);
    First(ps);
    assert ps[1..] == fs + qs;
    hide Tokens, Args, Files;
    assert [] + Args(qs) == Args(qs) && [] + (Files(fs) + Files(qs)) == Files(fs) + Files(qs);
  }

  /** toks is a command c by the rules, and rest. */
  ghost predicate ExecIs<T(!new)>(toks: seq<Token<T>>, c: Cmd<T>, rest: seq<Token<T>>) {
    |rest| <= |toks| && toks[|toks| - |rest|..] == rest && IsExec(toks[..|toks| - |rest|], c)
  }

  lemma {:induction false} ExecFound<T(!new)>(toks: seq<Token<T>>)
    requires ExecP(toks).Ok?
    ensures ExecIs(toks, ExecP(toks).value.0, ExecP(toks).value.1)
    decreases |toks|, 0
  {
    hide Redirs, ExecLoop, LineP, ExecP, Wrap, Tokens, Files, Args, IsLine, ExecIs, Ops, OnlyFiles;
    var (c, rest) := ExecP(toks).value;
    if Is(toks, '(') {
      BlockUnrolls(toks);
      LineFound(toks[1..]);
      var p := LineP(toks[1..]).value;
      var ps := RedirsFound(p.1[1..]);
      BlockFound(toks, c, p.0, p.1, ps, rest);
    } else {
      PlainFound(toks);
    }
  }

  lemma PlainFound<T(!new)>(toks: seq<Token<T>>)
    requires !Is(toks, '(') && ExecP(toks).Ok?
    ensures ExecIs(toks, ExecP(toks).value.0, ExecP(toks).value.1)
  {
    hide Redirs, ExecLoop, LineP, ExecP, Wrap, Tokens, Files, Args, IsLine, ExecIs, Ops, OnlyFiles;
    var (c, rest) := ExecP(toks).value;
    SimpleUnrolls(toks);
    var fs := RedirsFound(toks);
    var p := Redirs(toks).value;
    var qs := LoopFound([], p.0, p.1);
    SimpleFound(toks, c, fs, p.0, p.1, qs, rest);
  }

  lemma BlockUnrolls<T>(toks: seq<Token<T>>)
    requires Is(toks, '(') && ExecP(toks).Ok?
    ensures LineP(toks[1..]).Ok?
    ensures var p := LineP(toks[1..]).value;
            && Is(p.1, ')') && |p.1| <= |toks| - 1 && Redirs(p.1[1..]).Ok?
            && ExecP(toks).value == (Wrap(p.0, Redirs(p.1[1..]).value.0), Redirs(p.1[1..]).value.1)
  {
    hide LineP, Redirs, Wrap;
  }

  lemma SimpleUnrolls<T>(toks: seq<Token<T>>)
    requires !Is(toks, '(') && ExecP(toks).Ok?
    ensures Redirs(toks).Ok?
    ensures var p := Redirs(toks).value; ExecLoop([], p.0, p.1) == ExecP(toks)
  {
    hide ExecLoop, Redirs;
  }

  lemma BlockFound<T(!new)>(toks: seq<Token<T>>, c: Cmd<T>, b: Cmd<T>, after: seq<Token<T>>, ps: seq<Piece<T>>,
                            rest: seq<Token<T>>)
    requires Is(toks, '(') && Is(after, ')') && |after| <= |toks| - 1
    requires toks[1..][|toks| - 1 - |after|..] == after && IsLine(toks[1..][..|toks| - 1 - |after|], b)
    requires Ops(ps) && OnlyFiles(ps) && after[1..] == Tokens(ps) + rest && c == Wrap(b, Files(ps))
    ensures ExecIs(toks, c, rest)
  {
    hide IsLine, Tokens, Wrap, Files, IsSimple;
    var n, k := |toks| - |rest|, |toks| - |after|;
    assert toks[k..] == after && toks[1..][..k - 1] == toks[1..k];
    assert toks[k + 1..] == Tokens(ps) + rest;
    assert toks[..n][1..k] == toks[1..k] && toks[..n][k + 1..] == Tokens(ps);
    assert BlockAt(toks[..n], c, k, b, ps);
    assert IsBlock(toks[..n], c) && toks[n..] == rest;
  }

  lemma SimpleFound<T(!new)>(toks: seq<Token<T>>, c: Cmd<T>, fs: seq<Piece<T>>, rs: seq<Redirect<T>>,
                             mid: seq<Token<T>>, qs: seq<Piece<T>>, rest: seq<Token<T>>)
    requires toks == Tokens(fs) + mid && Ops(fs) && OnlyFiles(fs) && Files(fs) == rs
    requires mid == Tokens(qs) + rest && Ops(qs) && |Args(qs)| <= 9
    requires c == Wrap(Exec([] + Args(qs)), rs + Files(qs))
    ensures ExecIs(toks, c, rest)
  {
    hide Tokens, Wrap, Files, Args, IsBlock;
    Joined(fs, qs);
    NoArgs(fs);
    assert [] + Args(qs) == Args(qs) && [] + Args(qs) == Args(fs + qs);
    Assoc(Tokens(fs), Tokens(qs), rest);
    assert toks[..|toks| - |rest|] == Tokens(fs + qs);
    assert IsSimple(toks[..|toks| - |rest|], c);
  }

  lemma PipeUnrolls<T>(toks: seq<Token<T>>)
    requires PipeP(toks).Ok?
    ensures ExecP(toks).Ok?
    ensures var p := ExecP(toks).value;
            if Is(p.1, '|')
            then p.1 != [] && p.1[0] == Sym('|') && PipeP(p.1[1..]).Ok?
                 && PipeP(toks).value == (Pipe(p.0, PipeP(p.1[1..]).value.0), PipeP(p.1[1..]).value.1)
            else PipeP(toks).value == p
  {
    hide ExecP;
  }

  lemma {:induction false} PipeFound<T(!new)>(toks: seq<Token<T>>)
    requires PipeP(toks).Ok?
    ensures var (c, rest) := PipeP(toks).value;
            |rest| <= |toks| && toks[|toks| - |rest|..] == rest && IsPipe(toks[..|toks| - |rest|], c)
    decreases |toks|, 1
  {
    hide ExecP, PipeP, IsExec, IsPipe, Is;
    PipeUnrolls(toks);
    ExecFound(toks);
    var p := ExecP(toks).value;
    var (c, rest) := PipeP(toks).value;
    if Is(p.1, '|') {
      PipeFound(p.1[1..]);
      var n, k := |toks| - |rest|, |toks| - |p.1|;
      Rejoined(toks, p.1, rest);
      assert PipeAt(toks[..n], c, k);
      PipeOf(toks[..n], c, k);
    } else {
      PipeOne(toks[..|toks| - |rest|], c);
    }
  }

  lemma PipeOf<T(!new)>(toks: seq<Token<T>>, c: Cmd<T>, k: nat)
    requires k < |toks| && PipeAt(toks, c, k)
    ensures IsPipe(toks, c)
  {
  }

  lemma PipeOne<T(!new)>(toks: seq<Token<T>>, c: Cmd<T>)
    requires IsExec(toks, c)
    ensures IsPipe(toks, c)
  {
  }

  /** rest is a tail of after, which is a tail of s. */
  lemma Rejoined<X>(s: seq<X>, after: seq<X>, rest: seq<X>)
    requires after != [] && |after| <= |s| && s[|s| - |after|..] == after
    requires |rest| <= |after| - 1 && after[1..][|after| - 1 - |rest|..] == rest
    ensures var n, k := |s| - |rest|, |s| - |after|;
            && k < n && s[n..] == rest && s[..n][k] == after[0] && s[..n][..k] == s[..k]
            && s[..n][k + 1..] == after[1..][..|after| - 1 - |rest|]
  {
  }

  lemma {:induction false} BacksFound<T(!new)>(front: seq<Token<T>>, c: Cmd<T>, toks: seq<Token<T>>)
    requires IsBacked(front, c)
    ensures var (d, rest) := Backs(c, toks);
            toks[|toks| - |rest|..] == rest && IsBacked(front + toks[..|toks| - |rest|], d)
    decreases |toks|
  {
    if Is(toks, '&') {
      var more := front + [Sym('&')];
      assert more[..|more| - 1] == front;
      BacksFound(more, Back(c), toks[1..]);
      var (d, rest) := Backs(c, toks);
      assert front + toks[..|toks| - |rest|] == more + toks[1..][..|toks| - 1 - |rest|];
    } else {
      assert front + [] == front;
    }
  }

  lemma LineUnrolls<T>(toks: seq<Token<T>>)
    requires LineP(toks).Ok?
    ensures PipeP(toks).Ok?
    ensures var p := PipeP(toks).value;
            var (l, after) := Backs(p.0, p.1);
            if Is(after, ';')
            then after != [] && after[0] == Sym(';') && LineP(after[1..]).Ok?
                 && LineP(toks).value == (List(l, LineP(after[1..]).value.0), LineP(after[1..]).value.1)
            else LineP(toks).value == (l, after)
  {
    hide PipeP, Backs;
  }

  lemma {:induction false} LineFound<T(!new)>(toks: seq<Token<T>>)
    requires LineP(toks).Ok?
    ensures var (c, rest) := LineP(toks).value;
            |rest| <= |toks| && toks[|toks| - |rest|..] == rest && IsLine(toks[..|toks| - |rest|], c)
    decreases |toks|, 3
  {
    hide PipeP, LineP, IsPipe, IsBacked, IsLine, Backs, Is;
    LineUnrolls(toks);
    BackedFound(toks);
    var p := PipeP(toks).value;
    var (l, after) := Backs(p.0, p.1);
    var (c, rest) := LineP(toks).value;
    var k := |toks| - |after|;
    if Is(after, ';') {
      LineFound(after[1..]);
      Rejoined(toks, after, rest);
      LineOf(toks[..|toks| - |rest|], c, k);
    } else {
      LineOne(toks[..k], c);
    }
  }

  lemma {:induction false} BackedFound<T(!new)>(toks: seq<Token<T>>)
    requires PipeP(toks).Ok?
    ensures var (l, after) := Backs(PipeP(toks).value.0, PipeP(toks).value.1);
            |after| <= |toks| && toks[|toks| - |after|..] == after && IsBacked(toks[..|toks| - |after|], l)
    decreases |toks|, 2
  {
    hide PipeP, IsPipe, IsBacked, Backs;
    PipeFound(toks);
    var p := PipeP(toks).value;
    var n := |toks| - |p.1|;
    BackedOne(toks[..n], p.0);
    BacksFound(toks[..n], p.0, p.1);
    Tails(toks, p.1, Backs(p.0, p.1).1);
  }

  lemma Tails<X>(s: seq<X>, after: seq<X>, rest: seq<X>)
    requires |rest| <= |after| <= |s| && s[|s| - |after|..] == after && after[|after| - |rest|..] == rest
    ensures s[..|s| - |after|] + after[..|after| - |rest|] == s[..|s| - |rest|] && s[|s| - |rest|..] == rest
  {
  }

  lemma BackedOne<T(!new)>(toks: seq<Token<T>>, c: Cmd<T>)
    requires IsPipe(toks, c)
    ensures IsBacked(toks, c)
  {
  }

  lemma LineOf<T(!new)>(toks: seq<Token<T>>, c: Cmd<T>, k: nat)
    requires k < |toks| && LineAt(toks, c, k)
    ensures IsLine(toks, c)
  {
  }

  lemma LineOne<T(!new)>(toks: seq<Token<T>>, c: Cmd<T>)
    requires IsBacked(toks, c)
    ensures IsLine(toks, c)
  {
  }

  /** The parser accepts exactly the lines of the grammar, and gives what the rules give. */
  lemma ParsesExactly<T(!new)>(toks: seq<Token<T>>, c: Cmd<T>)
    ensures Parse(toks) == Ok(c) <==> IsLine(toks, c)
  {
    if IsLine(toks, c) {
      LineAllowed(toks, c, []);
      assert toks + [] == toks;
    }
    if Parse(toks) == Ok(c) {
      LineFound(toks);
      assert toks[..|toks|] == toks;
    }
  }
}
