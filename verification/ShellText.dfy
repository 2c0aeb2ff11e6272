/** Tokens in the text of a command line, and text laid out from tokens. */
module ShellText {
  import opened ShellGrammar

  const NUL: char := 0 as char

  /** Where a word stands: q and eq of gettoken. */
  datatype Span = Span(q: nat, eq: nat)

  predicate White(c: char) {
    c == ' ' || c == '\t' || c == '\r' || c == '\n' || c == 11 as char
  }

  predicate Symbol(c: char) {
    c == '<' || c == '|' || c == '>' || c == '&' || c == ';' || c == '(' || c == ')'
  }

  predicate InWord(c: char) {
    c != NUL && !White(c) && !Symbol(c)
  }

  ghost predicate Line(s: seq<char>) {
    forall k :: 0 <= k < |s| ==> s[k] != NUL
  }

  /** Past whitespace from p on. */
  function Skip(s: seq<char>, p: nat): (r: nat)
    requires p <= |s|
    ensures p <= r <= |s| && (r < |s| ==> !White(s[r])) && forall k :: p <= k < r ==> White(s[k])
    decreases |s| - p
  {
    if p < |s| && White(s[p]) then Skip(s, p + 1) else p
  }

  /** To the end of the word at p. */
  function WordEnd(s: seq<char>, p: nat): (r: nat)
    requires p <= |s|
    ensures p <= r <= |s| && (r < |s| ==> !InWord(s[r])) && forall k :: p <= k < r ==> InWord(s[k])
    decreases |s| - p
  {
    if p < |s| && InWord(s[p]) then WordEnd(s, p + 1) else p
  }

  /** The end of the token that begins at p. */
  function TokenEnd(s: seq<char>, p: nat): (r: nat)
    requires p < |s| && Line(s) && !White(s[p])
    ensures p < r <= |s|
  {
    if s[p] == '>' && p + 1 < |s| && s[p + 1] == '>' then p + 2
    else if Symbol(s[p]) then p + 1
    else WordEnd(s, p)
  }

  function TokenAt(s: seq<char>, p: nat): (t: Token<Span>)
    requires p < |s| && Line(s) && !White(s[p])
  {
    if Symbol(s[p]) then Sym(if TokenEnd(s, p) == p + 2 then '+' else s[p]) else Word(Span(p, TokenEnd(s, p)))
  }

  /** The tokens from p on. */
  function Lex(s: seq<char>, p: nat): (toks: seq<Token<Span>>)
    requires p <= |s| && Line(s)
    decreases |s| - p
  {
    var b := Skip(s, p);
    if b == |s| then [] else [TokenAt(s, b)] + Lex(s, TokenEnd(s, b))
  }

  // ----- text from tokens -----

  /** A word that gettoken takes as one. */
  ghost predicate IsWord(w: seq<char>) {
    w != [] && forall k :: 0 <= k < |w| ==> InWord(w[k])
  }

  function Text(t: Token<seq<char>>): seq<char> {
    match t
    case Word(w) => w
    case Sym(c) => if c == '+' then [ '>', '>' ] else [c]
  }

  ghost predicate Writable(t: Token<seq<char>>) {
    match t
    case Word(w) => IsWord(w)
    case Sym(c) => Symbol(c) || c == '+'
  }

  ghost predicate Blank(g: seq<char>) {
    forall k :: 0 <= k < |g| ==> White(g[k])
  }

  /** Without whitespace between them the two are read as one token, or split in another place. */
  predicate Joins(t: Token<seq<char>>, u: Token<seq<char>>) {
    (t.Word? && u.Word?) || (t == Sym('>') && (u == Sym('>') || u == Sym('+')))
  }

  /** The tokens with whitespace in front of each and behind the last one, gaps[k] in front of toks[k]. */
  function Layout(toks: seq<Token<seq<char>>>, gaps: seq<seq<char>>): (s: seq<char>)
    requires |gaps| == |toks| + 1
  {
    if toks == [] then gaps[0] else gaps[0] + (Text(toks[0]) + Layout(toks[1..], gaps[1..]))
  }

  /** Any whitespace or none, but some where two tokens would join. */
  ghost predicate Spaced(toks: seq<Token<seq<char>>>, gaps: seq<seq<char>>) {
    && |gaps| == |toks| + 1
    && (forall k :: 0 <= k < |toks| ==> Writable(toks[k]))
    && (forall k :: 0 <= k < |gaps| ==> Blank(gaps[k]))
    && (forall k :: 1 <= k < |toks| && Joins(toks[k - 1], toks[k]) ==> gaps[k] != [])
  }

  /** toks, read in s, are the tokens texts. */
  ghost predicate Reads(s: seq<char>, toks: seq<Token<Span>>, texts: seq<Token<seq<char>>>) {
    |toks| == |texts| && forall k :: 0 <= k < |toks| ==> ReadsAs(s, toks[k], texts[k])
  }

  ghost predicate ReadsAs(s: seq<char>, t: Token<Span>, text: Token<seq<char>>) {
    match t
    case Sym(c) => text == Sym(c)
    case Word(w) => w.q <= w.eq <= |s| && text == Word(s[w.q..w.eq])
  }

  /** However the tokens are laid out, they are read back. */
  lemma {:induction false} LexLayout(s: seq<char>, p: nat, toks: seq<Token<seq<char>>>, gaps: seq<seq<char>>)
    requires Spaced(toks, gaps) && p <= |s| && s[p..] == Layout(toks, gaps) && Line(s)
    ensures Reads(s, Lex(s, p), toks)
    decreases |toks|
  {
    hide Layout, Lex, TokenAt, TokenEnd, Skip, Reads, ReadsAs, Text, Blank, Writable, Joins, EndsToken;
    var b := p + |gaps[0]|;
    LayoutFirst(toks, gaps);
    if toks == [] {
      Piece(s, p, gaps[0], []);
      BlankIs(s, p, gaps[0]);
      LexSkips(s, p, b);
      LexEmpty(s);
    } else {
      var t, rest := Text(toks[0]), Layout(toks[1..], gaps[1..]);
      Piece(s, p, gaps[0], t + rest);
      BlankIs(s, p, gaps[0]);
      LexSkips(s, p, b);
      Piece(s, b, t, rest);
      RestSpaced(toks, gaps);
      TokenEnds(s, b + |t|, toks, gaps);
      OneToken(s, b, toks[0]);
      LexLayout(s, b + |t|, toks[1..], gaps[1..]);
      LexFirst(s, b);
      ReadsMore(s, TokenAt(s, b), Lex(s, b + |t|), toks);
    }
  }

  /** Two words with any whitespace between them, or one of the seven symbols or a double > and no space. */
  lemma WordsApart(w: seq<char>, gap: seq<char>, sym: seq<char>, v: seq<char>)
    requires w != [] && v != [] && gap != []
    requires forall k :: 0 <= k < |w + v| ==>
               (w + v)[k] !in [0 as char, ' ', '\t', '\r', '\n', 11 as char, '<', '|', '>', '&', ';', '(', ')']
    requires forall k :: 0 <= k < |gap| ==> gap[k] in [' ', '\t', '\r', '\n', 11 as char]
    requires sym in [['<'], ['|'], ['>'], ['&'], [';'], ['('], [')'], ['>', '>']]
    ensures var s := w + gap + v;
            Line(s) && Reads(s, Lex(s, 0), [Word(w), Word(v)])
    ensures var s := w + sym + v;
            Line(s) && Reads(s, Lex(s, 0), [Word(w), Sym(if |sym| == 2 then '+' else sym[0]), Word(v)])
  {
    forall k | 0 <= k < |w| ensures InWord(w[k]) {
      assert (w + v)[k] == w[k];
    }
    forall k | 0 <= k < |v| ensures InWord(v[k]) {
      assert (w + v)[|w| + k] == v[k];
    }
    TwoWords(w, gap, v);
    Between(w, sym, v);
  }

  lemma TwoWords(w: seq<char>, gap: seq<char>, v: seq<char>)
    requires IsWord(w) && IsWord(v) && gap != [] && Blank(gap)
    ensures var s := w + gap + v; Line(s) && Reads(s, Lex(s, 0), [Word(w), Word(v)])
  {
    var s, toks, gaps := w + gap + v, [Word(w), Word(v)], [[], gap, []];
    hide Lex;
    assert toks[1..] == [Word(v)] && gaps[1..] == [gap, []] && gaps[1..][1..] == [[]];
    assert toks[1..][1..] == [];
    assert Layout(toks[1..], gaps[1..]) == gap + (v + []);
    assert Layout(toks, gaps) == [] + (w + (gap + (v + [])));
    assert s[0..] == Layout(toks, gaps);
    LexLayout(s, 0, toks, gaps);
  }

  lemma Between(w: seq<char>, sym: seq<char>, v: seq<char>)
    requires IsWord(w) && IsWord(v)
    requires sym in [['<'], ['|'], ['>'], ['&'], [';'], ['('], [')'], ['>', '>']]
    ensures var s := w + sym + v;
            Line(s) && Reads(s, Lex(s, 0), [Word(w), Sym(if |sym| == 2 then '+' else sym[0]), Word(v)])
  {
    var t: Token<seq<char>> := Sym(if |sym| == 2 then '+' else sym[0]);
    var s, toks, gaps: seq<seq<char>> := w + sym + v, [Word(w), t, Word(v)], [[], [], [], []];
    hide Lex;
    assert Text(t) == sym && Writable(t);
    assert toks[1..] == [t, Word(v)] && gaps[1..] == [[], [], []] && gaps[1..][1..] == [[], []];
    assert toks[1..][1..] == [Word(v)] && gaps[1..][1..][1..] == [[]] && toks[1..][1..][1..] == [];
    assert Layout(toks[1..][1..], gaps[1..][1..]) == [] + (v + []);
    assert Layout(toks[1..], gaps[1..]) == [] + (sym + ([] + (v + [])));
    assert Layout(toks, gaps) == [] + (w + ([] + (sym + ([] + (v + [])))));
    assert s[0..] == Layout(toks, gaps);
    LexLayout(s, 0, toks, gaps);
  }

  lemma LexEmpty(s: seq<char>)
    requires Line(s)
    ensures Lex(s, |s|) == [] && Reads(s, Lex(s, |s|), [])
  {
  }

  lemma LayoutFirst(toks: seq<Token<seq<char>>>, gaps: seq<seq<char>>)
    requires |gaps| == |toks| + 1
    ensures toks == [] ==> Layout(toks, gaps) == gaps[0] + []
    ensures toks != [] ==> Layout(toks, gaps) == gaps[0] + (Text(toks[0]) + Layout(toks[1..], gaps[1..]))
  {
  }

  lemma RestSpaced(toks: seq<Token<seq<char>>>, gaps: seq<seq<char>>)
    requires Spaced(toks, gaps) && toks != []
    ensures Spaced(toks[1..], gaps[1..]) && Writable(toks[0])
  {
    hide Writable, Blank, Joins;
    forall k | 0 <= k < |gaps| - 1 ensures Blank(gaps[1..][k]) {
      assert Blank(gaps[k + 1]);
    }
    forall k | 0 <= k < |toks| - 1 ensures Writable(toks[1..][k]) {
      assert Writable(toks[k + 1]);
    }
    forall k | 1 <= k < |toks| - 1 && Joins(toks[1..][k - 1], toks[1..][k]) ensures gaps[1..][k] != [] {
      assert Joins(toks[k + 1 - 1], toks[k + 1]);
    }
  }

  lemma Piece(s: seq<char>, p: nat, t: seq<char>, rest: seq<char>)
    requires p <= |s| && s[p..] == t + rest
    ensures p + |t| <= |s| && s[p + |t|..] == rest && (rest == [] ==> p + |t| == |s|)
    ensures forall k :: 0 <= k < |t| ==> s[p + k] == t[k]
  {
    assert forall k :: 0 <= k < |s| - p ==> s[p + k] == s[p..][k];
    assert s[p + |t|..] == s[p..][|t|..];
  }

  lemma BlankIs(s: seq<char>, p: nat, g: seq<char>)
    requires Blank(g) && p + |g| <= |s| && forall k :: 0 <= k < |g| ==> s[p + k] == g[k]
    ensures forall k :: p <= k < p + |g| ==> White(s[k])
  {
    forall k | p <= k < p + |g| ensures White(s[k]) {
      assert s[p + (k - p)] == g[k - p];
    }
  }

  /** What stands at e does not go on with a token that ends there. */
  ghost predicate EndsToken(s: seq<char>, e: nat, t: Token<seq<char>>) {
    e < |s| ==> if t.Word? then !InWord(s[e]) else t == Sym('>') ==> s[e] != '>'
  }

  lemma TokenEnds(s: seq<char>, e: nat, toks: seq<Token<seq<char>>>, gaps: seq<seq<char>>)
    requires Spaced(toks, gaps) && toks != [] && e <= |s| && s[e..] == Layout(toks[1..], gaps[1..])
    ensures EndsToken(s, e, toks[0])
  {
    if e < |s| {
      assert s[e] == s[e..][0];
      LayoutFirst(toks[1..], gaps[1..]);
      if gaps[1] != [] {
        assert Blank(gaps[1]) && s[e] == gaps[1][0];
      } else {
        var u := toks[1];
        assert Writable(u) && !Joins(toks[1 - 1], u) && s[e] == Text(u)[0];
      }
    }
  }

  lemma LexFirst(s: seq<char>, p: nat)
    requires p < |s| && Line(s) && Skip(s, p) == p && !White(s[p])
    ensures Lex(s, p) == [TokenAt(s, p)] + Lex(s, TokenEnd(s, p))
  {
  }

  lemma ReadsMore(s: seq<char>, t: Token<Span>, more: seq<Token<Span>>, texts: seq<Token<seq<char>>>)
    requires texts != [] && ReadsAs(s, t, texts[0]) && Reads(s, more, texts[1..])
    ensures Reads(s, [t] + more, texts)
  {
    forall k | 0 <= k < |texts| ensures ReadsAs(s, ([t] + more)[k], texts[k]) {
      if k > 0 {
        assert ReadsAs(s, more[k - 1], texts[1..][k - 1]);
      }
    }
  }

  /** The token that stands at p and ends with its text. */
  lemma OneToken(s: seq<char>, p: nat, t: Token<seq<char>>)
    requires Line(s) && Writable(t) && p + |Text(t)| <= |s| && EndsToken(s, p + |Text(t)|, t)
    requires forall k :: 0 <= k < |Text(t)| ==> s[p + k] == Text(t)[k]
    ensures p < |s| && Skip(s, p) == p && !White(s[p])
    ensures TokenEnd(s, p) == p + |Text(t)| && ReadsAs(s, TokenAt(s, p), t)
  {
    var e := p + |Text(t)|;
    assert s[p + 0] == Text(t)[0];
    if t.Word? {
      assert forall k :: p <= k < e ==> s[k] == t.w[k - p];
      WordEndIs(s, p, e);
      assert s[p..e] == t.w;
    } else if t.c == '+' {
      assert s[p + 1] == Text(t)[1];
    }
  }

  lemma {:induction false} WordEndIs(s: seq<char>, p: nat, e: nat)
    requires p <= e <= |s| && (e < |s| ==> !InWord(s[e])) && forall k :: p <= k < e ==> InWord(s[k])
    ensures WordEnd(s, p) == e
    decreases e - p
  {
    if p < e {
      WordEndIs(s, p + 1, e);
    }
  }

  lemma LexSkips(s: seq<char>, p: nat, e: nat)
    requires p <= e <= |s| && Line(s) && forall k :: p <= k < e ==> White(s[k])
    ensures Lex(s, p) == Lex(s, e)
  {
    hide White;
    SkipSkips(s, p, e);
    LexSame(s, p, e);
  }

  lemma {:induction false} SkipSkips(s: seq<char>, p: nat, e: nat)
    requires p <= e <= |s| && forall k :: p <= k < e ==> White(s[k])
    ensures Skip(s, p) == Skip(s, e)
    decreases e - p
  {
    if p < e {
      SkipSkips(s, p + 1, e);
    }
  }

  lemma LexSame(s: seq<char>, p: nat, e: nat)
    requires p <= |s| && e <= |s| && Line(s) && Skip(s, p) == Skip(s, e)
    ensures Lex(s, p) == Lex(s, e)
  {
    hide Skip, TokenAt, TokenEnd;
  }

  // ----- commands of words, and of the places of words -----

  /** The words at the places. */
  ghost predicate Means(s: seq<char>, c: Cmd<Span>, d: Cmd<seq<char>>)
    decreases c
  {
    match c
    case Exec(args) =>
      d.Exec? && |d.args| == |args| && forall k :: 0 <= k < |args| ==> ReadsAs(s, Word(args[k]), Word(d.args[k]))
    case Redir(b, r) =>
      d.Redir? && Means(s, b, d.cmd) && ReadsAs(s, Word(r.file), Word(d.redirect.file)) && r.fd == d.redirect.fd
    case Pipe(l, r) => d.Pipe? && Means(s, l, d.left) && Means(s, r, d.right)
    case List(l, r) => d.List? && Means(s, l, d.left) && Means(s, r, d.right)
    case Back(b) => d.Back? && Means(s, b, d.cmd)
  }

  lemma ReadsSplit(s: seq<char>, toks: seq<Token<Span>>, a: seq<Token<seq<char>>>, b: seq<Token<seq<char>>>)
    requires Reads(s, toks, a + b)
    ensures Reads(s, toks[..|a|], a) && Reads(s, toks[|a|..], b) && toks == toks[..|a|] + toks[|a|..]
  {
    forall k | 0 <= k < |a| ensures ReadsAs(s, toks[..|a|][k], a[k]) {
      assert ReadsAs(s, toks[k], (a + b)[k]);
    }
    forall k | 0 <= k < |b| ensures ReadsAs(s, toks[|a|..][k], b[k]) {
      assert ReadsAs(s, toks[|a| + k], (a + b)[|a| + k]);
    }
  }

  lemma ReadsSym(s: seq<char>, toks: seq<Token<Span>>, c: char)
    requires Reads(s, toks, [Sym(c)])
    ensures toks == [Sym(c)]
  {
    assert ReadsAs(s, toks[0], Sym(c));
  }

  /** Tokens that read as a printed command are the print of that command at their places. */
  lemma {:induction false} Placed(s: seq<char>, d: Cmd<seq<char>>, lvl: Level,
                                  toks: seq<Token<Span>>) returns (c: Cmd<Span>)
    requires Reads(s, toks, Print(d, lvl)) && WellFormed(d)
    ensures toks == Print(c, lvl) && Means(s, c, d) && WellFormed(c) && BestLevel(c) == BestLevel(d)
    decreases d, Rank(lvl) + 2
  {
    if Rank(BestLevel(d)) < Rank(lvl) {
      var p := Print(d, AnyLine);
      assert Print(d, lvl) == [Sym('(')] + (p + [Sym(')')]);
      ReadsSplit(s, toks, [Sym('(')], p + [Sym(')')]);
      ReadsSplit(s, toks[1..], p, [Sym(')')]);
      ReadsSym(s, toks[..1], '(');
      ReadsSym(s, toks[1..][|p|..], ')');
      c := Placed(s, d, AnyLine, toks[1..][..|p|]);
      assert toks == [Sym('(')] + Print(c, AnyLine) + [Sym(')')];
    } else {
      c := PlacedBare(s, d, lvl, toks);
    }
  }

  /** Without parentheses around it. */
  lemma {:induction false} PlacedBare(s: seq<char>, d: Cmd<seq<char>>, lvl: Level,
                                      toks: seq<Token<Span>>) returns (c: Cmd<Span>)
    requires Reads(s, toks, Print(d, lvl)) && WellFormed(d) && Rank(lvl) <= Rank(BestLevel(d))
    ensures toks == Print(c, lvl) && Means(s, c, d) && WellFormed(c) && BestLevel(c) == BestLevel(d)
    decreases d, Rank(lvl) + 1
  {
    hide Reads;
    match d
    case Exec(args) =>
      c := PlacedWords(s, args, toks);
    case Redir(b, r) =>
      var p, q := Print(b, Simple), PrintRedirect(r);
      ReadsSplit(s, toks, p, q);
      var cb := Placed(s, b, Simple, toks[..|p|]);
      var cr := PlacedRedirect(s, r, toks[|p|..]);
      c := Redir(cb, cr);
    case Pipe(l, r) =>
      var cl, cr := PlacedPair(s, d, l, Simple, '|', r, Piped, toks);
      c := Pipe(cl, cr);
    case List(l, r) =>
      var cl, cr := PlacedPair(s, d, l, Backed, ';', r, AnyLine, toks);
      c := List(cl, cr);
    case Back(b) =>
      var p := Print(b, Backed);
      ReadsSplit(s, toks, p, [Sym('&')]);
      ReadsSym(s, toks[|p|..], '&');
      var cb := Placed(s, b, Backed, toks[..|p|]);
      c := Back(cb);
  }

  lemma PlacedRedirect(s: seq<char>, r: Redirect<seq<char>>, toks: seq<Token<Span>>) returns (q: Redirect<Span>)
    requires Reads(s, toks, PrintRedirect(r))
    ensures toks == PrintRedirect(q) && q.fd == r.fd && ReadsAs(s, Word(q.file), Word(r.file))
  {
    var p := PrintRedirect(r);
    assert ReadsAs(s, toks[0], p[0]) && ReadsAs(s, toks[1], p[1]);
    q := Redirect(toks[1].w, r.fd);
  }

  lemma {:induction false} PlacedWords(s: seq<char>, args: seq<seq<char>>, toks: seq<Token<Span>>)
    returns (c: Cmd<Span>)
    requires Reads(s, toks, PrintWords(args)) && WellFormed(Exec(args))
    ensures c.Exec? && toks == PrintWords(c.args) && Means(s, c, Exec(args)) && WellFormed(c)
  {
    forall k | 0 <= k < |toks| ensures toks[k].Word? && ReadsAs(s, toks[k], Word(args[k])) {
      assert ReadsAs(s, toks[k], PrintWords(args)[k]);
    }
    var ws := seq(|toks|, k requires 0 <= k < |toks| => toks[k].w);
    c := Exec(ws);
    assert toks == PrintWords(ws);
  }

  lemma {:induction false} PlacedPair(s: seq<char>, d: Cmd<seq<char>>, l: Cmd<seq<char>>, a: Level, m: char,
                                      r: Cmd<seq<char>>, b: Level, toks: seq<Token<Span>>)
    returns (cl: Cmd<Span>, cr: Cmd<Span>)
    requires d == Pipe(l, r) || d == List(l, r)
    requires Reads(s, toks, Print(l, a) + [Sym(m)] + Print(r, b)) && WellFormed(l) && WellFormed(r)
    ensures toks == Print(cl, a) + [Sym(m)] + Print(cr, b) && Means(s, cl, l) && Means(s, cr, r)
    ensures WellFormed(cl) && WellFormed(cr) && BestLevel(cl) == BestLevel(l) && BestLevel(cr) == BestLevel(r)
    decreases d, 0
  {
    var p := Print(l, a);
    ReadsSplit(s, toks, p + [Sym(m)], Print(r, b));
    ReadsSplit(s, toks[..|p| + 1], p, [Sym(m)]);
    ReadsSym(s, toks[..|p| + 1][|p|..], m);
    cl := Placed(s, l, a, toks[..|p| + 1][..|p|]);
    cr := Placed(s, r, b, toks[|p| + 1..]);
  }

  /** So the text of any command, with whatever whitespace, is parsed back to it. */
  lemma TextRoundTrip(s: seq<char>, d: Cmd<seq<char>>, gaps: seq<seq<char>>) returns (c: Cmd<Span>)
    requires WellFormed(d) && Spaced(Print(d, AnyLine), gaps) && Line(s) && s == Layout(Print(d, AnyLine), gaps)
    ensures Parse(Lex(s, 0)) == Ok(c) && Means(s, c, d)
  {
    assert s[0..] == s;
    LexLayout(s, 0, Print(d, AnyLine), gaps);
    c := Placed(s, d, AnyLine, Lex(s, 0));
    RoundTrip(c);
  }
}
