/** The matcher of grep.c against the language of its patterns. Strings are without their NUL. */
module Grep {
  type Str = seq<char>

  // ----- the language of a pattern -----

  /** '.' stands for any character, alone and under '*'. */
  datatype Item = One(c: char) | Star(c: char)

  /** A pattern behind a leading ^: its items, and whether it must reach the end of the text. Only a
      final $ is an anchor; a $ or ^ anywhere else, and a * with nothing before it, are themselves. */
  datatype Pattern = Pattern(items: seq<Item>, anchored: bool)

  function Read(re: Str): (p: Pattern)
    decreases |re|
  {
    if re == [] then Pattern([], false)
    else if |re| >= 2 && re[1] == '*' then var p := Read(re[2..]); p.(items := [Star(re[0])] + p.items)
    else if re == ['$'] then Pattern([], true)
    else var p := Read(re[1..]); p.(items := [One(re[0])] + p.items)
  }

  predicate Agrees(c: char, x: char) {
    c == '.' || c == x
  }

  ghost predicate Piece(item: Item, w: Str) {
    match item
    case One(c) => |w| == 1 && Agrees(c, w[0])
    case Star(c) => forall k :: 0 <= k < |w| ==> Agrees(c, w[k])
  }

  function Concat(pieces: seq<Str>): Str {
    if pieces == [] then [] else pieces[0] + Concat(pieces[1..])
  }

  ghost predicate Pieces(items: seq<Item>, pieces: seq<Str>) {
    |pieces| == |items| && forall i :: 0 <= i < |items| ==> Piece(items[i], pieces[i])
  }

  /** w is made of one piece for each item. */
  ghost predicate Belongs(items: seq<Item>, w: Str) {
    exists pieces: seq<Str> :: Pieces(items, pieces) && Concat(pieces) == w
  }

  /** A prefix of the text belongs to the pattern; all of the text if it is anchored at the end. */
  ghost predicate Here(re: Str, text: Str) {
    exists n :: 0 <= n <= |text| && Belongs(Read(re).items, text[..n]) && (Read(re).anchored ==> n == |text|)
  }

  /** Some substring does, a prefix if the pattern begins with ^. */
  ghost predicate Matches(re: Str, text: Str) {
    if re != [] && re[0] == '^' then Here(re[1..], text)
    else exists i :: 0 <= i <= |text| && Here(re, text[i..])
  }

  // ----- how Here unfolds -----

  lemma NoItems(w: Str)
    ensures Belongs([], w) <==> w == []
  {
    if w == [] {
      assert Pieces([], []) && Concat([]) == w;
    }
  }

  lemma FirstItem(item: Item, rest: seq<Item>, w: Str, k: nat)
    requires k <= |w| && Piece(item, w[..k]) && Belongs(rest, w[k..])
    ensures Belongs([item] + rest, w)
  {
    var pieces :| Pieces(rest, pieces) && Concat(pieces) == w[k..];
    var all := [w[..k]] + pieces;
    assert all[1..] == pieces;
    assert Pieces([item] + rest, all) by {
      forall i | 0 <= i < |all| ensures Piece(([item] + rest)[i], all[i]) {
        if i > 0 {
          assert Piece(rest[i - 1], pieces[i - 1]);
        }
      }
    }
    assert Concat(all) == w[..k] + w[k..] == w;
  }

  lemma FirstPiece(item: Item, rest: seq<Item>, w: Str) returns (k: nat)
    requires Belongs([item] + rest, w)
    ensures k <= |w| && Piece(item, w[..k]) && Belongs(rest, w[k..])
  {
    var items := [item] + rest;
    var pieces :| Pieces(items, pieces) && Concat(pieces) == w;
    k := |pieces[0]|;
    assert Piece(items[0], pieces[0]);
    assert w[..k] == pieces[0] && w[k..] == Concat(pieces[1..]);
    assert Pieces(rest, pieces[1..]) by {
      forall i | 0 <= i < |rest| ensures Piece(rest[i], pieces[1..][i]) {
        assert Piece(items[i + 1], pieces[i + 1]);
      }
    }
  }

  lemma HereEmpty(text: Str)
    ensures Here([], text)
  {
    NoItems(text[..0]);
    assert Belongs(Read([]).items, text[..0]);
  }

  lemma HereEnd(text: Str)
    ensures Here(['$'], text) <==> text == []
  {
    NoItems(text);
    assert text[..|text|] == text;
    if text == [] {
      assert Belongs(Read(['$']).items, text[..0]);
    }
  }

  /** An item that takes k characters, then the rest of the pattern. */
  lemma HereFirst(re: Str, rest: Str, item: Item, text: Str, k: nat)
    requires Read(re) == Read(rest).(items := [item] + Read(rest).items)
    requires k <= |text| && Piece(item, text[..k]) && Here(rest, text[k..])
    ensures Here(re, text)
  {
    var n :| 0 <= n <= |text| - k && Belongs(Read(rest).items, text[k..][..n])
      && (Read(rest).anchored ==> n == |text| - k);
    assert text[..k + n][..k] == text[..k] && text[..k + n][k..] == text[k..][..n];
    FirstItem(item, Read(rest).items, text[..k + n], k);
  }

  lemma HereRest(re: Str, rest: Str, item: Item, text: Str) returns (k: nat)
    requires Read(re) == Read(rest).(items := [item] + Read(rest).items) && Here(re, text)
    ensures k <= |text| && Piece(item, text[..k]) && Here(rest, text[k..])
  {
    var n :| 0 <= n <= |text| && Belongs(Read(re).items, text[..n]) && (Read(re).anchored ==> n == |text|);
    k := FirstPiece(item, Read(rest).items, text[..n]);
    assert text[..n][..k] == text[..k] && text[..n][k..] == text[k..][..n - k];
    assert Belongs(Read(rest).items, text[k..][..n - k]);
  }

  lemma HereOne(re: Str, text: Str)
    requires re != [] && !(|re| >= 2 && re[1] == '*') && re != ['$']
    ensures Here(re, text) <==> text != [] && Agrees(re[0], text[0]) && Here(re[1..], text[1..])
  {
    if Here(re, text) {
      var k := HereRest(re, re[1..], One(re[0]), text);
    }
    if text != [] && Agrees(re[0], text[0]) && Here(re[1..], text[1..]) {
      HereFirst(re, re[1..], One(re[0]), text, 1);
    }
  }

  // ----- the matcher -----

  /** match */
  method Match(re: Str, text: Str) returns (found: bool)
    ensures found <==> Matches(re, text)
  {
    if re != [] && re[0] == '^' {
      found := Matchhere(re[1..], text);
      return;
    }
    var i := 0;
    while true
      invariant 0 <= i <= |text|
      invariant forall j :: 0 <= j < i ==> !Here(re, text[j..])
      decreases |text| - i
    {
      found := Matchhere(re, text[i..]);
      if found {
        return;
      }
      if i == |text| {
        return;
      }
      i := i + 1;
    }
  }

  /** matchhere */
  method Matchhere(re: Str, text: Str) returns (found: bool)
    ensures found <==> Here(re, text)
    decreases |re|, 0
  {
    if re == [] {
      HereEmpty(text);
      return true;
    }
    if |re| >= 2 && re[1] == '*' {
      found := Matchstar(re[0], re[2..], text);
      HereStar(re, text);
      return;
    }
    if re == ['$'] {
      HereEnd(text);
      return text == [];
    }
    HereOne(re, text);
    if text != [] && (re[0] == '.' || re[0] == text[0]) {
      found := Matchhere(re[1..], text[1..]);
      return;
    }
    found := false;
  }

  /** matchstar: c*re here. */
  method Matchstar(c: char, re: Str, text: Str) returns (found: bool)
    ensures found <==> StarHere(c, re, text)
    decreases |re|, 1
  {
    var i := 0;
    while true
      invariant 0 <= i <= |text|
      invariant forall j :: 0 <= j < i ==> Agrees(c, text[j]) && !Here(re, text[j..])
      decreases |text| - i
    {
      found := Matchhere(re, text[i..]);
      if found {
        assert Piece(Star(c), text[..i]);
        return;
      }
      if i == |text| || !(text[i] == c || c == '.') {
        forall k | i < k <= |text| ensures !Piece(Star(c), text[..k]) {
          assert text[..k][i] == text[i];
        }
        return;
      }
      i := i + 1;
    }
  }

  /** Some number of characters that fit c, then re. */
  ghost predicate StarHere(c: char, re: Str, text: Str) {
    exists k :: 0 <= k <= |text| && Piece(Star(c), text[..k]) && Here(re, text[k..])
  }

  lemma HereStar(re: Str, text: Str)
    requires |re| >= 2 && re[1] == '*'
    ensures Here(re, text) <==> StarHere(re[0], re[2..], text)
  {
    if Here(re, text) {
      var k := HereRest(re, re[2..], Star(re[0]), text);
    }
    if StarHere(re[0], re[2..], text) {
      var k :| 0 <= k <= |text| && Piece(Star(re[0]), text[..k]) && Here(re[2..], text[k..]);
      HereFirst(re, re[2..], Star(re[0]), text, k);
    }
  }

  // ----- the odd corners of the language -----

  /** Position i begins an item: it is anything but a star behind a character that begins one. */
  predicate Begins(re: Str, i: nat)
    requires i < |re|
  {
    i == 0 || re[i] != '*' || !Begins(re, i - 1)
  }

  /** The item that begins at i. */
  function ItemAt(re: Str, i: nat): Item
    requires i < |re|
  {
    if i + 1 < |re| && re[i + 1] == '*' then Star(re[i]) else One(re[i])
  }

  /** A $ that is the last character. */
  predicate Anchor(re: Str, i: nat)
    requires i < |re|
  {
    re[i] == '$' && i == |re| - 1
  }

  /** The items that begin below n. */
  function Items(re: Str, n: nat): (items: seq<Item>)
    requires n <= |re|
  {
    if n == 0 then []
    else Items(re, n - 1) + Begun(re, n - 1)
  }

  function Begun(re: Str, i: nat): seq<Item>
    requires i < |re|
  {
    if Begins(re, i) && !Anchor(re, i) then [ItemAt(re, i)] else []
  }

  /** Every pattern, character by character: a character with a star behind it is repeated; a $ at the very
      end is the anchor; every other one is itself, so a $ anywhere else, a ^ (behind a leading one), and a
      star with nothing before it. */
  lemma {:induction false} ReadsEach(re: Str)
    ensures Read(re).items == Items(re, |re|)
    ensures Read(re).anchored <==> re != [] && re[|re| - 1] == '$'
    decreases |re|
  {
    if re != [] && re != ['$'] {
      var k := if |re| >= 2 && re[1] == '*' then 2 else 1;
      ReadsEach(re[k..]);
      ItemsFrom(re, k, |re|);
      assert re[k..][..|re| - k] == re[k..];
      if k == |re| {
        assert re[k..] == [];
      }
    }
  }

  lemma {:induction false} BeginsFrom(re: Str, k: nat, i: nat)
    requires k + i < |re| && Begins(re, k)
    ensures Begins(re[k..], i) <==> Begins(re, k + i)
  {
    if i > 0 {
      BeginsFrom(re, k, i - 1);
    }
  }

  /** What stands behind the first item. */
  lemma {:induction false} ItemsFrom(re: Str, k: nat, n: nat)
    requires re != [] && re != ['$'] && k <= n <= |re| && k == if |re| >= 2 && re[1] == '*' then 2 else 1
    ensures Items(re, n) == [ItemAt(re, 0)] + Items(re[k..], n - k)
  {
    hide Begun, Begins;
    FirstBegun(re);
    if n == k {
      assert Items(re, 1) == [] + Begun(re, 0);
    } else {
      ItemsFrom(re, k, n - 1);
      BegunFrom(re, k, n - 1 - k);
    }
  }

  lemma FirstBegun(re: Str)
    requires re != [] && re != ['$']
    ensures Begun(re, 0) == [ItemAt(re, 0)] && (|re| >= 2 && re[1] == '*' ==> Begun(re, 1) == [])
    ensures var k := if |re| >= 2 && re[1] == '*' then 2 else 1; k < |re| ==> Begins(re, k)
  {
    assert |re| >= 2 ==> (Begins(re, 1) <==> re[1] != '*');
  }

  lemma BegunFrom(re: Str, k: nat, i: nat)
    requires k + i < |re| && Begins(re, k)
    ensures Begun(re[k..], i) == Begun(re, k + i)
  {
    BeginsFrom(re, k, i);
    hide Begins;
  }

  /** "$" alone asks for the empty rest, "$*" for any number of dollars, "*" for a star, and a "^"
      that is not the first character for itself. */
  lemma Corners()
    ensures Read(['$']) == Pattern([], true)
    ensures Read(['$', '*']) == Pattern([Star('$')], false)
    ensures Read(['*']) == Pattern([One('*')], false)
    ensures Read(['*', '*']) == Pattern([Star('*')], false)
    ensures Read(['$', 'a']) == Pattern([One('$'), One('a')], false)
    ensures Read(['a', '^']) == Pattern([One('a'), One('^')], false)
  {
    assert Read(['a']) == Pattern([One('a')], false);
    assert Read(['^']) == Pattern([One('^')], false);
    assert ['$', 'a'][1..] == ['a'] && ['a', '^'][1..] == ['^'];
    assert ['$', '*'][2..] == [] && ['*', '*'][2..] == [];
  }

  // ----- what patterns find -----

  /** Characters that say nothing special wherever they stand, but for the '.'. */
  predicate Plain(re: Str) {
    forall k :: 0 <= k < |re| ==> re[k] != '*' && re[k] != '$'
  }

  /** w is re, but that a '.' is any one character. */
  predicate Fits(re: Str, w: Str) {
    |w| == |re| && forall k :: 0 <= k < |re| ==> re[k] == '.' || re[k] == w[k]
  }

  predicate FitsAt(re: Str, text: Str, i: nat) {
    i + |re| <= |text| && Fits(re, text[i..i + |re|])
  }

  lemma {:induction false} PlainHere(re: Str, tail: Str, text: Str)
    requires Plain(re) && (tail == [] || tail[0] != '*')
    ensures Here(re + tail, text) <==> |re| <= |text| && Fits(re, text[..|re|]) && Here(tail, text[|re|..])
  {
    hide Here;
    if re == [] {
      assert re + tail == tail && text[0..] == text;
    } else {
      var all := re + tail;
      assert all[1..] == re[1..] + tail && all[0] == re[0] && all != ['$'];
      HereOne(all, text);
      if text != [] {
        PlainHere(re[1..], tail, text[1..]);
        if |re| <= |text| {
          assert text[1..][..|re| - 1] == text[..|re|][1..] && text[1..][|re| - 1..] == text[|re|..];
          FitsFirst(re, text[..|re|]);
        }
      }
    }
  }

  lemma FitsFirst(re: Str, w: Str)
    requires re != [] && |w| == |re|
    ensures Fits(re, w) <==> (re[0] == '.' || re[0] == w[0]) && Fits(re[1..], w[1..])
  {
    if Fits(re[1..], w[1..]) {
      assert forall k :: 0 < k < |re| ==> re[k] == re[1..][k - 1] && w[k] == w[1..][k - 1];
    }
  }

  /** A plain pattern finds the lines with some part that fits it; with ^ those that begin with one, with $
      those that end with one, and with both those that are one. */
  lemma PlainPatterns(re: Str, text: Str)
    requires Plain(re)
    ensures re == [] || re[0] != '^' ==>
              (Matches(re, text) <==> exists i :: 0 <= i <= |text| && FitsAt(re, text, i))
    ensures re == [] || re[0] != '^' ==>
              (Matches(re + ['$'], text) <==> |re| <= |text| && Fits(re, text[|text| - |re|..]))
    ensures Matches(['^'] + re, text) <==> |re| <= |text| && Fits(re, text[..|re|])
    ensures Matches(['^'] + re + ['$'], text) <==> Fits(re, text)
  {
    hide Here, Plain;
    assert (['^'] + re)[1..] == re && (['^'] + re + ['$'])[1..] == re + ['$'];
    assert |re| <= |text| ==> text[0..0 + |re|] == text[..|re|];
    forall i | 0 <= i <= |text|
      ensures Here(re, text[i..]) <==> FitsAt(re, text, i)
      ensures Here(re + ['$'], text[i..]) <==> i == |text| - |re| && Fits(re, text[i..])
    {
      PlainFrom(re, text, i);
    }
    assert text[0..] == text;
    hide Fits;
  }

  lemma PlainFrom(re: Str, text: Str, i: nat)
    requires Plain(re) && i <= |text|
    ensures Here(re, text[i..]) <==> FitsAt(re, text, i)
    ensures Here(re + ['$'], text[i..]) <==> i == |text| - |re| && Fits(re, text[i..])
  {
    hide Here, Plain, Fits;
    var rest := text[i..];
    assert re + [] == re;
    PlainHere(re, [], rest);
    PlainHere(re, ['$'], rest);
    if |re| <= |rest| {
      HereEmpty(rest[|re|..]);
      HereEnd(rest[|re|..]);
      assert rest[..|re|] == text[i..i + |re|];
      if |rest| == |re| {
        assert rest[..|re|] == rest;
      }
    }
  }

  /** Behind c* a pattern is found after any number of characters that are c, or of any if c is a '.'. */
  lemma StarPattern(c: char, re: Str, text: Str)
    requires Plain(re)
    ensures Matches(['^', c, '*'] + re, text) <==>
              exists k :: 0 <= k <= |text| && FitsAt(re, text, k) && forall j :: 0 <= j < k ==> c == '.' || text[j] == c
    ensures Matches(['^', c, '*', '$'], text) <==> forall j :: 0 <= j < |text| ==> c == '.' || text[j] == c
  {
    hide Here, Plain, FitsAt;
    assert (['^', c, '*'] + re)[1..] == [c, '*'] + re && ([c, '*'] + re)[2..] == re;
    assert ['^', c, '*', '$'][1..] == [c, '*', '$'] && [c, '*', '$'][2..] == ['$'];
    HereStar([c, '*'] + re, text);
    HereStar([c, '*', '$'], text);
    forall k | 0 <= k <= |text|
      ensures Here(re, text[k..]) <==> FitsAt(re, text, k)
      ensures Here(['$'], text[k..]) <==> k == |text|
      ensures Piece(Star(c), text[..k]) <==> forall j :: 0 <= j < k ==> c == '.' || text[j] == c
    {
      PlainFrom(re, text, k);
      HereEnd(text[k..]);
      assert forall j :: 0 <= j < k ==> text[..k][j] == text[j];
    }
    assert Here(['$'], text[|text|..]);
  }
}
