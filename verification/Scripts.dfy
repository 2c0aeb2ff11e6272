/** What a caller does with buffers inside a transaction: bread, a change given to log_write, brelse. */
module Scripts {
  import opened Basics
  import opened Blocks
  import opened RedoLog
  import opened Transactions

  /** Take is bread with what it must return, Put a change of a held buffer and its log_write, Give brelse. */
  datatype Op = Take(s: Word, data: Block) | Put(w: Write) | Give(s: Word)

  /** The log_writes, in order. */
  function Puts(ops: seq<Op>): (ws: seq<Write>) {
    if ops == [] then []
    else
      var ws := Puts(ops[..|ops| - 1]);
      var op := ops[|ops| - 1];
      if op.Put? then ws + [op.w] else ws
  }

  /** What the breads return, in order. */
  function Takes(ops: seq<Op>): seq<Block> {
    if ops == [] then []
    else
      var ds := Takes(ops[..|ops| - 1]);
      var op := ops[|ops| - 1];
      if op.Take? then ds + [op.data] else ds
  }

  /** The sectors whose buffers are held. */
  function Held(ops: seq<Op>): (h: set<Word>) {
    if ops == [] then {}
    else
      var h := Held(ops[..|ops| - 1]);
      match ops[|ops| - 1]
      case Take(s, _) => h + {s}
      case Put(_) => h
      case Give(s) => h - {s}
  }

  function Sector(op: Op): Word {
    match op
    case Take(s, _) => s
    case Put(w) => w.sector
    case Give(s) => s
  }

  /** All sectors that occur. */
  function Used(ops: seq<Op>): (u: set<Word>) {
    if ops == [] then {} else Used(ops[..|ops| - 1]) + {Sector(ops[|ops| - 1])}
  }

  /** One more operation after those of ops: nothing is taken twice, only what is held is changed or
      given back, and bread returns what was logged last. */
  ghost predicate Fair(h: seq<Block>, ops: seq<Op>, op: Op)
    requires forall i :: 0 <= i < |Puts(ops)| ==> Puts(ops)[i].sector < |h|
  {
    match op
    case Take(s, data) => s < |h| && s !in Held(ops) && data == Apply(h, Puts(ops))[s]
    case Put(w) => w.sector in Held(ops)
    case Give(s) => s in Held(ops)
  }

  /** A script on the blocks h. */
  ghost predicate Script(h: seq<Block>, ops: seq<Op>)
    decreases |ops|, 0
  {
    ops == [] ||
    (Script(h, ops[..|ops| - 1]) && (ScriptFacts(h, ops[..|ops| - 1]); Fair(h, ops[..|ops| - 1], ops[|ops| - 1])))
  }

  lemma {:induction false} ScriptFacts(h: seq<Block>, ops: seq<Op>)
    requires Script(h, ops)
    ensures forall i :: 0 <= i < |Puts(ops)| ==> Puts(ops)[i].sector < |h|
    ensures forall s :: s in Held(ops) ==> s < |h| && s in Used(ops)
    ensures forall i :: 0 <= i < |Puts(ops)| ==> Puts(ops)[i].sector in Used(ops)
    decreases |ops|, 1
  {
    if ops != [] {
      ScriptFacts(h, ops[..|ops| - 1]);
    }
  }

  lemma ScriptMore(h: seq<Block>, ops: seq<Op>, op: Op)
    requires Script(h, ops)
    ensures forall i :: 0 <= i < |Puts(ops)| ==> Puts(ops)[i].sector < |h|
    ensures Script(h, ops + [op]) <==> Fair(h, ops, op)
    ensures Puts(ops + [op]) == if op.Put? then Puts(ops) + [op.w] else Puts(ops)
    ensures Held(ops + [op]) == match op
                                case Take(s, _) => Held(ops) + {s}
                                case Put(_) => Held(ops)
                                case Give(s) => Held(ops) - {s}
    ensures Used(ops + [op]) == Used(ops) + {Sector(op)}
  {
    ScriptFacts(h, ops);
    assert (ops + [op])[..|ops|] == ops;
  }

  // ----- what the log and the cache have room for -----

  /** The next operation finds a buffer, and log_write room in the header: sectors that are held or
      logged fill fewer than room buffers. */
  ghost predicate Room(ops: seq<Op>, op: Op, cap: nat, room: nat) {
    && (op.Put? ==> |Header(Puts(ops))| < cap)
    && (!op.Give? ==> |Held(ops) + Elements(Header(Puts(ops)))| < room)
  }

  ghost predicate Roomy(ops: seq<Op>, cap: nat, room: nat) {
    forall k :: 0 <= k < |ops| ==> Room(ops[..k], ops[k], cap, room)
  }

  /** Scripts over few sectors have room all the way. */
  lemma FewUsed(h: seq<Block>, ops: seq<Op>, cap: nat, room: nat)
    requires Script(h, ops) && |Used(ops)| < cap && |Used(ops)| < room
    ensures Roomy(ops, cap, room)
  {
    forall k | 0 <= k < |ops| ensures Room(ops[..k], ops[k], cap, room) {
      UsedPrefix(h, ops, k);
      ScriptFacts(h, ops[..k]);
      HeaderSubset(Puts(ops[..k]), Used(ops));
      SubsetSize(Held(ops[..k]) + Elements(Header(Puts(ops[..k]))), Used(ops));
      SubsetSize(Elements(Header(Puts(ops[..k]))), Used(ops));
      HeaderDistinct(Puts(ops[..k]));
      SizeOfDistinct(Header(Puts(ops[..k])));
    }
  }

  lemma {:induction false} UsedPrefix(h: seq<Block>, ops: seq<Op>, k: nat)
    requires Script(h, ops) && k <= |ops|
    ensures Script(h, ops[..k]) && Used(ops[..k]) <= Used(ops)
    decreases |ops|
  {
    if k < |ops| {
      UsedPrefix(h, ops[..|ops| - 1], k);
      assert ops[..|ops| - 1][..k] == ops[..k];
    } else {
      assert ops[..k] == ops;
    }
  }

  /** The sectors in the header are those of the writes. */
  lemma {:induction false} HeaderSubset(ws: seq<Write>, sectors: set<Word>)
    requires forall i :: 0 <= i < |ws| ==> ws[i].sector in sectors
    ensures forall i :: 0 <= i < |Header(ws)| ==> Header(ws)[i] in sectors
  {
    if ws != [] {
      HeaderSubset(ws[..|ws| - 1], sectors);
    }
  }

  // ----- scripts on a disk whose log starts at start -----

  ghost predicate Home(ops: seq<Op>, start: nat) {
    forall s :: s in Used(ops) ==> s < start
  }

  lemma {:induction false} ApplyHome(h: seq<Block>, ws: seq<Write>, start: nat)
    requires start <= |h| && forall i :: 0 <= i < |ws| ==> ws[i].sector < start
    ensures Apply(h, ws)[..start] == Apply(h[..start], ws)
  {
    if ws != [] {
      ApplyHome(h, ws[..|ws| - 1], start);
    }
  }

  lemma ScriptStart(ops: seq<Op>)
    ensures Puts(ops[..0]) == [] && Takes(ops[..0]) == [] && Held(ops[..0]) == {}
  {
  }

  /** The first k operations, and the k-th. */
  lemma ScriptStep(h: seq<Block>, ops: seq<Op>, start: nat, cap: nat, room: nat, k: nat)
    requires Script(h, ops) && Home(ops, start) && start <= |h| && k < |ops| && Roomy(ops, cap, room)
    ensures Script(h, ops[..k]) && Room(ops[..k], ops[k], cap, room) && Sector(ops[k]) < start
    ensures forall i :: 0 <= i < |Puts(ops[..k])| ==> Puts(ops[..k])[i].sector < start
    ensures Apply(h, Puts(ops[..k]))[..start] == Apply(h[..start], Puts(ops[..k]))
    ensures Fair(h, ops[..k], ops[k])
    ensures Puts(ops[..k + 1]) == if ops[k].Put? then Puts(ops[..k]) + [ops[k].w] else Puts(ops[..k])
    ensures Takes(ops[..k + 1]) == if ops[k].Take? then Takes(ops[..k]) + [ops[k].data] else Takes(ops[..k])
    ensures Held(ops[..k + 1]) == match ops[k]
                                  case Take(s, _) => Held(ops[..k]) + {s}
                                  case Put(_) => Held(ops[..k])
                                  case Give(s) => Held(ops[..k]) - {s}
  {
    hide Apply, Roomy;
    UsedPrefix(h, ops, k);
    UsedPrefix(h, ops, k + 1);
    assert ops[..k + 1][..k] == ops[..k];
    ScriptFacts(h, ops[..k]);
    ApplyHome(h, Puts(ops[..k]), start);
    RoomAt(ops, cap, room, k);
  }

  lemma RoomAt(ops: seq<Op>, cap: nat, room: nat, k: nat)
    requires k < |ops| && Roomy(ops, cap, room)
    ensures Room(ops[..k], ops[k], cap, room)
  {
  }

  lemma {:induction false} PutsPrefix(ops: seq<Op>, k: nat)
    requires k <= |ops|
    ensures |Puts(ops[..k])| <= |Puts(ops)| && Puts(ops)[..|Puts(ops[..k])|] == Puts(ops[..k])
  {
    if k < |ops| {
      PutsPrefix(ops[..|ops| - 1], k);
      assert ops[..|ops| - 1][..k] == ops[..k];
    } else {
      assert ops[..k] == ops;
    }
  }

  /** A script with room is a transaction that log_write takes. */
  lemma {:induction false} RoomyAdmissible(h: seq<Block>, ops: seq<Op>, start: nat, cap: nat, room: nat)
    requires Script(h, ops) && Home(ops, start) && Roomy(ops, cap, room)
    ensures Admissible(Puts(ops), start, cap)
  {
    if ops != [] {
      var n := |ops| - 1;
      forall k | 0 <= k < n ensures Room(ops[..n][..k], ops[..n][k], cap, room) {
        assert ops[..n][..k] == ops[..k] && Room(ops[..k], ops[k], cap, room);
      }
      UsedPrefix(h, ops, n);
      RoomyAdmissible(h, ops[..n], start, cap, room);
      assert Room(ops[..n], ops[n], cap, room);
      if ops[n].Put? {
        AdmissibleMore(Puts(ops[..n]), ops[n].w, start, cap);
      }
    }
  }

  lemma AdmissibleMore(ws: seq<Write>, w: Write, start: nat, cap: nat)
    requires Admissible(ws, start, cap) && w.sector < start && |Header(ws)| < cap
    ensures Admissible(ws + [w], start, cap)
  {
    forall k | 0 <= k < |ws + [w]| ensures |Header((ws + [w])[..k])| < cap {
      assert (ws + [w])[..k] == if k < |ws| then ws[..k] else ws;
    }
  }
}
