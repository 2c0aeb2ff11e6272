/** pipe.c: a ring of 512 bytes with 32-bit counters that wrap. Each stretch of pipewrite or piperead
    between taking the lock, or waking up with it, and sleeping or letting it go is one step. */
module Pipes {
  import opened Basics
  import opened Blocks

  const PIPESIZE: nat := 512
  const WRAP: nat := 0x1_0000_0000

  /** The pipe as its users see it: the bytes in it, who sleeps on nread and on nwrite, and all bytes
      ever taken in and given out. */
  datatype View = View(ring: seq<Byte>, readopen: bool, writeopen: bool, readers: set<nat>, writers: set<nat>,
                       accepted: seq<Byte>, delivered: seq<Byte>)

  /** How a step ends: the call returns, with -1, or the process sleeps. */
  datatype Status = Done | Failed | Asleep

  // ----- the steps -----

  /** process me has the bytes still to write. */
  function Written(v: View, me: nat, bytes: seq<Byte>, killed: bool): (r: (View, Status))
    requires |v.ring| <= PIPESIZE
  {
    var k := Min(|bytes|, PIPESIZE - |v.ring|);
    var w := v.(ring := v.ring + bytes[..k], accepted := v.accepted + bytes[..k]);
    if k == |bytes| then (w.(readers := {}), Done)
    else if !v.readopen || killed then (w, Failed)
    else (w.(readers := {}, writers := v.writers + {me}), Asleep)
  }

  function Read(v: View, me: nat, n: nat, killed: bool): (r: (View, Status))
  {
    if v.ring == [] && v.writeopen then
      if killed then (v, Failed) else (v.(readers := v.readers + {me}), Asleep)
    else
      var k := Min(n, |v.ring|);
      (v.(ring := v.ring[k..], delivered := v.delivered + v.ring[..k], writers := {}), Done)
  }

  function Closed(v: View, writable: bool): View {
    if writable then v.(writeopen := false, readers := {}) else v.(readopen := false, writers := {})
  }

  /** Interrupt is a kill that wakes a sleeper. */
  datatype Event =
    | Write(me: nat, bytes: seq<Byte>, killed: bool)
    | ReadUp(me: nat, n: nat, killed: bool)
    | Close(writable: bool)
    | Interrupt(me: nat)

  /** An end is used while it is open, and closed by the last who has it, so with nobody asleep there. */
  predicate Enabled(v: View, e: Event) {
    match e
    case Write(_, _, _) => v.writeopen
    case ReadUp(_, _, _) => v.readopen
    case Close(writable) => if writable then v.writeopen && v.writers == {} else v.readopen && v.readers == {}
    case Interrupt(_) => true
  }

  /** A killed writer leaves with -1 before it wakes the readers that wait for its bytes. */
  predicate Forgets(v: View, e: Event) {
    e.Write? && e.killed && v.readers != {} && |e.bytes| > PIPESIZE
  }

  function Step(v: View, e: Event): View
    requires |v.ring| <= PIPESIZE
  {
    match e
    case Write(me, bytes, killed) => Written(v, me, bytes, killed).0
    case ReadUp(me, n, killed) => Read(v, me, n, killed).0
    case Close(writable) => Closed(v, writable)
    case Interrupt(me) => v.(readers := v.readers - {me}, writers := v.writers - {me})
  }

  const FRESH: View := View([], true, true, {}, {}, [], [])

  ghost predicate Follows(v: View, e: Event, w: View) {
    |v.ring| <= PIPESIZE && Enabled(v, e) && w == Step(v, e)
  }

  ghost predicate Run(views: seq<View>, events: seq<Event>) {
    |views| == |events| + 1 && views[0] == FRESH &&
    forall k :: 0 <= k < |events| ==> Follows(views[k], events[k], views[k + 1])
  }

  /** What goes in comes out, once and in order. */
  ghost predicate Conserved(v: View) {
    |v.ring| <= PIPESIZE && v.accepted == v.delivered + v.ring
  }

  /** Nobody sleeps who could go on. */
  ghost predicate SleepersOk(v: View) {
    && (v.readers != {} ==> v.ring == [] && v.writeopen && v.readopen)
    && (v.writers != {} ==> |v.ring| == PIPESIZE && v.readopen && v.writeopen)
  }

  lemma StepConserves(v: View, e: Event)
    requires Conserved(v)
    ensures Conserved(Step(v, e))
  {
    match e
    case Write(_, bytes, _) =>
      var k := Min(|bytes|, PIPESIZE - |v.ring|);
      assert v.delivered + v.ring + bytes[..k] == v.delivered + (v.ring + bytes[..k]);
    case ReadUp(_, n, _) =>
      var k := Min(n, |v.ring|);
      assert v.ring == v.ring[..k] + v.ring[k..];
      assert v.delivered + v.ring == v.delivered + v.ring[..k] + v.ring[k..];
    case _ =>
  }

  /** One step, whoever is killed: only a killed writer can forget, and with those bytes it does. */
  lemma StepForgets(v: View, e: Event)
    requires Conserved(v) && SleepersOk(v) && Enabled(v, e)
    ensures SleepersOk(Step(v, e)) <==> !Forgets(v, e)
  {
    if Forgets(v, e) {
      assert v.ring == [] && Step(v, e).readers == v.readers && |Step(v, e).ring| == PIPESIZE;
    }
  }

  /** In every run, whoever reads and writes, and whoever is killed. */
  lemma {:induction false} BytesInOrder(views: seq<View>, events: seq<Event>, k: nat)
    requires Run(views, events) && k < |views|
    ensures views[k].accepted == views[k].delivered + views[k].ring && |views[k].ring| <= PIPESIZE
  {
    if k > 0 {
      BytesInOrder(views, events, k - 1);
      assert Follows(views[k - 1], events[k - 1], views[k - 1 + 1]);
      StepConserves(views[k - 1], events[k - 1]);
    }
  }

  /** In every run, up to any point: a sleeping reader has always meant an empty pipe that can be written
      to, and a sleeping writer a full one that can be read from, if and only if nobody has forgotten. */
  lemma {:induction false} NobodyForgotten(views: seq<View>, events: seq<Event>, k: nat)
    requires Run(views, events) && k < |views|
    ensures (forall j :: 0 <= j <= k ==> SleepersOk(views[j]))
            <==> forall j :: 0 <= j < k ==> !Forgets(views[j], events[j])
  {
    if k > 0 {
      NobodyForgotten(views, events, k - 1);
      BytesInOrder(views, events, k - 1);
      assert Follows(views[k - 1], events[k - 1], views[k - 1 + 1]);
      if SleepersOk(views[k - 1]) {
        StepForgets(views[k - 1], events[k - 1]);
      }
    }
  }

  /** The run in which it happens: a reader goes to sleep on the empty pipe, and a writer who has been
      killed fills it and leaves. */
  lemma KilledWriterForgets(bytes: seq<Byte>)
    requires |bytes| > PIPESIZE
    ensures var events := [ReadUp(1, 1, false), Write(2, bytes, true)];
            var asleep := FRESH.(readers := {1});
            var forgotten := asleep.(ring := bytes[..PIPESIZE], accepted := bytes[..PIPESIZE]);
            && Run([FRESH, asleep, forgotten], events)
            && Forgets(asleep, events[1]) && !SleepersOk(forgotten)
  {
    assert [] + bytes[..PIPESIZE] == bytes[..PIPESIZE];
  }

  // ----- what readers and writers get -----

  /** A read takes the first bytes, as many as are asked for or as there are. It waits for the first byte
      while one may come, unless the reader is killed. */
  lemma ReadOutcome(v: View, me: nat, n: nat, killed: bool)
    ensures var (w, status) := Read(v, me, n, killed);
            && (status == Asleep <==> v.ring == [] && v.writeopen && !killed)
            && (status == Failed <==> v.ring == [] && v.writeopen && killed)
            && (status != Done ==> w.ring == v.ring && w.delivered == v.delivered)
            && (status == Done ==>
                  && |w.ring| + n >= |v.ring| && (w.ring != [] ==> |w.ring| + n == |v.ring|)
                  && exists bytes :: |bytes| <= n && v.ring == bytes + w.ring && w.delivered == v.delivered + bytes)
            && w.readopen == v.readopen && w.writeopen == v.writeopen && w.accepted == v.accepted
  {
    var k := Min(n, |v.ring|);
    assert v.ring == v.ring[..k] + v.ring[k..];
  }

  /** A write puts its bytes behind the others, all of them or as many as fill the ring. Then it waits
      for room, unless nobody reads or the writer is killed. */
  lemma WriteOutcome(v: View, me: nat, bytes: seq<Byte>, killed: bool)
    requires |v.ring| <= 512
    ensures var (w, status) := Written(v, me, bytes, killed);
            && (status == Done <==> |v.ring| + |bytes| <= 512)
            && (status == Failed <==> |v.ring| + |bytes| > 512 && (!v.readopen || killed))
            && (status == Done ==> w.ring == v.ring + bytes && w.accepted == v.accepted + bytes)
            && (status != Done ==> |w.ring| == 512)
            && (exists k :: 0 <= k <= |bytes| && w.ring == v.ring + bytes[..k] && w.accepted == v.accepted + bytes[..k])
            && w.readopen == v.readopen && w.writeopen == v.writeopen && w.delivered == v.delivered
  {
    var k := Min(|bytes|, 512 - |v.ring|);
    assert k == |bytes| ==> bytes[..k] == bytes;
  }

  /** An end is open until it is closed. */
  lemma {:induction false} OpenUntilClosed(views: seq<View>, events: seq<Event>, k: nat)
    requires Run(views, events) && k < |views|
    ensures views[k].writeopen <==> Close(true) !in events[..k]
    ensures views[k].readopen <==> Close(false) !in events[..k]
  {
    if k > 0 {
      OpenUntilClosed(views, events, k - 1);
      BytesInOrder(views, events, k - 1);
      var v, e := views[k - 1], events[k - 1];
      assert Follows(v, e, views[k - 1 + 1]) && events[..k] == events[..k - 1] + [e];
      match e
      case Write(me, bytes, killed) => WriteOutcome(v, me, bytes, killed);
      case ReadUp(me, n, killed) => ReadOutcome(v, me, n, killed);
      case _ =>
    }
  }

  /** Once the write end is closed no read waits, and one that asks for bytes gets none exactly when
      every byte that was ever accepted has been delivered. */
  lemma EndOfFile(views: seq<View>, events: seq<Event>, k: nat, me: nat, n: nat, killed: bool)
    requires Run(views, events) && k < |views| && Close(true) in events[..k] && 0 < n
    ensures var v := views[k];
            var (w, status) := Read(v, me, n, killed);
            && status == Done
            && (w.delivered == v.delivered <==> v.delivered == v.accepted)
  {
    OpenUntilClosed(views, events, k);
    BytesInOrder(views, events, k);
    ReadOutcome(views[k], me, n, killed);
    var v, w := views[k], Read(views[k], me, n, killed).0;
    var bytes :| |bytes| <= n && v.ring == bytes + w.ring && w.delivered == v.delivered + bytes;
    assert |v.delivered + bytes| == |v.delivered| + |bytes|;
  }

  /** Once the read end is closed no write waits, and one that does not fit fails. */
  lemma NobodyReads(views: seq<View>, events: seq<Event>, k: nat, me: nat, bytes: seq<Byte>, killed: bool)
    requires Run(views, events) && k < |views| && Close(false) in events[..k]
    ensures |views[k].ring| <= 512
    ensures Written(views[k], me, bytes, killed).1 == if |views[k].ring| + |bytes| <= 512 then Done else Failed
  {
    OpenUntilClosed(views, events, k);
    BytesInOrder(views, events, k);
    WriteOutcome(views[k], me, bytes, killed);
  }

  // ----- who sleeps -----

  /** The events that wake the readers, or this one. */
  predicate WakesReader(v: View, e: Event, me: nat) {
    match e
    case Write(_, bytes, killed) => |v.ring| + |bytes| <= 512 || (v.readopen && !killed)
    case ReadUp(_, _, _) => false
    case Close(writable) => writable
    case Interrupt(x) => x == me
  }

  predicate WakesWriter(v: View, e: Event, me: nat) {
    match e
    case Write(_, _, _) => false
    case ReadUp(_, _, _) => v.ring != [] || !v.writeopen
    case Close(writable) => !writable
    case Interrupt(x) => x == me
  }

  predicate ReadSleeps(v: View, e: Event, me: nat) {
    e.ReadUp? && e.me == me && v.ring == [] && v.writeopen && !e.killed
  }

  predicate WriteSleeps(v: View, e: Event, me: nat) {
    e.Write? && e.me == me && |v.ring| + |e.bytes| > 512 && v.readopen && !e.killed
  }

  /** A reader is asleep exactly if the last event that put it to sleep has not been followed by one that
      wakes it. */
  lemma {:induction false} WhichReadersSleep(views: seq<View>, events: seq<Event>, k: nat, me: nat)
    requires Run(views, events) && k < |views|
    ensures me in views[k].readers <==>
              exists j :: 0 <= j < k && ReadSleeps(views[j], events[j], me)
                          && forall i :: j < i < k ==> !WakesReader(views[i], events[i], me)
  {
    if k > 0 {
      WhichReadersSleep(views, events, k - 1, me);
      BytesInOrder(views, events, k - 1);
      assert Follows(views[k - 1], events[k - 1], views[k - 1 + 1]);
      SleepNext(views[k - 1], events[k - 1], me);
      if me in views[k].readers && !ReadSleeps(views[k - 1], events[k - 1], me) {
        var j :| 0 <= j < k - 1 && ReadSleeps(views[j], events[j], me)
                 && forall i :: j < i < k - 1 ==> !WakesReader(views[i], events[i], me);
        assert ReadSleeps(views[j], events[j], me);
      }
    }
  }

  /** The same for a writer. */
  lemma {:induction false} WhichWritersSleep(views: seq<View>, events: seq<Event>, k: nat, me: nat)
    requires Run(views, events) && k < |views|
    ensures me in views[k].writers <==>
              exists j :: 0 <= j < k && WriteSleeps(views[j], events[j], me)
                          && forall i :: j < i < k ==> !WakesWriter(views[i], events[i], me)
  {
    if k > 0 {
      WhichWritersSleep(views, events, k - 1, me);
      BytesInOrder(views, events, k - 1);
      assert Follows(views[k - 1], events[k - 1], views[k - 1 + 1]);
      SleepNext(views[k - 1], events[k - 1], me);
      if me in views[k].writers && !WriteSleeps(views[k - 1], events[k - 1], me) {
        var j :| 0 <= j < k - 1 && WriteSleeps(views[j], events[j], me)
                 && forall i :: j < i < k - 1 ==> !WakesWriter(views[i], events[i], me);
        assert WriteSleeps(views[j], events[j], me);
      }
    }
  }

  lemma SleepNext(v: View, e: Event, me: nat)
    requires |v.ring| <= 512
    ensures me in Step(v, e).readers <==> ReadSleeps(v, e, me) || (me in v.readers && !WakesReader(v, e, me))
    ensures me in Step(v, e).writers <==> WriteSleeps(v, e, me) || (me in v.writers && !WakesWriter(v, e, me))
  {
  }

  // ----- the ring -----

  /** The place of the k-th byte from counter c on. */
  function Place(c: nat, k: nat): (p: nat)
    ensures p < PIPESIZE
  {
    (c + k) % PIPESIZE
  }

  /** How many bytes lie between the counters. */
  function Count(nread: Word, nwrite: Word): (n: nat) {
    (nwrite - nread) % WRAP
  }

  /** The ring in order of reading. */
  function Ring(data: seq<Byte>, nread: Word, n: nat): (r: seq<Byte>)
    requires |data| == PIPESIZE
    ensures |r| == n && forall k :: 0 <= k < n ==> r[k] == data[Place(nread, k)]
  {
    seq(n, k requires 0 <= k < n => data[Place(nread, k)])
  }

  lemma CountUp(nread: Word, nwrite: Word)
    requires Count(nread, nwrite) < PIPESIZE
    ensures Count(nread, (nwrite + 1) % WRAP) == Count(nread, nwrite) + 1
  {
  }

  lemma CountDown(nread: Word, nwrite: Word)
    requires 0 < Count(nread, nwrite) <= PIPESIZE
    ensures Count((nread + 1) % WRAP, nwrite) == Count(nread, nwrite) - 1
  {
  }

  /** The test for a full ring, with the sum wrapping. */
  lemma FullTest(nread: Word, nwrite: Word)
    requires Count(nread, nwrite) <= PIPESIZE
    ensures nwrite == (nread + PIPESIZE) % WRAP <==> Count(nread, nwrite) == PIPESIZE
    ensures nread == nwrite <==> Count(nread, nwrite) == 0
  {
  }

  lemma RingPut(data: seq<Byte>, nread: Word, nwrite: Word, b: Byte)
    requires |data| == PIPESIZE && Count(nread, nwrite) < PIPESIZE
    ensures var n := Count(nread, nwrite);
            Ring(data[nwrite % PIPESIZE := b], nread, n + 1) == Ring(data, nread, n) + [b]
  {
    var n := Count(nread, nwrite);
    assert Place(nread, n) == nwrite % PIPESIZE;
    forall k | 0 <= k < n ensures Place(nread, k) != nwrite % PIPESIZE {
      Apart(nread, k, n);
    }
    hide Place;
  }

  lemma Apart(c: nat, k: nat, n: nat)
    requires k < n < PIPESIZE
    ensures Place(c, k) != Place(c, n)
  {
  }

  lemma RingGet(data: seq<Byte>, nread: Word, nwrite: Word)
    requires |data| == PIPESIZE && 0 < Count(nread, nwrite) <= PIPESIZE
    ensures var n := Count(nread, nwrite);
            Ring(data, nread, n) == [data[nread % PIPESIZE]] + Ring(data, (nread + 1) % WRAP, n - 1)
  {
    var n := Count(nread, nwrite);
    assert Place(nread, 0) == nread % PIPESIZE;
    var next := (nread + 1) % WRAP;
    forall k: nat ensures Place(next, k) == Place(nread, k + 1) {
      WrapPlace(nread, k);
    }
    hide Place;
  }

  /** 512 divides the range of the counters. */
  lemma WrapPlace(nread: Word, k: nat)
    ensures Place((nread + 1) % WRAP, k) == Place(nread, k + 1)
  {
  }

  class Pipe {
    const data: array<Byte>
    var nread: Word
    var nwrite: Word
    var readopen: bool
    var writeopen: bool
    ghost var readers: set<nat>       // asleep on &p->nread
    ghost var writers: set<nat>       // asleep on &p->nwrite
    ghost var log: Log

    ghost predicate Valid()
      reads this, data
    {
      data.Length == PIPESIZE && Count(nread, nwrite) <= PIPESIZE
    }

    ghost function Now(): (v: View)
      reads this, data
      requires Valid()
    {
      View(Ring(data[..], nread, Count(nread, nwrite)), readopen, writeopen, readers, writers, log.accepted,
           log.delivered)
    }

    /** pipealloc */
    constructor ()
      ensures Valid() && fresh(data) && Now() == FRESH
    {
      data := new Byte[PIPESIZE](_ => 0);
      nread, nwrite := 0, 0;
      readopen, writeopen := true, true;
      readers, writers := {}, {};
      log := Log([], []);
    }

    method Put(b: Byte)
      requires Valid() && Count(nread, nwrite) < PIPESIZE
      modifies this`nwrite, this`log, data
      ensures Valid() && Now() == old(Now()).(ring := old(Now()).ring + [b], accepted := old(Now()).accepted + [b])
    {
      RingPut(data[..], nread, nwrite, b);
      CountUp(nread, nwrite);
      ghost var was := data[..];
      data[nwrite % PIPESIZE] := b;
      assert data[..] == was[nwrite % PIPESIZE := b];
      nwrite := (nwrite + 1) % WRAP;
      log := log.(accepted := log.accepted + [b]);
    }

    method Get() returns (b: Byte)
      requires Valid() && Count(nread, nwrite) > 0
      modifies this`nread, this`log
      ensures Valid() && old(Now()).ring == [b] + Now().ring
      ensures Now() == old(Now()).(ring := Now().ring, delivered := old(Now()).delivered + [b])
    {
      RingGet(data[..], nread, nwrite);
      CountDown(nread, nwrite);
      b := data[nread % PIPESIZE];
      nread := (nread + 1) % WRAP;
      log := log.(delivered := log.delivered + [b]);
    }

    /** pipewrite from byte i of addr on, until it returns or sleeps; i says where it is to go on. */
    method Pipewrite(me: nat, addr: seq<Byte>, from: nat, killed: bool) returns (status: Status, i: nat)
      requires Valid() && from <= |addr|
      modifies this, data
      ensures Valid() && from <= i <= |addr|
      ensures (Now(), status) == Written(old(Now()), me, addr[from..], killed)
      ensures i == from + Min(|addr| - from, PIPESIZE - |old(Now()).ring|)
    {
      hide Ring, Count;
      ghost var v := Now();
      i := from;
      assert v.ring + addr[from..from] == v.ring && v.accepted + addr[from..from] == v.accepted;
      while i < |addr|
        invariant Valid() && from <= i <= |addr| && i - from <= PIPESIZE - |v.ring|
        invariant Now() == v.(ring := v.ring + addr[from..i], accepted := v.accepted + addr[from..i])
      {
        FullTest(nread, nwrite);
        if nwrite == (nread + PIPESIZE) % WRAP {
          assert addr[from..][..i - from] == addr[from..i];
          if !readopen || killed {
            return Failed, i;
          }
          readers := {};
          writers := writers + {me};
          return Asleep, i;
        }
        assert addr[from..i + 1] == addr[from..i] + [addr[i]];
        Put(addr[i]);
        i := i + 1;
      }
      assert addr[from..][..i - from] == addr[from..i];
      readers := {};
      status := Done;
    }

    /** piperead from the top, until it returns or sleeps. */
    method Piperead(me: nat, n: nat, killed: bool) returns (status: Status, addr: seq<Byte>)
      requires Valid()
      modifies this
      ensures Valid() && (Now(), status) == Read(old(Now()), me, n, killed)
      ensures status == Done ==> addr == old(Now()).ring[..Min(n, |old(Now()).ring|)]
      ensures status != Done ==> addr == []
    {
      hide Ring, Count, Read, Taken;
      ghost var v := Now();
      addr := [];
      FullTest(nread, nwrite);
      if nread == nwrite && writeopen {
        NoneToRead(v, me, n, killed);
        if killed {
          return Failed, addr;
        }
        readers := readers + {me};
        return Asleep, addr;
      }
      var i := 0;
      TakenNone(v);
      while i < n
        invariant Valid() && i <= n && i == |addr| <= |v.ring| && addr == v.ring[..i] && Now() == Taken(v, i)
      {
        FullTest(nread, nwrite);
        if nread == nwrite {
          break;
        }
        var b := Get();
        OneTaken(v, i, b, Now());
        addr := addr + [b];
        i := i + 1;
      }
      FullTest(nread, nwrite);
      TakenAll(v, me, n, killed, i);
      writers := {};
      status := Done;
    }

    /** pipeclose; true when both ends are closed and the page is freed. */
    method Pipeclose(writable: bool) returns (gone: bool)
      requires Valid()
      modifies this
      ensures Valid() && Now() == Closed(old(Now()), writable)
      ensures gone <==> !readopen && !writeopen
    {
      if writable {
        writeopen := false;
        readers := {};
      } else {
        readopen := false;
        writers := {};
      }
      gone := !readopen && !writeopen;
    }
  }

  /** The first i bytes have been read. */
  ghost function Taken(v: View, i: nat): View
    requires i <= |v.ring|
  {
    v.(ring := v.ring[i..], delivered := v.delivered + v.ring[..i])
  }

  lemma TakenNone(v: View)
    ensures Taken(v, 0) == v
  {
    assert v.delivered + v.ring[..0] == v.delivered;
  }

  lemma OneTaken(v: View, i: nat, b: Byte, r: View)
    requires i <= |v.ring| && Taken(v, i).ring == [b] + r.ring
    requires r == Taken(v, i).(ring := r.ring, delivered := Taken(v, i).delivered + [b])
    ensures i < |v.ring| && r == Taken(v, i + 1) && v.ring[..i + 1] == v.ring[..i] + [b]
  {
    var ring := v.ring[i..];
    assert |ring| == 1 + |r.ring| && ring[0] == b && ring[1..] == r.ring;
    assert v.delivered + v.ring[..i] + [b] == v.delivered + v.ring[..i + 1];
  }

  lemma TakenAll(v: View, me: nat, n: nat, killed: bool, i: nat)
    requires i <= |v.ring| && i <= n && (i == n || Taken(v, i).ring == []) && !(v.ring == [] && v.writeopen)
    ensures i == Min(n, |v.ring|) && (Taken(v, i).(writers := {}), Done) == Read(v, me, n, killed)
  {
  }

  lemma NoneToRead(v: View, me: nat, n: nat, killed: bool)
    requires v.ring == [] && v.writeopen
    ensures Read(v, me, n, killed) == if killed then (v, Failed) else (v.(readers := v.readers + {me}), Asleep)
  {
  }

  datatype Log = Log(accepted: seq<Byte>, delivered: seq<Byte>)
}
