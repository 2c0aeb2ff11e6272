/** The redo log of log.c as a function from disk images to disk images.

    An image is the whole disk, one block per sector. Every operation is given
    as the list of images the disk goes through, one sector write at a time, so
    a crash is simply the choice of one image in that list. */
module RedoLog {
  import opened Basics
  import opened Blocks

  const LOGSIZE: nat := 10  // sector numbers that fit in struct logheader

  type Image = seq<Block>

  // ----- the header block -----

  function Signed(w: Word): int {
    if w < 0x8000_0000 then w else w - 0x1_0000_0000
  }

  /** hb->n, an int; the loops over it do nothing when it is negative. */
  function HeaderCount(b: Block): nat {
    if Signed(GetWord(b, 0)) < 0 then 0 else Signed(GetWord(b, 0))
  }

  function HeaderSectors(b: Block): (secs: seq<Word>)
    requires HeaderCount(b) <= LOGSIZE
  {
    seq(HeaderCount(b), i requires 0 <= i < HeaderCount(b) => GetWord(b, 1 + i))
  }

  /** The loop of write_head over the first k entries. */
  function PutSectors(b: Block, secs: seq<Word>, k: nat): Block
    requires k <= |secs| <= LOGSIZE
  {
    if k == 0 then b else SetWord(PutSectors(b, secs, k - 1), k, secs[k - 1])
  }

  function HeaderBlock(b: Block, secs: seq<Word>): Block
    requires |secs| <= LOGSIZE
  {
    PutSectors(SetWord(b, 0, |secs|), secs, |secs|)
  }

  lemma {:induction false} PutSectorsAt(b: Block, secs: seq<Word>, k: nat, j: nat)
    requires k <= |secs| <= LOGSIZE && j < WORDS
    ensures GetWord(PutSectors(b, secs, k), j) == if 1 <= j <= k then secs[j - 1] else GetWord(b, j)
  {
    if k > 0 {
      PutSectorsAt(b, secs, k - 1, j);
      GetSetWord(PutSectors(b, secs, k - 1), k, secs[k - 1], j);
    }
  }

  /** What write_head puts on disk, read_head gets back. */
  lemma HeaderRoundTrip(b: Block, secs: seq<Word>)
    requires |secs| <= LOGSIZE
    ensures HeaderCount(HeaderBlock(b, secs)) == |secs|
    ensures HeaderSectors(HeaderBlock(b, secs)) == secs
  {
    var h := HeaderBlock(b, secs);
    var z := SetWord(b, 0, |secs|);
    PutSectorsAt(z, secs, |secs|, 0);
    GetSetWord(b, 0, |secs|, 0);
    forall i | 0 <= i < |secs|
      ensures GetWord(h, 1 + i) == secs[i]
    {
      PutSectorsAt(z, secs, |secs|, 1 + i);
    }
  }

  lemma ClearTwice(b: Block)
    ensures HeaderBlock(HeaderBlock(b, []), []) == HeaderBlock(b, [])
  {
    var z := SetWord(b, 0, 0);
    assert SetWord(z, 0, 0) == z;
  }

  // ----- install and recovery -----

  /** The log region [start, start+1+n) is on the disk and every logged sector lies before it. */
  ghost predicate Fits(d: Image, start: nat, secs: seq<Word>) {
    && |secs| <= LOGSIZE
    && start + |secs| < |d|
    && forall i :: 0 <= i < |secs| ==> secs[i] < start
  }

  /** install_trans after its first k iterations. */
  function Installed(d: Image, start: nat, secs: seq<Word>, k: nat): (e: Image)
    requires Fits(d, start, secs) && k <= |secs|
    ensures |e| == |d|
  {
    if k == 0 then d
    else
      var e := Installed(d, start, secs, k - 1);
      e[secs[k - 1] := e[start + k]]
  }

  /** Index of the last entry for sector s, or -1. */
  function LastIndex(secs: seq<Word>, s: nat): (i: int)
    ensures -1 <= i < |secs|
    ensures i >= 0 ==> secs[i] == s
    ensures forall j :: i < j < |secs| ==> secs[j] != s
  {
    if secs == [] then -1
    else if secs[|secs| - 1] == s then |secs| - 1
    else LastIndex(secs[..|secs| - 1], s)
  }

  /** After k iterations a home sector holds the log block of its last entry, or its old contents. */
  lemma {:induction false} InstalledAt(d: Image, start: nat, secs: seq<Word>, k: nat, s: nat)
    requires Fits(d, start, secs) && k <= |secs| && s < |d|
    ensures var i := LastIndex(secs[..k], s);
            Installed(d, start, secs, k)[s] == if i >= 0 then d[start + 1 + i] else d[s]
  {
    if k > 0 {
      InstalledAt(d, start, secs, k - 1, s);
      InstalledAt(d, start, secs, k - 1, start + k);
      assert secs[..k][..k - 1] == secs[..k - 1];
      assert LastIndex(secs[..k - 1], start + k) == -1;
    }
  }

  /** The header on disk is one that read_head may be given. */
  ghost predicate Recoverable(d: Image, start: nat) {
    && start < |d|
    && HeaderCount(d[start]) <= LOGSIZE
    && Fits(d, start, HeaderSectors(d[start]))
  }

  function ClearHeader(d: Image, start: nat): (e: Image)
    requires start < |d|
    ensures |e| == |d|
  {
    d[start := HeaderBlock(d[start], [])]
  }

  /** The image recover_from_log ends with. */
  function Recovered(d: Image, start: nat): (e: Image)
    requires Recoverable(d, start)
    ensures |e| == |d|
  {
    var secs := HeaderSectors(d[start]);
    ClearHeader(Installed(d, start, secs, |secs|), start)
  }

  function InstallSteps(d: Image, start: nat, secs: seq<Word>): (t: seq<Image>)
    requires Fits(d, start, secs)
  {
    seq(|secs|, k requires 0 <= k < |secs| => Installed(d, start, secs, k + 1))
  }

  /** The images of recover_from_log, one per sector write. */
  function RecoverySteps(d: Image, start: nat): (t: seq<Image>)
    requires Recoverable(d, start)
    ensures |t| == HeaderCount(d[start]) + 1
    ensures t[|t| - 1] == Recovered(d, start)
  {
    InstallSteps(d, start, HeaderSectors(d[start])) + [Recovered(d, start)]
  }

  /** Installing again over a partial install gives the full install. */
  lemma InstallAgain(d: Image, start: nat, secs: seq<Word>, k: nat)
    requires Fits(d, start, secs) && k <= |secs|
    ensures Installed(Installed(d, start, secs, k), start, secs, |secs|) == Installed(d, start, secs, |secs|)
  {
    var e := Installed(d, start, secs, k);
    var n := |secs|;
    forall s | 0 <= s < |d|
      ensures Installed(e, start, secs, n)[s] == Installed(d, start, secs, n)[s]
    {
      InstalledAt(e, start, secs, n, s);
      InstalledAt(d, start, secs, n, s);
      assert secs[..n] == secs;
      var i := LastIndex(secs, s);
      if i >= 0 {
        InstalledAt(d, start, secs, k, start + 1 + i);
        assert LastIndex(secs[..k], start + 1 + i) == -1;
      } else {
        InstalledAt(d, start, secs, k, s);
        assert LastIndex(secs[..k], s) == -1;
      }
    }
  }

  /** A crash at any sector write of a recovery, and after it, changes nothing: the
      next recovery ends with the image this one would have ended with. */
  lemma RecoverAgain(d: Image, start: nat, k: nat)
    requires Recoverable(d, start) && k < |RecoverySteps(d, start)|
    ensures var e := RecoverySteps(d, start)[k];
            Recoverable(e, start) && Recovered(e, start) == Recovered(d, start)
  {
    var secs := HeaderSectors(d[start]);
    var n := |secs|;
    if k < n {
      InstalledAt(d, start, secs, k + 1, start);
      assert LastIndex(secs[..k + 1], start) == -1;
      InstallAgain(d, start, secs, k + 1);
    } else {
      var f := Installed(d, start, secs, n);
      HeaderRoundTrip(f[start], []);
      ClearTwice(f[start]);
    }
  }

  /** The image left by repeated crashes inside recovery, where crashes[i] says at which
      of its sector writes the i-th recovery attempt stops (none of them, if out of range). */
  ghost function CrashedRecoveries(d: Image, start: nat, crashes: seq<nat>): (e: Image)
    requires Recoverable(d, start)
    ensures Recoverable(e, start) && Recovered(e, start) == Recovered(d, start)
    decreases |crashes|
  {
    if crashes == [] then d
    else if crashes[0] < |RecoverySteps(d, start)| then
      RecoverAgain(d, start, crashes[0]);
      CrashedRecoveries(RecoverySteps(d, start)[crashes[0]], start, crashes[1..])
    else CrashedRecoveries(d, start, crashes[1..])
  }
}
