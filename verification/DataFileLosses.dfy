/** What part files lose when file writing is switched off and on again. */
module DataFileLosses {
  import opened Words
  import opened Wrappers
  import opened DataFiles

  // ---------------------------------------------------------------------------
  // Packets written, and packets left in the part files
  // ---------------------------------------------------------------------------

  function EnabledCount<P>(rs: seq<Record<P>>): nat {
    if rs == [] then 0 else EnabledCount(rs[..|rs| - 1]) + (if rs[|rs| - 1].disabled then 0 else 1)
  }

  function Sum(xs: seq<nat>): nat {
    if xs == [] then 0 else Sum(xs[..|xs| - 1]) + xs[|xs| - 1]
  }

  /** How many packets each part file has. */
  function DiskSizes<P>(cfg: FileConfig, disk: map<string, seq<P>>): (r: seq<nat>)
    ensures |r| == Kept(cfg)
  {
    seq(Kept(cfg), i requires 0 <= i < Kept(cfg) => |Contents(disk, PartName(cfg, i))|)
  }

  /** How many of the sessions between disabled packets wrote anything. */
  function NonEmptySessions<P>(ss: seq<seq<P>>): nat {
    if ss == [] then 0 else NonEmptySessions(ss[..|ss| - 1]) + (if ss[|ss| - 1] == [] then 0 else 1)
  }

  /** No session re-uses a part number. */
  ghost predicate AllFit<P>(ss: seq<seq<P>>, n: nat, kept: nat) {
    forall k :: 0 <= k < |ss| ==> |Parts(ss[k], n)| <= kept
  }

  ghost predicate NoPartFiles<P>(cfg: FileConfig, disk: map<string, seq<P>>) {
    forall i: nat :: i < Kept(cfg) ==> PartName(cfg, i) !in disk
  }

  // ---------------------------------------------------------------------------
  // The same of the reference files
  // ---------------------------------------------------------------------------

  function Total<P>(ss: seq<seq<P>>): nat {
    if ss == [] then 0 else Total(ss[..|ss| - 1]) + |ss[|ss| - 1]|
  }

  function Size<P>(file: Option<seq<P>>): nat {
    if file.Some? then |file.value| else 0
  }

  function FileSizes<P>(ss: seq<seq<P>>, n: nat, kept: nat): (r: seq<nat>)
    ensures |r| == kept
    ensures forall i :: 0 <= i < kept ==> r[i] == Size(FileOf(ss, n, i, kept))
  {
    seq(kept, i requires 0 <= i < kept => Size(FileOf(ss, n, i, kept)))
  }

  function Sizes<P>(q: seq<seq<P>>): (r: seq<nat>)
    ensures |r| == |q| && forall i :: 0 <= i < |q| ==> r[i] == |q[i]|
  {
    seq(|q|, i requires 0 <= i < |q| => |q[i]|)
  }

  lemma {:induction false} SumOfTwo(xs: seq<nat>, ys: seq<nat>)
    ensures Sum(xs + ys) == Sum(xs) + Sum(ys)
  {
    if ys == [] {
      assert xs + ys == xs;
    } else {
      assert (xs + ys)[..|xs + ys| - 1] == xs + ys[..|ys| - 1];
      SumOfTwo(xs, ys[..|ys| - 1]);
    }
  }

  lemma {:induction false} JoinSize<P>(q: seq<seq<P>>)
    ensures |Join(q)| == Sum(Sizes(q))
  {
    if q != [] {
      JoinSize(q[..|q| - 1]);
      assert Sizes(q)[..|q| - 1] == Sizes(q[..|q| - 1]);
    }
  }

  lemma {:induction false} SumAtLeastFirst(xs: seq<nat>)
    requires xs != []
    ensures Sum(xs) >= xs[0]
  {
    if |xs| > 1 {
      SumAtLeastFirst(xs[..|xs| - 1]);
    }
  }

  lemma {:induction false} SumOfZeros(xs: seq<nat>)
    requires forall i :: 0 <= i < |xs| ==> xs[i] == 0
    ensures Sum(xs) == 0
  {
    if xs != [] {
      SumOfZeros(xs[..|xs| - 1]);
    }
  }

  lemma OwnFile<P>(ss: seq<seq<P>>, n: nat, i: nat, kept: nat)
    requires ss != [] && i < |Parts(ss[|ss| - 1], n)| <= kept
    ensures FileOf(ss, n, i, kept) == Some(Parts(ss[|ss| - 1], n)[i])
  {
    var r := LastPart(|Parts(ss[|ss| - 1], n)|, i, kept);
    ModUnique(r, 0, r, kept);
  }

  /** The last session has its own files, and those before it the files past them. */
  lemma LastSessionFiles<P>(ss: seq<seq<P>>, n: nat, kept: nat)
    requires ss != [] && |Parts(ss[|ss| - 1], n)| <= kept
    ensures var q := Parts(ss[|ss| - 1], n);
            FileSizes(ss, n, kept) == Sizes(q) + FileSizes(ss[..|ss| - 1], n, kept)[|q|..]
  {
    var front, q := ss[..|ss| - 1], Parts(ss[|ss| - 1], n);
    forall i: nat | i < kept
      ensures FileSizes(ss, n, kept)[i] == if i < |q| then Sizes(q)[i] else FileSizes(front, n, kept)[i]
    {
      if i < |q| {
        OwnFile(ss, n, i, kept);
      }
    }
  }

  /** A session adds its packets, less those in the files it replaces. */
  lemma SessionAdds<P>(ss: seq<seq<P>>, n: nat, kept: nat)
    requires n >= 1 && ss != [] && |Parts(ss[|ss| - 1], n)| <= kept
    ensures var last, before := ss[|ss| - 1], FileSizes(ss[..|ss| - 1], n, kept);
            Sum(FileSizes(ss, n, kept)) + Sum(before[..|Parts(last, n)|]) == |last| + Sum(before)
  {
    var q, before := Parts(ss[|ss| - 1], n), FileSizes(ss[..|ss| - 1], n, kept);
    PartsAreSlices(ss[|ss| - 1], n);
    JoinSize(q);
    LastSessionFiles(ss, n, kept);
    SumOfTwo(Sizes(q), before[|q|..]);
    SumOfTwo(before[..|q|], before[|q|..]);
    assert before[..|q|] + before[|q|..] == before;
  }

  lemma {:induction false} HeldAtMost<P>(ss: seq<seq<P>>, n: nat, kept: nat)
    requires n >= 1 && AllFit(ss, n, kept)
    ensures Sum(FileSizes(ss, n, kept)) <= Total(ss)
  {
    if ss == [] {
      SumOfZeros(FileSizes(ss, n, kept));
    } else {
      HeldAtMost(ss[..|ss| - 1], n, kept);
      SessionAdds(ss, n, kept);
    }
  }

  lemma NothingHeld<P>(ss: seq<seq<P>>, n: nat, m: nat, kept: nat)
    requires NonEmptySessions(ss) == 0 && m <= kept
    ensures Sum(FileSizes(ss, n, kept)[..m]) == 0
  {
    forall i: nat | i < kept ensures FileSizes(ss, n, kept)[i] == 0 {
      NoFileOf(ss, n, i, kept);
    }
    SumOfZeros(FileSizes(ss, n, kept)[..m]);
  }

  lemma {:induction false} EmptyTotal<P>(ss: seq<seq<P>>)
    requires NonEmptySessions(ss) == 0
    ensures Total(ss) == 0
  {
    if ss != [] {
      EmptyTotal(ss[..|ss| - 1]);
    }
  }

  lemma {:induction false} NoFileOf<P>(ss: seq<seq<P>>, n: nat, i: nat, kept: nat)
    requires NonEmptySessions(ss) == 0 && i < kept
    ensures FileOf(ss, n, i, kept) == None
  {
    if ss != [] {
      NoFileOf(ss[..|ss| - 1], n, i, kept);
    }
  }

  /** Any session that wrote something left a first file with something in it. */
  lemma {:induction false} FirstFileHeld<P>(ss: seq<seq<P>>, n: nat, kept: nat)
    requires n >= 1 && AllFit(ss, n, kept) && NonEmptySessions(ss) >= 1 && kept >= 1
    ensures FileSizes(ss, n, kept)[0] >= 1
  {
    var q := Parts(ss[|ss| - 1], n);
    PartsAreSlices(ss[|ss| - 1], n);
    if q == [] {
      FirstFileHeld(ss[..|ss| - 1], n, kept);
    } else {
      OwnFile(ss, n, 0, kept);
    }
  }

  /** The reference files hold everything iff at most one session wrote anything. */
  lemma {:induction false} AllHeldIff<P>(ss: seq<seq<P>>, n: nat, kept: nat)
    requires n >= 1 && AllFit(ss, n, kept)
    ensures Sum(FileSizes(ss, n, kept)) == Total(ss) <==> NonEmptySessions(ss) <= 1
  {
    if ss == [] {
      SumOfZeros(FileSizes(ss, n, kept));
    } else {
      AllHeldIff(ss[..|ss| - 1], n, kept);
      HeldAtMost(ss[..|ss| - 1], n, kept);
      SessionAdds(ss, n, kept);
      PartsAreSlices(ss[|ss| - 1], n);
      ReplacedIff(ss[..|ss| - 1], n, |Parts(ss[|ss| - 1], n)|, kept);
    }
  }

  /** A session of m parts replaces packets iff it has a part and an earlier session wrote something. */
  lemma ReplacedIff<P>(ss: seq<seq<P>>, n: nat, m: nat, kept: nat)
    requires n >= 1 && AllFit(ss, n, kept) && m <= kept
    ensures Sum(FileSizes(ss, n, kept)[..m]) > 0 <==> m > 0 && NonEmptySessions(ss) > 0
    ensures NonEmptySessions(ss) == 0 ==> Sum(FileSizes(ss, n, kept)) == Total(ss) == 0
  {
    if NonEmptySessions(ss) == 0 {
      EmptyTotal(ss);
      NothingHeld(ss, n, m, kept);
      NothingHeld(ss, n, kept, kept);
      assert FileSizes(ss, n, kept)[..kept] == FileSizes(ss, n, kept);
    } else if m > 0 {
      FirstFileHeld(ss, n, kept);
      SumAtLeastFirst(FileSizes(ss, n, kept)[..m]);
    }
  }

  // ---------------------------------------------------------------------------
  // On disk
  // ---------------------------------------------------------------------------

  lemma {:induction false} EnabledAreSessions<P>(rs: seq<Record<P>>)
    ensures Total(Sessions(rs)) == EnabledCount(rs)
  {
    if rs == [] {
      assert Sessions(rs)[..0] == [];
    } else {
      EnabledAreSessions(rs[..|rs| - 1]);
      LastCounts(Sessions(rs[..|rs| - 1]), rs[|rs| - 1].packet);
    }
  }

  lemma LastCounts<P>(ss: seq<seq<P>>, p: P)
    requires ss != []
    ensures Total(ss + [[]]) == Total(ss)
    ensures Total(ss[|ss| - 1 := ss[|ss| - 1] + [p]]) == Total(ss) + 1
  {
    assert (ss + [[]])[..|ss|] == ss;
    assert ss[|ss| - 1 := ss[|ss| - 1] + [p]][..|ss| - 1] == ss[..|ss| - 1];
  }

  lemma DiskIsHeld<P>(cfg: FileConfig, disk: map<string, seq<P>>, ss: seq<seq<P>>, was: map<string, seq<P>>)
    requires FilesAre(cfg, disk, ss, was) && NoPartFiles(cfg, was)
    ensures DiskSizes(cfg, disk) == FileSizes(ss, PartSize(cfg), Kept(cfg))
  {
    forall i: nat | i < Kept(cfg) ensures DiskSizes(cfg, disk)[i] == FileSizes(ss, PartSize(cfg), Kept(cfg))[i] {
      FileHeld(cfg, disk, ss, was, i);
    }
  }

  lemma FileHeld<P>(cfg: FileConfig, disk: map<string, seq<P>>, ss: seq<seq<P>>, was: map<string, seq<P>>, i: nat)
    requires i < Kept(cfg) && FilesAre(cfg, disk, ss, was) && NoPartFiles(cfg, was)
    ensures |Contents(disk, PartName(cfg, i))| == Size(FileOf(ss, PartSize(cfg), i, Kept(cfg)))
  {
    assert FileIs(cfg, disk, ss, was, i);
  }

  /**
   * Written from rest to a disk without part files, no session long enough to re-use a number: the
   * part files together have as many packets as were enabled exactly when at most one of the sessions
   * between disabled packets wrote anything.
   */
  lemma NothingLostIff<P>(cfg: FileConfig, f: File<P>, rs: seq<Record<P>>)
    requires Rested(f) && NoPartFiles(cfg, f.disk) && AllFit(Sessions(rs), PartSize(cfg), Kept(cfg))
    ensures Sum(DiskSizes(cfg, WriteAll(cfg, f, rs).disk)) == EnabledCount(rs) <==>
            NonEmptySessions(Sessions(rs)) <= 1
  {
    SessionsLaw(cfg, f, rs);
    DiskIsHeld(cfg, WriteAll(cfg, f, rs).disk, Sessions(rs), f.disk);
    EnabledAreSessions(rs);
    AllHeldIff(Sessions(rs), PartSize(cfg), Kept(cfg));
  }

  /** An input that loses a packet: one to write, one with writing disabled, one to write again. */
  lemma ResumingReplaces<P>(cfg: FileConfig, p: P, q: P, r: P)
    ensures var f := WriteAll(cfg, File(None, "", 0, 0, map[]), [Record(p, false), Record(q, true), Record(r, false)]);
            f.disk == map[PartName(cfg, 0) := [r]]
  {
    var f0: File<P> := File(None, "", 0, 0, map[]);
    var rs := [Record(p, false), Record(q, true), Record(r, false)];
    var f1 := WriteFile(cfg, f0, rs[0]);
    var f2 := WriteFile(cfg, f1, rs[1]);
    assert rs[..2][..1] == [rs[0]] && rs[..1][..0] == [];
    assert WriteAll(cfg, f0, rs[..1]) == f1;
    assert WriteAll(cfg, f0, rs[..2]) == f2;
    FirstPacket(cfg, f0, p);
    FirstPacket(cfg, f2, r);
  }

  /** What a packet leaves on disk when it is the first of a session. */
  lemma FirstPacket<P>(cfg: FileConfig, f: File<P>, p: P)
    requires Rested(f)
    ensures WriteFile(cfg, f, Record(p, false)).disk == f.disk[PartName(cfg, 0) := [p]]
  {
    assert [] + [p] == [p];
  }
}
