/** File rotation (SmurfDataFile::write_file in src/smurf_processor.cpp) over an abstract disk. */
module DataFiles {
  import opened Words
  import opened Wrappers

  const PART_NUMBERS := 99999

  /** The part of SmurfConfig that write_file reads. */
  datatype FileConfig = FileConfig(name: string, extend: bool, dataFrames: int)

  /** A packet and its disable-file-write bit. */
  datatype Record<P> = Record(packet: P, disabled: bool)

  /** The writer and the files by name; an open descriptor is the name it was opened under. */
  datatype File<P> = File(fd: Option<string>, filename: string, frameCounter: nat, part: nat, disk: map<string, seq<P>>)

  // ---------------------------------------------------------------------------
  // File names
  // ---------------------------------------------------------------------------

  function DigitChar(d: nat): char
    requires d < 10
  {
    ('0' as int + d) as char
  }

  /** Decimal digits, padded with zeros to a width: "%0<width>u". */
  function Decimal(n: nat, width: nat): (s: string)
    ensures s != []
    decreases n + width
  {
    if n < 10 && width <= 1 then [DigitChar(n)]
    else Decimal(n / 10, if width == 0 then 0 else width - 1) + [DigitChar(n % 10)]
  }

  function Value(s: string): int {
    if s == "" then 0 else 10 * Value(s[..|s| - 1]) + (s[|s| - 1] as int - '0' as int)
  }

  lemma {:induction false} DecimalValue(n: nat, width: nat)
    ensures Value(Decimal(n, width)) == n
    decreases n + width
  {
    var s := Decimal(n, width);
    if n < 10 && width <= 1 {
      assert s[..|s| - 1] == "";
    } else {
      var front := Decimal(n / 10, if width == 0 then 0 else width - 1);
      DecimalValue(n / 10, if width == 0 then 0 else width - 1);
      assert s[..|s| - 1] == front;
    }
  }

  function PartName(cfg: FileConfig, part: nat): string {
    if cfg.extend then cfg.name + (".part_" + Decimal(part, 5)) else cfg.name
  }

  function Power10(w: nat): (p: nat)
    ensures p > 0
  {
    if w == 0 then 1 else 10 * Power10(w - 1)
  }

  predicate AllDigits(s: string) {
    forall k :: 0 <= k < |s| ==> '0' <= s[k] <= '9'
  }

  lemma {:induction false} DecimalIsPadded(n: nat, width: nat)
    requires width >= 1 && n < Power10(width)
    ensures |Decimal(n, width)| == width && AllDigits(Decimal(n, width))
    decreases width
  {
    if width > 1 {
      DecimalIsPadded(n / 10, width - 1);
    }
  }

  /** A part's file name is the configured one, ".part_", and the part number in five decimal digits. */
  lemma PartNameIs(cfg: FileConfig, part: nat)
    requires cfg.extend && part < 100000
    ensures var n := |cfg.name| + 6;
            var name := PartName(cfg, part);
            && |name| == n + 5 && name[..n] == cfg.name + ".part_"
            && AllDigits(name[n..]) && Value(name[n..]) == part
  {
    assert Power10(5) == 100000 by {
      assert Power10(2) == 100 && Power10(3) == 1000;
    }
    DecimalIsPadded(part, 5);
    DecimalValue(part, 5);
    var n := |cfg.name| + 6;
    assert PartName(cfg, part)[n..] == Decimal(part, 5);
    assert PartName(cfg, part)[..n] == cfg.name + ".part_";
  }

  /** Different parts have different file names. */
  lemma PartNamesDiffer(cfg: FileConfig, p: nat, q: nat)
    requires cfg.extend && p != q
    ensures PartName(cfg, p) != PartName(cfg, q)
  {
    var n := |cfg.name| + 6;
    assert PartName(cfg, p)[n..] == Decimal(p, 5) && PartName(cfg, q)[n..] == Decimal(q, 5);
    DecimalValue(p, 5);
    DecimalValue(q, 5);
  }

  // ---------------------------------------------------------------------------
  // One call as a function
  // ---------------------------------------------------------------------------

  /** data_frames as the unsigned number it is compared as. */
  function Limit(cfg: FileConfig): nat {
    cfg.dataFrames % TWO_32
  }

  function Close<P>(f: File<P>): File<P> {
    f.(fd := None)
  }

  /** Without the extension a changed name closes the old file. */
  function FollowName<P>(cfg: FileConfig, f: File<P>): File<P> {
    if !cfg.extend && cfg.name != f.filename then Close(f) else f
  }

  /** With no file open, an existing one of the wanted name is deleted and a new one created. */
  function Open<P>(cfg: FileConfig, f: File<P>): (r: File<P>)
    ensures r.fd.Some?
  {
    if f.fd.Some? then f
    else
      var name := PartName(cfg, f.part);
      f.(fd := Some(name), filename := name, disk := f.disk[name := []])
  }

  /** Appends a packet; what is in a file that is not there is taken as nothing. */
  function Append<P>(f: File<P>, p: P): File<P>
    requires f.fd.Some?
  {
    f.(disk := f.disk[f.fd.value := Contents(f.disk, f.fd.value) + [p]])
  }

  function Contents<P>(disk: map<string, seq<P>>, name: string): seq<P> {
    if name in disk then disk[name] else []
  }

  /** The file of a name, if there is one. */
  function FileAt<P>(disk: map<string, seq<P>>, name: string): Option<seq<P>> {
    if name in disk then Some(disk[name]) else None
  }

  /** Counts the packet, and closes the file and moves to the next part when it is full. */
  function Rotate<P>(cfg: FileConfig, f: File<P>): File<P> {
    var c := (f.frameCounter + 1) % TWO_32;
    if c >= Limit(cfg) then f.(fd := None, frameCounter := 0, part := (f.part + 1) % PART_NUMBERS)
    else f.(frameCounter := c)
  }

  function WriteFile<P>(cfg: FileConfig, f: File<P>, r: Record<P>): File<P> {
    if r.disabled then f.(fd := None, part := 0, frameCounter := 0)
    else Rotate(cfg, Append(Open(cfg, FollowName(cfg, f)), r.packet))
  }

  /** write_file called on each packet, in order. */
  function WriteAll<P>(cfg: FileConfig, f: File<P>, rs: seq<Record<P>>): File<P> {
    if rs == [] then f else WriteFile(cfg, WriteAll(cfg, f, rs[..|rs| - 1]), rs[|rs| - 1])
  }

  class SmurfDataFile<P> {
    var fd: Option<string>
    var filename: string
    var frameCounter: nat
    var part: nat
    var disk: map<string, seq<P>>

    function Abstract(): File<P>
      reads this
    {
      File(fd, filename, frameCounter, part, disk)
    }

    constructor (disk: map<string, seq<P>>)
      ensures Abstract() == File(None, "", 0, 0, disk)
    {
      fd, filename, frameCounter, part := None, "", 0, 0;
      this.disk := disk;
    }

    method Write(packet: P, disabled: bool, cfg: FileConfig) returns (written: nat)
      modifies this
      ensures Abstract() == WriteFile(cfg, old(Abstract()), Record(packet, disabled))
      ensures written == frameCounter
    {
      if disabled {
        part := 0;
        fd := None;
        frameCounter := 0;
        return frameCounter;
      }
      if !cfg.extend && cfg.name != filename {
        fd := None;
      }
      if fd.None? {
        Create(cfg);
      }
      disk := disk[fd.value := Contents(disk, fd.value) + [packet]];
      frameCounter := (frameCounter + 1) % TWO_32;
      if frameCounter >= Limit(cfg) {
        fd := None;
        frameCounter := 0;
        part := (part + 1) % PART_NUMBERS;
      }
      return frameCounter;
    }

    /** Builds the name, deletes a file of that name if there is one, and creates it. */
    method Create(cfg: FileConfig)
      requires fd.None?
      modifies this
      ensures Abstract() == Open(cfg, old(Abstract()))
    {
      filename := cfg.name;
      if cfg.extend {
        filename := filename + (".part_" + Decimal(part, 5));
      }
      ghost var was := disk;
      disk := disk - {filename};
      disk := disk[filename := []];
      assert disk == was[filename := []];
      fd := Some(filename);
    }
  }

  // ---------------------------------------------------------------------------
  // Reference: the packets cut into parts
  // ---------------------------------------------------------------------------

  /** Parts of n packets each, the last one possibly shorter. */
  function Parts<P>(ps: seq<P>, n: nat): (q: seq<seq<P>>) {
    if ps == [] then []
    else
      PutPart(Parts(ps[..|ps| - 1], n), ps[|ps| - 1], n)
  }

  /** A packet goes into the last part while that has room, else into a new one. */
  function PutPart<P>(q: seq<seq<P>>, p: P, n: nat): seq<seq<P>> {
    if q != [] && |q[|q| - 1]| < n then q[|q| - 1 := q[|q| - 1] + [p]] else q + [[p]]
  }

  function Join<P>(q: seq<seq<P>>): seq<P> {
    if q == [] then [] else Join(q[..|q| - 1]) + q[|q| - 1]
  }

  /** How many packets a file takes: a limit of zero still takes one. */
  function PartSize(cfg: FileConfig): (n: nat)
    ensures n >= 1
  {
    if Limit(cfg) == 0 then 1 else Limit(cfg)
  }

  /** q cuts ps into parts of n packets, the last one of one to n. */
  ghost predicate Cuts<P>(q: seq<seq<P>>, ps: seq<P>, n: nat) {
    && (ps == [] <==> q == [])
    && (q != [] ==> 1 <= |q[|q| - 1]| <= n && |ps| == (|q| - 1) * n + |q[|q| - 1]|)
    && (forall r :: 0 <= r < |q| - 1 ==> |q[r]| == n)
    && Join(q) == ps
  }

  lemma {:induction false} PartsAreSlices<P>(ps: seq<P>, n: nat)
    requires n >= 1
    ensures Cuts(Parts(ps, n), ps, n)
  {
    if ps != [] {
      PartsAreSlices(ps[..|ps| - 1], n);
      PutPartCuts(Parts(ps[..|ps| - 1], n), ps[..|ps| - 1], ps[|ps| - 1], n);
      assert ps[..|ps| - 1] + [ps[|ps| - 1]] == ps;
    }
  }

  lemma PutPartCuts<P>(q: seq<seq<P>>, ps: seq<P>, p: P, n: nat)
    requires n >= 1 && Cuts(q, ps, n)
    ensures Cuts(PutPart(q, p, n), ps + [p], n)
  {
    var q' := PutPart(q, p, n);
    var last := |q'| - 1;
    if q != [] && |q[|q| - 1]| < n {
      assert q'[..last] == q[..last];
    } else {
      assert q'[..last] == q;
      if q != [] {
        assert (|q| - 1) * n + n == |q| * n;
      }
    }
  }

  /** The n packets from number `from` on, or as many as there are. */
  function Slice<P>(ps: seq<P>, from: int, n: nat): seq<P> {
    if 0 <= from <= |ps| then ps[from..if from + n < |ps| then from + n else |ps|] else []
  }

  /** Part r holds packets r*n up to (r+1)*n or the end. */
  lemma PartIsSlice<P>(ps: seq<P>, n: nat, r: nat)
    requires n >= 1 && r < |Parts(ps, n)|
    ensures 0 <= r * n < |ps|
    ensures Parts(ps, n)[r] == Slice(ps, r * n, n)
  {
    PartsAreSlices(ps, n);
    var q := Parts(ps, n);
    JoinSlice(q, n, r, |q|);
    assert q[..|q|] == q;
    SliceIs(ps, r * n, |q[r]|, n);
  }

  lemma SliceIs<P>(ps: seq<P>, from: nat, len: nat, n: nat)
    requires 0 < len <= n && from + len <= |ps| && (len == n || from + len == |ps|)
    ensures from < |ps| && Slice(ps, from, n) == ps[from..from + len]
  {}

  /** With all parts before the last of size n, part r starts r*n packets in. */
  lemma {:induction false} JoinSlice<P>(q: seq<seq<P>>, n: nat, r: nat, m: nat)
    requires r < m <= |q| && forall k :: 0 <= k < |q| - 1 ==> |q[k]| == n
    ensures |Join(q[..m])| == (m - 1) * n + |q[m - 1]|
    ensures 0 <= r * n && r * n + |q[r]| <= |Join(q[..m])|
    ensures r == m - 1 ==> r * n + |q[r]| == |Join(q[..m])|
    ensures Join(q[..m])[r * n..r * n + |q[r]|] == q[r]
  {
    assert q[..m][..m - 1] == q[..m - 1];
    if m > 1 {
      JoinSlice(q, n, if r < m - 1 then r else 0, m - 1);
      assert (m - 1) * n == (m - 2) * n + n;
    } else {
      assert q[..0] == [];
    }
  }

  lemma LessTimes(x: nat, y: nat, n: nat)
    requires x <= y
    ensures x * n <= y * n
  {}

  // ---------------------------------------------------------------------------
  // Rotation
  // ---------------------------------------------------------------------------

  /** No file open and counting from part zero: the start, and every state right after a disabled packet. */
  predicate Rested<P>(f: File<P>) {
    f.fd == None && f.part == 0 && f.frameCounter == 0
  }

  lemma DisabledPacketRests<P>(cfg: FileConfig, f: File<P>, p: P)
    ensures Rested(WriteFile(cfg, f, Record(p, true))) && WriteFile(cfg, f, Record(p, true)).disk == f.disk
  {}

  function Enabled<P>(ps: seq<P>): (rs: seq<Record<P>>)
    ensures |rs| == |ps|
  {
    seq(|ps|, k requires 0 <= k < |ps| => Record(ps[k], false))
  }

  /** The descriptor, counter and part number after some packets cut into parts q of size n. */
  ghost predicate AtPart<P>(cfg: FileConfig, f: File<P>, q: seq<seq<P>>, n: nat) {
    if q == [] then Rested(f)
    else
      var m := |q|;
      if |q[m - 1]| == n then f.fd == None && f.frameCounter == 0 && f.part == m % PART_NUMBERS
      else
        && f.fd == Some(PartName(cfg, (m - 1) % PART_NUMBERS)) && f.frameCounter == |q[m - 1]|
        && f.part == (m - 1) % PART_NUMBERS && (cfg.extend || f.filename == cfg.name)
  }

  /** Each of the last `kept` parts is a file of its own under the name of its part number. */
  ghost predicate Holds<P>(cfg: FileConfig, disk: map<string, seq<P>>, q: seq<seq<P>>, kept: nat) {
    forall r :: 0 <= r < |q| && |q| - kept <= r ==>
      var name := PartName(cfg, r % PART_NUMBERS); name in disk && disk[name] == q[r]
  }

  /** Descriptor, counters and files agree with the parts. */
  ghost predicate Rotated<P>(cfg: FileConfig, f: File<P>, q: seq<seq<P>>) {
    AtPart(cfg, f, q, PartSize(cfg)) && Holds(cfg, f.disk, q, Kept(cfg))
  }

  /** Part numbers are re-used after 99999 parts; without the extension all parts share one name. */
  function Kept(cfg: FileConfig): nat {
    if cfg.extend then PART_NUMBERS else 1
  }

  lemma DifferentPart(cfg: FileConfig, r: nat, m: nat)
    requires r < m < r + Kept(cfg)
    ensures PartName(cfg, r % PART_NUMBERS) != PartName(cfg, m % PART_NUMBERS)
  {
    PartNamesDiffer(cfg, r % PART_NUMBERS, m % PART_NUMBERS);
  }

  /** A packet that starts a new part. */
  lemma NewPart<P>(cfg: FileConfig, f: File<P>, q: seq<seq<P>>, p: P)
    requires AtPart(cfg, f, q, PartSize(cfg)) && Holds(cfg, f.disk, q, Kept(cfg))
    requires q == [] || |q[|q| - 1]| == PartSize(cfg)
    ensures var f' := WriteFile(cfg, f, Record(p, false));
            && AtPart(cfg, f', q + [[p]], PartSize(cfg)) && Holds(cfg, f'.disk, q + [[p]], Kept(cfg))
            && forall name :: name != PartName(cfg, |q| % PART_NUMBERS) ==>
                 FileAt(f'.disk, name) == FileAt(f.disk, name)
  {
    var f' := WriteFile(cfg, f, Record(p, false));
    var name := PartName(cfg, |q| % PART_NUMBERS);
    assert f.part == |q| % PART_NUMBERS;
    assert [] + [p] == [p];
    assert f'.disk == f.disk[name := []][name := [p]];
    NextResidue(|q|, PART_NUMBERS);
    HoldsAfterNew(cfg, f.disk, q, p);
  }

  lemma HoldsAfterNew<P>(cfg: FileConfig, disk: map<string, seq<P>>, q: seq<seq<P>>, p: P)
    requires Holds(cfg, disk, q, Kept(cfg))
    ensures Holds(cfg, disk[PartName(cfg, |q| % PART_NUMBERS) := [p]], q + [[p]], Kept(cfg))
  {
    var disk', q' := disk[PartName(cfg, |q| % PART_NUMBERS) := [p]], q + [[p]];
    forall r | 0 <= r < |q'| && |q'| - Kept(cfg) <= r
      ensures var n := PartName(cfg, r % PART_NUMBERS); n in disk' && disk'[n] == q'[r]
    {
      if r < |q| {
        DifferentPart(cfg, r, |q|);
        assert PartName(cfg, r % PART_NUMBERS) in disk;
      }
    }
  }

  /** A packet that goes into the open part. */
  lemma SamePart<P>(cfg: FileConfig, f: File<P>, q: seq<seq<P>>, p: P)
    requires AtPart(cfg, f, q, PartSize(cfg)) && Holds(cfg, f.disk, q, Kept(cfg))
    requires q != [] && 1 <= |q[|q| - 1]| < PartSize(cfg)
    ensures var f' := WriteFile(cfg, f, Record(p, false));
            var q' := q[|q| - 1 := q[|q| - 1] + [p]];
            && AtPart(cfg, f', q', PartSize(cfg)) && Holds(cfg, f'.disk, q', Kept(cfg))
            && forall name :: name != PartName(cfg, (|q| - 1) % PART_NUMBERS) ==>
                 FileAt(f'.disk, name) == FileAt(f.disk, name)
  {
    var m := |q| - 1;
    var name := PartName(cfg, m % PART_NUMBERS);
    assert name in f.disk && f.disk[name] == q[m];
    NextResidue(m, PART_NUMBERS);
    HoldsAfterAppend(cfg, f.disk, q, p);
  }

  lemma HoldsAfterAppend<P>(cfg: FileConfig, disk: map<string, seq<P>>, q: seq<seq<P>>, p: P)
    requires q != [] && Holds(cfg, disk, q, Kept(cfg))
    ensures var m := |q| - 1;
            Holds(cfg, disk[PartName(cfg, m % PART_NUMBERS) := q[m] + [p]], q[m := q[m] + [p]], Kept(cfg))
  {
    var m := |q| - 1;
    var name := PartName(cfg, m % PART_NUMBERS);
    var disk', q' := disk[name := q[m] + [p]], q[m := q[m] + [p]];
    forall r | 0 <= r < |q'| && |q'| - Kept(cfg) <= r
      ensures var n := PartName(cfg, r % PART_NUMBERS); n in disk' && disk'[n] == q'[r]
    {
      if r < m {
        DifferentPart(cfg, r, m);
        assert PartName(cfg, r % PART_NUMBERS) in disk;
      }
    }
  }

  /** What a packet does: the part it goes into is the file of that number, and every other file is as before. */
  ghost predicate Grown<P>(cfg: FileConfig, disk: map<string, seq<P>>,
                           disk': map<string, seq<P>>, q: seq<seq<P>>, p: P)
  {
    var q' := PutPart(q, p, PartSize(cfg));
    var own := PartName(cfg, (|q'| - 1) % PART_NUMBERS);
    && FileAt(disk', own) == Some(q'[|q'| - 1])
    && forall name :: name != own ==> FileAt(disk', name) == FileAt(disk, name)
  }

  lemma RotationStep<P>(cfg: FileConfig, f: File<P>, q: seq<seq<P>>, p: P)
    requires Rotated(cfg, f, q) && (q != [] ==> 1 <= |q[|q| - 1]| <= PartSize(cfg))
    ensures var f' := WriteFile(cfg, f, Record(p, false));
            Rotated(cfg, f', PutPart(q, p, PartSize(cfg))) && Grown(cfg, f.disk, f'.disk, q, p)
  {
    if q != [] && |q[|q| - 1]| < PartSize(cfg) {
      SamePart(cfg, f, q, p);
    } else {
      NewPart(cfg, f, q, p);
    }
  }

  // A disabled packet ends a session; the next one starts again at part 0.

  function Sessions<P>(rs: seq<Record<P>>): (ss: seq<seq<P>>)
    ensures ss != []
  {
    if rs == [] then [[]] else AddRecord(Sessions(rs[..|rs| - 1]), rs[|rs| - 1])
  }

  function AddRecord<P>(ss: seq<seq<P>>, r: Record<P>): (ss': seq<seq<P>>)
    requires ss != []
    ensures ss' != []
  {
    if r.disabled then ss + [[]] else ss[|ss| - 1 := ss[|ss| - 1] + [r.packet]]
  }

  /** The last of m parts that was written under number i. */
  function LastPart(m: nat, i: nat, kept: nat): (r: nat)
    requires i < m && i < kept
    ensures r < m && r % kept == i && forall k :: r < k < m ==> k % kept != i
  {
    if (m - 1) % kept == i then m - 1 else LastPart(m - 1, i, kept)
  }

  /** What file number i holds: the last part of that number in the last session that had one. */
  function FileOf<P>(ss: seq<seq<P>>, n: nat, i: nat, kept: nat): Option<seq<P>>
    requires i < kept
  {
    if ss == [] then None
    else
      var q := Parts(ss[|ss| - 1], n);
      if i < |q| then Some(q[LastPart(|q|, i, kept)]) else FileOf(ss[..|ss| - 1], n, i, kept)
  }

  function OrElse<T>(x: Option<T>, y: Option<T>): Option<T> {
    if x.Some? then x else y
  }

  /** The part files hold the sessions, over the files that were there. */
  ghost predicate FilesAre<P>(cfg: FileConfig, disk: map<string, seq<P>>, ss: seq<seq<P>>, was: map<string, seq<P>>) {
    forall i: nat :: i < Kept(cfg) ==> FileIs(cfg, disk, ss, was, i)
  }

  ghost predicate FileIs<P>(cfg: FileConfig, disk: map<string, seq<P>>,
                            ss: seq<seq<P>>, was: map<string, seq<P>>, i: nat)
    requires i < Kept(cfg)
  {
    FileAt(disk, PartName(cfg, i)) == OrElse(FileOf(ss, PartSize(cfg), i, Kept(cfg)), FileAt(was, PartName(cfg, i)))
  }

  /**
   * Rotation, for every sequence of packets, enabled or not, written from rest with a fixed
   * configuration.  File i holds the last part numbered i of the last session that got so far, so a
   * session that resumes replaces the first files of the ones before; and the session still open is
   * on disk part by part.
   */
  lemma {:induction false} SessionsLaw<P>(cfg: FileConfig, f: File<P>, rs: seq<Record<P>>)
    requires Rested(f)
    ensures SessionsHeld(cfg, f.disk, WriteAll(cfg, f, rs), Sessions(rs))
  {
    if rs == [] {
      NoFiles<P>(PartSize(cfg), Kept(cfg));
    } else {
      SessionsLaw(cfg, f, rs[..|rs| - 1]);
      SessionsStep(cfg, f.disk, WriteAll(cfg, f, rs[..|rs| - 1]), Sessions(rs[..|rs| - 1]), rs[|rs| - 1]);
    }
  }

  ghost predicate SessionsHeld<P>(cfg: FileConfig, was: map<string, seq<P>>, f: File<P>, ss: seq<seq<P>>) {
    ss != [] && FilesAre(cfg, f.disk, ss, was) && Rotated(cfg, f, Parts(ss[|ss| - 1], PartSize(cfg)))
  }

  lemma SessionsStep<P>(cfg: FileConfig, was: map<string, seq<P>>, f: File<P>, ss: seq<seq<P>>, r: Record<P>)
    requires SessionsHeld(cfg, was, f, ss)
    ensures SessionsHeld(cfg, was, WriteFile(cfg, f, r), AddRecord(ss, r))
  {
    if r.disabled {
      SessionEnds(cfg, f, ss, r.packet, was);
    } else {
      SessionGrows(cfg, f, WriteFile(cfg, f, r), ss, r.packet, was);
    }
  }

  lemma NoFiles<P>(n: nat, kept: nat)
    ensures forall i: nat :: i < kept ==> FileOf<P>([[]], n, i, kept) == None
  {
    assert forall i: nat :: i < kept ==> FileOf<P>([[]][..0], n, i, kept) == None;
  }

  lemma SessionEnds<P>(cfg: FileConfig, f: File<P>, ss: seq<seq<P>>, p: P, was: map<string, seq<P>>)
    requires FilesAre(cfg, f.disk, ss, was)
    ensures var f' := WriteFile(cfg, f, Record(p, true));
            FilesAre(cfg, f'.disk, ss + [[]], was) && Rotated(cfg, f', Parts([], PartSize(cfg)))
  {
    DisabledPacketRests(cfg, f, p);
    var ss' := ss + [[]];
    assert ss'[..|ss|] == ss;
    forall i: nat | i < Kept(cfg) ensures FileIs(cfg, f.disk, ss', was, i) {
      assert FileIs(cfg, f.disk, ss, was, i);
    }
  }

  lemma SessionGrows<P>(cfg: FileConfig, f: File<P>, f': File<P>, ss: seq<seq<P>>, p: P, was: map<string, seq<P>>)
    requires ss != [] && FilesAre(cfg, f.disk, ss, was) && Rotated(cfg, f, Parts(ss[|ss| - 1], PartSize(cfg)))
    requires f' == WriteFile(cfg, f, Record(p, false))
    ensures var ss' := ss[|ss| - 1 := ss[|ss| - 1] + [p]];
            FilesAre(cfg, f'.disk, ss', was) && Rotated(cfg, f', Parts(ss'[|ss| - 1], PartSize(cfg)))
  {
    var last, n := |ss| - 1, PartSize(cfg);
    PartsAreSlices(ss[last], n);
    RotationStep(cfg, f, Parts(ss[last], n), p);
    PartsGrow(ss[last], p, n);
    FilesMove(cfg, f.disk, f'.disk, ss, p, was);
  }

  lemma PartsGrow<P>(ps: seq<P>, p: P, n: nat)
    ensures Parts(ps + [p], n) == PutPart(Parts(ps, n), p, n)
  {
    assert (ps + [p])[..|ps|] == ps;
  }

  /** If only the file of the part that got the packet changed, the files hold the longer session. */
  lemma FilesMove<P>(cfg: FileConfig, disk: map<string, seq<P>>, disk': map<string, seq<P>>,
                     ss: seq<seq<P>>, p: P, was: map<string, seq<P>>)
    requires ss != [] && FilesAre(cfg, disk, ss, was)
    requires Grown(cfg, disk, disk', Parts(ss[|ss| - 1], PartSize(cfg)), p)
    ensures FilesAre(cfg, disk', ss[|ss| - 1 := ss[|ss| - 1] + [p]], was)
  {
    var ss' := ss[|ss| - 1 := ss[|ss| - 1] + [p]];
    forall i: nat | i < Kept(cfg) ensures FileIs(cfg, disk', ss', was, i) {
      FileMoves(cfg, disk, disk', ss, p, was, i);
    }
  }

  lemma FileMoves<P>(cfg: FileConfig, disk: map<string, seq<P>>, disk': map<string, seq<P>>, ss: seq<seq<P>>, p: P,
                     was: map<string, seq<P>>, i: nat)
    requires ss != [] && i < Kept(cfg) && FileIs(cfg, disk, ss, was, i)
    requires Grown(cfg, disk, disk', Parts(ss[|ss| - 1], PartSize(cfg)), p)
    ensures FileIs(cfg, disk', ss[|ss| - 1 := ss[|ss| - 1] + [p]], was, i)
  {
    GrownFile(cfg, disk, disk', Parts(ss[|ss| - 1], PartSize(cfg)), p, i);
    FileOfGrows(ss, p, PartSize(cfg), i, Kept(cfg));
  }

  lemma GrownFile<P>(cfg: FileConfig, disk: map<string, seq<P>>,
                     disk': map<string, seq<P>>, q: seq<seq<P>>, p: P, i: nat)
    requires i < Kept(cfg) && Grown(cfg, disk, disk', q, p)
    ensures var q' := PutPart(q, p, PartSize(cfg));
            FileAt(disk', PartName(cfg, i)) ==
            if (|q'| - 1) % Kept(cfg) == i then Some(q'[|q'| - 1]) else FileAt(disk, PartName(cfg, i))
  {
    NumberedName(cfg, |PutPart(q, p, PartSize(cfg))| - 1, i);
  }

  lemma FileOfGrows<P>(ss: seq<seq<P>>, p: P, n: nat, i: nat, kept: nat)
    requires ss != [] && i < kept
    ensures var q' := PutPart(Parts(ss[|ss| - 1], n), p, n);
            FileOf(ss[|ss| - 1 := ss[|ss| - 1] + [p]], n, i, kept) ==
            if (|q'| - 1) % kept == i then Some(q'[|q'| - 1]) else FileOf(ss, n, i, kept)
  {
    var last := |ss| - 1;
    assert ss[last := ss[last] + [p]][..last] == ss[..last];
    PartsGrow(ss[last], p, n);
    LastPartGrows(Parts(ss[last], n), p, n, i, kept);
  }

  /** A packet changes the last part only. */
  lemma LastPartGrows<P>(q: seq<seq<P>>, p: P, n: nat, i: nat, kept: nat)
    requires i < kept
    ensures var q' := PutPart(q, p, n);
            var m := |q'| - 1;
            if m % kept == i then i < |q'| && LastPart(|q'|, i, kept) == m
            else (i < |q'| <==> i < |q|) && (i < |q| ==> q'[LastPart(|q'|, i, kept)] == q[LastPart(|q|, i, kept)])
  {
    var m := |PutPart(q, p, n)| - 1;
    if m % kept == i {
      ResidueAtMost(m, kept);
    } else if m == i {
      ModUnique(m, 0, m, kept);
      assert false;
    }
  }

  lemma ResidueAtMost(m: nat, kept: nat)
    requires kept > 0
    ensures m % kept <= m
  {}

  /** Part m goes by the name of file i exactly when its number is i. */
  lemma NumberedName(cfg: FileConfig, m: nat, i: nat)
    requires i < Kept(cfg)
    ensures PartName(cfg, m % PART_NUMBERS) == PartName(cfg, i) <==> m % Kept(cfg) == i
  {
    if cfg.extend && m % PART_NUMBERS != i {
      PartNamesDiffer(cfg, m % PART_NUMBERS, i);
    }
  }

  /**
   * In one session the last 99999 parts (without the extension, the last part only) are on disk,
   * each whole and alone under its name.
   */
  lemma RotationLaw<P>(cfg: FileConfig, f: File<P>, ps: seq<P>)
    requires Rested(f)
    ensures Rotated(cfg, WriteAll(cfg, f, Enabled(ps)), Parts(ps, PartSize(cfg)))
  {
    SessionsLaw(cfg, f, Enabled(ps));
    OneSession(ps);
  }

  lemma {:induction false} OneSession<P>(ps: seq<P>)
    ensures Sessions(Enabled(ps)) == [ps]
  {
    if ps != [] {
      var front := ps[..|ps| - 1];
      OneSession(front);
      assert Enabled(ps)[..|ps| - 1] == Enabled(front);
      assert front + [ps[|ps| - 1]] == ps;
    }
  }

  /** A file name that belongs to no part. */
  ghost predicate Foreign(cfg: FileConfig, name: string) {
    forall part: nat :: part < PART_NUMBERS ==> name != PartName(cfg, part)
  }

  /** Files of other names are left alone. */
  lemma {:induction false} ForeignFilesStay<P>(cfg: FileConfig, f: File<P>, rs: seq<Record<P>>, name: string)
    requires Rested(f) && Foreign(cfg, name)
    ensures FileAt(WriteAll(cfg, f, rs).disk, name) == FileAt(f.disk, name)
  {
    if rs != [] {
      var front, r := rs[..|rs| - 1], rs[|rs| - 1];
      ForeignFilesStay(cfg, f, front, name);
      if !r.disabled {
        SessionsLaw(cfg, f, front);
        ForeignStep(cfg, WriteAll(cfg, f, front), Sessions(front)[|Sessions(front)| - 1], r.packet, name);
      }
    }
  }

  lemma ForeignStep<P>(cfg: FileConfig, f: File<P>, session: seq<P>, p: P, name: string)
    requires Rotated(cfg, f, Parts(session, PartSize(cfg))) && Foreign(cfg, name)
    ensures FileAt(WriteFile(cfg, f, Record(p, false)).disk, name) == FileAt(f.disk, name)
  {
    PartsAreSlices(session, PartSize(cfg));
    RotationStep(cfg, f, Parts(session, PartSize(cfg)), p);
  }

  /**
   * In numbers: with n = data_frames packets to a file and at most 99999 files' worth of packets,
   * part file r holds exactly the n packets from r*n on (fewer at the end), and frame_counter is k mod n.
   */
  lemma RotationInNumbers<P>(cfg: FileConfig, f: File<P>, ps: seq<P>, r: nat)
    requires Rested(f) && cfg.extend && cfg.dataFrames % 0x1_0000_0000 >= 1
    requires var n := cfg.dataFrames % 0x1_0000_0000; |ps| <= 99999 * n && r * n < |ps|
    ensures var n := cfg.dataFrames % 0x1_0000_0000;
            var f' := WriteAll(cfg, f, Enabled(ps));
            && r < 99999
            && PartName(cfg, r) in f'.disk
            && f'.disk[PartName(cfg, r)] == Slice(ps, r * n, n)
            && f'.frameCounter == |ps| % n
  {
    var n := Limit(cfg);
    var q := Parts(ps, n);
    RotationLaw(cfg, f, ps);
    LessTimes(0, r, n);
    PartsAreSlices(ps, n);
    PartCount(|q|, n, |ps|, |q[|q| - 1]|, r);
    CounterAndPart(cfg, WriteAll(cfg, f, Enabled(ps)), q, r);
    PartIsSlice(ps, n, r);
  }

  /** Part 99999 and every 99999th after it use the name of part 0 again, and so on for the others. */
  lemma PartNumbersReused<P>(cfg: FileConfig, f: File<P>, ps: seq<P>)
    requires Rested(f) && cfg.extend && ps != []
    ensures var q := Parts(ps, PartSize(cfg));
            var disk := WriteAll(cfg, f, Enabled(ps)).disk;
            && q != [] && FileAt(disk, PartName(cfg, (|q| - 1) % 99999)) == Some(q[|q| - 1])
            && (|q| == 100000 ==> FileAt(disk, PartName(cfg, 0)) == Some(q[99999]))
  {
    var q := Parts(ps, PartSize(cfg));
    var disk := WriteAll(cfg, f, Enabled(ps)).disk;
    RotationLaw(cfg, f, ps);
    PartsAreSlices(ps, PartSize(cfg));
    assert PartName(cfg, (|q| - 1) % PART_NUMBERS) in disk;
  }

  lemma CounterAndPart<P>(cfg: FileConfig, f: File<P>, q: seq<seq<P>>, r: nat)
    requires cfg.extend && Limit(cfg) >= 1 && r < |q| <= PART_NUMBERS
    requires AtPart(cfg, f, q, Limit(cfg)) && Holds(cfg, f.disk, q, PART_NUMBERS)
    ensures PartName(cfg, r) in f.disk && f.disk[PartName(cfg, r)] == q[r]
    ensures f.frameCounter == if |q[|q| - 1]| == Limit(cfg) then 0 else |q[|q| - 1]|
  {
    HoldsPart(cfg, f.disk, q, r);
  }

  /** While no number is re-used each part is in the file of its own number. */
  lemma HoldsPart<P>(cfg: FileConfig, disk: map<string, seq<P>>, q: seq<seq<P>>, r: nat)
    requires r < |q| <= PART_NUMBERS && Holds(cfg, disk, q, PART_NUMBERS)
    ensures PartName(cfg, r) in disk && disk[PartName(cfg, r)] == q[r]
  {
    ModUnique(r, 0, r, PART_NUMBERS);
    assert PartName(cfg, r % PART_NUMBERS) in disk;
  }

  lemma PartCount(m: nat, n: nat, k: nat, last: nat, r: nat)
    requires n >= 1 && m >= 1 && 1 <= last <= n && k == (m - 1) * n + last
    requires k <= PART_NUMBERS * n && r * n < k
    ensures r < m <= PART_NUMBERS
    ensures k % n == if last == n then 0 else last
  {
    if r >= m {
      LessTimes(m, r, n);
      assert false;
    }
    if m > PART_NUMBERS {
      LessTimes(PART_NUMBERS, m - 1, n);
      assert false;
    }
    if last == n {
      ModUnique(k, m, 0, n);
    } else {
      ModUnique(k, m - 1, last, n);
    }
  }

  /** The part files 0 .. m-1 read one after the other. */
  function Joined<P>(cfg: FileConfig, disk: map<string, seq<P>>, m: nat): seq<P> {
    if m == 0 then [] else Joined(cfg, disk, m - 1) + Contents(disk, PartName(cfg, m - 1))
  }

  lemma {:induction false} JoinedIsJoin<P>(cfg: FileConfig, disk: map<string, seq<P>>, q: seq<seq<P>>, m: nat)
    requires cfg.extend && m <= |q| <= PART_NUMBERS && Holds(cfg, disk, q, PART_NUMBERS)
    ensures Joined(cfg, disk, m) == Join(q[..m])
  {
    if m > 0 {
      JoinedIsJoin(cfg, disk, q, m - 1);
      HoldsPart(cfg, disk, q, m - 1);
      assert q[..m][..m - 1] == q[..m - 1];
    }
  }

  /** Nothing is lost or reordered on disk until part numbers run out. */
  lemma FilesHoldEverything<P>(cfg: FileConfig, f: File<P>, ps: seq<P>)
    requires Rested(f) && cfg.extend && |Parts(ps, PartSize(cfg))| <= PART_NUMBERS
    ensures Joined(cfg, WriteAll(cfg, f, Enabled(ps)).disk, |Parts(ps, PartSize(cfg))|) == ps
  {
    var q := Parts(ps, PartSize(cfg));
    RotationLaw(cfg, f, ps);
    PartsAreSlices(ps, PartSize(cfg));
    JoinedIsJoin(cfg, WriteAll(cfg, f, Enabled(ps)).disk, q, |q|);
    assert q[..|q|] == q;
  }

  /** Without the extension each new part deletes the one before: the file has the last part only. */
  lemma NoExtensionKeepsLastPart<P>(cfg: FileConfig, f: File<P>, ps: seq<P>)
    requires Rested(f) && !cfg.extend && ps != []
    ensures var q := Parts(ps, PartSize(cfg));
            var disk := WriteAll(cfg, f, Enabled(ps)).disk;
            && q != [] && cfg.name in disk && disk[cfg.name] == q[|q| - 1]
            && (disk[cfg.name] == ps <==> |ps| <= PartSize(cfg))
  {
    var q := Parts(ps, PartSize(cfg));
    RotationLaw(cfg, f, ps);
    PartsAreSlices(ps, PartSize(cfg));
    LastPartIsAll(q, ps, PartSize(cfg));
    LastPartHeld(cfg, WriteAll(cfg, f, Enabled(ps)).disk, q);
  }

  lemma LastPartHeld<P>(cfg: FileConfig, disk: map<string, seq<P>>, q: seq<seq<P>>)
    requires !cfg.extend && q != [] && Holds(cfg, disk, q, Kept(cfg))
    ensures cfg.name in disk && disk[cfg.name] == q[|q| - 1]
  {
    assert PartName(cfg, (|q| - 1) % PART_NUMBERS) == cfg.name;
  }

  lemma LastPartIsAll<P>(q: seq<seq<P>>, ps: seq<P>, n: nat)
    requires n >= 1 && q != [] && Cuts(q, ps, n)
    ensures q[|q| - 1] == ps <==> |ps| <= n
  {
    if |q| == 1 {
      assert q[..0] == [];
    } else {
      LessTimes(1, |q| - 1, n);
    }
  }
}
