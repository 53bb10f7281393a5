/** Files under a configuration that may change from packet to packet. */
module DataFileChanges {
  import opened Words
  import opened Wrappers
  import opened DataFiles

  /** One call of write_file. */
  datatype Call<P> = Call(cfg: FileConfig, record: Record<P>)

  function WriteEach<P>(f: File<P>, calls: seq<Call<P>>): File<P> {
    if calls == [] then f
    else
      var c := calls[|calls| - 1];
      WriteFile(c.cfg, WriteEach(f, calls[..|calls| - 1]), c.record)
  }

  /** An open descriptor is that of the file whose name is kept, and the file is there. */
  ghost predicate Named<P>(f: File<P>) {
    f.fd.Some? ==> f.fd.value == f.filename && f.filename in f.disk
  }

  lemma {:induction false} EachNamed<P>(f: File<P>, calls: seq<Call<P>>)
    requires Named(f)
    ensures Named(WriteEach(f, calls))
  {
    if calls != [] {
      EachNamed(f, calls[..|calls| - 1]);
    }
  }

  // ---------------------------------------------------------------------------
  // Without the name extension the configured name decides
  // ---------------------------------------------------------------------------

  /** Packet p went to the end of the file of a name, and no other file changed. */
  ghost predicate WentTo<P>(disk: map<string, seq<P>>, disk': map<string, seq<P>>, name: string, p: P) {
    && name in disk' && disk'[name] != [] && disk'[name][|disk'[name]| - 1] == p
    && forall other :: other != name ==> FileAt(disk', other) == FileAt(disk, other)
  }

  /**
   * One call, from any state: without the extension an enabled packet is the last in the file of the
   * configured name, after what was in it if that is the open file and alone otherwise.
   */
  lemma GoesToConfiguredName<P>(cfg: FileConfig, f: File<P>, p: P)
    requires Named(f) && !cfg.extend
    ensures var f' := WriteFile(cfg, f, Record(p, false));
            && WentTo(f.disk, f'.disk, cfg.name, p)
            && f'.disk[cfg.name] == if f.fd == Some(cfg.name) then f.disk[cfg.name] + [p] else [p]
  {
    assert [] + [p] == [p];
  }

  /** And so at every call of any sequence, whatever the configurations before it were. */
  lemma EveryCallGoesToItsName<P>(f: File<P>, calls: seq<Call<P>>, k: nat)
    requires Named(f) && k < |calls| && !calls[k].cfg.extend && !calls[k].record.disabled
    ensures WentTo(WriteEach(f, calls[..k]).disk, WriteEach(f, calls[..k + 1]).disk, calls[k].cfg.name,
                   calls[k].record.packet)
  {
    EachNamed(f, calls[..k]);
    assert calls[..k + 1][..k] == calls[..k];
    assert calls[k].record == Record(calls[k].record.packet, false);
    GoesToConfiguredName(calls[k].cfg, WriteEach(f, calls[..k]), calls[k].record.packet);
  }

  /**
   * A change of name does not restart the packet count, so the new file can be cut short, and reopening
   * it under the same name deletes it: with two packets to a file, p under "a", then q and r under "b".
   */
  lemma NameChangeLosesPacket<P>(p: P, q: P, r: P)
    ensures var a, b := FileConfig("a", false, 2), FileConfig("b", false, 2);
            var calls := [Call(a, Record(p, false)), Call(b, Record(q, false)), Call(b, Record(r, false))];
            WriteEach(File(None, "", 0, 0, map[]), calls).disk == map["a" := [p], "b" := [r]]
  {
    var a, b := FileConfig("a", false, 2), FileConfig("b", false, 2);
    var calls := [Call(a, Record(p, false)), Call(b, Record(q, false)), Call(b, Record(r, false))];
    var f0: File<P> := File(None, "", 0, 0, map[]);
    assert [] + [p] == [p] && [] + [q] == [q] && [] + [r] == [r];
    var f1 := WriteFile(a, f0, Record(p, false));
    assert f1 == File(Some("a"), "a", 1, 0, map["a" := [p]]);
    var f2 := WriteFile(b, f1, Record(q, false));
    assert f2 == File(None, "b", 0, 1, map["a" := [p], "b" := [q]]);
    var f3 := WriteFile(b, f2, Record(r, false));
    assert calls[..2][..1] == [calls[0]] && calls[..1][..0] == [];
    assert WriteEach(f0, calls[..1]) == f1 && WriteEach(f0, calls[..2]) == f2;
  }

  // ---------------------------------------------------------------------------
  // Reference: the files in the order they were started
  // ---------------------------------------------------------------------------

  datatype Started<P> = Started(name: string, packets: seq<P>)

  /**
   * The files started so far; whether the last may still grow; the packets counted toward the next
   * rotation; and the part number.  A change of name starts a file without restarting the count.
   */
  datatype Log<P> = Log(files: seq<Started<P>>, open: bool, count: nat, part: nat)

  function LogOf<P>(calls: seq<Call<P>>): (l: Log<P>)
    ensures l.open ==> l.files != []
  {
    if calls == [] then Log([], false, 0, 0) else Entered(LogOf(calls[..|calls| - 1]), calls[|calls| - 1])
  }

  function Entered<P>(l: Log<P>, c: Call<P>): (l': Log<P>)
    requires l.open ==> l.files != []
    ensures l'.open ==> l'.files != []
  {
    if c.record.disabled then Log(l.files, false, 0, 0)
    else
      var files := Grown(l, c);
      if (l.count + 1) % 0x1_0000_0000 < c.cfg.dataFrames % 0x1_0000_0000
      then Log(files, true, (l.count + 1) % 0x1_0000_0000, l.part)
      else Log(files, false, 0, (l.part + 1) % 99999)
  }

  /** The packet goes on in an open file, unless the extension is off and the name is another; else it starts a file. */
  function Grown<P>(l: Log<P>, c: Call<P>): (files: seq<Started<P>>)
    requires l.open ==> l.files != []
    ensures files != []
  {
    var last := |l.files| - 1;
    if l.open && (c.cfg.extend || c.cfg.name == l.files[last].name)
    then l.files[last := Started(l.files[last].name, l.files[last].packets + [c.record.packet])]
    else l.files + [Started(PartName(c.cfg, l.part), [c.record.packet])]
  }

  /** The last file started under a name. */
  function LastNamed<P>(files: seq<Started<P>>, name: string): Option<seq<P>> {
    if files == [] then None
    else if files[|files| - 1].name == name then Some(files[|files| - 1].packets)
    else LastNamed(files[..|files| - 1], name)
  }

  // ---------------------------------------------------------------------------
  // The log and the disk
  // ---------------------------------------------------------------------------

  /** The writer stands where the log does, and under every name the disk has the last file started. */
  ghost predicate Matches<P>(l: Log<P>, f: File<P>, was: map<string, seq<P>>) {
    && (l.open ==> l.files != [])
    && f.frameCounter == l.count && f.part == l.part
    && f.fd == (if l.open then Some(l.files[|l.files| - 1].name) else None)
    && (l.open ==> f.filename == l.files[|l.files| - 1].name)
    && forall name :: FileAt(f.disk, name) == OrElse(LastNamed(l.files, name), FileAt(was, name))
  }

  /**
   * For any calls, each with a configuration of its own: under every name the disk has the last file
   * the log started under it, or what was there before.
   */
  lemma {:induction false} DiskIsLog<P>(f: File<P>, calls: seq<Call<P>>)
    requires Rested(f)
    ensures Matches(LogOf(calls), WriteEach(f, calls), f.disk)
  {
    if calls != [] {
      DiskIsLog(f, calls[..|calls| - 1]);
      CallKeepsMatch(LogOf(calls[..|calls| - 1]), WriteEach(f, calls[..|calls| - 1]), calls[|calls| - 1], f.disk);
    }
  }

  lemma CallKeepsMatch<P>(l: Log<P>, f: File<P>, c: Call<P>, was: map<string, seq<P>>)
    requires Matches(l, f, was)
    ensures Matches(Entered(l, c), WriteFile(c.cfg, f, c.record), was)
  {
    if !c.record.disabled {
      LogGrows(l, f, c, was);
    }
  }

  lemma LogGrows<P>(l: Log<P>, f: File<P>, c: Call<P>, was: map<string, seq<P>>)
    requires Matches(l, f, was) && !c.record.disabled
    ensures var g, files := Append(Open(c.cfg, FollowName(c.cfg, f)), c.record.packet), Grown(l, c);
            && g.fd == Some(files[|files| - 1].name) && g.filename == files[|files| - 1].name
            && g.frameCounter == f.frameCounter && g.part == f.part
            && forall name :: FileAt(g.disk, name) == OrElse(LastNamed(files, name), FileAt(was, name))
  {
    var last, files := |l.files| - 1, Grown(l, c);
    assert [] + [c.record.packet] == [c.record.packet];
    if l.open && (c.cfg.extend || c.cfg.name == l.files[last].name) {
      assert files[..last] == l.files[..last];
      assert FileAt(f.disk, l.files[last].name) == Some(l.files[last].packets);
    } else {
      assert files[..|l.files|] == l.files;
    }
  }

  // ---------------------------------------------------------------------------
  // The log itself loses nothing
  // ---------------------------------------------------------------------------

  function Logged<P>(files: seq<Started<P>>): seq<P> {
    if files == [] then [] else Logged(files[..|files| - 1]) + files[|files| - 1].packets
  }

  function EnabledPackets<P>(calls: seq<Call<P>>): seq<P> {
    if calls == [] then []
    else
      var r := calls[|calls| - 1].record;
      EnabledPackets(calls[..|calls| - 1]) + (if r.disabled then [] else [r.packet])
  }

  /** The files started, one after the other, have every enabled packet once and in order. */
  lemma {:induction false} LogHasEverything<P>(calls: seq<Call<P>>)
    ensures Logged(LogOf(calls).files) == EnabledPackets(calls)
  {
    if calls != [] {
      LogHasEverything(calls[..|calls| - 1]);
      if !calls[|calls| - 1].record.disabled {
        GrownLogs(LogOf(calls[..|calls| - 1]), calls[|calls| - 1]);
      }
    }
  }

  lemma GrownLogs<P>(l: Log<P>, c: Call<P>)
    requires l.open ==> l.files != []
    ensures Logged(Grown(l, c)) == Logged(l.files) + [c.record.packet]
  {
    var last, files := |l.files| - 1, Grown(l, c);
    if l.open && (c.cfg.extend || c.cfg.name == l.files[last].name) {
      assert files[..last] == l.files[..last];
    } else {
      assert files[..|l.files|] == l.files;
    }
  }
}
