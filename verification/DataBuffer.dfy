/** The overwriting circular buffer with several readers (src/data_buffer.cpp). */
module DataBuffers {

  /** What the buffer keeps for one reader. */
  datatype Cursor = Cursor(ptr: nat, full: bool, empty: bool, readCnt: nat, owCnt: nat, rofCnt: nat)

  datatype Buffer<T> = Buffer(data: seq<T>, writePtr: nat, writeCnt: nat, cursors: seq<Cursor>)

  // ---------------------------------------------------------------------------
  // The operations as functions
  // ---------------------------------------------------------------------------

  /** Moves an iterator forward; past the last slot it goes back to the first. */
  function Next(p: nat, size: nat): nat {
    if p + 1 == size then 0 else p + 1
  }

  /**
   * What getWritePtr does to a reader.  The code moves the read pointer of a full reader without
   * the wrap at the end that doneWriting and doneReading have; `wraps` puts that wrap in.
   */
  function Overtaken(c: Cursor, size: nat, wraps: bool): Cursor {
    if c.full then c.(owCnt := c.owCnt + 1, ptr := if wraps then Next(c.ptr, size) else c.ptr + 1) else c
  }

  function AfterWrite(c: Cursor, writePtr: nat): Cursor {
    c.(full := c.full || c.ptr == writePtr, empty := false)
  }

  function AfterRead(c: Cursor, writePtr: nat, size: nat): Cursor {
    var p := Next(c.ptr, size);
    c.(ptr := p, empty := c.empty || p == writePtr, full := false, readCnt := c.readCnt + 1)
  }

  function GetWritePtr<T>(b: Buffer<T>, wraps: bool): (r: Buffer<T>)
    ensures |r.cursors| == |b.cursors|
  {
    b.(cursors := seq(|b.cursors|, i requires 0 <= i < |b.cursors| => Overtaken(b.cursors[i], |b.data|, wraps)))
  }

  function DoneWriting<T>(b: Buffer<T>): (r: Buffer<T>)
    ensures |r.cursors| == |b.cursors|
  {
    var w := Next(b.writePtr, |b.data|);
    b.(writePtr := w, writeCnt := b.writeCnt + 1,
       cursors := seq(|b.cursors|, i requires 0 <= i < |b.cursors| => AfterWrite(b.cursors[i], w)))
  }

  /** getReadPtr: an empty buffer counts a read overflow and throws. */
  function GetReadPtr<T>(b: Buffer<T>, i: nat): (r: (Buffer<T>, bool))
    requires i < |b.cursors|
    ensures |r.0.cursors| == |b.cursors|
  {
    var c := b.cursors[i];
    if c.empty then (b.(cursors := b.cursors[i := c.(rofCnt := c.rofCnt + 1)]), false) else (b, true)
  }

  function DoneReading<T>(b: Buffer<T>, i: nat): (r: Buffer<T>)
    requires i < |b.cursors|
    ensures |r.cursors| == |b.cursors|
  {
    b.(cursors := b.cursors[i := AfterRead(b.cursors[i], b.writePtr, |b.data|)])
  }

  function ClearCnts<T>(b: Buffer<T>): (r: Buffer<T>)
    ensures |r.cursors| == |b.cursors|
  {
    b.(cursors := seq(|b.cursors|, i requires 0 <= i < |b.cursors| => b.cursors[i].(owCnt := 0, rofCnt := 0)))
  }

  function Fresh<T>(data: seq<T>, readers: nat): (r: Buffer<T>)
    ensures |r.cursors| == readers
  {
    Buffer(data, 0, 0, seq(readers, _ => Cursor(0, false, true, 0, 0, 0)))
  }

  // ---------------------------------------------------------------------------
  // The class
  // ---------------------------------------------------------------------------

  class DataBuffer<T> {
    const data: array<T>
    const numberReaders: nat
    const readPtr: array<nat>
    const full: array<bool>
    const empty: array<bool>
    const readCnt: array<nat>
    const OWCnt: array<nat>
    const ROFCnt: array<nat>
    var writePtr: nat
    var writeCnt: nat

    ghost predicate Valid() {
      && readPtr.Length == full.Length == empty.Length == numberReaders
      && readCnt.Length == OWCnt.Length == ROFCnt.Length == numberReaders
      && full != empty
      && readPtr != readCnt && readPtr != OWCnt && readPtr != ROFCnt
      && readCnt != OWCnt && readCnt != ROFCnt && OWCnt != ROFCnt
      && (data as object != readPtr && data as object != readCnt && data as object != OWCnt && data as object != ROFCnt
          && data as object != full && data as object != empty)
    }

    ghost function CursorAt(i: nat): Cursor
      requires Valid() && i < numberReaders
      reads readPtr, full, empty, readCnt, OWCnt, ROFCnt
    {
      Cursor(readPtr[i], full[i], empty[i], readCnt[i], OWCnt[i], ROFCnt[i])
    }

    ghost function Abstract(): Buffer<T>
      requires Valid()
      reads this, data, readPtr, full, empty, readCnt, OWCnt, ROFCnt
    {
      Buffer(data[..], writePtr, writeCnt,
             seq(numberReaders, i requires 0 <= i < numberReaders reads readPtr, full, empty, readCnt, OWCnt, ROFCnt =>
               CursorAt(i)))
    }

    constructor (slots: seq<T>, numReaders: nat)
      requires |slots| > 0
      ensures Valid() && fresh(data) && Abstract() == Fresh(slots, numReaders)
    {
      data := new T[|slots|](i requires 0 <= i < |slots| => slots[i]);
      numberReaders := numReaders;
      readPtr := new nat[numReaders](_ => 0);
      full := new bool[numReaders](_ => false);
      empty := new bool[numReaders](_ => true);
      readCnt := new nat[numReaders](_ => 0);
      OWCnt := new nat[numReaders](_ => 0);
      ROFCnt := new nat[numReaders](_ => 0);
      writePtr := 0;
      writeCnt := 0;
      new;
      assert data[..] == slots;
    }

    /** Moves every full reader on, and returns the slot to write. */
    method TakeWritePtr() returns (slot: nat)
      requires Valid()
      modifies OWCnt, readPtr
      ensures Abstract() == GetWritePtr(old(Abstract()), false) && slot == writePtr
    {
      ghost var before := Abstract();
      for i := 0 to numberReaders
        invariant forall k :: 0 <= k < i ==> CursorAt(k) == Overtaken(before.cursors[k], data.Length, false)
        invariant forall k :: i <= k < numberReaders ==> CursorAt(k) == before.cursors[k]
        invariant data[..] == before.data
      {
        if full[i] {
          OWCnt[i] := OWCnt[i] + 1;
          readPtr[i] := readPtr[i] + 1;
        }
      }
      slot := writePtr;
    }

    method FinishWriting()
      requires Valid()
      modifies `writePtr, `writeCnt, full, empty
      ensures Abstract() == DoneWriting(old(Abstract()))
    {
      ghost var before := Abstract();
      writePtr := writePtr + 1;
      if writePtr == data.Length {
        writePtr := 0;
      }
      for i := 0 to numberReaders
        modifies full
        invariant forall k :: 0 <= k < i ==> full[k] == (before.cursors[k].full || readPtr[k] == writePtr)
        invariant forall k :: i <= k < numberReaders ==> full[k] == before.cursors[k].full
        invariant forall k :: 0 <= k < numberReaders ==>
                    CursorAt(k).(full := false) == before.cursors[k].(full := false)
        invariant data[..] == before.data
      {
        if writePtr == readPtr[i] {
          full[i] := true;
        }
      }
      forall i | 0 <= i < numberReaders {
        empty[i] := false;
      }
      writeCnt := writeCnt + 1;
    }

    /** The slot to read, or an overflow count when the buffer is empty. */
    method TakeReadPtr(i: nat) returns (ok: bool, slot: nat)
      requires Valid() && i < numberReaders
      modifies ROFCnt
      ensures (Abstract(), ok) == GetReadPtr(old(Abstract()), i)
      ensures ok ==> slot == readPtr[i]
    {
      ghost var before := Abstract();
      slot := readPtr[i];
      ok := !empty[i];
      if !ok {
        ROFCnt[i] := ROFCnt[i] + 1;
      }
      assert Abstract().cursors == GetReadPtr(before, i).0.cursors;
    }

    method FinishReading(i: nat)
      requires Valid() && i < numberReaders
      modifies readPtr, empty, full, readCnt
      ensures Abstract() == DoneReading(old(Abstract()), i)
    {
      ghost var before := Abstract();
      readPtr[i] := readPtr[i] + 1;
      if readPtr[i] == data.Length {
        readPtr[i] := 0;
      }
      if readPtr[i] == writePtr {
        empty[i] := true;
      }
      full[i] := false;
      readCnt[i] := readCnt[i] + 1;
      assert forall k :: 0 <= k < numberReaders ==> CursorAt(k) == DoneReading(before, i).cursors[k];
    }

    method ResetCounters()
      requires Valid()
      modifies ROFCnt, OWCnt
      ensures Abstract() == ClearCnts(old(Abstract()))
    {
      forall i | 0 <= i < numberReaders {
        ROFCnt[i] := 0;
      }
      forall i | 0 <= i < numberReaders {
        OWCnt[i] := 0;
      }
    }

    method IsFull() returns (r: bool)
      requires Valid()
      ensures r <==> exists i :: 0 <= i < |Abstract().cursors| && Abstract().cursors[i].full
    {
      r := false;
      for i := 0 to numberReaders
        invariant r <==> exists k :: 0 <= k < i && full[k]
      {
        if full[i] {
          r := true;
        }
      }
      assert forall k :: 0 <= k < numberReaders ==> Abstract().cursors[k].full == full[k];
    }
  }
}
