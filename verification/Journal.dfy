/**
 The write-behind buffer of journal files (SQLite_Esp_Port/esp32.cpp:96-138, 157-247
 and 265-311).  Whatever mix of writes, reads, syncs and size queries is run, the file is
 what it would be if every write went to it directly, reads answer as it would, and the
 bytes reach it in the order they were written.  Sizes do so when nothing was written since
 the last sync: fstat does not see what stdio still holds, and only a sync makes stdio
 pass everything on.  Offsets are not negative and the calls into the C library do not fail.
 */
module Journal {
  import opened BitOps

  const BUFFER_SIZE: nat := 8192

  datatype Code = Ok | ShortRead

  // --------------------------------------------------------- the direct file

  /** Seeking past the end and writing leaves zeros in between. */
  function Padded(file: seq<byte>, length: nat): (r: seq<byte>)
    ensures |r| == if |file| < length then length else |file|
  {
    if |file| < length then file + seq(length - |file|, i => 0 as byte) else file
  }

  /** fseek and fwrite: writing nothing changes nothing, wherever it is aimed. */
  function Put(file: seq<byte>, ofst: nat, data: seq<byte>): seq<byte> {
    if data == [] then file
    else
      var f := Padded(file, ofst + |data|);
      f[..ofst] + data + f[ofst + |data|..]
  }

  /** fseek and fread. */
  function Get(file: seq<byte>, ofst: nat, amount: nat): seq<byte> {
    if |file| <= ofst then []
    else if |file| - ofst < amount then file[ofst..]
    else file[ofst..ofst + amount]
  }

  datatype Op = Write(data: seq<byte>, at: nat) | Read(amount: nat, from: nat) | Sync | FileSize

  datatype Answer = Done | Bytes(code: Code, data: seq<byte>) | Size(size: nat)

  function DirectFile(file: seq<byte>, op: Op): seq<byte> {
    if op.Write? then Put(file, op.at, op.data) else file
  }

  function DirectAnswer(file: seq<byte>, op: Op): Answer {
    match op
    case Write(_, _) => Done
    case Read(amount, from) =>
      var data := Get(file, from, amount);
      Bytes(if |data| == amount then Ok else ShortRead, data)
    case Sync => Done
    case FileSize => Size(|file|)
  }

  /** The file after a run of operations, each going straight to it. */
  function DirectRun(file: seq<byte>, ops: seq<Op>): seq<byte>
    decreases |ops|
  {
    if ops == [] then file else DirectFile(DirectRun(file, ops[..|ops| - 1]), ops[|ops| - 1])
  }

  /** Whether everything written was synced. */
  predicate Synced(ops: seq<Op>)
    decreases |ops|
  {
    ops != [] &&
    match ops[|ops| - 1]
    case Sync => true
    case Write(_, _) => false
    case _ => Synced(ops[..|ops| - 1])
  }

  /** An answer as the direct file gives it; a size may fall short of it unless everything was synced. */
  predicate Answered(file: seq<byte>, op: Op, synced: bool, a: Answer) {
    if op.FileSize? then a.Size? && a.size <= |file| && (synced ==> a.size == |file|) else a == DirectAnswer(file, op)
  }

  predicate AllAnswered(file: seq<byte>, ops: seq<Op>, answers: seq<Answer>) {
    |answers| == |ops| &&
    forall i :: 0 <= i < |ops| ==> Answered(DirectRun(file, ops[..i]), ops[i], Synced(ops[..i]), answers[i])
  }

  // ------------------------------------------------------- writes next to each other

  lemma PutLength(file: seq<byte>, ofst: nat, data: seq<byte>)
    requires data != []
    ensures |Put(file, ofst, data)| == if |file| < ofst + |data| then ofst + |data| else |file|
  {
  }

  lemma PutAt(file: seq<byte>, ofst: nat, data: seq<byte>, i: nat)
    requires data != [] && i < |Put(file, ofst, data)|
    ensures Put(file, ofst, data)[i] ==
            if ofst <= i < ofst + |data| then data[i - ofst]
            else if i < |file| then file[i] else 0
  {
  }

  /** Two writes, the second where the first ended, are one write. */
  lemma PutAppend(file: seq<byte>, ofst: nat, a: seq<byte>, b: seq<byte>)
    ensures Put(Put(file, ofst, a), ofst + |a|, b) == Put(file, ofst, a + b)
  {
    hide Put, Padded;
    if a == [] {
      assert a + b == b;
      PutNone(file, ofst);
    } else if b == [] {
      assert a + b == a;
      PutNone(Put(file, ofst, a), ofst + |a|);
    } else {
      var one, two := Put(file, ofst, a + b), Put(Put(file, ofst, a), ofst + |a|, b);
      PutLength(file, ofst, a);
      PutLength(file, ofst, a + b);
      PutLength(Put(file, ofst, a), ofst + |a|, b);
      forall i: nat | i < |one| ensures one[i] == two[i] {
        PutAt(file, ofst, a + b, i);
        PutAt(Put(file, ofst, a), ofst + |a|, b, i);
        if i < |Put(file, ofst, a)| { PutAt(file, ofst, a, i); }
      }
    }
  }

  lemma PutNone(file: seq<byte>, ofst: nat)
    ensures Put(file, ofst, []) == file
  {
  }

  // -------------------------------------------------- bytes in the order written

  datatype Store = Store(at: nat, value: byte)

  /** One store for each byte of a write. */
  function Stores(ofst: nat, data: seq<byte>): (s: seq<Store>)
    ensures |s| == |data|
  {
    seq(|data|, i requires 0 <= i < |data| => Store(ofst + i, data[i]))
  }

  function Replay(file: seq<byte>, log: seq<Store>): seq<byte>
    decreases |log|
  {
    if log == [] then file
    else
      var last := log[|log| - 1];
      Put(Replay(file, log[..|log| - 1]), last.at, [last.value])
  }

  lemma {:induction false} ReplayAppend(file: seq<byte>, a: seq<Store>, b: seq<Store>)
    ensures Replay(file, a + b) == Replay(Replay(file, a), b)
    decreases |b|
  {
    hide Put;
    if b == [] {
      assert a + b == a;
    } else {
      assert (a + b)[..|a + b| - 1] == a + b[..|b| - 1];
      ReplayAppend(file, a, b[..|b| - 1]);
    }
  }

  lemma {:induction false} ReplayStores(file: seq<byte>, ofst: nat, data: seq<byte>)
    ensures Replay(file, Stores(ofst, data)) == Put(file, ofst, data)
    decreases |data|
  {
    hide Put;
    if data == [] {
      PutNone(file, ofst);
    } else {
      var n := |data| - 1;
      assert Stores(ofst, data)[..n] == Stores(ofst, data[..n]);
      ReplayStores(file, ofst, data[..n]);
      PutAppend(file, ofst, data[..n], [data[n]]);
      assert data == data[..n] + [data[n]];
    }
  }

  /** Stores that lie within the file do not change its size, and any other does. */
  lemma {:induction false} ReplaySize(file: seq<byte>, log: seq<Store>)
    ensures |file| <= |Replay(file, log)|
    ensures |Replay(file, log)| == |file| <==> forall i :: 0 <= i < |log| ==> log[i].at < |file|
    decreases |log|
  {
    hide Put;
    if log != [] {
      var n := |log| - 1;
      ReplaySize(file, log[..n]);
      PutLength(Replay(file, log[..n]), log[n].at, [log[n].value]);
    }
  }

  lemma StoresAppend(ofst: nat, a: seq<byte>, b: seq<byte>)
    ensures Stores(ofst, a + b) == Stores(ofst, a) + Stores(ofst + |a|, b)
  {
  }

  /** Nothing can be put at one offset as well as at another. */
  lemma BothAppend(file: seq<byte>, ofst: nat, ofst1: nat, was: seq<byte>, more: seq<byte>)
    requires was == [] || ofst == ofst1
    ensures Put(file, ofst1, was + more) == Put(Put(file, ofst, was), ofst1 + |was|, more)
    ensures Stores(ofst1, was + more) == Stores(ofst, was) + Stores(ofst1 + |was|, more)
  {
    hide Put, Stores;
    if was == [] {
      StoresNone(ofst, was);
      StoresNone(ofst1, was);
      PutNone(file, ofst);
      PutNone(file, ofst1);
    }
    StoresAppend(ofst1, was, more);
    PutAppend(file, ofst1, was, more);
  }

  // -------------------------------------------------------------------- ESP32File

  class File {
    /** What the operating system has of the file, and what was given to stdio but has not reached it. */
    var disk: seq<byte>
    var pending: seq<Store>
    const aBuffer: array?<byte>
    var nBuffer: nat
    var iBufferOfst: nat
    /** The file when it was opened, every byte written since, and how many were given to stdio. */
    ghost const initial: seq<byte>
    ghost var log: seq<Store>
    ghost var flushed: nat

    ghost predicate Valid()
      reads this, if aBuffer == null then {} else {aBuffer}
    {
      && (if aBuffer == null then nBuffer == 0 else aBuffer.Length == BUFFER_SIZE && nBuffer <= BUFFER_SIZE)
      && flushed + nBuffer == |log|
      && log[flushed..] == Stores(iBufferOfst, Waiting())
      && Seen() == Replay(initial, log[..flushed])
    }

    /** What reading through stdio finds. */
    function Seen(): seq<byte>
      reads `disk, `pending
    {
      Replay(disk, pending)
    }

    ghost function Waiting(): (s: seq<byte>)
      requires if aBuffer == null then nBuffer == 0 else nBuffer <= aBuffer.Length
      reads `nBuffer, if aBuffer == null then {} else {aBuffer}
      ensures |s| == nBuffer
    {
      if aBuffer == null then [] else aBuffer[..nBuffer]
    }

    /** What the file stands for: overlaid with the buffer at its offset. */
    ghost function Contents(): seq<byte>
      requires Valid()
      reads this, if aBuffer == null then {} else {aBuffer}
    {
      Put(Seen(), iBufferOfst, Waiting())
    }

    lemma ContentsIsLog()
      requires Valid()
      ensures Contents() == Replay(initial, log)
    {
      hide Put, Replay, Stores;
      ReplayStores(Seen(), iBufferOfst, Waiting());
      ReplayAppend(initial, log[..flushed], log[flushed..]);
      assert log[..flushed] + log[flushed..] == log;
    }

    constructor (file: seq<byte>, buffered: bool)
      ensures Valid() && Contents() == file && initial == file && log == []
      ensures buffered <==> aBuffer != null
      ensures aBuffer != null ==> fresh(aBuffer)
    {
      disk, pending := file, [];
      initial := file;
      log := [];
      flushed := 0;
      nBuffer := 0;
      iBufferOfst := 0;
      if buffered {
        aBuffer := new byte[BUFFER_SIZE];
      } else {
        aBuffer := null;
      }
    }

    /** stdio may pass on some of what it holds, the oldest first, whenever it is called. */
    method PassOn()
      modifies `disk, `pending
      ensures Seen() == old(Seen()) && |pending| <= |old(pending)|
              && pending == old(pending)[|old(pending)| - |pending|..]
      ensures old(Valid()) ==> Valid() && Contents() == old(Contents())
    {
      hide Put, Replay;
      var k: nat :| k <= |pending|;
      assert pending[..k] + pending[k..] == pending;
      ReplayAppend(disk, pending[..k], pending[k..]);
      disk, pending := Replay(disk, pending[..k]), pending[k..];
    }

    /** fflush. */
    method PassOnAll()
      modifies `disk, `pending
      ensures Seen() == old(Seen()) == disk && pending == []
    {
      disk, pending := Replay(disk, pending), [];
    }

    /** ESP32DirectWrite: fseek and fwrite. */
    method DirectWrite(data: seq<byte>, iOfst: nat)
      modifies `disk, `pending
      ensures Seen() == Put(old(Seen()), iOfst, data)
    {
      hide Put, Replay, Stores;
      PassOn();
      ReplayAppend(disk, pending, Stores(iOfst, data));
      ReplayStores(Seen(), iOfst, data);
      pending := pending + Stores(iOfst, data);
      PassOn();
    }

    /** ESP32FlushBuffer. */
    method FlushBuffer()
      requires Valid()
      modifies `disk, `pending, `nBuffer, `flushed
      ensures Valid() && nBuffer == 0 && Seen() == old(Contents()) == Contents()
      ensures flushed == |log|
      ensures old(nBuffer) == 0 ==> disk == old(disk) && pending == old(pending)
    {
      hide Put, Replay, Stores;
      ContentsIsLog();
      assert log[..|log|] == log;
      PutNone(Seen(), iBufferOfst);
      if nBuffer != 0 {
        DirectWrite(aBuffer[..nBuffer], iBufferOfst);
        nBuffer := 0;
      }
      flushed := |log|;
      PutNone(Seen(), iBufferOfst);
      assert log[flushed..] == [] == Stores(iBufferOfst, Waiting()) by { StoresNone(iBufferOfst, Waiting()); }
    }

    /** memcpy to the end of what is in the buffer. */
    method AddBytes(data: seq<byte>, z: nat, n: nat)
      requires aBuffer != null && nBuffer + n <= aBuffer.Length && z + n <= |data|
      modifies `nBuffer, aBuffer
      ensures nBuffer == old(nBuffer) + n && Waiting() == old(Waiting()) + data[z..z + n]
    {
      forall k | 0 <= k < n {
        aBuffer[nBuffer + k] := data[z + k];
      }
      nBuffer := nBuffer + n;
    }

    /** One turn of the loop in ESP32Write, after any flush. */
    method CopyIn(data: seq<byte>, z: nat, i: nat) returns (nCopy: nat)
      requires Valid() && aBuffer != null && nBuffer < BUFFER_SIZE
      requires nBuffer == 0 || iBufferOfst + nBuffer == i
      requires nBuffer <= i && z < |data|
      modifies `nBuffer, `iBufferOfst, `log, aBuffer
      ensures Valid() && 0 < nCopy && z + nCopy <= |data|
      ensures Contents() == Put(old(Contents()), i, data[z..z + nCopy])
      ensures log == old(log) + Stores(i, data[z..z + nCopy])
      ensures nBuffer == BUFFER_SIZE || z + nCopy == |data|
      ensures nBuffer == old(nBuffer) + nCopy && iBufferOfst + nBuffer == i + nCopy
    {
      hide Put, Replay, Stores, File.Waiting, File.Seen;
      ghost var was, base := Waiting(), old(log)[flushed..];
      iBufferOfst := i - nBuffer;
      nCopy := BUFFER_SIZE - nBuffer;
      if nCopy > |data| - z {
        nCopy := |data| - z;
      }
      ghost var more := data[z..z + nCopy];
      AddBytes(data, z, nCopy);
      log := log + Stores(i, more);
      assert log[flushed..] == base + Stores(i, more);
      assert log[..flushed] == old(log)[..flushed];
      BothAppend(Seen(), old(iBufferOfst), iBufferOfst, was, more);
    }

    /** These bytes go where those in the buffer end, and there is room for them. */
    ghost predicate GoesOn(data: seq<byte>, iOfst: nat)
      reads `nBuffer, `iBufferOfst
    {
      aBuffer != null && nBuffer + |data| <= BUFFER_SIZE && (nBuffer == 0 || iOfst == iBufferOfst + nBuffer)
    }

    /** ESP32Write.  A write that goes on where the buffer ends, and fits, gives nothing to stdio. */
    method Write(data: seq<byte>, iOfst: nat)
      requires Valid()
      modifies this, if aBuffer == null then {} else {aBuffer}
      ensures Valid() && Contents() == Put(old(Contents()), iOfst, data)
      ensures log == old(log) + Stores(iOfst, data)
      ensures old(GoesOn(data, iOfst)) ==>
        disk == old(disk) && pending == old(pending) && nBuffer == old(nBuffer) + |data|
    {
      hide Put, Replay, Stores, File.Waiting, File.Contents;
      if aBuffer != null {
        var n: nat, i: nat, z: nat := |data|, iOfst, 0;
        PutNone(Contents(), iOfst);
        StoresNone(iOfst, data[..0]);
        while n > 0
          invariant Valid() && z + n == |data| && i == iOfst + z
          invariant Contents() == Put(old(Contents()), iOfst, data[..z])
          invariant log == old(log) + Stores(iOfst, data[..z])
          invariant z == 0 ==> nBuffer == old(nBuffer) && iBufferOfst == old(iBufferOfst)
          invariant old(GoesOn(data, iOfst)) ==>
            (z == 0 || n == 0) && disk == old(disk) && pending == old(pending) && nBuffer == old(nBuffer) + z
        {
          if nBuffer == BUFFER_SIZE || iBufferOfst + nBuffer != i {
            FlushBuffer();
          }
          var nCopy := CopyIn(data, z, i);
          assert data[..z + nCopy] == data[..z] + data[z..z + nCopy];
          PutAppend(old(Contents()), iOfst, data[..z], data[z..z + nCopy]);
          StoresAppend(iOfst, data[..z], data[z..z + nCopy]);
          n := n - nCopy;
          i := i + nCopy;
          z := z + nCopy;
        }
        assert data[..z] == data;
      } else {
        WriteThrough(data, iOfst);
      }
    }

    /** ESP32Write on a file without a buffer. */
    method WriteThrough(data: seq<byte>, iOfst: nat)
      requires Valid() && aBuffer == null
      modifies this
      ensures Valid() && Contents() == Put(old(Contents()), iOfst, data)
      ensures log == old(log) + Stores(iOfst, data)
    {
      hide Put, Replay, Stores;
      PutNone(Seen(), iBufferOfst);
      ContentsIsLog();
      ReplayStores(Seen(), iOfst, data);
      ReplayAppend(initial, log, Stores(iOfst, data));
      DirectWrite(data, iOfst);
      log := log + Stores(iOfst, data);
      flushed := |log|;
      PutNone(Seen(), iBufferOfst);
      StoresNone(iBufferOfst, Waiting());
      assert log[flushed..] == [] && log[..flushed] == log;
    }

    /** ESP32Read: what is past the end of the file is left alone in the caller's buffer. */
    method Read(zBuf: array<byte>, iAmt: nat, iOfst: nat) returns (code: Code, nRead: nat)
      requires Valid() && iAmt <= zBuf.Length && zBuf != aBuffer
      modifies `disk, `pending, `nBuffer, `flushed, zBuf
      ensures Valid() && Contents() == old(Contents()) && log == old(log)
      ensures old(Quiet()) ==> Quiet()
      ensures nRead == |Get(Contents(), iOfst, iAmt)| <= zBuf.Length
      ensures zBuf[..nRead] == Get(Contents(), iOfst, iAmt)
      ensures zBuf[nRead..] == old(zBuf[nRead..])
      ensures code == if nRead == iAmt then Ok else ShortRead
    {
      hide Put, Replay, Stores, Get, File.Valid, File.Waiting, File.Contents, File.Seen;
      var got := Fetch(iAmt, iOfst);
      CopyOut(zBuf, got);
      nRead := |got|;
      code := if |got| == iAmt then Ok else ShortRead;
    }

    /** fseek and fread, after the buffer was flushed. */
    method Fetch(iAmt: nat, iOfst: nat) returns (got: seq<byte>)
      requires Valid()
      modifies `disk, `pending, `nBuffer, `flushed
      ensures Valid() && Contents() == old(Contents()) && log == old(log)
      ensures old(Quiet()) ==> Quiet()
      ensures got == Get(Contents(), iOfst, iAmt) && |got| <= iAmt
    {
      hide Put, Replay, Stores, Get, File.Valid, File.Waiting, File.Contents, File.Seen;
      FlushBuffer();
      PassOn();
      QuietContents();
      GetSize(Seen(), iOfst, iAmt);
      got := Get(Seen(), iOfst, iAmt);
    }

    /** With an empty buffer the file is what stdio sees. */
    lemma QuietContents()
      requires Valid() && nBuffer == 0
      ensures Contents() == Seen()
    {
      hide Put, Replay, Stores;
      PutNone(Seen(), iBufferOfst);
      assert Waiting() == [];
    }

    /** Nothing waits in the buffer or in stdio. */
    predicate Quiet()
      reads `nBuffer, `pending
    {
      nBuffer == 0 && pending == []
    }

    /** ESP32Sync: afterwards the file itself holds everything. */
    method Sync()
      requires Valid()
      modifies `disk, `pending, `nBuffer, `flushed
      ensures Valid() && disk == Contents() == old(Contents()) && Quiet()
      ensures flushed == |log| && log == old(log)
    {
      hide Put, Replay, Stores;
      FlushBuffer();
      PassOnAll();
    }

    /** ESP32FileSize: what fstat sees, after the buffer was flushed but not stdio.  The size is right exactly when
        nothing that stdio still holds lies behind the end that fstat sees. */
    method FileSize() returns (size: nat)
      requires Valid()
      modifies `disk, `pending, `nBuffer, `flushed
      ensures Valid() && Contents() == old(Contents()) && log == old(log)
      ensures old(Quiet()) ==> Quiet()
      ensures size == |disk| <= |Contents()|
      ensures size == |Contents()| <==> forall i :: 0 <= i < |pending| ==> pending[i].at < size
    {
      FlushBuffer();
      ReplaySize(disk, pending);
      size := |disk|;
    }

    /** One operation answers as the direct file would, sizes after a sync. */
    method Do(op: Op, ghost synced: bool) returns (answer: Answer)
      requires Valid() && (synced ==> Quiet())
      modifies this, if aBuffer == null then {} else {aBuffer}
      ensures Valid()
      ensures Contents() == DirectFile(old(Contents()), op)
      ensures Answered(old(Contents()), op, synced, answer)
      ensures op.Sync? || (synced && !op.Write?) ==> Quiet()
      ensures old(log) <= log
    {
      hide Put, Replay, Stores, Get;
      match op {
        case Write(data, at) =>
          Write(data, at);
          answer := Done;
        case Read(amount, from) =>
          var zBuf := new byte[amount];
          var code, nRead := Read(zBuf, amount, from);
          answer := Bytes(code, zBuf[..nRead]);
        case Sync =>
          Sync();
          answer := Done;
        case FileSize =>
          var size := FileSize();
          answer := Size(size);
      }
    }

    /** Any run of operations, with a buffer or without. */
    method Run(ops: seq<Op>) returns (answers: seq<Answer>)
      requires Valid()
      modifies this, if aBuffer == null then {} else {aBuffer}
      ensures Valid()
      ensures Contents() == DirectRun(old(Contents()), ops)
      ensures AllAnswered(old(Contents()), ops, answers)
    {
      hide DirectFile, DirectAnswer, DirectRun, Answered, AllAnswered, Synced, File.Valid, File.Contents;
      NoneYet(Contents());
      answers := [];
      for i := 0 to |ops|
        invariant Valid() && (Synced(ops[..i]) ==> Quiet())
        invariant Contents() == DirectRun(old(Contents()), ops[..i])
        invariant AllAnswered(old(Contents()), ops[..i], answers)
      {
        var answer := Do(ops[i], Synced(ops[..i]));
        assert ops[..i + 1][..i] == ops[..i];
        OneMore(old(Contents()), ops[..i + 1], answers, answer);
        answers := answers + [answer];
      }
      assert ops[..|ops|] == ops;
    }
  }

  lemma GetSize(file: seq<byte>, ofst: nat, amount: nat)
    ensures |Get(file, ofst, amount)| <= amount
  {
  }

  /** fread into the caller's buffer. */
  method CopyOut(zBuf: array<byte>, got: seq<byte>)
    requires |got| <= zBuf.Length
    modifies zBuf
    ensures zBuf[..|got|] == got && zBuf[|got|..] == old(zBuf[|got|..])
  {
    forall k | 0 <= k < |got| {
      zBuf[k] := got[k];
    }
  }

  lemma NoneYet(file: seq<byte>)
    ensures DirectRun(file, []) == file && AllAnswered(file, [], []) && !Synced([])
  {
  }

  /** One more operation and its answer. */
  lemma OneMore(file: seq<byte>, ops: seq<Op>, answers: seq<Answer>, answer: Answer)
    requires ops != [] && AllAnswered(file, ops[..|ops| - 1], answers)
    requires Answered(DirectRun(file, ops[..|ops| - 1]), ops[|ops| - 1], Synced(ops[..|ops| - 1]), answer)
    ensures var before, op := ops[..|ops| - 1], ops[|ops| - 1];
      && AllAnswered(file, ops, answers + [answer]) && DirectRun(file, ops) == DirectFile(DirectRun(file, before), op)
      && (Synced(ops) ==> op.Sync? || (Synced(before) && !op.Write?))
  {
    hide DirectFile, Answered;
    var n := |ops| - 1;
    forall i | 0 <= i <= n ensures Answered(DirectRun(file, ops[..i]), ops[i], Synced(ops[..i]),
        (answers + [answer])[i]) {
      if i < n {
        assert ops[..n][..i] == ops[..i];
      }
    }
  }

  /** A byte at the end that stdio still holds: the size falls one short. */
  lemma SizeBehind(f: File, value: byte)
    requires f.Valid() && f.nBuffer == 0 && f.pending == [Store(|f.disk|, value)]
    ensures |f.Contents()| == |f.disk| + 1
  {
    hide Put, Stores;
    PutLength(f.disk, |f.disk|, [value]);
    assert f.pending[..0] == [] && Replay(f.disk, []) == f.disk;
    f.QuietContents();
  }

  lemma StoresNone(ofst: nat, data: seq<byte>)
    requires data == []
    ensures Stores(ofst, data) == []
  {
  }
}
