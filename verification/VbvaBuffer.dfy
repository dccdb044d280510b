/** The VBVA buffer as guest and host have it: fields and arrays changed in
    place. Each operation is tied to the steps of the protocol. */
module VbvaBuffer {
  import opened Bytes
  import opened Vbva
  import opened VbvaSafety
  import opened VbvaFlush

  const F_RECORD_PARTIAL: u32 := 0x8000_0000
  /** A ring from here on could be filled, with what the host takes of a record
      before, up to the flag for partial ones; video memory is far smaller. */
  const MAX_RING: nat := 0x7800_0000

  /** What a fetch hands out: nothing, a command in the ring, or a copy of one. */
  datatype Fetched = NoCommand | InRing(cb: nat) | Copied(bytes: seq<byte>)
  {
    function Size(): nat
      requires !NoCommand?
    {
      if InRing? then cb else |bytes|
    }
  }

  function RecordOf(v: u32): Record {
    Record(v % F_RECORD_PARTIAL, v >= F_RECORD_PARTIAL)
  }

  /** The record the guest is at is partial, as long as what is in it, and
      bounded. */
  ghost predicate AtRecord(s: State)
    requires s.Shape()
  {
    && Bounded(s)
    && (s.current ==> |s.written| > 0 && s.records[s.Last()] == Record(|s.written[|s.written| - 1]|, true))
  }

  class Buffer {
    // VBVABUFFER
    const au8Data: array<byte>
    const aRecords: array<u32>
    const cbPartialWriteThreshold: nat
    var off32Data: nat
    var off32Free: nat
    var indexRecordFirst: nat
    var indexRecordFree: nat
    // The guest's context: overflow, and whether it is at a record.
    var fHwBufferOverflow: bool
    var atRecord: bool
    // The host's data: whether it serves the ring, and the partial record.
    var enabled: bool
    var partialRecord: seq<byte>
    // The command handed out in place; what was written and processed.
    ghost var held: Held
    ghost var written: seq<seq<byte>>
    ghost var delivered: seq<seq<byte>>
    // What is up to others: whether the host gets memory in its n-th fetch, whether
    // the guest gets a command buffer for its n-th flush, and whether the host
    // looks at the ring by itself before the n-th chunk.
    const memory: Memory
    const sendable: nat -> bool
    const ticks: nat -> bool
    var fetches: nat
    var flushes: nat
    var chunks: nat

    ghost function Abs(): State
      reads this, au8Data, aRecords
    {
      State(au8Data[..], off32Data, off32Free, RecordsOf(aRecords[..]), indexRecordFirst, indexRecordFree,
            cbPartialWriteThreshold, atRecord, [], false, enabled, partialRecord, held, written, delivered)
    }

    ghost predicate Valid()
      reads this, au8Data, aRecords
    {
      && au8Data != aRecords as object && au8Data.Length < MAX_RING
      && Abs().Shape() && AtRecord(Abs()) && (enabled ==> Inv(Abs()))
    }

    /** The host serves the ring and will take what is in it. */
    ghost predicate Good()
      reads this, au8Data, aRecords
    {
      enabled && GoodQueue(Abs()) && Plenty(memory, fetches)
    }

    predicate QueueFull()
      reads this
    {
      (indexRecordFree + 1) % MAX_RECORDS == indexRecordFirst
    }

    /** VBoxVBVAEnable, up to telling the host. */
    constructor (cbBuffer: nat, memory: Memory, sendable: nat -> bool, ticks: nat -> bool)
      requires 256 < cbBuffer < MAX_RING
      ensures Valid() && fresh(au8Data) && fresh(aRecords)
      ensures Init(Abs()) && au8Data.Length == cbBuffer && cbPartialWriteThreshold == 256 && !fHwBufferOverflow
      ensures this.memory == memory && this.sendable == sendable && this.ticks == ticks
    {
      au8Data := new byte[cbBuffer](_ => 0);
      aRecords := new u32[MAX_RECORDS](_ => 0);
      cbPartialWriteThreshold := 256;
      off32Data, off32Free, indexRecordFirst, indexRecordFree := 0, 0, 0, 0;
      fHwBufferOverflow, atRecord := false, false;
      enabled, partialRecord := true, [];
      held, written, delivered := Nothing, [], [];
      this.memory, this.sendable, this.ticks, fetches, flushes, chunks := memory, sendable, ticks, 0, 0, 0;
      new;
      InitSafe(Abs());
    }

    // ----- Copying to and from the ring -----

    /** vboxHwBufferAvail, on 32-bit signed differences. */
    method HwBufferAvail() returns (avail: nat)
      requires Valid()
      ensures avail == Abs().Avail()
    {
      var i32Diff: int32 := off32Data - off32Free;
      avail := if i32Diff > 0 then i32Diff else au8Data.Length + i32Diff;
    }

    /** vboxHwBufferPlaceDataAt: in one piece, or in two around the end. */
    method PlaceDataAt(p: seq<byte>, offset: nat)
      requires offset < au8Data.Length < 0x8000_0000 && |p| <= au8Data.Length
      modifies au8Data
      ensures au8Data[..] == Placed(old(au8Data[..]), offset, p)
    {
      var u32BytesTillBoundary := au8Data.Length - offset;
      var i32Diff: int32 := |p| - u32BytesTillBoundary;
      if i32Diff <= 0 {
        forall k | 0 <= k < |p| {
          au8Data[offset + k] := p[k];
        }
      } else {
        forall k | 0 <= k < u32BytesTillBoundary {
          au8Data[offset + k] := p[k];
        }
        forall k | 0 <= k < i32Diff {
          au8Data[k] := p[u32BytesTillBoundary + k];
        }
      }
    }

    /** The copying of vbvaFetchBytes. */
    method CopyFromRing(cb: nat) returns (dst: array<byte>)
      requires off32Data < au8Data.Length < 0x8000_0000 && cb < au8Data.Length
      ensures fresh(dst) && dst[..] == RingBytes(au8Data[..], off32Data, cb)
    {
      dst := new byte[cb](_ => 0);
      var u32BytesTillBoundary := au8Data.Length - off32Data;
      var i32Diff: int32 := cb - u32BytesTillBoundary;
      if i32Diff <= 0 {
        forall k | 0 <= k < cb {
          dst[k] := au8Data[off32Data + k];
        }
      } else {
        forall k | 0 <= k < u32BytesTillBoundary {
          dst[k] := au8Data[off32Data + k];
        }
        forall k | 0 <= k < i32Diff {
          dst[u32BytesTillBoundary + k] := au8Data[k];
        }
      }
    }

    // ----- The host -----

    /** vbvaFetchBytes. */
    method FetchBytes(cb: nat) returns (dst: seq<byte>)
      requires off32Data < au8Data.Length < 0x8000_0000 && cb < au8Data.Length
      modifies `off32Data
      ensures dst == RingBytes(au8Data[..], old(off32Data), cb) && off32Data == (old(off32Data) + cb) % au8Data.Length
    {
      var copy := CopyFromRing(cb);
      dst := copy[..];
      off32Data := (off32Data + cb) % au8Data.Length;
    }

    /** vbvaPartialRead. */
    method PartialRead(cbRecord: nat, memory: bool) returns (ok: bool)
      requires Abs().Shape() && au8Data.Length < 0x8000_0000 && enabled && cbRecord > |partialRecord|
      modifies `off32Data, `partialRecord
      ensures ok == Vbva.PartialRead(old(Abs()), cbRecord, memory).enabled
      ensures Abs() == if ok then Vbva.PartialRead(old(Abs()), cbRecord, memory) else old(Abs())
    {
      var cbChunk := cbRecord - |partialRecord|;
      if cbChunk >= au8Data.Length {
        return false;
      }
      if !memory {
        return false;
      }
      var chunk := FetchBytes(cbChunk);
      partialRecord := partialRecord + chunk;
      return true;
    }

    /** The state a fetch ends in once its command, if any, is taken over. */
    ghost function Taken(cmd: Fetched): State
      reads this, au8Data, aRecords
    {
      match cmd
      case Copied(bytes) => Abs().(delivered := delivered + [bytes])
      case _ => Abs()
    }

    /** A fetch that came to ok and cmd did what the step from s to t does. */
    ghost predicate DoneAs(s: State, t: State, ok: bool, cmd: Fetched)
      reads this, au8Data, aRecords
    {
      && off32Data == t.offData && t.enabled == (ok && (cmd.NoCommand? || cmd.Size() >= SIZEOF_CMDHDR))
      && (t.enabled ==> Taken(cmd) == t && (cmd.NoCommand? <==> t.first == s.first)
                        && (cmd.InRing? <==> t.held.Cmd?) && (cmd.InRing? ==> t.held == Cmd(cmd.cb)))
    }

    /** vbvaFetchCmd: one go at the record at the head of the queue. A command
        too short for its header is still handed out. */
    method FetchCmd() returns (ok: bool, cmd: Fetched)
      requires Abs().Shape() && au8Data.Length < 0x8000_0000 && enabled && held == Nothing
      modifies `off32Data, `partialRecord, `indexRecordFirst, `held, `fetches
      ensures Abs().Shape() && fetches == old(fetches) + 1
      ensures DoneAs(old(Abs()), Vbva.FetchCmd(old(Abs()), memory(old(fetches))), ok, cmd)
    {
      hide RingBytes, FetchMore, FetchNew;
      var mem := memory(fetches);
      fetches := fetches + 1;
      if indexRecordFirst == indexRecordFree {
        return true, NoCommand;
      }
      var cbRecordCurrent := aRecords[indexRecordFirst];
      var cbRecord := cbRecordCurrent % F_RECORD_PARTIAL;
      if cbRecord > MAX_RECORD_SIZE {
        return false, NoCommand;
      }
      assert Abs().records[indexRecordFirst] == RecordOf(cbRecordCurrent);
      if partialRecord != [] {
        ok, cmd := FetchPartial(cbRecordCurrent, mem);
      } else {
        ok, cmd := FetchFresh(cbRecordCurrent, mem);
      }
    }

    /** The part of it for a record of which something was fetched before. */
    method FetchPartial(cbRecordCurrent: u32, mem: bool) returns (ok: bool, cmd: Fetched)
      requires Abs().Shape() && au8Data.Length < 0x8000_0000 && enabled && held == Nothing && indexRecordFirst != indexRecordFree
      modifies `off32Data, `partialRecord, `indexRecordFirst
      ensures Abs().Shape() && DoneAs(old(Abs()), FetchMore(old(Abs()), RecordOf(cbRecordCurrent), mem), ok, cmd)
    {
      hide RingBytes, Vbva.PartialRead;
      cmd := NoCommand;
      var cbRecord := cbRecordCurrent % F_RECORD_PARTIAL;
      if cbRecord > |partialRecord| {
        ok := PartialRead(cbRecord, mem);
        if !ok {
          return;
        }
      }
      if cbRecordCurrent < F_RECORD_PARTIAL {
        cmd := Copied(partialRecord);
        partialRecord := [];
        indexRecordFirst := (indexRecordFirst + 1) % MAX_RECORDS;
      }
      return true, cmd;
    }

    /** The part of it for a record of which nothing was. */
    method FetchFresh(cbRecordCurrent: u32, mem: bool) returns (ok: bool, cmd: Fetched)
      requires Abs().Shape() && au8Data.Length < 0x8000_0000 && enabled && held == Nothing && indexRecordFirst != indexRecordFree
      requires partialRecord == []
      modifies `off32Data, `partialRecord, `indexRecordFirst, `held
      ensures Abs().Shape() && DoneAs(old(Abs()), FetchNew(old(Abs()), RecordOf(cbRecordCurrent), mem), ok, cmd)
    {
      hide RingBytes, Vbva.PartialRead;
      var cbRecord := cbRecordCurrent % F_RECORD_PARTIAL;
      if cbRecordCurrent >= F_RECORD_PARTIAL {
        if cbRecord >= au8Data.Length - cbPartialWriteThreshold {
          ok := PartialRead(cbRecord, mem);
          return ok, NoCommand;
        }
        return true, NoCommand;
      }
      if cbRecord >= au8Data.Length {
        return false, NoCommand;
      }
      if au8Data.Length - off32Data >= cbRecord {
        cmd := InRing(cbRecord);
        held := Cmd(cbRecord);
      } else {
        if !mem {
          return false, NoCommand;
        }
        var bytes := FetchBytes(cbRecord);
        cmd := Copied(bytes);
      }
      indexRecordFirst := (indexRecordFirst + 1) % MAX_RECORDS;
      return true, cmd;
    }

    /** Processing a command, and vbvaReleaseCmd: what was handed out in place
        was to be found in the ring until now. */
    method ProcessAndRelease(cmd: Fetched)
      requires Abs().Shape() && !cmd.NoCommand? && held == (if cmd.InRing? then Cmd(cmd.cb) else Nothing)
      requires cmd.InRing? ==> cmd.cb < au8Data.Length
      modifies `off32Data, `held, `delivered
      ensures Abs() == if cmd.InRing? then Next(old(Abs()).(enabled := true), Release).(enabled := enabled) else old(Taken(cmd))
    {
      match cmd
      case InRing(cb) =>
        delivered := delivered + [RingBytes(au8Data[..], off32Data, cb)];
        off32Data := (off32Data + cb) % au8Data.Length;
        held := Nothing;
      case Copied(bytes) =>
        delivered := delivered + [bytes];
    }

    /** One turn of the loop of vbvaFlushProcess, with the cleaning up when it
        fails; says whether there was a command. */
    method FlushTurn() returns (more: bool)
      requires Valid() && enabled && held == Nothing
      modifies `off32Data, `partialRecord, `indexRecordFirst, `held, `delivered, `enabled, `fetches
      ensures Valid() && held == Nothing && old(delivered) <= delivered && fetches == old(fetches) + 1
      ensures var t := Turn(old(Abs()), memory(old(fetches))); enabled == t.enabled && off32Data == t.offData
      ensures if enabled then Abs() == Turn(old(Abs()), memory(old(fetches))) && more == (indexRecordFirst != old(indexRecordFirst))
              else !more
    {
      hide Inv, Vbva.FetchCmd, Next, Can, RingBytes, Bounded, Turn, RecordsOf, RecordOf, Processed, AtRecord;
      ghost var s, mem := Abs(), memory(fetches);
      TurnBothWays(s, mem);
      TurnRoom(s, mem);
      HadBounded(s);
      var ok, cmd := FetchCmd();
      if !ok || (!cmd.NoCommand? && cmd.Size() < SIZEOF_CMDHDR) {
        enabled, partialRecord, held := false, [], Nothing;
        SameAt(s, Turn(s, mem), Abs());
        return false;
      }
      if !cmd.NoCommand? {
        ProcessAndRelease(cmd);
      }
      SameAt(s, Turn(s, mem), Abs());
      return !cmd.NoCommand?;
    }

    /** vbvaFlushProcess. */
    method FlushProcess()
      requires Valid() && enabled && held == Nothing
      modifies `off32Data, `partialRecord, `indexRecordFirst, `held, `delivered, `enabled, `fetches
      ensures Valid() && held == Nothing && old(delivered) <= delivered && old(fetches) <= fetches
      ensures var t := Drain(old(Abs()), memory, old(fetches)); enabled == t.enabled && off32Data == t.offData
      ensures enabled ==> Abs() == Drain(old(Abs()), memory, old(fetches))
    {
      hide Inv, Turn, Bounded;
      var more := true;
      ghost var end := Drain(Abs(), memory, fetches);
      while more
        invariant Valid() && held == Nothing && old(delivered) <= delivered && Abs().Shape() && old(fetches) <= fetches
        invariant more ==> enabled && Drain(Abs(), memory, fetches) == end
        invariant !more ==> enabled == end.enabled && off32Data == end.offData && (enabled ==> Abs() == end)
        decreases more, Abs().Live()
      {
        more := FlushTurn();
      }
    }

    /** The host looks at the ring, if it serves it. */
    method HostFlush()
      requires Valid() && held == Nothing
      modifies `off32Data, `partialRecord, `indexRecordFirst, `held, `delivered, `enabled, `fetches
      ensures Valid() && held == Nothing && old(delivered) <= delivered && (enabled ==> old(enabled))
      ensures old(Abs().Avail()) <= Abs().Avail()
      ensures enabled ==> Abs() == Drain(old(Abs()), memory, old(fetches)) && Drained(Abs())
      ensures !old(enabled) ==> Abs() == old(Abs())
      ensures old(Good()) ==> Good()
    {
      hide Inv, RingBytes, GoodQueue, Drained, Drain, Bounded;
      if enabled {
        DrainWorks(Abs(), memory, fetches);
        DrainRoom(Abs(), memory, fetches);
        FlushProcess();
      }
    }

    // ----- The guest -----

    /** vboxHwBufferFlush: the host looks at the ring, unless there is no buffer
        for the command; then nothing happens. */
    method HwBufferFlush() returns (ghost sent: bool)
      requires Valid() && held == Nothing
      modifies `off32Data, `partialRecord, `indexRecordFirst, `held, `delivered, `enabled, `fetches, `flushes
      ensures Valid() && held == Nothing && old(delivered) <= delivered && (enabled ==> old(enabled))
      ensures sent == sendable(old(flushes)) && flushes == old(flushes) + 1
      ensures old(Abs().Avail()) <= Abs().Avail()
      ensures sent && enabled ==> Abs() == Drain(old(Abs()), memory, old(fetches)) && Drained(Abs())
      ensures !sent || !old(enabled) ==> Abs() == old(Abs())
      ensures old(Good()) ==> Good()
    {
      hide Inv, RingBytes, GoodQueue, Drained, Drain, Bounded;
      sent := sendable(flushes);
      var fSend := sendable(flushes);
      flushes := flushes + 1;
      if fSend {
        HostFlush();
      }
    }

    /** VBoxVBVABufferBeginUpdate. Exactly when all slots are taken it flushes,
        and then, while the host serves the ring, there is a slot if and only if
        the flush could be sent. */
    method BufferBeginUpdate() returns (ok: bool)
      requires Valid() && held == Nothing && !atRecord
      modifies this, aRecords
      ensures Valid() && held == Nothing && old(delivered) <= delivered && fHwBufferOverflow == old(fHwBufferOverflow)
      ensures atRecord == ok && written == (if ok then old(written) + [[]] else old(written))
      ensures old(!enabled || !QueueFull()) ==> ok == enabled == old(enabled) && flushes == old(flushes)
      ensures old(enabled && QueueFull()) ==>
                && flushes == old(flushes) + 1
                && (enabled ==> ok == sendable(old(flushes)))
                && (!sendable(old(flushes)) ==> !ok && Abs() == old(Abs()))
      ensures old(Good()) ==> Good()
    {
      hide Inv, RingBytes, Drain, Drained, GoodQueue, RecordsOf, Bounded;
      if !enabled {
        return false;
      }
      var indexRecordNext := (indexRecordFree + 1) % MAX_RECORDS;
      if indexRecordNext == indexRecordFirst {
        ghost var sent := HwBufferFlush();
        if sent && enabled {
          DrainedSlot(Abs());
        }
      }
      if indexRecordNext == indexRecordFirst {
        return false;
      }
      TakeSlot();
      return true;
    }

    /** Starts a record in the free slot. */
    method TakeSlot()
      requires Valid() && held == Nothing && !atRecord && !QueueFull()
      modifies `indexRecordFree, `atRecord, `written, aRecords
      ensures Valid() && atRecord && written == old(written) + [[]]
      ensures enabled ==> Abs() == Next(old(Abs()), Begin)
      ensures old(Good()) ==> Good()
    {
      hide Inv, RingBytes, GoodQueue, RecordsOf, Bounded;
      ghost var s, r0 := Abs(), aRecords[..];
      if enabled {
        BeginKeeps(s);
        GoodBegin(s);
      }
      RecordSet(r0, indexRecordFree, F_RECORD_PARTIAL);
      aRecords[indexRecordFree] := F_RECORD_PARTIAL;
      indexRecordFree := (indexRecordFree + 1) % MAX_RECORDS;
      atRecord := true;
      written := written + [[]];
      assert aRecords[..] == r0[s.free := F_RECORD_PARTIAL];
      FreshBounded(Abs());
    }

    /** VBoxVBVABufferEndUpdate. */
    method BufferEndUpdate()
      requires Valid() && atRecord
      modifies `atRecord, `fHwBufferOverflow, aRecords
      ensures Valid() && !fHwBufferOverflow && Abs() == Next(old(Abs()), End)
    {
      hide Inv, RingBytes;
      ghost var s := Abs();
      if enabled {
        EndKeeps(s);
      }
      var i := (indexRecordFree + MAX_RECORDS - 1) % MAX_RECORDS;
      assert s.records[i] == RecordOf(aRecords[i]);
      aRecords[i] := aRecords[i] % F_RECORD_PARTIAL;
      fHwBufferOverflow, atRecord := false, false;
      assert Abs().records == s.records[i := s.records[i].(partial := false)];
    }

    /** A chunk put into the ring: its bytes, then the offset, then its size. */
    method PutChunk(chunk: seq<byte>)
      requires Valid() && Can(Abs(), Place(chunk)) && atRecord
      modifies `off32Free, `written, aRecords, au8Data
      ensures Valid() && Abs() == Chunked(old(Abs()), chunk) && Abs().Avail() == old(Abs().Avail()) - |chunk|
      ensures written == Appended(old(written), chunk)
      ensures old(Good() && |Last(written)| + |chunk| <= MAX_RECORD_SIZE) ==> Good()
    {
      hide Inv, RingBytes, Placed, Chunked, Next, RecordsOf, RecordOf, GoodQueue;
      ghost var s, r0 := Abs(), aRecords[..];
      ChunkedIs(s, chunk);
      AvailLess(s, chunk);
      if GoodQueue(s) && |written[|written| - 1]| + |chunk| <= MAX_RECORD_SIZE {
        GoodChunk(s, chunk);
      }
      if enabled {
        ChunkKeeps(s, chunk);
      }
      var i := (indexRecordFree + MAX_RECORDS - 1) % MAX_RECORDS;
      ghost var v := RecordGrows(r0, i, |chunk|);
      PlaceDataAt(chunk, off32Free);
      off32Free := (off32Free + |chunk|) % au8Data.Length;
      aRecords[i] := aRecords[i] + |chunk|;
      written := written[|written| - 1 := written[|written| - 1] + chunk];
      assert aRecords[..] == r0[i := v];
    }

    /** The choice at the head of vboxHwBufferWrite's loop: how much of cb bytes
        to put into the ring next, going by what was free when it last looked;
        nothing, if it flushed and even then there is too little room. */
    method ChooseChunk(cb: nat, cbHwBufferAvail: nat) returns (cbChunk: nat, avail: nat)
      requires Valid() && held == Nothing && atRecord && cb > 0 && cbHwBufferAvail <= Abs().Avail()
      modifies `off32Data, `partialRecord, `indexRecordFirst, `held, `delivered, `enabled, `fetches, `flushes
      ensures Valid() && held == Nothing && old(delivered) <= delivered && (enabled ==> old(enabled))
      ensures cbChunk <= cb && cbChunk < avail <= Abs().Avail()
      ensures if cb < cbHwBufferAvail then
                cbChunk == cb && avail == cbHwBufferAvail && flushes == old(flushes) && Abs() == old(Abs())
              else
                && avail == Abs().Avail() && flushes == old(flushes) + 1
                && cbChunk == (if cb < avail then cb else if avail <= cbPartialWriteThreshold then 0 else avail - cbPartialWriteThreshold)
                && (!sendable(old(flushes)) || !old(enabled) ==> Abs() == old(Abs()))
                && (sendable(old(flushes)) && enabled ==> cbChunk > 0)
      ensures old(Good()) ==> Good()
    {
      hide Inv, GoodQueue, Drained, Drain, Bounded;
      cbChunk, avail := cb, cbHwBufferAvail;
      if cbChunk >= avail {
        ghost var sent := HwBufferFlush();
        avail := HwBufferAvail();
        if sent && enabled {
          DrainedRoom(Abs());
        }
        if cbChunk >= avail {
          cbChunk := if avail <= cbPartialWriteThreshold then 0 else avail - cbPartialWriteThreshold;
        }
      }
    }

    /** The host, which may look at the ring at any time, does so or not. */
    method HostMeanwhile()
      requires Valid() && held == Nothing
      modifies `off32Data, `partialRecord, `indexRecordFirst, `held, `delivered, `enabled, `fetches, `chunks
      ensures Valid() && held == Nothing && old(delivered) <= delivered && (enabled ==> old(enabled))
      ensures old(Abs().Avail()) <= Abs().Avail()
      ensures !ticks(old(chunks)) || !old(enabled) ==> Abs() == old(Abs())
      ensures old(Good()) ==> Good()
    {
      hide Inv, GoodQueue, Drained, Drain, Bounded;
      var fLook := ticks(chunks);
      chunks := chunks + 1;
      if fLook {
        HostFlush();
      }
    }

    /** No flush reaches the host, nor does it look by itself; or it would not
        serve the ring if it did. */
    ghost predicate OnItsOwn()
      reads this
    {
      !enabled || ((forall i :: !sendable(i)) && forall i :: !ticks(i))
    }

    /** One turn of vboxHwBufferWrite's loop, with cb bytes still to go: puts the
        next of them into the record, or notes that the ring overflows. */
    method WriteMore(p: seq<byte>, cb: nat, cbHwBufferAvail: nat) returns (cbChunk: nat, avail: nat)
      requires Valid() && held == Nothing && atRecord && !fHwBufferOverflow && 0 < cb <= |p| && cbHwBufferAvail <= Abs().Avail()
      modifies `off32Data, `partialRecord, `indexRecordFirst, `held, `delivered, `enabled, `fetches, `flushes, `chunks
      modifies `off32Free, `written, `fHwBufferOverflow, aRecords, au8Data
      ensures Valid() && held == Nothing && old(delivered) <= delivered && (enabled ==> old(enabled))
      ensures fHwBufferOverflow == (cbChunk == 0) && (old(OnItsOwn()) ==> OnItsOwn())
      ensures cbChunk <= cb && 0 < avail <= Abs().Avail() && old(flushes) <= flushes
      ensures written == Appended(old(written), p[|p| - cb..|p| - cb + cbChunk])
      ensures cbChunk == 0 ==>
                && Abs().Avail() <= cbPartialWriteThreshold && Abs().Avail() <= cb
                && old(flushes) < flushes && (enabled ==> !sendable(flushes - 1))
      ensures cb < cbHwBufferAvail ==> cbChunk == cb && avail == cbHwBufferAvail - cb && flushes == old(flushes)
      ensures old(OnItsOwn() && cbHwBufferAvail == Abs().Avail()) ==> avail == Abs().Avail() && (cb - cbChunk < avail <==> cb < cbHwBufferAvail)
      ensures old(Good() && |Last(written)| + cb <= MAX_RECORD_SIZE) ==> Good()
    {
      hide Inv, RingBytes, GoodQueue, Drained, Drain, Chunked, Placed, RecordsOf, RecordOf, Bounded, AtRecord;
      HostMeanwhile();
      cbChunk, avail := ChooseChunk(cb, cbHwBufferAvail);
      if cbChunk > 0 {
        PutChunk(p[|p| - cb..|p| - cb + cbChunk]);
        avail := avail - cbChunk;
      } else {
        NothingAdded(written, p[|p| - cb..|p| - cb + cbChunk]);
        fHwBufferOverflow := true;
      }
    }

    /** vboxHwBufferWrite. All of p goes into the record, however small the ring,
        unless there is no more room than the threshold after a flush; which,
        while the host serves the ring, is only when that could not be sent. The
        host keeps serving the ring if the records are ones it takes. */
    method HwBufferWrite(p: seq<byte>) returns (ok: bool, ghost put: nat)
      requires Valid() && held == Nothing && atRecord && |p| < 0x1_0000_0000
      modifies `off32Data, `partialRecord, `indexRecordFirst, `held, `delivered, `enabled, `fetches, `flushes, `chunks
      modifies `off32Free, `written, `fHwBufferOverflow, aRecords, au8Data
      ensures Valid() && held == Nothing && atRecord && old(delivered) <= delivered && (enabled ==> old(enabled))
      ensures ok == !fHwBufferOverflow && (old(fHwBufferOverflow) ==> !ok && Abs() == old(Abs()))
      ensures put <= |p| && written == Appended(old(written), p[..put])
      ensures ok ==> put == |p|
      ensures !ok && !old(fHwBufferOverflow) ==>
                && Abs().Avail() <= cbPartialWriteThreshold && Abs().Avail() <= |p| - put
                && old(flushes) < flushes && (enabled ==> !sendable(flushes - 1))
      ensures old(!fHwBufferOverflow && |p| < Abs().Avail()) ==> ok && flushes == old(flushes)
      ensures old(!fHwBufferOverflow && OnItsOwn()) ==> (ok <==> |p| < old(Abs().Avail()))
      ensures old(Good() && |Last(written)| + |p| <= MAX_RECORD_SIZE) ==> Good()
    {
      hide Inv, RingBytes, GoodQueue, Drained, Drain, Chunked, Placed, RecordsOf, RecordOf, Bounded, Appended, Last, Good, OnItsOwn, AtRecord;
      NothingAdded(written, p[..0]);
      put := 0;
      if fHwBufferOverflow {
        return false, 0;
      }
      ghost var w0, room, alone := written, Abs().Avail(), OnItsOwn();
      ghost var good := Good() && |Last(w0)| + |p| <= MAX_RECORD_SIZE;
      var cb: nat, cbWritten: nat := |p|, 0;
      var cbHwBufferAvail := HwBufferAvail();
      while cb > 0
        invariant Valid() && held == Nothing && atRecord && !fHwBufferOverflow
        invariant old(delivered) <= delivered && (enabled ==> old(enabled)) && old(flushes) <= flushes
        invariant cb + cbWritten == |p|
        invariant 0 < cbHwBufferAvail <= Abs().Avail()
        invariant |p| < room ==> cb < cbHwBufferAvail && flushes == old(flushes)
        invariant alone ==> OnItsOwn() && cbHwBufferAvail == Abs().Avail() && (cb < cbHwBufferAvail <==> |p| < room)
        invariant written == Appended(w0, p[..cbWritten])
        invariant good ==> Good() && |Last(w0)| + |p| <= MAX_RECORD_SIZE
      {
        var cbChunk;
        cbChunk, cbHwBufferAvail := WriteMore(p, cb, cbHwBufferAvail);
        AppendTwice(w0, p, cbWritten, cbWritten + cbChunk);
        if cbChunk == 0 {
          return false, cbWritten;
        }
        cb, cbWritten := cb - cbChunk, cbWritten + cbChunk;
      }
      return true, cbWritten;
    }
  }

  /** The bytes of the record begun last; none, if there is none. */
  function Last(w: seq<seq<byte>>): seq<byte> {
    if w == [] then [] else w[|w| - 1]
  }

  /** The records with x added to the last one. */
  function Appended(w: seq<seq<byte>>, x: seq<byte>): seq<seq<byte>> {
    if w == [] then [] else w[|w| - 1 := Last(w) + x]
  }

  lemma AppendTwice(w: seq<seq<byte>>, p: seq<byte>, i: nat, j: nat)
    requires i <= j <= |p|
    ensures Appended(Appended(w, p[..i]), p[i..j]) == Appended(w, p[..j])
    ensures |Last(Appended(w, p[..i]))| <= |Last(w)| + i
  {
    assert p[..i] + p[i..j] == p[..j];
    assert w != [] ==> (Last(w) + p[..i]) + p[i..j] == Last(w) + p[..j];
  }

  lemma NothingAdded(w: seq<seq<byte>>, x: seq<byte>)
    requires x == []
    ensures w == Appended(w, x)
  {
    assert Last(w) + x == Last(w);
  }

  /** The three steps of the guest that bring in a chunk. */
  function Chunked(s: State, chunk: seq<byte>): State
    requires s.Shape() && Can(s, Place(chunk))
  {
    Next(Next(Next(s, Place(chunk)), Advance), Grow)
  }

  lemma ChunkedIs(s: State, chunk: seq<byte>)
    requires s.Shape() && Can(s, Place(chunk)) && s.written != [] && !s.advanced
    ensures var (i, n) := (s.Last(), |s.written| - 1);
            Chunked(s, chunk) ==
              s.(data := Placed(s.data, s.offFree, chunk), offFree := (s.offFree + |chunk|) % |s.data|,
                 records := s.records[i := s.records[i].(cb := s.records[i].cb + |chunk|)],
                 written := s.written[n := s.written[n] + chunk])
  {
    hide Placed;
  }

  /** Adding to the size of a partial record adds to what it stands for. */
  lemma RecordGrows(a: seq<u32>, i: nat, n: nat) returns (v: u32)
    requires i < |a| && RecordOf(a[i]).partial && RecordOf(a[i]).cb + n < F_RECORD_PARTIAL
    ensures v == a[i] + n && RecordsOf(a[i := v]) == RecordsOf(a)[i := Record(RecordOf(a[i]).cb + n, true)]
  {
    v := a[i] + n;
  }

  lemma RecordSet(a: seq<u32>, i: nat, v: u32)
    requires i < |a|
    ensures RecordsOf(a[i := v]) == RecordsOf(a)[i := RecordOf(v)]
  {
  }

  lemma AvailLess(s: State, chunk: seq<byte>)
    requires s.Shape() && Can(s, Place(chunk))
    ensures Chunked(s, chunk).Avail() == s.Avail() - |chunk|
  {
    hide Placed;
    AdvIsMod(s.offFree, |chunk|, |s.data|);
  }

  lemma ChunkKeeps(s: State, chunk: seq<byte>)
    requires Inv(s) && Can(s, Place(chunk))
    ensures Inv(Chunked(s, chunk))
  {
    hide Inv, RingBytes, Placed;
    PlaceKeeps(s, chunk);
    AdvanceKeeps(Next(s, Place(chunk)));
    GrowKeeps(Next(Next(s, Place(chunk)), Advance));
  }

  lemma GoodBegin(s: State)
    requires s.Shape() && Can(s, Begin)
    ensures GoodQueue(s) ==> GoodQueue(Next(s, Begin))
  {
  }

  /** A queue stays good when its partial record grows within bounds. */
  lemma GoodChunk(s: State, chunk: seq<byte>)
    requires GoodQueue(s) && Can(s, Place(chunk)) && s.written != []
    requires |s.written[|s.written| - 1]| + |chunk| <= MAX_RECORD_SIZE
    ensures GoodQueue(Chunked(s, chunk))
  {
    hide RingBytes, Placed;
  }

  /** A turn of the loop keeps the invariant, unless the host gives up. */
  lemma TurnBothWays(s: State, memory: bool)
    requires Inv(s) && s.enabled && s.held == Nothing
    ensures var (t, u) := (Turn(s, memory), Vbva.FetchCmd(s, memory));
            && t.enabled == u.enabled && s.delivered <= t.delivered
            && (!t.enabled ==> t.offData == u.offData)
            && (t.enabled ==> Inv(t) && t == (if u.held == Nothing then u else Next(u, Release)) && t.first == u.first)
  {
    hide Inv, Vbva.FetchCmd, RingBytes;
    ShapeOf(s);
    FetchKeeps(s, memory);
    TurnDelivers(s, memory);
    if !GivesUp(s, memory) {
      TurnPops(s, memory);
    }
  }

  lemma HadBounded(s: State)
    requires s.Shape() && AtRecord(s)
    ensures Bounded(s)
  {
  }

  lemma FreshBounded(s: State)
    requires s.Shape() && s.written != [] && s.written[|s.written| - 1] == []
    ensures Bounded(s)
  {
  }

  /** What t says of the ring's room holds of u too, and u has the records of s. */
  lemma SameAt(s: State, t: State, u: State)
    requires s.Shape() && t.Shape() && u.Shape() && AtRecord(s) && Bounded(t)
    requires t.offData == u.offData && t.offFree == u.offFree && |t.data| == |u.data| && t.current == u.current && t.written == u.written
    requires u.records == s.records && u.free == s.free && u.current == s.current && u.written == s.written
    ensures AtRecord(u)
  {
  }

  function RecordsOf(a: seq<u32>): (r: seq<Record>)
    ensures |r| == |a| && forall i :: 0 <= i < |r| ==> r[i] == RecordOf(a[i])
  {
    seq(|a|, i requires 0 <= i < |a| => RecordOf(a[i]))
  }
}
