/** What every run of the VBVA protocol keeps, however the steps of guest and
    host interleave, and when exactly the host gives up. */
module VbvaSafety {
  import opened Bytes
  import opened Vbva

  // ----- The invariant -----

  /** The queue slot of record number j. */
  function Slot(s: State, j: nat): (i: nat)
    requires s.Base() <= j
    ensures i < MAX_RECORDS
  {
    (s.first + (j - s.Base())) % MAX_RECORDS
  }

  /** What the host processed is what the guest wrote first; the records after
      that are those in the queue, of the sizes it says, and only the newest of
      them may be partial. */
  ghost predicate QueueInv(s: State) {
    && s.Shape()
    && s.Base() <= |s.written| && s.delivered == s.written[..|s.delivered|]
    && |s.written| == s.Base() + s.Live()
    && (s.current ==> s.Live() > 0)
    && (forall j :: s.Base() <= j < |s.written| ==>
          s.records[Slot(s, j)] == Record(|s.written[j]|, s.current && j == |s.written| - 1))
    && (s.held.Cmd? ==> s.part == [] && s.held.cb == |s.written[|s.delivered|]|)
    && (s.part != [] ==> s.Base() < |s.written| && s.part <= s.written[s.Base()])
    && (s.pend != [] ==> s.current) && (s.advanced ==> s.pend != [])
  }

  /** What is in the ring: the unread bytes and the chunk on its way in, in
      order from off32Data on, never the whole ring; off32Free comes after. */
  ghost predicate RingInv(s: State, unread: seq<byte>) {
    && s.Shape()
    && |unread| + |s.pend| < |s.data|
    && RingBytes(s.data, s.offData, |unread| + |s.pend|) == unread + s.pend
    && s.offFree == Adv(s.offData, |unread| + if s.advanced then |s.pend| else 0, |s.data|)
  }

  ghost predicate Inv(s: State) {
    && QueueInv(s)
    && (PartInFlat(s); RingInv(s, s.Unread()))
  }

  lemma PartInFlat(s: State)
    requires QueueInv(s)
    ensures |s.delivered| <= |s.written| && |s.part| <= |Flat(s.written[|s.delivered|..])|
  {
    if s.part != [] {
      assert s.written[|s.delivered|..][0] == s.written[s.Base()];
    }
  }

  lemma FlatHead(ss: seq<seq<byte>>, i: nat)
    requires i < |ss|
    ensures Flat(ss[i..]) == ss[i] + Flat(ss[i + 1..])
  {
    assert ss[i..][0] == ss[i] && ss[i..][1..] == ss[i + 1..];
  }

  lemma FlatLast(ss: seq<seq<byte>>, i: nat)
    requires i < |ss|
    ensures Flat(ss[i..]) == Flat(ss[i..|ss| - 1]) + ss[|ss| - 1]
  {
    FlatAppend(ss[i..|ss| - 1], [ss[|ss| - 1]]);
    FlatOne(ss[|ss| - 1]);
    assert ss[i..] == ss[i..|ss| - 1] + [ss[|ss| - 1]];
  }

  lemma LastSlot(s: State)
    requires s.Shape() && |s.written| == s.Base() + s.Live() && s.Live() > 0
    ensures Slot(s, |s.written| - 1) == s.Last()
    ensures forall j :: s.Base() <= j < |s.written| - 1 ==> Slot(s, j) != s.Last()
  {
    forall j | s.Base() <= j < |s.written| ensures Slot(s, j) == s.Last() <==> j == |s.written| - 1 {
      QueueLast(s.first, s.free, j - s.Base());
    }
  }

  /** The free slot comes right after the records in the queue. */
  lemma FreeSlot(s: State)
    requires s.Shape() && |s.written| == s.Base() + s.Live()
    ensures Slot(s, |s.written|) == s.free
    ensures forall j :: s.Base() <= j < |s.written| ==> Slot(s, j) != s.free
  {
  }

  lemma SlotsSame(s: State, t: State)
    requires s.Base() == t.Base() && s.first == t.first
    ensures forall j :: s.Base() <= j ==> Slot(s, j) == Slot(t, j)
  {
  }

  // ----- Guest steps -----

  lemma BeginQueue(s: State)
    requires QueueInv(s) && Can(s, Begin)
    ensures QueueInv(Next(s, Begin))
  {
    hide Slot;
    var t := Next(s, Begin);
    LiveMore(s);
    FreeSlot(s);
    SlotsSame(s, t);
    forall j | t.Base() <= j < |t.written|
      ensures t.records[Slot(t, j)] == Record(|t.written[j]|, t.current && j == |t.written| - 1)
    {
      assert Slot(t, j) == Slot(s, j);
    }
  }

  lemma LiveMore(s: State)
    requires s.Shape() && Can(s, Begin)
    ensures Next(s, Begin).Live() == s.Live() + 1
  {
  }

  lemma BeginKeeps(s: State)
    requires Inv(s) && Can(s, Begin)
    ensures Inv(Next(s, Begin))
  {
    hide Flat, QueueInv, RingBytes;
    BeginQueue(s);
    var t := Next(s, Begin);
    PartInFlat(s);
    PartInFlat(t);
    FlatLast(t.written, |t.delivered|);
    assert t.written[|t.delivered|..|s.written|] == s.written[|s.delivered|..];
    assert t.Unread() == s.Unread();
  }

  lemma AvailIs(s: State, unread: seq<byte>)
    requires RingInv(s, unread) && s.pend == [] && !s.advanced
    ensures s.Avail() == |s.data| - |unread|
  {
  }

  lemma PlaceRing(s: State, unread: seq<byte>, chunk: seq<byte>)
    requires RingInv(s, unread) && s.pend == [] && !s.advanced && Can(s, Place(chunk))
    ensures RingInv(Next(s, Place(chunk)), unread)
  {
    hide RingBytes, Placed;
    AvailIs(s, unread);
    PlacedReads(s.data, s.offData, |unread|, chunk);
  }

  lemma PlaceKeeps(s: State, chunk: seq<byte>)
    requires Inv(s) && Can(s, Place(chunk))
    ensures Inv(Next(s, Place(chunk)))
  {
    hide Flat, RingInv, RingBytes, Placed;
    PartInFlat(s);
    PlaceRing(s, s.Unread(), chunk);
  }

  lemma AdvanceRing(s: State, unread: seq<byte>)
    requires RingInv(s, unread) && Can(s, Advance)
    ensures RingInv(Next(s, Advance), unread)
  {
    hide RingBytes, Adv;
    AdvIsMod(s.offFree, |s.pend|, |s.data|);
    AdvAdv(s.offData, |unread|, |s.pend|, |s.data|);
  }

  lemma AdvanceKeeps(s: State)
    requires Inv(s) && Can(s, Advance)
    ensures Inv(Next(s, Advance))
  {
    hide Flat, RingBytes, RingInv;
    PartInFlat(s);
    AdvanceRing(s, s.Unread());
  }

  lemma GrowQueue(s: State)
    requires QueueInv(s) && Can(s, Grow)
    ensures QueueInv(Next(s, Grow)) && s.Live() > 0
  {
    hide Slot;
    LastSlot(s);
    SlotsSame(s, Next(s, Grow));
  }

  lemma CurrentLast(s: State)
    requires QueueInv(s) && s.current
    ensures |s.delivered| < |s.written|
  {
  }

  lemma TailOf(a: seq<byte>, b: seq<byte>, n: nat)
    requires n <= |a|
    ensures (a + b)[..n] == a[..n] && (a + b)[n..] == a[n..] + b
  {
  }

  lemma GrowUnread(s: State)
    requires QueueInv(s) && Can(s, Grow)
    ensures var t := Next(s, Grow);
            (GrowQueue(s); PartInFlat(s); PartInFlat(t); t.Unread() == s.Unread() + s.pend)
  {
    hide Flat, QueueInv;
    GrowQueue(s);
    GrowCurrent(s);
    CurrentLast(s);
    var t := Next(s, Grow);
    PartInFlat(s);
    PartInFlat(t);
    var n := |s.written| - 1;
    FlatLast(s.written, |s.delivered|);
    FlatLast(t.written, |s.delivered|);
    assert t.written[|s.delivered|..n] == s.written[|s.delivered|..n];
    var front := Flat(s.written[|s.delivered|..n]);
    assert front + (s.written[n] + s.pend) == (front + s.written[n]) + s.pend;
    TailOf(Flat(s.written[|s.delivered|..]), s.pend, |s.part|);
  }

  lemma GrowCurrent(s: State)
    requires QueueInv(s) && Can(s, Grow)
    ensures s.current && s.Shape()
  {
  }

  lemma GrowKeeps(s: State)
    requires Inv(s) && Can(s, Grow)
    ensures Inv(Next(s, Grow))
  {
    hide QueueInv, RingBytes, Flat;
    GrowQueue(s);
    GrowUnread(s);
    var t := Next(s, Grow);
    PartInFlat(s);
    PartInFlat(t);
    assert s.Unread() + s.pend == t.Unread() + [];
    assert |t.Unread()| == |s.Unread()| + |s.pend|;
  }

  lemma EndQueue(s: State)
    requires QueueInv(s) && Can(s, End)
    ensures QueueInv(Next(s, End))
  {
    hide Slot;
    LastSlot(s);
    SlotsSame(s, Next(s, End));
  }

  lemma EndKeeps(s: State)
    requires Inv(s) && Can(s, End)
    ensures Inv(Next(s, End))
  {
    hide Flat, RingBytes, RingInv, QueueInv;
    EndQueue(s);
    PartInFlat(s);
    EndRing(s, s.Unread());
  }

  lemma EndRing(s: State, unread: seq<byte>)
    requires RingInv(s, unread) && Can(s, End)
    ensures RingInv(Next(s, End), unread)
  {
  }

  // ----- Host steps -----

  lemma AdvAdv(off: nat, a: nat, b: nat, n: nat)
    requires off < n && a + b < n
    ensures Adv(off, a, n) < n && Adv(Adv(off, a, n), b, n) == Adv(off, a + b, n) < n
  {
  }

  /** Reading n unread bytes gives them in order and frees their place. */
  lemma TakeRing(s: State, unread: seq<byte>, n: nat)
    requires RingInv(s, unread) && n <= |unread|
    ensures RingBytes(s.data, s.offData, n) == unread[..n]
    ensures RingInv(s.(offData := (s.offData + n) % |s.data|), unread[n..])
  {
    hide RingBytes, Adv;
    var all := |unread| + |s.pend|;
    AdvAdv(s.offData, n, |unread| - n + if s.advanced then |s.pend| else 0, |s.data|);
    AdvIsMod(s.offData, n, |s.data|);
    TakenBytes(s, unread + s.pend, n);
    TailOf(unread, s.pend, n);
    TailOf(unread[n..], s.pend, 0);
  }

  lemma TakenBytes(s: State, bytes: seq<byte>, n: nat)
    requires s.Shape() && n <= |bytes| < |s.data| && RingBytes(s.data, s.offData, |bytes|) == bytes
    ensures RingBytes(s.data, s.offData, n) == bytes[..n]
    ensures RingBytes(s.data, Adv(s.offData, n, |s.data|), |bytes| - n) == bytes[n..]
  {
    hide RingBytes, Adv;
    RingSplit(s.data, s.offData, n, |bytes| - n);
  }

  /** Moving past a finished record at the head of the queue. */
  lemma PopQueue(s: State, t: State)
    requires QueueInv(s) && s.held == Nothing && s.Live() > 0 && !s.records[s.first].partial
    requires t.Shape() && t.records == s.records && t.free == s.free && t.first == (s.first + 1) % MAX_RECORDS
    requires t.current == s.current && t.pend == s.pend && t.advanced == s.advanced && t.written == s.written && t.part == []
    requires || (t.held == Nothing && t.delivered == s.delivered + [s.written[s.Base()]])
             || (t.held == Cmd(|s.written[s.Base()]|) && t.delivered == s.delivered)
    ensures QueueInv(t)
  {
    hide Slot;
    PopSlots(s, t);
    forall j | t.Base() <= j < |t.written|
      ensures t.records[Slot(t, j)] == Record(|t.written[j]|, t.current && j == |t.written| - 1)
    {
      assert Slot(t, j) == Slot(s, j);
    }
  }

  lemma PopSlots(s: State, t: State)
    requires s.Shape() && t.Shape() && s.Live() > 0
    requires t.free == s.free && t.first == (s.first + 1) % MAX_RECORDS && t.Base() == s.Base() + 1
    ensures t.Live() == s.Live() - 1 && Slot(s, s.Base()) == s.first
    ensures forall j :: t.Base() <= j ==> Slot(t, j) == Slot(s, j)
  {
    QueueLess(s.first, s.free);
    forall j | t.Base() <= j ensures Slot(t, j) == Slot(s, j) {
      OneFurther(s.first, j - t.Base());
    }
  }

  lemma OneFurther(first: nat, k: nat)
    requires first < MAX_RECORDS
    ensures ((first + 1) % MAX_RECORDS + k) % MAX_RECORDS == (first + (k + 1)) % MAX_RECORDS
  {
  }

  /** The record at the head of the queue: its size, and its bytes not fetched
      yet as the next unread ones. */
  lemma HeadRecord(s: State)
    requires QueueInv(s) && s.held == Nothing && s.first != s.free
    ensures s.Base() == |s.delivered| < |s.written| && s.Live() > 0
    ensures s.records[s.first].cb == |s.written[s.Base()]| >= |s.part|
    ensures var n := |s.written[s.Base()]| - |s.part|;
            (PartInFlat(s);
             && n <= |s.Unread()| && s.part + s.Unread()[..n] == s.written[s.Base()]
             && s.Unread()[n..] == Flat(s.written[s.Base() + 1..]))
  {
    hide Flat;
    assert Slot(s, s.Base()) == s.first;
    PartInFlat(s);
    FlatHead(s.written, s.Base());
    var head := s.written[s.Base()];
    assert s.part == head[..|s.part|];
  }

  lemma PartQueue(s: State, t: State)
    requires QueueInv(s) && s.held == Nothing && s.Base() < |s.written|
    requires t.Shape() && t == s.(part := s.written[s.Base()], offData := t.offData)
    ensures QueueInv(t)
  {
    hide Slot;
    SlotsSame(s, t);
  }

  lemma PartialReadKeeps(s: State)
    requires Inv(s) && s.held == Nothing && s.first != s.free && s.records[s.first].cb > |s.part|
    ensures var t := PartialRead(s, s.records[s.first].cb, true);
            Inv(t) && t.enabled == s.enabled && t == s.(part := s.written[s.Base()], offData := t.offData)
  {
    hide Flat, RingBytes, RingInv, QueueInv;
    ShapeOf(s);
    HeadRecord(s);
    PartInFlat(s);
    var n := |s.written[s.Base()]| - |s.part|;
    UnreadBound(s, s.Unread());
    TakeRing(s, s.Unread(), n);
    var t := PartialRead(s, s.records[s.first].cb, true);
    PartQueue(s, t);
    PartInFlat(t);
    FlatHead(s.written, s.Base());
    assert t.Unread() == s.Unread()[n..];
    SameRing(s.(offData := t.offData), t, s.Unread()[n..]);
  }

  lemma UnreadBound(s: State, unread: seq<byte>)
    requires RingInv(s, unread)
    ensures |unread| < |s.data|
  {
  }

  lemma SameRing(s: State, t: State, unread: seq<byte>)
    requires RingInv(s, unread) && t.Shape()
    requires t.data == s.data && t.offData == s.offData && t.offFree == s.offFree && t.pend == s.pend && t.advanced == s.advanced
    ensures RingInv(t, unread)
  {
  }

  /** A record fetched in full is delivered as the guest wrote it. */
  lemma DeliverKeeps(s: State, u: State, cmd: seq<byte>)
    requires Inv(s) && s.held == Nothing && s.first != s.free && !s.records[s.first].partial
    requires cmd == s.written[s.Base()] && |cmd| >= SIZEOF_CMDHDR
    requires u.Shape() && u == s.(offData := u.offData) && RingInv(u, Flat(s.written[s.Base() + 1..]))
    ensures Inv(Deliver(u, cmd)) && Deliver(u, cmd).enabled == s.enabled
  {
    hide Flat, RingBytes, RingInv;
    HeadRecord(s);
    var t := Deliver(u, cmd);
    PopQueue(s, t);
    PartInFlat(t);
    assert t.Unread() == Flat(s.written[s.Base() + 1..]);
    SameRing(u, t, t.Unread());
  }

  /** When the host gives up: the record at the head is larger than it takes, or
      finished without so much as a command header in it. */
  predicate BadHead(s: State)
    requires s.Shape()
  {
    s.first != s.free &&
      var r := s.records[s.first];
      r.cb > MAX_RECORD_SIZE || (!r.partial && r.cb < SIZEOF_CMDHDR)
  }

  /** When the host asks for memory: to keep part of a record, or to copy one that
      crosses the end of the ring. */
  predicate NeedsMemory(s: State)
    requires s.Shape()
  {
    s.first != s.free &&
      var r := s.records[s.first];
      if s.part != [] then r.cb > |s.part|
      else if r.partial then r.cb >= |s.data| - s.threshold
      else r.cb > |s.data| - s.offData
  }

  predicate GivesUp(s: State, memory: bool)
    requires s.Shape()
  {
    BadHead(s) || (NeedsMemory(s) && !memory)
  }

  lemma FetchKeeps(s: State, memory: bool)
    requires Inv(s) && Can(s, Fetch(memory))
    ensures var t := Next(s, Fetch(memory));
            && t.enabled == !GivesUp(s, memory)
            && (if t.enabled then Inv(t) else t.delivered == s.delivered && t.written == s.written)
  {
    hide Flat, RingBytes, RingInv, PartialRead, Deliver, Slot;
    if s.first != s.free && !GivesUp(s, memory) {
      HeadRecord(s);
      PartInFlat(s);
      var r := s.records[s.first];
      UnreadBound(s, s.Unread());
      if s.part != [] {
        FetchPart(s, memory);
      } else if r.partial {
        if r.cb >= |s.data| - s.threshold {
          PartialReadKeeps(s);
        }
      } else {
        FetchWhole(s, memory);
      }
    } else if s.first != s.free {
      BadFetch(s, memory);
    }
  }

  lemma BadFetch(s: State, memory: bool)
    requires Inv(s) && Can(s, Fetch(memory)) && GivesUp(s, memory)
    ensures var t := FetchCmd(s, memory); !t.enabled && t.delivered == s.delivered && t.written == s.written
  {
    hide Inv, RingBytes;
    ShapeOf(s);
    HeadSize(s);
    var r := s.records[s.first];
    if r.cb <= MAX_RECORD_SIZE && s.part != [] && r.cb > |s.part| && memory {
      PartialReadKeeps(s);
      var t := PartialRead(s, r.cb, true);
      assert FetchCmd(s, memory) == Deliver(t, t.part);
    }
  }

  lemma HeadSize(s: State)
    requires Inv(s) && s.held == Nothing && s.first != s.free
    ensures s.Base() < |s.written| && |s.part| <= s.records[s.first].cb == |s.written[s.Base()]|
  {
    HeadRecord(s);
  }

  lemma ShapeOf(s: State)
    requires Inv(s)
    ensures s.Shape()
  {
  }

  lemma DeliverPart(s: State)
    requires Inv(s) && s.held == Nothing && s.first != s.free && !s.records[s.first].partial
    requires s.part == s.written[s.Base()] && |s.part| >= SIZEOF_CMDHDR
    ensures Inv(Deliver(s, s.part)) && Deliver(s, s.part).enabled == s.enabled
  {
    hide Flat, RingBytes, RingInv;
    HeadRecord(s);
    PartInFlat(s);
    assert s.Unread() == Flat(s.written[s.Base() + 1..]);
    DeliverKeeps(s, s, s.part);
  }

  lemma FetchPart(s: State, memory: bool)
    requires Inv(s) && Can(s, Fetch(memory)) && !GivesUp(s, memory) && s.first != s.free && s.part != []
    ensures Inv(FetchCmd(s, memory)) && FetchCmd(s, memory).enabled
  {
    hide Inv, PartialRead, Deliver, RingBytes;
    ShapeOf(s);
    HeadSize(s);
    var r := s.records[s.first];
    if r.cb > |s.part| {
      PartialReadKeeps(s);
    } else {
      PartWhole(s);
    }
    if !r.partial {
      DeliverPart(if r.cb > |s.part| then PartialRead(s, r.cb, true) else s);
    }
  }

  lemma PartWhole(s: State)
    requires Inv(s) && s.held == Nothing && s.first != s.free && s.records[s.first].cb == |s.part|
    ensures s.Base() < |s.written| && s.part == s.written[s.Base()]
  {
    HeadRecord(s);
  }

  lemma FetchWhole(s: State, memory: bool)
    requires Inv(s) && Can(s, Fetch(memory)) && !GivesUp(s, memory) && s.first != s.free && s.part == [] && !s.records[s.first].partial
    ensures Inv(FetchCmd(s, memory)) && FetchCmd(s, memory).enabled
  {
    hide Inv, RingBytes, Deliver;
    ShapeOf(s);
    WholeFits(s);
    var cb := s.records[s.first].cb;
    if |s.data| - s.offData >= cb {
      HoldKeeps(s);
    } else {
      CrossingKeeps(s);
    }
  }

  lemma WholeFits(s: State)
    requires Inv(s) && s.held == Nothing && s.first != s.free && s.part == []
    ensures s.records[s.first].cb < |s.data|
  {
    hide Flat, RingBytes, RingInv;
    HeadRecord(s);
    PartInFlat(s);
    UnreadBound(s, s.Unread());
  }

  /** Handing a finished record out in place. */
  lemma HoldKeeps(s: State)
    requires Inv(s) && s.held == Nothing && s.first != s.free && s.part == [] && !s.records[s.first].partial
    ensures Inv(s.(held := Cmd(s.records[s.first].cb), first := (s.first + 1) % MAX_RECORDS))
  {
    hide Flat, RingBytes, RingInv;
    HeadRecord(s);
    PartInFlat(s);
    var t := s.(held := Cmd(s.records[s.first].cb), first := (s.first + 1) % MAX_RECORDS);
    PopQueue(s, t);
    PartInFlat(t);
    assert t.Unread() == s.Unread();
    SameRing(s, t, s.Unread());
  }

  /** Copying out a finished record that crosses the end of the ring. */
  lemma CrossingKeeps(s: State)
    requires Inv(s) && s.held == Nothing && s.first != s.free && s.part == [] && !s.records[s.first].partial
    requires SIZEOF_CMDHDR <= s.records[s.first].cb < |s.data|
    ensures var cb := s.records[s.first].cb;
            var t := Deliver(s.(offData := (s.offData + cb) % |s.data|), RingBytes(s.data, s.offData, cb));
            Inv(t) && t.enabled == s.enabled
  {
    hide Flat, RingBytes, RingInv, Deliver, QueueInv;
    ShapeOf(s);
    HeadRecord(s);
    PartInFlat(s);
    var cb := s.records[s.first].cb;
    TakeRing(s, s.Unread(), cb);
    DeliverKeeps(s, s.(offData := (s.offData + cb) % |s.data|), RingBytes(s.data, s.offData, cb));
  }

  lemma ReleaseKeeps(s: State)
    requires Inv(s) && Can(s, Release)
    ensures Inv(Next(s, Release))
  {
    hide Flat, RingBytes, RingInv, Slot;
    PartInFlat(s);
    FlatHead(s.written, |s.delivered|);
    var t := Next(s, Release);
    SlotsSame(s, t);
    TakeRing(s, s.Unread(), s.held.cb);
    assert RingBytes(s.data, s.offData, s.held.cb) == s.written[|s.delivered|];
    PartInFlat(t);
    assert t.Unread() == s.Unread()[s.held.cb..];
    SameRing(s.(offData := t.offData), t, t.Unread());
  }

  // ----- Every run -----

  /** The steps lead from s to t. */
  ghost predicate Runs(s: State, steps: seq<Step>, t: State)
    requires s.Shape()
    decreases |steps|
  {
    if steps == [] then s == t else Can(s, steps[0]) && Runs(Next(s, steps[0]), steps[1..], t)
  }

  /** All that the guest has put into the ring on the way. */
  function Chunks(steps: seq<Step>): seq<byte> {
    if steps == [] then [] else (if steps[0].Place? then steps[0].chunk else []) + Chunks(steps[1..])
  }

  /** While VBVA is on, the invariant; in any case, what the host has processed
      is a prefix of what the guest wrote, without the record being written. */
  ghost predicate Safe(s: State) {
    && s.Shape() && s.delivered <= s.written
    && (s.current ==> |s.delivered| < |s.written|) && (s.pend != [] ==> s.current)
    && (s.enabled ==> Inv(s))
  }

  /** The guest's bytes are its chunks: none lost, repeated or out of order. */
  lemma BytesKept(s: State, step: Step)
    requires Safe(s) && Can(s, step)
    ensures var t := Next(s, step);
            Flat(t.written) + t.pend == Flat(s.written) + s.pend + if step.Place? then step.chunk else []
  {
    hide Flat, RingBytes, Inv, FetchCmd, Placed;
    var t := Next(s, step);
    match step
    case Begin =>
      FlatAppend(s.written, [[]]);
      FlatOne([]);
    case Grow =>
      var n := |s.written| - 1;
      FlatLast(s.written, 0);
      FlatLast(t.written, 0);
      assert s.written[0..] == s.written && t.written[0..] == t.written;
      assert t.written[0..n] == s.written[0..n];
      var front := Flat(s.written[0..n]);
      assert front + (s.written[n] + s.pend) == (front + s.written[n]) + s.pend;
    case _ =>
  }

  lemma GuestStepsKeep(s: State, step: Step)
    requires Inv(s) && Can(s, step) && !step.Fetch?
    ensures Inv(Next(s, step))
  {
    hide Inv, RingBytes, Placed;
    match step
    case Begin => BeginKeeps(s);
    case Place(chunk) => PlaceKeeps(s, chunk);
    case Advance => AdvanceKeeps(s);
    case Grow => GrowKeeps(s);
    case End => EndKeeps(s);
    case Release => ReleaseKeeps(s);
  }

  lemma InvSafe(s: State)
    requires Inv(s)
    ensures Safe(s)
  {
  }

  lemma StepSafe(s: State, step: Step)
    requires Safe(s) && Can(s, step)
    ensures Safe(Next(s, step))
  {
    hide Inv, RingBytes, FetchCmd, Placed;
    if s.enabled {
      if step.Fetch? {
        FetchKeeps(s, step.memory);
      } else {
        GuestStepsKeep(s, step);
      }
      if Next(s, step).enabled {
        InvSafe(Next(s, step));
      }
    }
  }

  lemma {:induction false} RunSafe(s: State, steps: seq<Step>, t: State)
    requires Safe(s) && Runs(s, steps, t)
    ensures Safe(t) && Flat(t.written) + t.pend == Flat(s.written) + s.pend + Chunks(steps)
    decreases |steps|
  {
    hide Safe, Flat, Next, Can;
    if steps != [] {
      SafeShape(s);
      StepSafe(s, steps[0]);
      BytesKept(s, steps[0]);
      RunSafe(Next(s, steps[0]), steps[1..], t);
    }
  }

  lemma SafeShape(s: State)
    requires Safe(s)
    ensures s.Shape()
  {
  }

  lemma InitSafe(s: State)
    requires Init(s)
    ensures Safe(s)
  {
    assert s.written[|s.delivered|..] == [];
    PartInFlat(s);
    assert RingInv(s, []);
    assert s.Unread() == [];
  }

  lemma FlatPrefix(a: seq<seq<byte>>, b: seq<seq<byte>>)
    requires a <= b
    ensures Flat(b) == Flat(a) + Flat(b[|a|..])
  {
    FlatAppend(a, b[|a|..]);
    assert b == a + b[|a|..];
  }

  /** Every run from a fresh ring, in whatever order guest and host take their
      steps: the records the host has processed are, in order and whole, the
      first ones the guest wrote, the bytes it has fetched are a prefix of the
      guest's, and the invariant holds until the host gives up. */
  lemma StreamSafety(s: State, steps: seq<Step>, t: State)
    requires Init(s) && Runs(s, steps, t)
    ensures t.delivered <= t.written && Flat(t.written) + t.pend == Chunks(steps)
    ensures Flat(t.delivered) <= Chunks(steps)
    ensures t.enabled ==> Inv(t) && Flat(t.delivered) + t.part <= Chunks(steps)
  {
    hide RingBytes, RingInv;
    InitSafe(s);
    RunSafe(s, steps, t);
    FlatPrefix(t.delivered, t.written);
    var d := |t.delivered|;
    if t.enabled && t.part != [] {
      assert t.held == Nothing;
      FlatHead(t.written, d);
      assert t.part == t.written[d][..|t.part|];
    }
  }

  /** Not every finished record gets to the host's consumer: one that was begun
      and ended with nothing in it makes the host give up on the ring. */
  lemma EmptyRecordStops(s: State)
    requires Init(s)
    ensures Can(s, Begin) && Can(Next(s, Begin), End)
    ensures var t := Next(Next(s, Begin), End); Can(t, Fetch(true)) && !Next(t, Fetch(true)).enabled
  {
    var b := Next(s, Begin);
    assert b.records[b.Last()] == Record(0, true);
    var t := Next(b, End);
    assert t.records[t.first] == Record(0, false);
  }
}
