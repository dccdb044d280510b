/** Flushing the VBVA ring: what the host's loop leaves behind, and why the
    guest then always has room to go on. */
module VbvaFlush {
  import opened Bytes
  import opened Vbva
  import opened VbvaSafety

  /** The command handed out in place, if any, processed and released. */
  function Processed(s: State): (t: State)
    requires s.Shape() && (s.held.Cmd? ==> s.held.cb <= |s.data|)
    ensures SameGuest(s, t) && t.held == Nothing && t.first == s.first && t.free == s.free
  {
    if s.held == Nothing then s else ReleaseCmd(s)
  }

  /** One turn of the host's loop: fetch a command and, when it is handed out in
      place, process and release it. */
  function Turn(s: State, memory: bool): (t: State)
    requires s.Shape() && s.enabled && s.held == Nothing
    ensures SameGuest(s, t) && t.held == Nothing
    ensures t.first == s.first || t.Live() < s.Live()
  {
    hide FetchCmd, ReleaseCmd;
    var t := FetchCmd(s, memory);
    if t.first != s.first then QueueLess(s.first, s.free); Processed(t) else Processed(t)
  }

  /** Whether the host gets the memory it asks for, fetch by fetch. */
  type Memory = nat -> bool

  /** The loop, from fetch number k on: it ends when it gets no command, or gives
      up. */
  function Drain(s: State, memory: Memory, k: nat): (t: State)
    requires s.Shape() && s.held == Nothing
    ensures SameGuest(s, t) && t.held == Nothing
    decreases s.Live()
  {
    if !s.enabled then s
    else
      var t := Turn(s, memory(k));
      if !t.enabled || t.first == s.first then t else Drain(t, memory, k + 1)
  }

  /** There is memory from fetch number k on. */
  ghost predicate Plenty(memory: Memory, k: nat) {
    forall i :: k <= i ==> memory(i)
  }

  /** Nothing is left but, perhaps, the record the guest is at: either all of it
      fetched so far, or not enough of it to start with. */
  ghost predicate Drained(s: State) {
    && s.Shape() && s.held == Nothing && s.Base() <= |s.written|
    && if s.current then
         && s.Live() == 1 && s.Base() + 1 == |s.written|
         && (s.part == s.written[s.Base()] || (s.part == [] && |s.written[s.Base()]| < |s.data| - s.threshold))
       else s.Live() == 0
  }

  /** The queue holds no record that the host would not take. */
  ghost predicate GoodQueue(s: State) {
    && s.Shape() && s.Base() <= |s.written|
    && forall j :: s.Base() <= j < |s.written| ==>
         |s.written[j]| <= MAX_RECORD_SIZE && (|s.written[j]| >= SIZEOF_CMDHDR || (s.current && j == |s.written| - 1))
  }

  lemma GoodHead(s: State)
    requires Inv(s) && s.held == Nothing && GoodQueue(s)
    ensures !BadHead(s)
  {
    if s.first != s.free {
      HeadSize(s);
      assert Slot(s, s.Base()) == s.first;
    }
  }

  /** The head of the queue stays in it exactly while it is being written. */
  lemma TurnPops(s: State, memory: bool)
    requires Inv(s) && s.enabled && s.held == Nothing && !GivesUp(s, memory)
    ensures var t := Turn(s, memory);
            && t.enabled && Inv(t) && t.held == Nothing
            && (if s.first == s.free || s.records[s.first].partial
                then t.first == s.first && t.Base() == s.Base() && t.Live() == s.Live()
                else t.first != s.first && t.Base() == s.Base() + 1 && t.Live() == s.Live() - 1)
  {
    hide Inv, RingBytes, FetchCmd, ReleaseCmd, GivesUp;
    ShapeOf(s);
    FetchKeeps(s, memory);
    FetchMoves(s, memory);
    if s.first != s.free {
      QueueLess(s.first, s.free);
    }
    var t := FetchCmd(s, memory);
    if t.held.Cmd? {
      HeldFits(t);
      ReleaseKeeps(t);
      ReleaseBase(t);
    }
  }

  lemma ReleaseBase(s: State)
    requires s.Shape() && s.held.Cmd? && s.held.cb <= |s.data|
    ensures ReleaseCmd(s).Base() == s.Base() && ReleaseCmd(s).enabled == s.enabled
  {
  }

  lemma FetchMoves(s: State, memory: bool)
    requires Inv(s) && s.enabled && s.held == Nothing && !GivesUp(s, memory)
    ensures var t := FetchCmd(s, memory);
            if s.first == s.free || s.records[s.first].partial
            then t.first == s.first && t.free == s.free && t.held == Nothing && t.delivered == s.delivered
            else t.first == (s.first + 1) % MAX_RECORDS && t.free == s.free && t.Base() == s.Base() + 1
  {
    hide Inv, RingBytes;
    FetchKeeps(s, memory);
  }

  lemma HeldFits(s: State)
    requires Inv(s) && s.held.Cmd? && s.enabled
    ensures Can(s, Release)
  {
    hide RingBytes;
    PartInFlat(s);
    FlatHead(s.written, |s.delivered|);
  }

  /** A record still being written is fetched as far as it goes, once it is too
      large for the ring. */
  lemma FetchOngoing(s: State, memory: bool)
    requires Inv(s) && s.enabled && s.held == Nothing && !GivesUp(s, memory) && s.first != s.free && s.records[s.first].partial
    ensures var cb := s.records[s.first].cb;
            FetchCmd(s, memory)
            == if cb > |s.part| && (s.part != [] || cb >= |s.data| - s.threshold) then PartialRead(s, cb, true) else s
  {
    hide Inv, RingBytes, PartialRead;
  }

  /** A turn that gets no command leaves the ring drained. */
  lemma StillDrained(s: State, memory: bool)
    requires Inv(s) && s.enabled && s.held == Nothing && !GivesUp(s, memory)
    requires s.first == s.free || s.records[s.first].partial
    ensures Drained(Turn(s, memory))
  {
    hide RingBytes, PartialRead, RingInv, FetchMore, FetchNew, GivesUp;
    TurnPops(s, memory);
    if s.first != s.free {
      HeadRecord(s);
      FetchOngoing(s, memory);
      assert Slot(s, s.Base()) == s.first;
      if s.records[s.first].cb > |s.part| {
        PartialReadKeeps(s);
      } else {
        PartWhole(s);
      }
    }
  }

  lemma GoodAfter(s: State)
    requires Inv(s) && s.enabled && s.held == Nothing && GoodQueue(s)
    ensures GoodQueue(Turn(s, true))
  {
    hide Inv, Turn;
    GoodHead(s);
    TurnPops(s, true);
    ShapeOf(Turn(s, true));
    BaseBound(Turn(s, true));
  }

  lemma BaseBound(s: State)
    requires Inv(s)
    ensures s.Base() <= |s.written|
  {
  }

  /** A flush keeps the invariant and drains the ring, unless the host gives up;
      it does not when the queue is good and there is memory. */
  lemma {:induction false} DrainWorks(s: State, memory: Memory, k: nat)
    requires Inv(s) && s.enabled && s.held == Nothing
    ensures var t := Drain(s, memory, k);
            && (t.enabled ==> Inv(t) && Drained(t))
            && (GoodQueue(s) && Plenty(memory, k) ==> t.enabled && GoodQueue(t))
            && s.delivered <= t.delivered
    decreases s.Live()
  {
    hide Inv, Turn, GivesUp, Drained, GoodQueue;
    ShapeOf(s);
    if GoodQueue(s) && Plenty(memory, k) {
      GoodTurn(s);
      GoodAfter(s);
    }
    TurnDelivers(s, memory(k));
    if GivesUp(s, memory(k)) {
      TurnFails(s, memory(k));
    } else {
      TurnPops(s, memory(k));
      if s.first == s.free || s.records[s.first].partial {
        StillDrained(s, memory(k));
      } else {
        DrainWorks(Turn(s, memory(k)), memory, k + 1);
      }
    }
  }

  lemma GoodTurn(s: State)
    requires Inv(s) && s.held == Nothing && GoodQueue(s)
    ensures !GivesUp(s, true)
  {
    hide Inv;
    GoodHead(s);
  }

  lemma TurnFails(s: State, memory: bool)
    requires Inv(s) && s.enabled && s.held == Nothing && GivesUp(s, memory)
    ensures !Turn(s, memory).enabled
  {
    hide Inv, RingBytes;
    FetchKeeps(s, memory);
  }

  lemma TurnDelivers(s: State, memory: bool)
    requires Inv(s) && s.enabled && s.held == Nothing
    ensures s.delivered <= Turn(s, memory).delivered
  {
    hide Inv, RingBytes;
    FetchKeeps(s, memory);
  }

  // ----- Room -----

  /** What the record being written may yet grow to is bounded: it is never more
      than the host takes by what fits the ring. */
  ghost predicate Bounded(s: State)
    requires s.Shape()
  {
    s.current ==> |s.written| > 0 && |s.written[|s.written| - 1]| + s.Avail() <= MAX_RECORD_SIZE + |s.data|
  }

  /** All there is left of the record at the head of the queue, which is not too
      large, is taken off the ring. */
  predicate TakesHead(s: State, offData: nat)
    requires s.Shape()
  {
    && s.first != s.free && |s.part| <= s.records[s.first].cb <= MAX_RECORD_SIZE
    && offData == (s.offData + (s.records[s.first].cb - |s.part|)) % |s.data|
  }

  lemma FetchTakes(s: State, memory: bool)
    requires Inv(s) && s.enabled && s.held == Nothing
    ensures var t := FetchCmd(s, memory);
            && t.offFree == s.offFree && (t.offData == s.offData || TakesHead(s, t.offData))
            && (t.held.Cmd? ==> t.offData == s.offData && TakesHead(s, (s.offData + t.held.cb) % |s.data|))
  {
    hide Inv, RingBytes, TakesHead, FetchMore, FetchNew;
    ShapeOf(s);
    if s.first != s.free && s.records[s.first].cb <= MAX_RECORD_SIZE {
      if s.part != [] {
        MoreTakes(s, memory);
      } else {
        NewTakes(s, memory);
      }
    }
  }

  lemma MoreTakes(s: State, memory: bool)
    requires s.Shape() && s.first != s.free && s.held == Nothing && s.records[s.first].cb <= MAX_RECORD_SIZE
    ensures var t := FetchMore(s, s.records[s.first], memory);
            t.held == Nothing && t.offFree == s.offFree && (t.offData == s.offData || TakesHead(s, t.offData))
  {
    hide RingBytes;
  }

  lemma NewTakes(s: State, memory: bool)
    requires s.Shape() && s.first != s.free && s.held == Nothing && s.part == [] && s.records[s.first].cb <= MAX_RECORD_SIZE
    ensures var t := FetchNew(s, s.records[s.first], memory);
            && t.offFree == s.offFree && (t.offData == s.offData || TakesHead(s, t.offData))
            && (t.held.Cmd? ==> t.offData == s.offData && TakesHead(s, (s.offData + t.held.cb) % |s.data|))
  {
    hide RingBytes;
  }

  /** A turn takes nothing off the ring or what there is of the record at its
      head, even when the host gives up. */
  lemma TurnTakes(s: State, memory: bool)
    requires Inv(s) && s.enabled && s.held == Nothing
    ensures var t := Turn(s, memory); t.offFree == s.offFree && (t.offData == s.offData || TakesHead(s, t.offData))
  {
    hide Inv, RingBytes, FetchCmd, TakesHead;
    ShapeOf(s);
    FetchTakes(s, memory);
  }

  /** So there never is less room, and the record being written stays bounded. */
  lemma TurnRoom(s: State, memory: bool)
    requires Inv(s) && s.enabled && s.held == Nothing && s.pend == []
    ensures var t := Turn(s, memory); t.offFree == s.offFree && s.Avail() <= t.Avail() && (Bounded(s) ==> Bounded(t))
  {
    hide RingBytes, RingInv, Flat, Turn;
    TurnTakes(s, memory);
    var t := Turn(s, memory);
    if t.offData != s.offData {
      HeadRecord(s);
      PartInFlat(s);
      var n := s.records[s.first].cb - |s.part|;
      TakenRoom(s, t, s.Unread(), n);
      if s.current && !s.records[s.first].partial {
        LastUnread(s);
      } else if s.current {
        PartialIsLast(s);
      }
    }
  }

  lemma TakenRoom(s: State, t: State, unread: seq<byte>, n: nat)
    requires RingInv(s, unread) && n <= |unread| && s.pend == [] && !s.advanced
    requires t.Shape() && |t.data| == |s.data| && t.offFree == s.offFree && t.offData == (s.offData + n) % |s.data|
    ensures s.Avail() == |s.data| - |unread| && t.Avail() == s.Avail() + n
  {
    hide RingBytes;
    TakeRing(s, unread, n);
    AvailIs(s, unread);
    AvailIs(s.(offData := t.offData), unread[n..]);
  }

  /** Behind a finished record, all of the one being written is unread. */
  lemma LastUnread(s: State)
    requires QueueInv(s) && s.held == Nothing && s.first != s.free && s.current && !s.records[s.first].partial
    ensures s.Base() < |s.written|
    ensures (PartInFlat(s);
             |s.written[s.Base()]| - |s.part| + |s.written[|s.written| - 1]| <= |s.Unread()|)
  {
    hide Flat;
    HeadRecord(s);
    PartInFlat(s);
    assert Slot(s, s.Base()) == s.first;
    FlatHead(s.written, s.Base());
    FlatLast(s.written, s.Base() + 1);
  }

  lemma PartialIsLast(s: State)
    requires QueueInv(s) && s.held == Nothing && s.first != s.free && s.current && s.records[s.first].partial
    ensures s.Base() == |s.written| - 1 && |s.written[s.Base()]| == s.records[s.first].cb
  {
    assert Slot(s, s.Base()) == s.first;
  }

  lemma {:induction false} DrainRoom(s: State, memory: Memory, k: nat)
    requires Inv(s) && s.enabled && s.held == Nothing && s.pend == []
    ensures var t := Drain(s, memory, k); t.offFree == s.offFree && s.Avail() <= t.Avail() && (Bounded(s) ==> Bounded(t))
    decreases s.Live()
  {
    hide Inv, Turn, GivesUp, Bounded;
    ShapeOf(s);
    TurnRoom(s, memory(k));
    if GivesUp(s, memory(k)) {
      TurnFails(s, memory(k));
    } else {
      TurnPops(s, memory(k));
      if s.first != s.free && !s.records[s.first].partial {
        DrainRoom(Turn(s, memory(k)), memory, k + 1);
      }
    }
  }

  /** After a flush the guest has more room than the threshold it leaves free:
      writing never overflows. */
  lemma DrainedRoom(s: State)
    requires Inv(s) && Drained(s) && s.pend == []
    ensures s.Avail() > s.threshold
    ensures s.Avail() == |s.data| - if s.current && s.part == [] then |s.written[s.Base()]| else 0
  {
    hide RingBytes;
    PartInFlat(s);
    AvailIs(s, s.Unread());
    if s.current {
      FlatOne(s.written[s.Base()]);
      assert s.written[|s.delivered|..] == [s.written[s.Base()]];
    } else {
      assert s.written[|s.delivered|..] == [];
    }
  }

  /** And the queue has a free slot for the next record. */
  lemma DrainedSlot(s: State)
    requires Drained(s) && !s.current && s.enabled
    ensures Can(s, Begin)
  {
  }
}
