/** The VBVA ring as a protocol: the steps of the guest and of the host on the
    ring and the record queue they share, and what every interleaving of them
    keeps. */
module Vbva {
  import opened Bytes

  const MAX_RECORDS: nat := 64
  const MAX_RECORD_SIZE: nat := 0x800_0000
  /** Size of VBVACMDHDR, which every record has to start with. */
  const SIZEOF_CMDHDR: nat := 8

  // ----- The ring -----

  /** Offset off moved on by k in a ring of n bytes. */
  function Adv(off: nat, k: nat, n: nat): nat {
    if off + k < n then off + k else off + k - n
  }

  lemma AdvIsMod(off: nat, k: nat, n: nat)
    requires off < n && k <= n
    ensures (off + k) % n == Adv(off, k, n)
  {
    if off + k >= n {
      assert off + k == n + (off + k - n);
    }
  }

  /** The n bytes of the ring from offset off on. */
  function RingBytes(data: seq<byte>, off: nat, n: nat): (r: seq<byte>)
    requires off < |data| && n <= |data|
    ensures |r| == n && forall k :: 0 <= k < n ==> r[k] == data[Adv(off, k, |data|)]
  {
    seq(n, k requires 0 <= k < n => data[Adv(off, k, |data|)])
  }

  /** The ring with a chunk placed at offset off, wrapping at its end. */
  function Placed(data: seq<byte>, off: nat, chunk: seq<byte>): (r: seq<byte>)
    requires off < |data| && |chunk| <= |data|
    ensures |r| == |data|
    ensures forall k :: 0 <= k < |chunk| ==> r[Adv(off, k, |data|)] == chunk[k]
    ensures forall i :: 0 <= i < |data| && !(off <= i < off + |chunk|) && i + |data| >= off + |chunk| ==> r[i] == data[i]
  {
    seq(|data|, i requires 0 <= i < |data| =>
      if off <= i < off + |chunk| then chunk[i - off]
      else if i + |data| < off + |chunk| then chunk[i + |data| - off]
      else data[i])
  }

  /** A chunk placed after u bytes is read after them. */
  lemma PlacedReads(data: seq<byte>, off: nat, u: nat, chunk: seq<byte>)
    requires off < |data| && u + |chunk| <= |data| && u < |data|
    ensures RingBytes(Placed(data, Adv(off, u, |data|), chunk), off, u + |chunk|) == RingBytes(data, off, u) + chunk
  {
    var n := |data|;
    var t := Placed(data, Adv(off, u, n), chunk);
    forall k | 0 <= k < u + |chunk|
      ensures RingBytes(t, off, u + |chunk|)[k] == (RingBytes(data, off, u) + chunk)[k]
    {
      if k >= u {
        assert Adv(off, k, n) == Adv(Adv(off, u, n), k - u, n);
      }
    }
  }

  /** Reading on from where a read stopped. */
  lemma RingSplit(data: seq<byte>, off: nat, a: nat, b: nat)
    requires off < |data| && a + b <= |data| && a < |data|
    ensures RingBytes(data, off, a + b) == RingBytes(data, off, a) + RingBytes(data, Adv(off, a, |data|), b)
  {
    forall k | a <= k < a + b ensures Adv(off, k, |data|) == Adv(Adv(off, a, |data|), k - a, |data|) {
    }
  }

  // ----- States -----

  datatype Record = Record(cb: nat, partial: bool)

  /** A command handed out in place, whose bytes are still in the ring. */
  datatype Held = Nothing | Cmd(cb: nat)

  /** What guest and host share; what each keeps for itself (the guest's chunk on
      its way in, the host's part of a record too large for the ring); what the
      guest has put into each record so far, and what the host has processed. */
  datatype State = State(
    data: seq<byte>, offData: nat, offFree: nat, records: seq<Record>, first: nat, free: nat, threshold: nat,
    current: bool, pend: seq<byte>, advanced: bool,
    enabled: bool, part: seq<byte>, held: Held,
    written: seq<seq<byte>>, delivered: seq<seq<byte>>)
  {
    predicate Shape() {
      && 0 < threshold < |data| && offData < |data| && offFree < |data|
      && |records| == MAX_RECORDS && first < MAX_RECORDS && free < MAX_RECORDS
    }

    /** The record the guest writes to, while there is one. */
    function Last(): nat {
      (free + MAX_RECORDS - 1) % MAX_RECORDS
    }

    /** Records in the queue. */
    function Live(): nat
      requires Shape()
    {
      (free + MAX_RECORDS - first) % MAX_RECORDS
    }

    /** Number of the record at the head of the queue. */
    function Base(): nat {
      |delivered| + if held.Cmd? then 1 else 0
    }

    /** Free bytes, the way the guest works them out. */
    function Avail(): int
      requires Shape()
    {
      var diff := offData - offFree;
      if diff > 0 then diff else |data| + diff
    }

    /** The bytes in records that are neither processed nor fetched. */
    function Unread(): seq<byte>
      requires |delivered| <= |written| && |part| <= |Flat(written[|delivered|..])|
    {
      Flat(written[|delivered|..])[|part|..]
    }
  }

  /** Moving the head of a queue that is not empty takes one record off it. */
  lemma QueueLess(first: nat, free: nat)
    requires first < MAX_RECORDS && free < MAX_RECORDS && first != free
    ensures (free + MAX_RECORDS - (first + 1) % MAX_RECORDS) % MAX_RECORDS == (free + MAX_RECORDS - first) % MAX_RECORDS - 1
  {
    if first < free {
      assert (first + 1) % MAX_RECORDS == first + 1;
      assert (free + MAX_RECORDS - first) % MAX_RECORDS == free - first;
      assert (free + MAX_RECORDS - (first + 1)) % MAX_RECORDS == free - first - 1;
    } else if first + 1 < MAX_RECORDS {
      assert (first + 1) % MAX_RECORDS == first + 1;
    }
  }

  /** The last record of a queue that is not empty is the one before its end. */
  lemma QueueLast(first: nat, free: nat, k: nat)
    requires first < MAX_RECORDS && free < MAX_RECORDS && k < (free + MAX_RECORDS - first) % MAX_RECORDS
    ensures (first + k) % MAX_RECORDS == (free + MAX_RECORDS - 1) % MAX_RECORDS
        <==> k == (free + MAX_RECORDS - first) % MAX_RECORDS - 1
  {
    var n := (free + MAX_RECORDS - first) % MAX_RECORDS;
    if first <= free {
      assert n == free - first;
    } else {
      assert n == free + MAX_RECORDS - first;
    }
  }

  function Flat(ss: seq<seq<byte>>): seq<byte> {
    if ss == [] then [] else ss[0] + Flat(ss[1..])
  }

  lemma {:induction false} FlatAppend(a: seq<seq<byte>>, b: seq<seq<byte>>)
    ensures Flat(a + b) == Flat(a) + Flat(b)
  {
    if a == [] {
      assert a + b == b;
    } else {
      FlatAppend(a[1..], b);
      assert (a + b)[0] == a[0] && (a + b)[1..] == a[1..] + b;
      assert a[0] + (Flat(a[1..]) + Flat(b)) == (a[0] + Flat(a[1..])) + Flat(b);
    }
  }

  lemma FlatOne(x: seq<byte>)
    ensures Flat([x]) == x
  {
    assert Flat([x]) == x + Flat([]);
  }

  // ----- Steps -----

  /** A fetch comes with whether the host gets the memory it may ask for. */
  datatype Step =
    | Begin
    | Place(chunk: seq<byte>)
    | Advance
    | Grow
    | End
    | Fetch(memory: bool)
    | Release

  predicate Can(s: State, step: Step)
    requires s.Shape()
  {
    match step
    case Begin => s.enabled && !s.current && (s.free + 1) % MAX_RECORDS != s.first
    case Place(chunk) => s.current && s.pend == [] && 0 < |chunk| < s.Avail()
    case Advance => s.pend != [] && !s.advanced
    case Grow => s.pend != [] && s.advanced
    case End => s.current && s.pend == []
    case Fetch(_) => s.enabled && s.held == Nothing
    case Release => s.enabled && s.held.Cmd? && s.held.cb <= |s.data|
  }

  function Next(s: State, step: Step): (t: State)
    requires s.Shape() && Can(s, step)
    ensures t.Shape() && |t.data| == |s.data| && t.threshold == s.threshold
  {
    match step
    case Begin =>
      s.(records := s.records[s.free := Record(0, true)], free := (s.free + 1) % MAX_RECORDS,
         current := true, written := s.written + [[]])
    case Place(chunk) => s.(data := Placed(s.data, s.offFree, chunk), pend := chunk, advanced := false)
    case Advance => s.(offFree := (s.offFree + |s.pend|) % |s.data|, advanced := true)
    case Grow =>
      var r := s.records[s.Last()];
      s.(records := s.records[s.Last() := r.(cb := r.cb + |s.pend|)],
         written := if s.written == [] then [] else s.written[|s.written| - 1 := s.written[|s.written| - 1] + s.pend],
         pend := [], advanced := false)
    case End =>
      s.(records := s.records[s.Last() := s.records[s.Last()].(partial := false)], current := false)
    case Fetch(memory) => FetchCmd(s, memory)
    case Release => ReleaseCmd(s)
  }

  /** Done with a command handed out in place: its bytes were in the ring until
      now, and leave it. */
  function ReleaseCmd(s: State): (t: State)
    requires s.Shape() && s.held.Cmd? && s.held.cb <= |s.data|
    ensures SameGuest(s, t) && t.held == Nothing && t.first == s.first && t.free == s.free
  {
    s.(delivered := s.delivered + [RingBytes(s.data, s.offData, s.held.cb)],
       offData := (s.offData + s.held.cb) % |s.data|, held := Nothing)
  }

  /** The host gives up on the ring. */
  function Disabled(s: State): State {
    s.(enabled := false)
  }

  /** Takes the record's next bytes off the ring, to the part kept of it. */
  function PartialRead(s: State, cb: nat, memory: bool): (t: State)
    requires s.Shape()
    ensures SameGuest(s, t) && (s.enabled && !t.enabled ==> t == Disabled(s))
  {
    if cb < |s.part| || cb - |s.part| >= |s.data| || !memory then Disabled(s)
    else
      var n := cb - |s.part|;
      s.(part := s.part + RingBytes(s.data, s.offData, n), offData := (s.offData + n) % |s.data|)
  }

  /** Hands the finished record over, if it holds a command at all. */
  function Deliver(s: State, cmd: seq<byte>): State
    requires s.Shape()
  {
    if |cmd| < SIZEOF_CMDHDR then Disabled(s)
    else s.(delivered := s.delivered + [cmd], part := [], first := (s.first + 1) % MAX_RECORDS)
  }

  /** t is s as far as the guest and the size of things are concerned. */
  predicate SameGuest(s: State, t: State) {
    && t.Shape() && |t.data| == |s.data| && t.threshold == s.threshold
    && t.written == s.written && t.pend == s.pend && t.current == s.current
  }

  /** The queue's head is where it was or, if there was a record, one further. */
  predicate Popped(s: State, t: State)
    requires s.Shape()
  {
    && t.free == s.free && (t.held == s.held || (t.held.Cmd? && t.held.cb < |s.data| && t.enabled == s.enabled))
    && (t.first == s.first || (s.first != s.free && t.first == (s.first + 1) % MAX_RECORDS))
  }

  /** Goes on with a record part of which was fetched. */
  function FetchMore(s: State, r: Record, memory: bool): (t: State)
    requires s.Shape() && s.first != s.free
    ensures SameGuest(s, t) && Popped(s, t)
  {
    var t := if r.cb > |s.part| then PartialRead(s, r.cb, memory) else s;
    if r.partial || !t.enabled then t else Deliver(t, t.part)
  }

  /** Looks at a record none of which was fetched. */
  function FetchNew(s: State, r: Record, memory: bool): (t: State)
    requires s.Shape() && s.first != s.free
    ensures SameGuest(s, t) && Popped(s, t)
  {
    if r.partial then
      if r.cb >= |s.data| - s.threshold then PartialRead(s, r.cb, memory) else s
    else if r.cb >= |s.data| then Disabled(s)
    else if |s.data| - s.offData >= r.cb then
      if r.cb < SIZEOF_CMDHDR then Disabled(s)
      else s.(held := Cmd(r.cb), first := (s.first + 1) % MAX_RECORDS)
    else if !memory then Disabled(s)
    else
      Deliver(s.(offData := (s.offData + r.cb) % |s.data|), RingBytes(s.data, s.offData, r.cb))
  }

  /** One go at the record at the head of the queue. */
  function FetchCmd(s: State, memory: bool): (t: State)
    requires s.Shape()
    ensures SameGuest(s, t) && Popped(s, t)
  {
    if s.first == s.free then s
    else
      var r := s.records[s.first];
      if r.cb > MAX_RECORD_SIZE then Disabled(s)
      else if s.part != [] then FetchMore(s, r, memory)
      else FetchNew(s, r, memory)
  }

  /** The ring as the guest sets it up. */
  predicate Init(s: State) {
    && s.Shape() && s.offData == s.offFree == 0 && s.first == s.free == 0
    && !s.current && s.pend == [] && !s.advanced && s.enabled && s.part == [] && s.held == Nothing
    && s.written == [] && s.delivered == []
  }
}
