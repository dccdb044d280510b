/** Why the transport of a buffer does not matter: a request whose parameters
    denote the right bytes is served as if the service had been called on those
    bytes directly, whichever way the host completes it. */
module Transport {
  import opened Bytes
  import opened Hgcm

  // ----- The call without a transport -----

  /** What a call comes to: refused by the host, or served; its status, memory
      and returned values. */
  datatype Outcome = Outcome(refused: bool, rc: int32, ram: seq<byte>, outs: seq<SvcOut>)

  function Cb(v: Parm): nat {
    if v.VPtr? then v.cb else 0
  }

  /** Buffer bytes of the parameters from i on. */
  function TotalCb(view: seq<Parm>, i: nat): nat
    requires i <= |view|
    decreases |view| - i
  {
    if i == |view| then 0 else Cb(view[i]) + TotalCb(view, i + 1)
  }

  /** What a call has to do, in terms of the bytes its buffers stand for. It
      mentions no request, no descriptor and no feature of the host. */
  function Serve(m: seq<byte>, svc: Service, client: nat, fn: nat, view: seq<Parm>): (r: Outcome)
    ensures |r.ram| == |m|
  {
    if TotalCb(view, 0) > MAX_DATA_SIZE then Outcome(true, VERR_INVALID_PARAMETER, m, [])
    else
      var reply := svc(CallOf(m, client, fn, view));
      Outcome(false, reply.result, WriteBack(m, view, reply.outs, 0), reply.outs)
  }

  // ----- Requests that carry a view -----

  ghost predicate Outside(addrs: seq<int>, lo: nat, hi: nat) {
    forall k :: 0 <= k < |addrs| ==> !(lo <= addrs[k] < hi)
  }

  /** Where a request may keep things: [lo, hi) holds its headers, parameters
      and page lists, gc is where the call starts and cbCall what is submitted. */
  datatype Area = Area(lo: nat, gc: nat, hi: nat, cbCall: nat, is64: bool)
  {
    function Slot(i: nat): nat {
      gc + SIZEOF_CALL + i * SizeofParm(is64)
    }

    ghost predicate Valid(n: nat, ramSize: nat) {
      && lo <= gc
      && Slot(n) <= hi <= gc + cbCall <= ramSize
    }
  }

  /** Parameter g may be completed either way: its value or size is in its slot,
      an embedded buffer is submitted but not among the descriptors, and the
      data of any other buffer goes clear of the submitted bytes, which the host
      writes back as it first read them. */
  ghost predicate Placed(g: GuestParm, i: nat, area: Area) {
    && ParmOk(g)
    && (g.GVal? ==> area.gc + g.off == area.Slot(i) + 4)
    && (g.GBuf? ==>
          && Outside(View(g, area.gc).rd, area.lo, area.hi)
          && Outside(View(g, area.gc).wr, area.lo, area.hi)
          && (g.kind == Embedded ==> g.off + g.cb <= area.cbCall)
          && (g.kind != Embedded ==> Outside(View(g, area.gc).wr, area.gc, area.gc + area.cbCall)))
  }

  ghost predicate AllPlaced(parms: seq<GuestParm>, area: Area) {
    && (forall g :: g in parms ==> ParmOk(g))
    && forall j :: 0 <= j < |parms| ==> Placed(parms[j], j, area)
  }

  /** Parameter i of the request decodes to v and is properly placed. */
  ghost predicate CarriesParm(m: seq<byte>, pt: PageTable, area: Area, n: nat, i: nat, v: Parm) {
    var w := WireParmAt(m, area.Slot(i), area.is64);
    var r := Resolve(m, pt, area.gc, area.cbCall, area.Slot(n) - area.gc, area.Slot(i), w);
    r.Ok? && ParmOk(r.value) && View(r.value, area.gc) == v && w.Size() == Cb(v) && Placed(r.value, i, area)
  }

  /** The request's header announces n parameters of a call to fn. */
  ghost predicate CarriesHeader(m: seq<byte>, area: Area, client: nat, fn: nat, n: nat) {
    && Load(m, area.gc + OFF_SIZE, 4) == area.cbCall
    && Load(m, area.gc + OFF_VERSION, 4) == HEADER_VERSION
    && Load(m, area.gc + OFF_TYPE, 4) == (if area.is64 then REQ_HGCM_CALL64 else REQ_HGCM_CALL32)
    && Load(m, area.gc + OFF_CLIENT, 4) == client
    && Load(m, area.gc + OFF_FUNCTION, 4) == fn
    && Load(m, area.gc + OFF_CPARMS, 4) == n <= MAX_PARMS
  }

  ghost predicate Carries(m: seq<byte>, pt: PageTable, area: Area, client: nat, fn: nat, view: seq<Parm>) {
    && area.Valid(|view|, |m|)
    && CarriesHeader(m, area, client, fn, |view|)
    && forall i :: 0 <= i < |view| ==> CarriesParm(m, pt, area, |view|, i, view[i])
  }

  /** The values the call returns stand in the slots of its value parameters. */
  ghost predicate ValuesReturned(m: seq<byte>, area: Area, view: seq<Parm>, outs: seq<SvcOut>) {
    forall i :: 0 <= i < |view| ==>
      && (view[i].V32? ==> Load(m, area.Slot(i) + 4, 4) == OutValue(outs, i, 4))
      && (view[i].V64? ==> Load(m, area.Slot(i) + 4, 8) == OutValue(outs, i, 8))
  }

  // ----- Parsing -----

  /** The parsed parameters are those of the view from i on, properly placed. */
  ghost predicate Matches(gs: seq<GuestParm>, view: seq<Parm>, i: nat, area: Area) {
    && i + |gs| == |view|
    && forall j :: 0 <= j < |gs| ==>
         Placed(gs[j], i + j, area) && View(gs[j], area.gc) == view[i + j]
  }

  lemma {:induction false} ParseCarried(m: seq<byte>, pt: PageTable, area: Area, view: seq<Parm>, i: nat, total: nat)
    requires i <= |view| && total <= MAX_DATA_SIZE && area.lo <= area.gc
    requires forall j :: 0 <= j < |view| ==> CarriesParm(m, pt, area, |view|, j, view[j])
    ensures var r := ParseParms(m, pt, area.gc, area.cbCall, area.is64, |view|, i, total);
            if total + TotalCb(view, i) <= MAX_DATA_SIZE
            then r.Ok? && Matches(r.value, view, i, area)
            else r == Err(VERR_INVALID_PARAMETER)
    decreases |view| - i
  {
    hide WireParmAt, Resolve, View, Placed, ParmOk;
    if i < |view| {
      assert CarriesParm(m, pt, area, |view|, i, view[i]);
      if Cb(view[i]) <= MAX_DATA_SIZE - total {
        ParseCarried(m, pt, area, view, i + 1, total + Cb(view[i]));
        var rest := ParseParms(m, pt, area.gc, area.cbCall, area.is64, |view|, i + 1, total + Cb(view[i]));
        if rest.Ok? {
          var gs := ParseParms(m, pt, area.gc, area.cbCall, area.is64, |view|, i, total).value;
          assert gs[1..] == rest.value;
          forall j | 1 <= j < |gs| ensures Placed(gs[j], i + j, area) && View(gs[j], area.gc) == view[i + j] {
            assert gs[j] == rest.value[j - 1];
          }
        }
      }
    }
  }

  /** Parameter j of a call with n of them, as the host validates it by itself. */
  function ResolveAt(m: seq<byte>, pt: PageTable, area: Area, n: nat, j: nat): Result<GuestParm>
  {
    Resolve(m, pt, area.gc, area.cbCall, area.Slot(n) - area.gc, area.Slot(j), WireParmAt(m, area.Slot(j), area.is64))
  }

  /** What parameters i to k - 1 say their sizes are, together. */
  function WireTotal(m: seq<byte>, area: Area, i: nat, k: nat): nat
    requires i <= k
    decreases k - i
  {
    if i == k then 0 else WireParmAt(m, area.Slot(i), area.is64).Size() + WireTotal(m, area, i + 1, k)
  }

  /** The first parameter the host does not accept, wherever it stands, turns the
      whole call down with the error found there, or the data limit's if that is
      passed by then. */
  lemma {:induction false} ParseRejected(m: seq<byte>, pt: PageTable, area: Area, n: nat, k: nat, rc: int32, i: nat, total: nat)
    requires i <= k < n && total <= MAX_DATA_SIZE
    requires forall j :: i <= j < k ==> ResolveAt(m, pt, area, n, j).Ok?
    requires ResolveAt(m, pt, area, n, k) == Err(rc)
    ensures ParseParms(m, pt, area.gc, area.cbCall, area.is64, n, i, total)
         == Err(if total + WireTotal(m, area, i, k + 1) > MAX_DATA_SIZE then VERR_INVALID_PARAMETER else rc)
    decreases k - i
  {
    hide WireParmAt, Resolve;
    assert WireTotal(m, area, k + 1, k + 1) == 0;
    var size := WireParmAt(m, area.Slot(i), area.is64).Size();
    assert ResolveAt(m, pt, area, n, i).Ok? || i == k;
    if i < k && size <= MAX_DATA_SIZE - total {
      ParseRejected(m, pt, area, n, k, rc, i + 1, total + size);
    }
  }

  // ----- Completion through a copy equals completion in place -----

  lemma PutPut(m: seq<byte>, gc: nat, c: seq<byte>, o: nat, b: seq<byte>)
    requires gc + |c| <= |m| && o + |b| <= |c|
    ensures Put(Put(m, gc, c), gc + o, b) == Put(m, gc, Put(c, o, b))
  {
    var s, t := Put(Put(m, gc, c), gc + o, b), Put(m, gc, Put(c, o, b));
    var c' := Put(c, o, b);
    forall i | 0 <= i < |m| ensures s[i] == t[i] {
      assert ByteAt(s, i) == s[i] && ByteAt(t, i) == t[i];
      if gc <= i < gc + |c| {
        assert ByteAt(c', i - gc) == c'[i - gc];
      }
    }
  }

  lemma WriteSlotCopy(m: seq<byte>, gc: nat, copy: seq<byte>, s: nat, g: GuestParm, outs: seq<SvcOut>, i: nat)
    requires gc + |copy| <= |m| && s + 12 <= |copy|
    requires g.GVal? ==> g.off + g.n <= |copy|
    ensures WriteSlot(Put(m, gc, copy), gc, gc + s, g, outs, i) == Put(m, gc, WriteSlot(copy, 0, s, g, outs, i))
  {
    hide Put, LeBytes;
    match g
    case GVal(_, off, n) => PutPut(m, gc, copy, off, LeBytes(OutValue(outs, i, n), n));
    case GBuf(kind, _, _, _, _) =>
      PutPut(m, gc, copy, s + 8, LeBytes(|OutData(outs, i)|, 4));
      PutPut(m, gc, copy, s + 4, LeBytes(|OutData(outs, i)|, 4));
  }

  lemma WriteOutCopy(m: seq<byte>, gc: nat, copy: seq<byte>, v: Parm, outs: seq<SvcOut>, i: nat)
    requires v.VPtr? && Outside(v.wr, gc, gc + |copy|)
    ensures WriteOut(Put(m, gc, copy), v, outs, i) == Put(WriteOut(m, v, outs, i), gc, copy)
  {
    hide Put, Scatter;
    var data := OutData(outs, i);
    var k := if |data| < |v.wr| then |data| else |v.wr|;
    ScatterPut(m, v.wr[..k], data[..k], gc, copy);
  }

  lemma WriteOutEmbedded(m: seq<byte>, gc: nat, copy: seq<byte>, v: Parm, v0: Parm, off: nat, outs: seq<SvcOut>, i: nat)
    requires v.VPtr? && v0.VPtr? && gc + |copy| <= |m| && off + |v.wr| <= |copy|
    requires v.wr == Range(gc + off, |v.wr|) && v0.wr == Range(off, |v.wr|)
    ensures WriteOut(Put(m, gc, copy), v, outs, i) == Put(m, gc, WriteOut(copy, v0, outs, i))
  {
    hide Put, Scatter;
    var data := OutData(outs, i);
    var k := if |data| < |v.wr| then |data| else |v.wr|;
    assert v.wr[..k] == Range(gc + off, k) && v0.wr[..k] == Range(off, k);
    PutIsScatter(Put(m, gc, copy), gc + off, data[..k]);
    PutIsScatter(copy, off, data[..k]);
    PutPut(m, gc, copy, off, data[..k]);
  }

  /** What proper placement gives the completion of parameter i. */
  lemma PlacedFacts(g: GuestParm, i: nat, area: Area, n: nat)
    requires Placed(g, i, area) && i < n
    ensures area.Slot(i) + SizeofParm(area.is64) <= area.Slot(n)
    ensures g.GVal? ==> (g.n == 4 || g.n == 8) && area.gc + g.off == area.Slot(i) + 4
    ensures g.GBuf? ==> View(g, area.gc).VPtr? && Outside(View(g, area.gc).wr, area.lo, area.hi)
    ensures g.GBuf? && g.kind != Embedded ==> Outside(View(g, area.gc).wr, area.gc, area.gc + area.cbCall)
    ensures g.GBuf? && g.kind == Embedded ==>
              && View(g, 0).VPtr?
              && var (wr, wr0) := (View(g, area.gc).wr, View(g, 0).wr);
                 wr == Range(area.gc + g.off, |wr|) && wr0 == Range(g.off, |wr|) && g.off + |wr| <= area.cbCall
  {
    if area.is64 { } else { }
  }

  lemma {:induction false} CopyIsInPlace(m: seq<byte>, copy: seq<byte>, cmd: Command, outs: seq<SvcOut>, i: nat, area: Area)
    requires i <= |cmd.parms| && area == Area(area.lo, cmd.gc, area.hi, |copy|, cmd.is64)
    requires area.Valid(|cmd.parms|, |m|) && AllPlaced(cmd.parms, area)
    ensures CompleteInPlace(Put(m, cmd.gc, copy), cmd, outs, i)
         == Put(CompleteCopy(m, copy, cmd, outs, i).0, cmd.gc, CompleteCopy(m, copy, cmd, outs, i).1)
    decreases |cmd.parms| - i
  {
    hide View, Placed, Put, WriteSlot, WriteOut, ParmOk, Outside;
    if i < |cmd.parms| {
      var g := cmd.parms[i];
      PlacedFacts(g, i, area, |cmd.parms|);
      var s := area.Slot(i) - cmd.gc;
      var copy1 := WriteSlot(copy, 0, s, g, outs, i);
      WriteSlotCopy(m, cmd.gc, copy, s, g, outs, i);
      if g.GBuf? && g.kind == Embedded {
        WriteOutEmbedded(m, cmd.gc, copy1, View(g, cmd.gc), View(g, 0), g.off, outs, i);
        CopyIsInPlace(m, WriteOut(copy1, View(g, 0), outs, i), cmd, outs, i + 1, area);
      } else {
        if g.GBuf? {
          WriteOutCopy(m, cmd.gc, copy1, View(g, cmd.gc), outs, i);
        } else {
          NoOut(Put(m, cmd.gc, copy1), g, cmd.gc, outs, i);
          NoOut(m, g, cmd.gc, outs, i);
        }
        CopyIsInPlace(WriteOut(m, View(g, cmd.gc), outs, i), copy1, cmd, outs, i + 1, area);
      }
    }
  }

  lemma NoOut(m: seq<byte>, g: GuestParm, gc: nat, outs: seq<SvcOut>, i: nat)
    requires g.GVal? && ParmOk(g)
    ensures WriteOut(m, View(g, gc), outs, i) == m
  {
  }

  lemma {:induction false} LoadShift(s: seq<byte>, a: nat, t: seq<byte>, b: nat, n: nat)
    requires forall i: nat :: a <= i < a + n ==> ByteAt(s, i) == ByteAt(t, i - a + b)
    ensures Load(s, a, n) == Load(t, b, n)
    decreases n
  {
    if n > 0 {
      assert ByteAt(s, a) == ByteAt(t, b);
      LoadShift(s, a + 1, t, b + 1, n - 1);
    }
  }

  lemma FinishCopy(m: seq<byte>, gc: nat, copy: seq<byte>, result: int32)
    requires gc + |copy| <= |m| && |copy| >= SIZEOF_CALL
    ensures Finish(Put(m, gc, copy), gc, result) == Put(m, gc, Finish(copy, 0, result))
  {
    LoadShift(Put(m, gc, copy), gc + OFF_FLAGS, copy, OFF_FLAGS, 4);
    var flags := Load(copy, OFF_FLAGS, 4);
    var done := if flags % 2 == 1 then flags else flags + REQ_DONE;
    var r := LeBytes(Enc32(result), 4);
    PutPut(m, gc, copy, OFF_RESULT, r);
    PutPut(m, gc, Put(copy, OFF_RESULT, r), OFF_FLAGS, LeBytes(done, 4));
  }

  /** Memory after a locked request was completed in place. */
  function LockedResult(m: seq<byte>, cmd: Command, reply: Reply): seq<byte>
    requires forall g :: g in cmd.parms ==> ParmOk(g)
  {
    Finish(CompleteInPlace(m, cmd, reply.outs, 0), cmd.gc, reply.result)
  }

  /** Memory after any other request was completed through a copy of it. */
  function CopiedResult(m: seq<byte>, cmd: Command, reply: Reply): seq<byte>
    requires forall g :: g in cmd.parms ==> ParmOk(g)
  {
    var (m1, copy) := CompleteCopy(m, CopyOut(m, cmd.gc, cmd.cbCall), cmd, reply.outs, 0);
    Put(m1, cmd.gc, Finish(copy, 0, reply.result))
  }

  /** Both ways the host has of completing a call leave the same memory, when
      every parameter is properly placed. */
  lemma LockedOrNot(m: seq<byte>, cmd: Command, reply: Reply, area: Area)
    requires area == Area(area.lo, cmd.gc, area.hi, cmd.cbCall, cmd.is64)
    requires area.Valid(|cmd.parms|, |m|) && AllPlaced(cmd.parms, area)
    ensures CopiedResult(m, cmd, reply) == LockedResult(m, cmd, reply)
  {
    hide View, Placed, ParmOk, Outside, CompleteCopy, CompleteInPlace, Finish;
    var copy := CopyOut(m, cmd.gc, cmd.cbCall);
    assert Put(m, cmd.gc, copy) == m;
    CopyIsInPlace(m, copy, cmd, reply.outs, 0, area);
    var (m1, copy1) := CompleteCopy(m, copy, cmd, reply.outs, 0);
    FinishCopy(m1, cmd.gc, copy1, reply.result);
  }

  /** Submitted byte k, behind the parameters, belongs to no embedded buffer. */
  ghost predicate NotEmbedded(cmd: Command, k: nat)
  {
    && SIZEOF_CALL + |cmd.parms| * SizeofParm(cmd.is64) <= k
    && forall j :: 0 <= j < |cmd.parms| ==>
         match cmd.parms[j]
         case GVal(_, off, _) => off == SIZEOF_CALL + j * SizeofParm(cmd.is64) + 4
         case GBuf(kind, cb, _, off, _) => kind == Embedded ==> !(off <= k < off + cb)
  }

  /** Completing through a copy, the host leaves such a byte of the copy alone. */
  lemma {:induction false} CopyKeeps(m: seq<byte>, copy: seq<byte>, cmd: Command, outs: seq<SvcOut>, i: nat, k: nat)
    requires i <= |cmd.parms| && (forall g :: g in cmd.parms ==> ParmOk(g)) && NotEmbedded(cmd, k)
    ensures ByteAt(CompleteCopy(m, copy, cmd, outs, i).1, k) == ByteAt(copy, k)
    decreases |cmd.parms| - i
  {
    hide WriteOut, LeBytes, ReadAddrs;
    if i < |cmd.parms| {
      var g := cmd.parms[i];
      var s := SIZEOF_CALL + i * SizeofParm(cmd.is64);
      assert s + SizeofParm(cmd.is64) <= k by {
        if cmd.is64 { } else { }
      }
      var copy1 := WriteSlot(copy, 0, s, g, outs, i);
      if g.GBuf? && g.kind == Embedded {
        assert !(g.off <= k < g.off + g.cb);
        var v := View(g, 0);
        OutKeeps(copy1, v, outs, i, k);
        CopyKeeps(m, WriteOut(copy1, v, outs, i), cmd, outs, i + 1, k);
      } else {
        CopyKeeps(WriteOut(m, View(g, cmd.gc), outs, i), copy1, cmd, outs, i + 1, k);
      }
    }
  }

  lemma OutKeeps(m: seq<byte>, v: Parm, outs: seq<SvcOut>, i: nat, a: nat)
    requires v.VPtr? ==> a !in v.wr
    ensures ByteAt(WriteOut(m, v, outs, i), a) == ByteAt(m, a)
  {
    hide Scatter;
    if v.VPtr? {
      var data := OutData(outs, i);
      var k := if |data| < |v.wr| then |data| else |v.wr|;
      ScatterOutside(m, v.wr[..k], data[..k], a);
    }
  }

  /** Why a linear output buffer has to lie beyond what is submitted: when the
      host completes through a copy, no service can change a submitted byte
      behind the parameters that is not in an embedded buffer, whatever else the
      byte belongs to. */
  lemma SubmittedBytesStay(m: seq<byte>, cmd: Command, reply: Reply, a: nat)
    requires forall g :: g in cmd.parms ==> ParmOk(g)
    requires cmd.gc <= a < cmd.gc + cmd.cbCall <= |m| && NotEmbedded(cmd, a - cmd.gc)
    ensures ByteAt(CopiedResult(m, cmd, reply), a) == ByteAt(m, a)
  {
    hide CompleteCopy, LeBytes, ParmOk;
    var copy := CopyOut(m, cmd.gc, cmd.cbCall);
    CopyKeeps(m, copy, cmd, reply.outs, 0, a - cmd.gc);
    var (m1, done) := CompleteCopy(m, copy, cmd, reply.outs, 0);
    var t := Finish(done, 0, reply.result);
    assert ByteAt(t, a - cmd.gc) == ByteAt(done, a - cmd.gc) == ByteAt(copy, a - cmd.gc);
  }

  // ----- Completion writes back what the view says -----

  lemma PutInside(m: seq<byte>, t: seq<byte>, a: nat, b: seq<byte>, lo: nat, hi: nat)
    requires SameOutside(t, m, lo, hi) && lo <= a && a + |b| <= hi
    ensures SameOutside(t, Put(m, a, b), lo, hi)
  {
  }

  lemma WriteSlotInside(m: seq<byte>, t: seq<byte>, g: GuestParm, outs: seq<SvcOut>, i: nat, area: Area, n: nat)
    requires i < n && Placed(g, i, area) && area.Valid(n, |m|)
    requires SameOutside(t, m, area.lo, area.hi)
    ensures SameOutside(t, WriteSlot(m, area.gc, area.Slot(i), g, outs, i), area.lo, area.hi)
  {
    hide View, ParmOk, Outside, Put, LeBytes, SameOutside, Placed;
    PlacedFacts(g, i, area, n);
    match g
    case GVal(_, off, n) => PutInside(m, t, area.gc + off, LeBytes(OutValue(outs, i, n), n), area.lo, area.hi);
    case GBuf(kind, _, _, _, _) =>
      PutInside(m, t, area.Slot(i) + 8, LeBytes(|OutData(outs, i)|, 4), area.lo, area.hi);
      PutInside(m, t, area.Slot(i) + 4, LeBytes(|OutData(outs, i)|, 4), area.lo, area.hi);
  }

  lemma WriteOutSame(s: seq<byte>, t: seq<byte>, v: Parm, outs: seq<SvcOut>, i: nat, lo: nat, hi: nat)
    requires SameOutside(s, t, lo, hi)
    ensures SameOutside(WriteOut(s, v, outs, i), WriteOut(t, v, outs, i), lo, hi)
  {
    hide SameOutside, Scatter;
    if v.VPtr? {
      var data := OutData(outs, i);
      var k := if |data| < |v.wr| then |data| else |v.wr|;
      ScatterSame(s, t, v.wr[..k], data[..k], lo, hi);
    }
  }

  lemma {:induction false} CompleteIsWriteBack(t: seq<byte>, m: seq<byte>, cmd: Command, view: seq<Parm>, outs: seq<SvcOut>, i: nat, area: Area)
    requires i <= |cmd.parms| == |view| && area == Area(area.lo, cmd.gc, area.hi, cmd.cbCall, cmd.is64)
    requires area.Valid(|view|, |m|) && AllPlaced(cmd.parms, area)
    requires forall j :: 0 <= j < |view| ==> View(cmd.parms[j], cmd.gc) == view[j]
    requires SameOutside(t, m, area.lo, area.hi)
    ensures SameOutside(WriteBack(t, view, outs, i), CompleteInPlace(m, cmd, outs, i), area.lo, area.hi)
    decreases |view| - i
  {
    hide View, Placed, WriteSlot, WriteOut, ParmOk, Outside, SameOutside;
    if i < |view| {
      var m1 := WriteSlot(m, cmd.gc, area.Slot(i), cmd.parms[i], outs, i);
      WriteSlotInside(m, t, cmd.parms[i], outs, i, area, |view|);
      WriteOutSame(t, m1, view[i], outs, i, area.lo, area.hi);
      CompleteIsWriteBack(WriteOut(t, view[i], outs, i), WriteOut(m1, view[i], outs, i), cmd, view, outs, i + 1, area);
    }
  }

  // ----- Values come back -----

  lemma WriteOutKeeps(m: seq<byte>, v: Parm, outs: seq<SvcOut>, i: nat, a: nat, n: nat)
    requires v.VPtr? ==> Outside(v.wr, a, a + n)
    ensures Load(WriteOut(m, v, outs, i), a, n) == Load(m, a, n)
  {
    hide Load, Scatter;
    if v.VPtr? {
      var data := OutData(outs, i);
      var k := if |data| < |v.wr| then |data| else |v.wr|;
      forall b: nat | a <= b < a + n ensures ByteAt(WriteOut(m, v, outs, i), b) == ByteAt(m, b) {
        ScatterOutside(m, v.wr[..k], data[..k], b);
      }
      LoadFrame(WriteOut(m, v, outs, i), m, a, n);
    }
  }

  lemma PutKeeps(m: seq<byte>, p: nat, b: seq<byte>, a: nat, n: nat)
    requires a + n <= p || p + |b| <= a
    ensures Load(Put(m, p, b), a, n) == Load(m, a, n)
  {
    LoadFrame(Put(m, p, b), m, a, n);
  }

  lemma PutReads(m: seq<byte>, a: nat, v: nat, n: nat)
    requires a + n <= |m| && v < Pow256(n)
    ensures Load(Put(m, a, LeBytes(v, n)), a, n) == v
  {
    LoadLeBytes(Put(m, a, LeBytes(v, n)), a, v, n);
  }

  /** Completing the parameters from i on leaves what lies before slot i, inside
      the descriptors, as it is. */
  lemma {:induction false} CompleteKeeps(m: seq<byte>, cmd: Command, outs: seq<SvcOut>, i: nat, area: Area, a: nat, n: nat)
    requires i <= |cmd.parms| && area == Area(area.lo, cmd.gc, area.hi, cmd.cbCall, cmd.is64)
    requires area.Valid(|cmd.parms|, |m|) && AllPlaced(cmd.parms, area)
    requires area.lo <= a && a + n <= area.Slot(i)
    ensures Load(CompleteInPlace(m, cmd, outs, i), a, n) == Load(m, a, n)
    decreases |cmd.parms| - i
  {
    hide View, Placed, WriteOut, ParmOk, Outside, Load, Put, LeBytes;
    if i < |cmd.parms| {
      var g := cmd.parms[i];
      var p := area.Slot(i);
      PlacedFacts(g, i, area, |cmd.parms|);
      var m1 := WriteSlot(m, cmd.gc, p, g, outs, i);
      match g {
        case GVal(_, off, k) => PutKeeps(m, cmd.gc + off, LeBytes(OutValue(outs, i, k), k), a, n);
        case GBuf(kind, _, _, _, _) =>
          PutKeeps(m, p + 8, LeBytes(|OutData(outs, i)|, 4), a, n);
          PutKeeps(m, p + 4, LeBytes(|OutData(outs, i)|, 4), a, n);
      }
      KeepsOut(m1, g, outs, i, area, a, n);
      SlotMonotone(area, i, i + 1);
      CompleteKeeps(WriteOut(m1, View(g, cmd.gc), outs, i), cmd, outs, i + 1, area, a, n);
    }
  }

  lemma KeepsOut(m: seq<byte>, g: GuestParm, outs: seq<SvcOut>, i: nat, area: Area, a: nat, n: nat)
    requires Placed(g, i, area) && area.lo <= a && a + n <= area.hi
    ensures Load(WriteOut(m, View(g, area.gc), outs, i), a, n) == Load(m, a, n)
  {
    hide ReadAddrs, WriteAddrs, Load, WriteOut;
    WriteOutKeeps(m, View(g, area.gc), outs, i, a, n);
  }

  lemma SlotMonotone(area: Area, i: nat, j: nat)
    requires i <= j
    ensures area.Slot(i) <= area.Slot(j)
  {
    if area.is64 { } else { }
  }

  lemma {:induction false} CompleteReturns(m: seq<byte>, cmd: Command, outs: seq<SvcOut>, i: nat, j: nat, area: Area)
    requires i <= j < |cmd.parms| && area == Area(area.lo, cmd.gc, area.hi, cmd.cbCall, cmd.is64)
    requires area.Valid(|cmd.parms|, |m|) && AllPlaced(cmd.parms, area)
    requires cmd.parms[j].GVal?
    ensures Load(CompleteInPlace(m, cmd, outs, i), area.Slot(j) + 4, cmd.parms[j].n) == OutValue(outs, j, cmd.parms[j].n)
    decreases j - i
  {
    hide View, Placed, WriteOut, ParmOk, Outside, Load, Put, LeBytes;
    var g := cmd.parms[i];
    PlacedFacts(g, i, area, |cmd.parms|);
    SlotStep(area, i, |cmd.parms|);
    var m1 := WriteSlot(m, cmd.gc, area.Slot(i), g, outs, i);
    var m2 := WriteOut(m1, View(g, cmd.gc), outs, i);
    if i < j {
      CompleteReturns(m2, cmd, outs, i + 1, j, area);
    } else {
      PowValues();
      PutReads(m, area.Slot(i) + 4, OutValue(outs, i, g.n), g.n);
      KeepsOut(m1, g, outs, i, area, area.Slot(i) + 4, g.n);
      CompleteKeeps(m2, cmd, outs, i + 1, area, area.Slot(i) + 4, g.n);
    }
  }

  /** And the slot of an embedded, contiguous or no-bounce buffer holds how much the
      service handed back. */
  lemma {:induction false} SizesReturn(m: seq<byte>, cmd: Command, outs: seq<SvcOut>, i: nat, j: nat, area: Area)
    requires i <= j < |cmd.parms| && area == Area(area.lo, cmd.gc, area.hi, cmd.cbCall, cmd.is64)
    requires area.Valid(|cmd.parms|, |m|) && AllPlaced(cmd.parms, area)
    requires cmd.parms[j].GBuf? && j < |outs| && outs[j].OPtr? && |outs[j].data| < 0x1_0000_0000
    ensures var (t, p, kind) := (CompleteInPlace(m, cmd, outs, i), area.Slot(j), cmd.parms[j].kind);
            && (kind == Embedded ==> Load(t, p + 8, 4) == |outs[j].data|)
            && (kind == Contiguous || kind == NoBounce ==> Load(t, p + 4, 4) == |outs[j].data|)
    decreases j - i
  {
    hide View, Placed, WriteOut, ParmOk, Outside, Load, Put, LeBytes;
    var g := cmd.parms[i];
    PlacedFacts(g, i, area, |cmd.parms|);
    SlotStep(area, i, |cmd.parms|);
    var p := area.Slot(i);
    var m1 := WriteSlot(m, cmd.gc, p, g, outs, i);
    var m2 := WriteOut(m1, View(g, cmd.gc), outs, i);
    if i < j {
      SizesReturn(m2, cmd, outs, i + 1, j, area);
    } else {
      PowValues();
      PutReads(m, p + 8, |outs[j].data|, 4);
      PutReads(m, p + 4, |outs[j].data|, 4);
      KeepsOut(m1, g, outs, i, area, p + 8, 4);
      KeepsOut(m1, g, outs, i, area, p + 4, 4);
      CompleteKeeps(m2, cmd, outs, i + 1, area, p + 8, 4);
      CompleteKeeps(m2, cmd, outs, i + 1, area, p + 4, 4);
    }
  }

  lemma SlotStep(area: Area, i: nat, n: nat)
    requires i < n
    ensures area.Slot(i) + 12 <= area.Slot(i) + SizeofParm(area.is64) == area.Slot(i + 1) <= area.Slot(n)
  {
    if area.is64 { } else { }
  }

  // ----- The main result -----

  lemma {:induction false} FinishSame(t: seq<byte>, m: seq<byte>, gc: nat, result: int32, lo: nat, hi: nat)
    requires SameOutside(t, m, lo, hi) && lo <= gc && gc + SIZEOF_CALL <= hi
    ensures SameOutside(t, Finish(m, gc, result), lo, hi)
  {
  }

  lemma FinishReads(m: seq<byte>, gc: nat, result: int32)
    requires gc + SIZEOF_CALL <= |m|
    ensures Load(Finish(m, gc, result), gc + OFF_RESULT, 4) == Enc32(result)
    ensures forall a: nat, n: nat {:trigger Load(Finish(m, gc, result), a, n)} ::
              a >= gc + SIZEOF_CALL ==> Load(Finish(m, gc, result), a, n) == Load(m, a, n)
  {
    hide Load, Put, LeBytes;
    PowValues();
    var flags := Load(m, gc + OFF_FLAGS, 4);
    var done := if flags % 2 == 1 then flags else flags + REQ_DONE;
    var m1 := Put(m, gc + OFF_RESULT, LeBytes(Enc32(result), 4));
    PutReads(m, gc + OFF_RESULT, Enc32(result), 4);
    PutKeeps(m1, gc + OFF_FLAGS, LeBytes(done, 4), gc + OFF_RESULT, 4);
    forall a: nat, n: nat | a >= gc + SIZEOF_CALL ensures Load(Finish(m, gc, result), a, n) == Load(m, a, n) {
      PutKeeps(m, gc + OFF_RESULT, LeBytes(Enc32(result), 4), a, n);
      PutKeeps(m1, gc + OFF_FLAGS, LeBytes(done, 4), a, n);
    }
  }

  lemma GatherSame(s: seq<byte>, t: seq<byte>, addrs: seq<int>, lo: nat, hi: nat)
    requires SameOutside(s, t, lo, hi) && Outside(addrs, lo, hi)
    ensures Gather(s, addrs) == Gather(t, addrs)
  {
  }

  /** The service is handed the same inputs whatever the descriptors hold. */
  lemma CallSame(s: seq<byte>, t: seq<byte>, client: nat, fn: nat, view: seq<Parm>, gs: seq<GuestParm>, area: Area)
    requires SameOutside(s, t, area.lo, area.hi) && Matches(gs, view, 0, area)
    ensures CallOf(s, client, fn, view) == CallOf(t, client, fn, view)
  {
    hide View, SameOutside, Gather;
    forall i | 0 <= i < |view| ensures Input(s, view[i]) == Input(t, view[i]) {
      assert Placed(gs[i], 0 + i, area);
      if view[i].VPtr? {
        PlacedIsBuffer(gs[i], i, area);
        GatherSame(s, t, view[i].rd, area.lo, area.hi);
      }
    }
  }

  lemma PlacedIsBuffer(g: GuestParm, i: nat, area: Area)
    requires Placed(g, i, area) && View(g, area.gc).VPtr?
    ensures Outside(View(g, area.gc).rd, area.lo, area.hi)
  {
  }

  lemma MatchedAll(gs: seq<GuestParm>, view: seq<Parm>, area: Area)
    requires Matches(gs, view, 0, area)
    ensures AllPlaced(gs, area)
    ensures forall j :: 0 <= j < |view| ==> View(gs[j], area.gc) == view[j]
  {
    hide View;
    forall j | 0 <= j < |gs| ensures Placed(gs[j], j, area) && View(gs[j], area.gc) == view[j] {
      assert Placed(gs[j], 0 + j, area) && View(gs[j], area.gc) == view[0 + j];
    }
  }

  lemma ValuesComplete(m: seq<byte>, cmd: Command, view: seq<Parm>, reply: Reply, area: Area)
    requires area == Area(area.lo, cmd.gc, area.hi, cmd.cbCall, cmd.is64)
    requires area.Valid(|cmd.parms|, |m|) && Matches(cmd.parms, view, 0, area) && AllPlaced(cmd.parms, area)
    ensures ValuesReturned(LockedResult(m, cmd, reply), area, view, reply.outs)
  {
    hide Load, CompleteInPlace, Finish, Placed;
    var m1 := CompleteInPlace(m, cmd, reply.outs, 0);
    FinishReads(m1, cmd.gc, reply.result);
    MatchedAll(cmd.parms, view, area);
    forall i | 0 <= i < |view| && !view[i].VPtr?
      ensures var n := if view[i].V32? then 4 else 8;
              Load(LockedResult(m, cmd, reply), area.Slot(i) + 4, n) == OutValue(reply.outs, i, n)
    {
      assert View(cmd.parms[i], area.gc) == view[i];
      var n := if view[i].V32? then 4 else 8;
      assert ParmOk(cmd.parms[i]);
      assert cmd.parms[i].GVal? && cmd.parms[i].n == n;
      CompleteReturns(m, cmd, reply.outs, 0, i, area);
      SlotMonotone(area, 0, i);
    }
  }

  lemma RunParsed(m0: seq<byte>, m: seq<byte>, pt: PageTable, area: Area, client: nat, fn: nat, view: seq<Parm>, svc: Service, locked: bool)
    requires SameOutside(m0, m, area.lo, area.hi) && area.Valid(|view|, |m|)
    requires var r := HostParse(m, pt, area.gc);
             && r.Ok? && r.value == Command(client, fn, area.is64, area.gc, area.cbCall, r.value.parms)
             && Matches(r.value.parms, view, 0, area)
    requires TotalCb(view, 0) <= MAX_DATA_SIZE
    ensures var (ram, rc) := HostRun(m, pt, area.gc, svc, locked);
            var want := Serve(m0, svc, client, fn, view);
            && rc == VINF_SUCCESS && Load(ram, area.gc + OFF_RESULT, 4) == Enc32(want.rc)
            && SameOutside(want.ram, ram, area.lo, area.hi)
            && ValuesReturned(ram, area, view, want.outs)
  {
    hide HostParse, CompleteInPlace, CompleteCopy, Finish, Put, Load, LeBytes, View, Placed, WriteBack, SameOutside, ValuesReturned, CallOf, TotalCb;
    var cmd := HostParse(m, pt, area.gc).value;
    MatchedAll(cmd.parms, view, area);
    CallSame(m0, m, client, fn, view, cmd.parms, area);
    var seen := seq(|cmd.parms|, i requires 0 <= i < |cmd.parms| => View(cmd.parms[i], area.gc));
    assert seen == view;
    var reply := svc(CallOf(m, client, fn, view));
    LockedOrNot(m, cmd, reply, area);
    CompleteIsWriteBack(m0, m, cmd, view, reply.outs, 0, area);
    var m1 := CompleteInPlace(m, cmd, reply.outs, 0);
    SlotMonotone(area, 0, |view|);
    FinishSame(WriteBack(m0, view, reply.outs, 0), m1, area.gc, reply.result, area.lo, area.hi);
    FinishReads(m1, area.gc, reply.result);
    ValuesComplete(m, cmd, view, reply, area);
    assert HostRun(m, pt, area.gc, svc, locked).0 == LockedResult(m, cmd, reply);
  }

  /** The buffers of a request that carries a view are within the data limit, or
      the request is refused. */
  lemma CarriedRun(m: seq<byte>, pt: PageTable, area: Area, client: nat, fn: nat, view: seq<Parm>)
    requires Carries(m, pt, area, client, fn, view) && area.cbCall <= MAX_REQUEST_SIZE
    ensures TotalCb(view, 0) > MAX_DATA_SIZE ==> HostParse(m, pt, area.gc) == Err(VERR_INVALID_PARAMETER)
  {
    hide ParseParms, CarriesParm, Load;
    SlotMonotone(area, 0, |view|);
    ParseCarried(m, pt, area, view, 0, 0);
    assert |view| <= (area.cbCall - SIZEOF_CALL) / SizeofParm(area.is64) by {
      if area.is64 { } else { }
    }
  }

  /** A request that carries a view is served exactly as the view asks: the same
      status, the same memory everywhere but in the request's own descriptors,
      and the service's values in the value slots, no matter whether the host
      completes it locked or through a copy. */
  lemma Served(m0: seq<byte>, m: seq<byte>, pt: PageTable, area: Area, client: nat, fn: nat, view: seq<Parm>, svc: Service, locked: bool)
    requires SameOutside(m0, m, area.lo, area.hi)
    requires Carries(m, pt, area, client, fn, view)
    ensures var (ram, rc) := HostRun(m, pt, area.gc, svc, locked);
            var want := Serve(m0, svc, client, fn, view);
            if area.cbCall > MAX_REQUEST_SIZE then
              rc == VERR_NOT_SUPPORTED && SameOutside(m0, ram, area.lo, area.hi)
            else if TotalCb(view, 0) > MAX_DATA_SIZE then
              rc == want.rc && SameOutside(want.ram, ram, area.lo, area.hi)
            else
              && rc == VINF_SUCCESS && Load(ram, area.gc + OFF_RESULT, 4) == Enc32(want.rc)
              && SameOutside(want.ram, ram, area.lo, area.hi)
              && ValuesReturned(ram, area, view, want.outs)
  {
    hide ParseParms, CompleteInPlace, CompleteCopy, Finish, CarriesParm, Put, Load, LeBytes, View, Placed, WriteBack, SameOutside;
    SlotMonotone(area, 0, |view|);
    ParseCarried(m, pt, area, view, 0, 0);
    assert |view| <= (area.cbCall - SIZEOF_CALL) / SizeofParm(area.is64) by {
      if area.is64 { } else { }
    }
    var parsed := HostParse(m, pt, area.gc);
    if parsed.Err? {
      PutInside(m, m0, area.gc + OFF_RC, LeBytes(Enc32(parsed.rc), 4), area.lo, area.hi);
    } else {
      RunParsed(m0, m, pt, area, client, fn, view, svc, locked);
    }
  }

  /** The call at gc is marked as done since it was as in m: the done flag is set,
      the other flags are as they were, and the result is there in two's
      complement. */
  ghost predicate DoneSince(m: seq<byte>, ram: seq<byte>, gc: nat, rc: int) {
    var (before, after) := (Load(m, gc + 24, 4), Load(ram, gc + 24, 4));
    && after % 2 == 1 && after / 2 == before / 2
    && Load(ram, gc + 28, 4) == if rc < 0 then 0x1_0000_0000 + rc else rc
  }

  lemma FinishMarks(m: seq<byte>, gc: nat, result: int32)
    requires gc + SIZEOF_CALL <= |m|
    ensures DoneSince(m, Finish(m, gc, result), gc, result)
  {
    hide Load, Put, LeBytes;
    FinishReads(m, gc, result);
    LoadBounds(m, gc + OFF_FLAGS);
    PowValues();
    var flags := Load(m, gc + OFF_FLAGS, 4);
    var done := if flags % 2 == 1 then flags else flags + REQ_DONE;
    PutKeeps(m, gc + OFF_RESULT, LeBytes(Enc32(result), 4), gc + OFF_FLAGS, 4);
    PutReads(Put(m, gc + OFF_RESULT, LeBytes(Enc32(result), 4)), gc + OFF_FLAGS, done, 4);
  }

  lemma ParsedMarked(m: seq<byte>, pt: PageTable, area: Area, client: nat, fn: nat, view: seq<Parm>, svc: Service, locked: bool)
    requires area.Valid(|view|, |m|)
    requires var r := HostParse(m, pt, area.gc);
             && r.Ok? && r.value == Command(client, fn, area.is64, area.gc, area.cbCall, r.value.parms)
             && Matches(r.value.parms, view, 0, area)
    requires TotalCb(view, 0) <= MAX_DATA_SIZE
    ensures DoneSince(m, HostRun(m, pt, area.gc, svc, locked).0, area.gc, Serve(m, svc, client, fn, view).rc)
  {
    hide HostParse, CompleteInPlace, CompleteCopy, Finish, Put, Load, LeBytes, View, Placed, WriteBack, CallOf, TotalCb;
    var cmd := HostParse(m, pt, area.gc).value;
    MatchedAll(cmd.parms, view, area);
    var seen := seq(|cmd.parms|, i requires 0 <= i < |cmd.parms| => View(cmd.parms[i], area.gc));
    assert seen == view;
    var reply := svc(CallOf(m, client, fn, view));
    LockedOrNot(m, cmd, reply, area);
    SlotMonotone(area, 0, |view|);
    CompleteKeeps(m, cmd, reply.outs, 0, area, area.gc + 24, 4);
    FinishMarks(CompleteInPlace(m, cmd, reply.outs, 0), area.gc, reply.result);
    assert HostRun(m, pt, area.gc, svc, locked).0 == LockedResult(m, cmd, reply);
  }

  /** A served request, completed either way, is marked as done: its done flag is
      set, its other flags are those submitted, and its result stands in it; the
      flags of a refused one are as they were. */
  lemma Marked(m: seq<byte>, pt: PageTable, area: Area, client: nat, fn: nat, view: seq<Parm>, svc: Service, locked: bool)
    requires Carries(m, pt, area, client, fn, view)
    ensures var ram := HostRun(m, pt, area.gc, svc, locked).0;
            if area.cbCall > MAX_REQUEST_SIZE || TotalCb(view, 0) > MAX_DATA_SIZE then
              Load(ram, area.gc + 24, 4) == Load(m, area.gc + 24, 4)
            else
              DoneSince(m, ram, area.gc, Serve(m, svc, client, fn, view).rc)
  {
    hide ParseParms, CompleteInPlace, CompleteCopy, Finish, CarriesParm, Put, Load, LeBytes, View, Placed, WriteBack, TotalCb, CallOf;
    SlotMonotone(area, 0, |view|);
    ParseCarried(m, pt, area, view, 0, 0);
    assert |view| <= (area.cbCall - SIZEOF_CALL) / SizeofParm(area.is64) by {
      if area.is64 { } else { }
    }
    var parsed := HostParse(m, pt, area.gc);
    if parsed.Err? {
      PutKeeps(m, area.gc + OFF_RC, LeBytes(Enc32(parsed.rc), 4), area.gc + 24, 4);
    } else {
      ParsedMarked(m, pt, area, client, fn, view, svc, locked);
    }
  }

  /** A call with a parameter the host does not accept is refused. */
  lemma Rejected(m: seq<byte>, pt: PageTable, area: Area, client: nat, fn: nat, n: nat, k: nat, rc: int32)
    requires area.Valid(n, |m|) && area.cbCall <= MAX_REQUEST_SIZE && k < n
    requires CarriesHeader(m, area, client, fn, n)
    requires forall j :: 0 <= j < k ==> ResolveAt(m, pt, area, n, j).Ok?
    requires ResolveAt(m, pt, area, n, k) == Err(rc)
    ensures HostParse(m, pt, area.gc) == Err(if WireTotal(m, area, 0, k + 1) > MAX_DATA_SIZE then VERR_INVALID_PARAMETER else rc)
  {
    hide ParseParms, ResolveAt, WireTotal, Load;
    ParseRejected(m, pt, area, n, k, rc, 0, 0);
    assert n <= (area.cbCall - SIZEOF_CALL) / SizeofParm(area.is64) by {
      if area.is64 { } else { }
    }
  }
}
