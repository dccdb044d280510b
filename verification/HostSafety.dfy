/** What the host may touch on behalf of a guest: of a request it accepts, whatever
    it holds, only the submitted bytes and what the request's buffers name. */
module HostSafety {
  import opened Bytes
  import opened Hgcm
  import opened Transport

  // ----- What a buffer names -----

  /** Byte a is on page i of a buffer, or within a page's size of its entry. */
  predicate OnPage(g: GuestParm, i: nat, a: int)
    requires g.GBuf? && i < |g.pages|
  {
    var page := if g.kind == NoBounce then g.pages[i] - g.pages[i] % PAGE_SIZE else g.pages[i];
    page <= a < page + PAGE_SIZE
  }

  ghost predicate OnSomePage(g: GuestParm, a: int)
    requires g.GBuf?
  {
    exists i :: 0 <= i < |g.pages| && OnPage(g, i, a)
  }

  /** Byte a is in the run of the buffer's size that starts on its first page. */
  predicate InRun(g: GuestParm, a: int)
    requires g.GBuf? && g.off < PAGE_SIZE
  {
    |g.pages| > 0 && OrOffset(g.pages[0], g.off) <= a < OrOffset(g.pages[0], g.off) + g.cb
  }

  /** What a read of the buffer may touch: its pages, and, when they follow each
      other or it is said to be contiguous, the run from its first on. */
  ghost predicate Readable(g: GuestParm, a: int)
    requires g.GBuf? && g.off < PAGE_SIZE
  {
    OnSomePage(g, a) || (InRun(g, a) && g.kind != NoBounce && IsContiguous(g.pages))
  }

  /** What a write-back may touch: the run only when it is said to be contiguous. */
  ghost predicate Writable(g: GuestParm, a: int)
    requires g.GBuf? && g.off < PAGE_SIZE
  {
    OnSomePage(g, a) || (InRun(g, a) && g.kind == Contiguous)
  }

  lemma PageByteOn(pages: seq<nat>, off: nat, k: nat)
    requires PageByte(pages, off, k) >= 0
    ensures var i := (off + k) / PAGE_SIZE; i < |pages| && pages[i] <= PageByte(pages, off, k) < pages[i] + PAGE_SIZE
  {
  }

  lemma ReadsNamed(g: GuestParm, gc: nat, k: nat)
    requires g.GBuf? && g.kind != Embedded && g.off < PAGE_SIZE && k < g.cb
    ensures ReadAddrs(g, gc)[k] >= 0 ==> Readable(g, ReadAddrs(g, gc)[k])
  {
    hide OrOffset, PageByte;
    var i := (g.off + k) / PAGE_SIZE;
    if g.kind == NoBounce {
      if PageByte(Frames(g.pages), g.off, k) >= 0 {
        PageByteOn(Frames(g.pages), g.off, k);
        assert OnPage(g, i, ReadAddrs(g, gc)[k]);
      }
    } else if !IsContiguous(g.pages) && PageByte(g.pages, g.off, k) >= 0 {
      PageByteOn(g.pages, g.off, k);
      assert OnPage(g, i, ReadAddrs(g, gc)[k]);
    }
  }

  lemma WritesNamed(g: GuestParm, gc: nat, k: nat)
    requires g.GBuf? && g.kind != Embedded && g.off < PAGE_SIZE && k < g.cb
    ensures WriteAddrs(g, gc)[k] >= 0 ==> Writable(g, WriteAddrs(g, gc)[k])
  {
    hide OrOffset, PageByte;
    var i := (g.off + k) / PAGE_SIZE;
    if g.kind == NoBounce {
      if PageByte(Frames(g.pages), g.off, k) >= 0 {
        PageByteOn(Frames(g.pages), g.off, k);
        assert OnPage(g, i, WriteAddrs(g, gc)[k]);
      }
    } else if !(g.kind == Contiguous && |g.pages| > 0) && PageByte(g.pages, g.off, k) >= 0 {
      PageByteOn(g.pages, g.off, k);
      assert OnPage(g, i, WriteAddrs(g, gc)[k]);
    }
  }

  // ----- What an accepted request is -----

  /** Parameter j of n, as taken over from the cbCall bytes at gc: a value is in its
      slot, an embedded buffer submitted behind the parameters, a page list too,
      with all its entries, and the pages of any other buffer are those mapped. */
  ghost predicate Sound(m: seq<byte>, pt: PageTable, gc: nat, cbCall: nat, is64: bool, n: nat, j: nat, g: GuestParm) {
    var slot := 44 + j * SizeofParm(is64);
    var behind := 44 + n * SizeofParm(is64);
    var w := WireParmAt(m, gc + 44 + j * SizeofParm(is64), is64);
    match g
    case GVal(_, off, k) => off == slot + 4 && (k == 4 || k == 8)
    case GBuf(Embedded, cb, dir, off, _) => 1 <= dir <= 3 && behind <= off && off + cb <= cbCall
    case GBuf(Linear, cb, dir, off, pages) =>
      && w.WLin? && cb == w.cb && off < 4096 && pages == LinPages(pt, w.addr, w.cb)
      && dir == (match Load(m, gc + 44 + j * SizeofParm(is64), 4) case 5 => 1 case 6 => 2 case _ => 3)
    case GBuf(_, cb, dir, off, pages) =>
      && w.WPageList? && cb == w.cb && 1 <= dir <= 3 && off < 4096
      && behind <= w.off && w.off + 8 + 8 * |pages| <= cbCall && |pages| > 0
      && forall i :: 0 <= i < |pages| ==> pages[i] == Load(m, gc + w.off + 8 + 8 * i, 8)
  }

  /** If the host accepts parameter j, it is sound. */
  ghost predicate SoundAt(m: seq<byte>, pt: PageTable, gc: nat, cbCall: nat, is64: bool, n: nat, j: nat) {
    var p := gc + SIZEOF_CALL + j * SizeofParm(is64);
    var r := Resolve(m, pt, gc, cbCall, SIZEOF_CALL + n * SizeofParm(is64), p, WireParmAt(m, p, is64));
    r.Ok? ==> Sound(m, pt, gc, cbCall, is64, n, j, r.value)
  }

  lemma ListSound(m: seq<byte>, pt: PageTable, gc: nat, cbCall: nat, is64: bool, n: nat, j: nat)
    requires j < n && WireParmAt(m, gc + 44 + j * SizeofParm(is64), is64).WPageList?
    ensures SoundAt(m, pt, gc, cbCall, is64, n, j)
  {
    hide Load, WireParmAt;
  }

  lemma InlineSound(m: seq<byte>, pt: PageTable, gc: nat, cbCall: nat, is64: bool, n: nat, j: nat)
    requires j < n && !WireParmAt(m, gc + 44 + j * SizeofParm(is64), is64).WPageList?
    ensures SoundAt(m, pt, gc, cbCall, is64, n, j)
  {
    hide Load;
  }

  lemma ResolveSound(m: seq<byte>, pt: PageTable, gc: nat, cbCall: nat, is64: bool, n: nat, j: nat)
    requires j < n
    ensures SoundAt(m, pt, gc, cbCall, is64, n, j)
  {
    hide SoundAt, WireParmAt;
    if WireParmAt(m, gc + 44 + j * SizeofParm(is64), is64).WPageList? {
      ListSound(m, pt, gc, cbCall, is64, n, j);
    } else {
      InlineSound(m, pt, gc, cbCall, is64, n, j);
    }
  }

  /** Sizes of the buffers from i on. */
  function BufTotal(gs: seq<GuestParm>, i: nat): nat
    requires i <= |gs|
    decreases |gs| - i
  {
    if i == |gs| then 0 else (if gs[i].GBuf? then gs[i].cb else 0) + BufTotal(gs, i + 1)
  }

  lemma {:induction false} BufTotalTail(g: GuestParm, gs: seq<GuestParm>, i: nat)
    requires i <= |gs|
    ensures BufTotal([g] + gs, i + 1) == BufTotal(gs, i)
    decreases |gs| - i
  {
    if i < |gs| {
      BufTotalTail(g, gs, i + 1);
      assert ([g] + gs)[i + 1] == gs[i];
    }
  }

  lemma ResolvedSize(m: seq<byte>, pt: PageTable, gc: nat, cbCall: nat, offExtra: nat, p: nat, w: WireParm)
    requires gc <= p
    ensures var r := Resolve(m, pt, gc, cbCall, offExtra, p, w);
            r.Ok? ==> (if r.value.GBuf? then r.value.cb else 0) == w.Size()
  {
    hide Load;
  }

  lemma {:induction false} ParsedSound(m: seq<byte>, pt: PageTable, gc: nat, cbCall: nat, is64: bool, n: nat, i: nat, total: nat)
    requires i <= n && total <= MAX_DATA_SIZE
    ensures var r := ParseParms(m, pt, gc, cbCall, is64, n, i, total);
            r.Ok? ==>
              && (forall k :: 0 <= k < n - i ==> Sound(m, pt, gc, cbCall, is64, n, i + k, r.value[k]))
              && total + BufTotal(r.value, 0) <= MAX_DATA_SIZE
    decreases n - i
  {
    hide WireParmAt, Resolve, Sound;
    if i < n {
      var p := gc + SIZEOF_CALL + i * SizeofParm(is64);
      var w := WireParmAt(m, p, is64);
      var offExtra := SIZEOF_CALL + n * SizeofParm(is64);
      var r := ParseParms(m, pt, gc, cbCall, is64, n, i, total);
      if r.Ok? {
        ResolveSound(m, pt, gc, cbCall, is64, n, i);
        ResolvedSize(m, pt, gc, cbCall, offExtra, p, w);
        ParsedSound(m, pt, gc, cbCall, is64, n, i + 1, total + w.Size());
        var g := Resolve(m, pt, gc, cbCall, offExtra, p, w).value;
        var gs := ParseParms(m, pt, gc, cbCall, is64, n, i + 1, total + w.Size()).value;
        assert r.value == [g] + gs;
        BufTotalTail(g, gs, 0);
        forall k | 0 <= k < n - i ensures Sound(m, pt, gc, cbCall, is64, n, i + k, r.value[k]) {
          if k > 0 {
            assert r.value[k] == gs[k - 1] && Sound(m, pt, gc, cbCall, is64, n, i + 1 + (k - 1), gs[k - 1]);
          }
        }
      }
    }
  }

  /** An accepted request is of a proper size and kind, has at most 32 parameters,
      all submitted and sound, and at most 128 MB of buffers. */
  lemma AcceptedSound(m: seq<byte>, pt: PageTable, gc: nat)
    requires HostParse(m, pt, gc).Ok?
    ensures var cmd := HostParse(m, pt, gc).value;
            && cmd.gc == gc && cmd.cbCall == Load(m, gc, 4) && 44 <= cmd.cbCall <= 0x10_0000
            && Load(m, gc + 4, 4) == 0x1_0001 && Load(m, gc + 8, 4) == (if cmd.is64 then 63 else 62)
            && cmd.client == Load(m, gc + 32, 4) && cmd.fn == Load(m, gc + 36, 4)
            && |cmd.parms| == Load(m, gc + 40, 4) <= 32 && 44 + |cmd.parms| * SizeofParm(cmd.is64) <= cmd.cbCall
            && (forall j :: 0 <= j < |cmd.parms| ==> Sound(m, pt, gc, cmd.cbCall, cmd.is64, |cmd.parms|, j, cmd.parms[j]))
            && BufTotal(cmd.parms, 0) <= 0x800_0000
  {
    hide Load, ParseParms, Sound;
    var cmd := HostParse(m, pt, gc).value;
    ParsedSound(m, pt, gc, cmd.cbCall, cmd.is64, |cmd.parms|, 0, 0);
    forall j | 0 <= j < |cmd.parms| ensures Sound(m, pt, gc, cmd.cbCall, cmd.is64, |cmd.parms|, j, cmd.parms[j]) {
      assert Sound(m, pt, gc, cmd.cbCall, cmd.is64, |cmd.parms|, 0 + j, cmd.parms[j]);
    }
    SlotsFit(cmd.cbCall, |cmd.parms|, cmd.is64);
  }

  lemma SlotsFit(size: nat, n: nat, is64: bool)
    requires size >= SIZEOF_CALL && n <= (size - SIZEOF_CALL) / SizeofParm(is64)
    ensures 44 + n * SizeofParm(is64) <= size
  {
    if is64 { } else { }
  }

  // ----- Nothing else is written -----

  /** Byte a is neither submitted nor in a buffer that comes back. */
  ghost predicate Untouched(cmd: Command, a: nat)
    requires forall g :: g in cmd.parms ==> ParmOk(g)
  {
    && !(cmd.gc <= a < cmd.gc + cmd.cbCall)
    && forall j :: 0 <= j < |cmd.parms| ==>
         var g := cmd.parms[j];
         assert g in cmd.parms && ParmOk(g);
         g.GBuf? && g.kind != Embedded && FromHost(g.dir) ==> !Writable(g, a)
  }

  /** What soundness means for completing a parameter. */
  ghost predicate Fits(cmd: Command, j: nat)
    requires j < |cmd.parms|
  {
    var slot := SIZEOF_CALL + j * SizeofParm(cmd.is64);
    && slot + 12 <= cmd.cbCall
    && match cmd.parms[j]
       case GVal(_, off, k) => off == slot + 4 && (k == 4 || k == 8)
       case GBuf(kind, cb, _, off, _) => kind == Embedded ==> off + cb <= cmd.cbCall
  }

  ghost predicate AllFit(cmd: Command) {
    && (forall g :: g in cmd.parms ==> ParmOk(g)) && cmd.cbCall >= SIZEOF_CALL
    && forall j :: 0 <= j < |cmd.parms| ==> Fits(cmd, j)
  }

  lemma AcceptedFits(m: seq<byte>, pt: PageTable, gc: nat)
    requires HostParse(m, pt, gc).Ok?
    ensures AllFit(HostParse(m, pt, gc).value)
  {
    hide HostParse, Load, WireParmAt;
    var cmd := HostParse(m, pt, gc).value;
    AcceptedSound(m, pt, gc);
    forall j | 0 <= j < |cmd.parms| ensures Fits(cmd, j) {
      SlotFits(cmd, j);
      assert Sound(m, pt, gc, cmd.cbCall, cmd.is64, |cmd.parms|, j, cmd.parms[j]);
    }
  }

  lemma SlotFits(cmd: Command, j: nat)
    requires j < |cmd.parms| && 44 + |cmd.parms| * SizeofParm(cmd.is64) <= cmd.cbCall
    ensures SIZEOF_CALL + j * SizeofParm(cmd.is64) + 12 <= cmd.cbCall
  {
    if cmd.is64 { } else { }
  }

  lemma SlotKeeps(m: seq<byte>, cmd: Command, outs: seq<SvcOut>, i: nat, a: nat)
    requires AllFit(cmd) && i < |cmd.parms| && !(cmd.gc <= a < cmd.gc + cmd.cbCall)
    ensures ByteAt(WriteSlot(m, cmd.gc, cmd.gc + SIZEOF_CALL + i * SizeofParm(cmd.is64), cmd.parms[i], outs, i), a) == ByteAt(m, a)
  {
    assert Fits(cmd, i);
  }

  lemma BufferKeeps(m: seq<byte>, cmd: Command, outs: seq<SvcOut>, i: nat, a: nat)
    requires AllFit(cmd) && i < |cmd.parms| && Untouched(cmd, a)
    ensures ByteAt(WriteOut(m, View(cmd.parms[i], cmd.gc), outs, i), a) == ByteAt(m, a)
  {
    hide ReadAddrs, WriteAddrs, WriteOut, Writable;
    var g := cmd.parms[i];
    assert g in cmd.parms && Fits(cmd, i);
    var v := View(g, cmd.gc);
    if v.VPtr? {
      forall k | 0 <= k < |v.wr| ensures v.wr[k] != a {
        if g.kind == Embedded {
          EmbeddedAt(g, cmd.gc, k);
        } else {
          WritesNamed(g, cmd.gc, k);
        }
      }
    }
    OutKeeps(m, v, outs, i, a);
  }

  lemma EmbeddedAt(g: GuestParm, gc: nat, k: nat)
    requires g.GBuf? && g.kind == Embedded && k < g.cb
    ensures WriteAddrs(g, gc)[k] == ReadAddrs(g, gc)[k] == gc + g.off + k
  {
  }

  lemma {:induction false} InPlaceKeeps(m: seq<byte>, cmd: Command, outs: seq<SvcOut>, i: nat, a: nat)
    requires AllFit(cmd) && i <= |cmd.parms| && Untouched(cmd, a)
    ensures ByteAt(CompleteInPlace(m, cmd, outs, i), a) == ByteAt(m, a)
    decreases |cmd.parms| - i
  {
    hide WriteOut, WriteSlot, View, Fits, Writable;
    if i < |cmd.parms| {
      var p := cmd.gc + SIZEOF_CALL + i * SizeofParm(cmd.is64);
      var m1 := WriteSlot(m, cmd.gc, p, cmd.parms[i], outs, i);
      SlotKeeps(m, cmd, outs, i, a);
      BufferKeeps(m1, cmd, outs, i, a);
      InPlaceKeeps(WriteOut(m1, View(cmd.parms[i], cmd.gc), outs, i), cmd, outs, i + 1, a);
    }
  }

  lemma {:induction false} MemoryKeeps(m: seq<byte>, copy: seq<byte>, cmd: Command, outs: seq<SvcOut>, i: nat, a: nat)
    requires AllFit(cmd) && i <= |cmd.parms| && Untouched(cmd, a)
    ensures ByteAt(CompleteCopy(m, copy, cmd, outs, i).0, a) == ByteAt(m, a)
    decreases |cmd.parms| - i
  {
    hide WriteOut, WriteSlot, View, Fits, Writable;
    if i < |cmd.parms| {
      var g := cmd.parms[i];
      var copy1 := WriteSlot(copy, 0, SIZEOF_CALL + i * SizeofParm(cmd.is64), g, outs, i);
      if g.GBuf? && g.kind == Embedded {
        MemoryKeeps(m, WriteOut(copy1, View(g, 0), outs, i), cmd, outs, i + 1, a);
      } else {
        BufferKeeps(m, cmd, outs, i, a);
        MemoryKeeps(WriteOut(m, View(g, cmd.gc), outs, i), copy1, cmd, outs, i + 1, a);
      }
    }
  }

  /** Whatever a guest submits and a service answers, the host writes only to the
      submitted bytes and to what buffers that come back name; of a request it
      refuses, to its status. */
  lemma OnlyNamedWritten(m: seq<byte>, pt: PageTable, gc: nat, svc: Service, locked: bool, a: nat)
    requires match HostParse(m, pt, gc)
             case Err(_) => !(gc + 12 <= a < gc + 16)
             case Ok(cmd) => Untouched(cmd, a)
    ensures ByteAt(HostRun(m, pt, gc, svc, locked).0, a) == ByteAt(m, a)
  {
    hide HostParse, CompleteInPlace, CompleteCopy, CallOf, View, Load, LeBytes, Fits, Writable;
    var parsed := HostParse(m, pt, gc);
    if parsed.Ok? {
      var cmd := parsed.value;
      AcceptedFits(m, pt, gc);
      var view := seq(|cmd.parms|, i requires 0 <= i < |cmd.parms| => View(cmd.parms[i], gc));
      var reply := svc(CallOf(m, cmd.client, cmd.fn, view));
      InPlaceKeeps(m, cmd, reply.outs, 0, a);
      MemoryKeeps(m, CopyOut(m, gc, cmd.cbCall), cmd, reply.outs, 0, a);
    }
  }

  // ----- Nothing else is read -----

  ghost predicate SameIn(m: seq<byte>, t: seq<byte>, lo: nat, hi: nat) {
    && (forall q: nat, k: nat {:trigger Load(m, q, k)} {:trigger Load(t, q, k)} :: lo <= q && q + k <= hi ==> Load(m, q, k) == Load(t, q, k))
    && forall a: nat :: lo <= a < hi ==> ByteAt(m, a) == ByteAt(t, a)
  }

  lemma BytesSame(m: seq<byte>, t: seq<byte>, lo: nat, hi: nat)
    requires forall a: nat :: lo <= a < hi ==> ByteAt(m, a) == ByteAt(t, a)
    ensures SameIn(m, t, lo, hi)
  {
    hide Load;
    forall q: nat, k: nat | lo <= q && q + k <= hi ensures Load(m, q, k) == Load(t, q, k) {
      LoadFrame(m, t, q, k);
    }
  }

  lemma WireSame(m: seq<byte>, t: seq<byte>, gc: nat, size: nat, p: nat, is64: bool)
    requires SameIn(m, t, gc, gc + size) && gc <= p && p + SizeofParm(is64) <= gc + size
    ensures WireParmAt(m, p, is64) == WireParmAt(t, p, is64)
  {
    hide Load;
  }

  lemma ResolveSame(m: seq<byte>, t: seq<byte>, pt: PageTable, gc: nat, size: nat, offExtra: nat, p: nat, w: WireParm)
    requires SameIn(m, t, gc, gc + size) && gc <= p && Resolve(m, pt, gc, size, offExtra, p, w).Ok?
    ensures Resolve(m, pt, gc, size, offExtra, p, w) == Resolve(t, pt, gc, size, offExtra, p, w)
  {
    hide Load;
    if w.WPageList? {
      var n := Load(m, gc + w.off + 6, 2);
      assert PagesAt(m, gc + w.off, n) == PagesAt(t, gc + w.off, n);
    }
  }

  lemma {:induction false} ParseSame(m: seq<byte>, t: seq<byte>, pt: PageTable, gc: nat, size: nat, is64: bool, n: nat, i: nat, total: nat)
    requires SameIn(m, t, gc, gc + size) && i <= n && total <= MAX_DATA_SIZE && 44 + n * SizeofParm(is64) <= size
    requires ParseParms(m, pt, gc, size, is64, n, i, total).Ok?
    ensures ParseParms(t, pt, gc, size, is64, n, i, total) == ParseParms(m, pt, gc, size, is64, n, i, total)
    decreases n - i
  {
    hide WireParmAt, Resolve, SameIn;
    if i < n {
      var p := gc + SIZEOF_CALL + i * SizeofParm(is64);
      var w := WireParmAt(m, p, is64);
      SlotInside(i, n, is64);
      WireSame(m, t, gc, size, p, is64);
      ResolveSame(m, t, pt, gc, size, SIZEOF_CALL + n * SizeofParm(is64), p, w);
      ParseSame(m, t, pt, gc, size, is64, n, i + 1, total + w.Size());
    }
  }

  lemma SlotInside(i: nat, n: nat, is64: bool)
    requires i < n
    ensures (i + 1) * SizeofParm(is64) == i * SizeofParm(is64) + SizeofParm(is64) <= n * SizeofParm(is64)
  {
    if is64 { } else { }
  }

  lemma AcceptSame(m: seq<byte>, t: seq<byte>, pt: PageTable, gc: nat)
    requires HostParse(m, pt, gc).Ok? && SameIn(m, t, gc, gc + HostParse(m, pt, gc).value.cbCall)
    ensures HostParse(t, pt, gc) == HostParse(m, pt, gc)
  {
    hide Load, ParseParms, Sound;
    var cmd := HostParse(m, pt, gc).value;
    AcceptedSound(m, pt, gc);
    ParseSame(m, t, pt, gc, cmd.cbCall, cmd.is64, |cmd.parms|, 0, 0);
  }

  /** Two memories that agree on the submitted bytes and on what the buffers that
      are read name are the same to the host: it accepts the same request and
      hands the service the same call. */
  lemma OnlyNamedRead(m: seq<byte>, t: seq<byte>, pt: PageTable, gc: nat)
    requires |m| == |t| && HostParse(m, pt, gc).Ok?
    requires var cmd := HostParse(m, pt, gc).value;
             && (forall a: nat :: gc <= a < gc + cmd.cbCall ==> ByteAt(m, a) == ByteAt(t, a))
             && (forall j, a: nat :: 0 <= j < |cmd.parms| && ReadBy(cmd.parms[j], a) ==> ByteAt(m, a) == ByteAt(t, a))
    ensures HostParse(t, pt, gc) == HostParse(m, pt, gc)
    ensures var cmd := HostParse(m, pt, gc).value;
            var view := seq(|cmd.parms|, i requires 0 <= i < |cmd.parms| => View(cmd.parms[i], gc));
            CallOf(m, cmd.client, cmd.fn, view) == CallOf(t, cmd.client, cmd.fn, view)
  {
    hide HostParse, View, Input, ReadBy, Fits, SameIn;
    var cmd := HostParse(m, pt, gc).value;
    BytesSame(m, t, gc, gc + cmd.cbCall);
    AcceptSame(m, t, pt, gc);
    AcceptedFits(m, pt, gc);
    var view := seq(|cmd.parms|, i requires 0 <= i < |cmd.parms| => View(cmd.parms[i], gc));
    forall i | 0 <= i < |view| ensures Input(m, view[i]) == Input(t, view[i]) {
      InputSame(m, t, cmd, i);
    }
  }

  /** Reading the parameter may touch byte a outside the request. */
  ghost predicate ReadBy(g: GuestParm, a: nat) {
    g.GBuf? && g.kind != Embedded && g.off < PAGE_SIZE && (ToHost(g.dir) || g.kind == NoBounce) && Readable(g, a)
  }

  lemma InputSame(m: seq<byte>, t: seq<byte>, cmd: Command, i: nat)
    requires |m| == |t| && AllFit(cmd) && i < |cmd.parms|
    requires forall a: nat :: cmd.gc <= a < cmd.gc + cmd.cbCall ==> ByteAt(m, a) == ByteAt(t, a)
    requires forall a: nat :: ReadBy(cmd.parms[i], a) ==> ByteAt(m, a) == ByteAt(t, a)
    ensures Input(m, View(cmd.parms[i], cmd.gc)) == Input(t, View(cmd.parms[i], cmd.gc))
  {
    hide ReadAddrs, WriteAddrs, Readable;
    var g := cmd.parms[i];
    assert g in cmd.parms && Fits(cmd, i);
    var v := View(g, cmd.gc);
    if v.VPtr? {
      forall k | 0 <= k < |v.rd| ensures HostByte(m, v.rd[k]) == HostByte(t, v.rd[k]) {
        if g.kind == Embedded {
          EmbeddedAt(g, cmd.gc, k);
        } else {
          ReadsNamed(g, cmd.gc, k);
          assert v.rd[k] >= 0 ==> ReadBy(g, v.rd[k]);
        }
      }
      assert Gather(m, v.rd) == Gather(t, v.rd);
    }
  }
}
