/** The guest side of a fast HGCM call: filling in the request in guest memory,
    submitting it and combining the two status codes. */
module Marshal {
  import opened Bytes
  import opened Hgcm
  import opened PageLists
  import opened Transport

  datatype Option<+T> = None | Some(value: T)

  /** Size of VBGLIOCIDCHGCMFASTCALL, which the call structure follows. */
  const SIZEOF_FASTCALL: nat := 52
  const OFF_PARMS: nat := SIZEOF_FASTCALL + SIZEOF_CALL

  // Offsets in VBGLIOCIDCHGCMFASTCALL.
  const OFF_CB_IN: nat := 0
  const OFF_UVERSION: nat := 4
  const OFF_UTYPE: nat := 8
  const OFF_HDR_RC: nat := 12
  const OFF_CB_OUT: nat := 16
  const OFF_URESERVED: nat := 20
  const OFF_GCPHYSREQ: nat := 24
  const OFF_INTERRUPTIBLE: nat := 28
  // Offsets in VMMDevRequestHeader that only the guest writes.
  const OFF_RESERVED1: nat := 16
  const OFF_REQUESTOR: nat := 20

  const REQUESTOR_KERNEL_DRV_OTHER: nat := 2
  const VERR_NOT_IMPLEMENTED: int32 := -12

  // VMMDEV_HVF_XXX.
  const HVF_EMBEDDED_BUFFERS: nat := 2
  const HVF_CONTIGUOUS_PAGE_LIST: nat := 4
  const HVF_NO_BOUNCE_PAGE_LIST: nat := 8

  predicate Has(features: nat, flag: nat)
    requires flag > 0
  {
    features / flag % 2 == 1
  }

  /** The three flags are bits 1 to 3 of the mask. */
  lemma FeatureBits(low: nat, embedded: nat, contiguous: nat, noBounce: nat, high: nat)
    requires low < 2 && embedded < 2 && contiguous < 2 && noBounce < 2
    ensures var mask := low + 2 * embedded + 4 * contiguous + 8 * noBounce + 16 * high;
            && (Has(mask, HVF_EMBEDDED_BUFFERS) <==> embedded == 1)
            && (Has(mask, HVF_CONTIGUOUS_PAGE_LIST) <==> contiguous == 1)
            && (Has(mask, HVF_NO_BOUNCE_PAGE_LIST) <==> noBounce == 1)
  {
    var mask := low + 2 * embedded + 4 * contiguous + 8 * noBounce + 16 * high;
    assert mask / 2 == embedded + 2 * (contiguous + 2 * noBounce + 4 * high);
    assert mask / 4 == contiguous + 2 * (noBounce + 2 * high);
    assert mask / 8 == noBounce + 2 * high;
  }

  /** The driver behind the fast call checks the header, then hands the physical
      address it finds there to the host. What the host says of the submission
      goes into the header; the status is that of getting there, except with the
      NT glue, which takes it from the header. */
  function FastCall(m: seq<byte>, pt: PageTable, svc: Service, locked: bool, ntGlue: bool, req: nat, cbReq: nat)
    : (r: (seq<byte>, int32))
    ensures |r.0| == |m|
  {
    var (cbIn, cbOut) := (Load(m, req + OFF_CB_IN, 4), Load(m, req + OFF_CB_OUT, 4));
    if !(   Load(m, req + OFF_UVERSION, 4) == HEADER_VERSION && Load(m, req + OFF_UTYPE, 4) == 0
         && 24 <= cbIn <= cbReq && 24 <= cbOut <= cbReq && cbReq >= OFF_PARMS) then (m, VERR_INVALID_PARAMETER)
    else
      var (t, rc) := if Load(m, req + OFF_INTERRUPTIBLE, 1) != 0 then (m, VERR_NOT_IMPLEMENTED)
                     else HostRun(m, pt, Load(m, req + OFF_GCPHYSREQ, 4), svc, locked);
      (Put(t, req + OFF_HDR_RC, LeBytes(Enc32(rc), 4)), if ntGlue then rc else VINF_SUCCESS)
  }

  /** Memory t is s with nothing written outside [lo, hi): loads and parameters
      clear of it read the same, and what agreed with s up to a region around it
      still does. */
  ghost predicate Wrote(s: seq<byte>, t: seq<byte>, lo: nat, hi: nat) {
    && |s| == |t|
    && (forall q: nat, k: nat {:trigger Load(t, q, k)} :: q + k <= lo || hi <= q ==> Load(t, q, k) == Load(s, q, k))
    && (forall q: nat, w: bool {:trigger WireParmAt(t, q, w)} :: q + SizeofParm(w) <= lo || hi <= q
          ==> WireParmAt(t, q, w) == WireParmAt(s, q, w))
    && forall m: seq<byte>, l: nat, h: nat {:trigger SameOutside(m, t, l, h)} :: l <= lo && hi <= h && SameOutside(m, s, l, h)
         ==> SameOutside(m, t, l, h)
  }

  lemma SameIsWrote(s: seq<byte>, t: seq<byte>, lo: nat, hi: nat)
    requires SameOutside(s, t, lo, hi)
    ensures Wrote(s, t, lo, hi)
  {
    hide Load;
    forall q: nat, k: nat | q + k <= lo || hi <= q ensures Load(t, q, k) == Load(s, q, k) {
      LoadFrame(s, t, q, k);
    }
  }

  lemma SameRefl(m: seq<byte>)
    ensures forall l: nat, h: nat {:trigger SameOutside(m, m, l, h)} :: SameOutside(m, m, l, h)
  {
  }

  /** A buffer parameter that transfers the given bytes. */
  function Buf(dir: nat, cb: nat, addrs: seq<int>): Parm {
    VPtr(cb, if ToHost(dir) then addrs else [], if FromHost(dir) then addrs else [])
  }

  /** A block of the physical heap: its linear and its physical address. */
  datatype Block = Block(lin: nat, phys: nat)

  /** A page list: its direction, offset and only page, or just how many pages. */
  datatype List = OneList(dir: nat, off: nat, page: nat) | Pages(count: nat)
  {
    function Size(): nat {
      if OneList? then SIZEOF_PAGELIST else 8 + 8 * count
    }
  }

  /** A request being filled in at b: memory before that, the header's values,
      where its descriptors end, the parameters and the page lists so far. */
  datatype Draft = Draft(m0: seq<byte>, b: Block, cbReq: nat, fn: nat, n: nat, hi: nat,
                         parms: map<nat, WireParm>, lists: map<nat, List>)

  /** The page list at a is the given one. */
  ghost predicate ListAt(m: seq<byte>, a: nat, l: List) {
    match l
    case OneList(dir, off, page) =>
      && Load(m, a, 4) == dir && Load(m, a + 4, 2) == off
      && Load(m, a + 6, 2) == 1 && Load(m, a + 8, 8) == page
    case Pages(count) => Load(m, a + 6, 2) == count
  }

  /** What a caller gets of a call: its status, memory and the values returned. */
  datatype Answer = Answer(vrc: int32, ram: seq<byte>, outs: seq<SvcOut>)

  /** The linear address type that transfers in the given direction. */
  function LinType(dir: nat): (ty: nat)
    requires DirectionValid(dir)
    ensures LinDirection(ty) == dir
  {
    if dir == DIR_TO_HOST then TYPE_LINADDR_IN else if dir == DIR_FROM_HOST then TYPE_LINADDR_OUT else TYPE_LINADDR
  }

  /** The driver: guest memory and what it knows of the host. */
  class Guest {
    const ram: array<byte>
    const pt: PageTable
    const features: nat
    const idClient: u32
    const is64: bool
    /** Whether requests reach the driver through the NT glue. */
    const ntGlue: bool
    /** The host: the service, and whether it happens to lock the request. */
    const svc: Service
    const locked: bool
    /** The blocks of the physical heap in use, with their sizes. */
    var live: map<Block, nat>

    constructor (ram: array<byte>, pt: PageTable, features: nat, idClient: u32, is64: bool, ntGlue: bool, svc: Service, locked: bool)
      ensures this.ram == ram && this.pt == pt && this.features == features && this.idClient == idClient
      ensures this.is64 == is64 && this.ntGlue == ntGlue && this.svc == svc && this.locked == locked && live == map[]
    {
      this.ram, this.pt, this.features, this.idClient := ram, pt, features, idClient;
      this.is64, this.ntGlue, this.svc, this.locked, live := is64, ntGlue, svc, locked, map[];
    }

    /** Offset of parameter i, or of what follows i parameters, in a request. */
    function OffParm(i: nat): nat {
      OFF_PARMS + i * SizeofParm(is64)
    }

    predicate FitsPointer(lin: nat) {
      lin < if is64 then 0x1_0000_0000_0000_0000 else 0x1_0000_0000
    }

    // ----- Stores -----

    method Store32(a: nat, v: u32)
      requires a + 4 <= ram.Length
      modifies ram
      ensures Load(ram[..], a, 4) == v
      ensures Wrote(old(ram[..]), ram[..], a, a + 4)
    {
      PowValues();
      ghost var m := ram[..];
      StoreLe(ram, a, v, 4);
      SameIsWrote(m, ram[..], a, a + 4);
    }

    method Store64(a: nat, v: u64)
      requires a + 8 <= ram.Length
      modifies ram
      ensures Load(ram[..], a, 8) == v
      ensures Wrote(old(ram[..]), ram[..], a, a + 8)
    {
      PowValues();
      ghost var m := ram[..];
      StoreLe(ram, a, v, 8);
      SameIsWrote(m, ram[..], a, a + 8);
    }

    method Store16(a: nat, v: u16)
      requires a + 2 <= ram.Length
      modifies ram
      ensures Load(ram[..], a, 2) == v
      ensures Wrote(old(ram[..]), ram[..], a, a + 2)
    {
      PowValues();
      ghost var m := ram[..];
      StoreLe(ram, a, v, 2);
      SameIsWrote(m, ram[..], a, a + 2);
    }

    // ----- The request headers -----

    /** The fast call header leads the host to the call structure after it, where
        the result stands at its preset value. */
    ghost predicate HeaderLeads(m: seq<byte>, req: nat, cbReq: nat) {
      && Load(m, req + SIZEOF_FASTCALL + OFF_RESULT, 4) == Enc32(VERR_INTERNAL_ERROR)
      && Load(m, req + OFF_CB_IN, 4) == Load(m, req + OFF_CB_OUT, 4) == cbReq
      && Load(m, req + OFF_UVERSION, 4) == HEADER_VERSION && Load(m, req + OFF_UTYPE, 4) == 0
      && Load(m, req + OFF_INTERRUPTIBLE, 1) == 0
      && Load(m, req + OFF_GCPHYSREQ, 4) == req + SIZEOF_FASTCALL
    }

    /** Where the request at req keeps its parts: headers and descriptors up to
        offset hi, cbReq bytes submitted. */
    function RequestArea(req: nat, hi: nat, cbReq: nat): Area {
      Area(req, req + SIZEOF_FASTCALL, req + hi, CallSize(cbReq), is64)
    }

    /** The call is the request without the fast call's header, in 32 bits. */
    function CallSize(cbReq: nat): nat {
      if cbReq >= SIZEOF_FASTCALL then cbReq - SIZEOF_FASTCALL else cbReq + 0x1_0000_0000 - SIZEOF_FASTCALL
    }

    /** Memory m is as the draft says. */
    ghost predicate Drafted(m: seq<byte>, d: Draft) {
      var req := d.b.phys;
      && |m| == ram.Length && OffParm(d.n) <= d.hi && req + d.hi <= |m|
      && HeaderLeads(m, req, d.cbReq)
      && CarriesHeader(m, RequestArea(req, OFF_PARMS, d.cbReq), idClient, d.fn, d.n)
      && SameOutside(d.m0, m, req, req + d.hi)
      && (forall i :: i in d.parms ==> i < d.n && WireParmAt(m, req + OffParm(i), is64) == d.parms[i])
      && (forall o :: o in d.lists ==>
            OffParm(d.n) <= o && o + d.lists[o].Size() <= d.hi && ListAt(m, req + o, d.lists[o]))
    }

    /** VBGLREQHDR_INIT_EX, with cbIn and cbOut the same. */
    method InitReqHdr(req: nat, cbReq: nat)
      requires req + SIZEOF_FASTCALL <= ram.Length
      modifies ram
      ensures Wrote(old(ram[..]), ram[..], req, req + 24)
      ensures Load(ram[..], req + OFF_CB_IN, 4) == Load(ram[..], req + OFF_CB_OUT, 4) == cbReq % 0x1_0000_0000
      ensures Load(ram[..], req + OFF_UVERSION, 4) == HEADER_VERSION && Load(ram[..], req + OFF_UTYPE, 4) == 0
      ensures Load(ram[..], req + OFF_HDR_RC, 4) == Enc32(VERR_INTERNAL_ERROR) && Load(ram[..], req + OFF_URESERVED, 4) == 0
    {
      hide Load, SameOutside, WireParmAt;
      Store32(req + OFF_CB_IN, cbReq % 0x1_0000_0000);
      Store32(req + OFF_UVERSION, HEADER_VERSION);
      Store32(req + OFF_UTYPE, 0);
      Store32(req + OFF_HDR_RC, Enc32(VERR_INTERNAL_ERROR));
      Store32(req + OFF_CB_OUT, cbReq % 0x1_0000_0000);
      Store32(req + OFF_URESERVED, 0);
    }

    /** The VMMDevRequestHeader part of VBGLIOCIDCHGCMFASTCALL_INIT. */
    method InitVmmDevHdr(gc: nat, cbCall: nat)
      requires gc + SIZEOF_CALL <= ram.Length
      modifies ram
      ensures Wrote(old(ram[..]), ram[..], gc, gc + OFF_FLAGS)
      ensures Load(ram[..], gc + OFF_SIZE, 4) == cbCall % 0x1_0000_0000
      ensures Load(ram[..], gc + OFF_VERSION, 4) == HEADER_VERSION
      ensures Load(ram[..], gc + OFF_TYPE, 4) == if is64 then REQ_HGCM_CALL64 else REQ_HGCM_CALL32
    {
      hide Load, SameOutside, WireParmAt;
      Store32(gc + OFF_SIZE, cbCall % 0x1_0000_0000);
      Store32(gc + OFF_VERSION, HEADER_VERSION);
      Store32(gc + OFF_TYPE, if is64 then REQ_HGCM_CALL64 else REQ_HGCM_CALL32);
      Store32(gc + OFF_RC, Enc32(VERR_INTERNAL_ERROR));
      Store32(gc + OFF_RESERVED1, 0);
      Store32(gc + OFF_REQUESTOR, REQUESTOR_KERNEL_DRV_OTHER);
    }

    /** The VMMDevHGCMCall part of VBGLIOCIDCHGCMFASTCALL_INIT. */
    method InitCallHdr(gc: nat, fn: u32, cParms: u32, cbCall: nat)
      requires gc + SIZEOF_CALL <= ram.Length
      modifies ram
      ensures Wrote(old(ram[..]), ram[..], gc, gc + SIZEOF_CALL)
      ensures Load(ram[..], gc + OFF_RESULT, 4) == Enc32(VERR_INTERNAL_ERROR)
      ensures cbCall < 0x1_0000_0000 && cParms <= MAX_PARMS ==>
                CarriesHeader(ram[..], Area(gc, gc, gc, cbCall, is64), idClient, fn, cParms)
    {
      hide Load, SameOutside, WireParmAt;
      InitVmmDevHdr(gc, cbCall);
      Store32(gc + OFF_FLAGS, 0);
      Store32(gc + OFF_RESULT, Enc32(VERR_INTERNAL_ERROR));
      Store32(gc + OFF_CLIENT, idClient);
      Store32(gc + OFF_FUNCTION, fn);
      Store32(gc + OFF_CPARMS, cParms);
    }

    /** VBGLIOCIDCHGCMFASTCALL_INIT. */
    method InitCall(b: Block, fn: u32, cParms: u32, cbReq: u32, ghost hi: nat) returns (ghost d: Draft)
      requires cParms <= MAX_PARMS
      requires OffParm(cParms) <= hi && b.phys + hi <= ram.Length && b.phys + OFF_PARMS <= 0x1_0000_0000
      modifies ram
      ensures d == Draft(old(ram[..]), b, cbReq, fn, cParms, hi, map[], map[])
      ensures Drafted(ram[..], d)
    {
      hide Load, SameOutside, WireParmAt;
      var req := b.phys;
      d := Draft(ram[..], b, cbReq, fn, cParms, hi, map[], map[]);
      SameRefl(ram[..]);
      InitReqHdr(req, cbReq);
      Store32(req + OFF_GCPHYSREQ, req + SIZEOF_FASTCALL);
      PowValues();
      ghost var m := ram[..];
      StoreLe(ram, req + OFF_INTERRUPTIBLE, 0, 1);
      SameIsWrote(m, ram[..], req + OFF_INTERRUPTIBLE, req + OFF_INTERRUPTIBLE + 1);
      InitCallHdr(req + SIZEOF_FASTCALL, fn, cParms, CallSize(cbReq));
    }

    // ----- Parameters -----

    lemma HeaderKept(m: seq<byte>, t: seq<byte>, d: Draft, lo: nat, hi: nat)
      requires Wrote(m, t, lo, hi) && d.b.phys + OFF_PARMS <= lo
      requires HeaderLeads(m, d.b.phys, d.cbReq)
      requires CarriesHeader(m, RequestArea(d.b.phys, OFF_PARMS, d.cbReq), idClient, d.fn, d.n)
      ensures HeaderLeads(t, d.b.phys, d.cbReq)
      ensures CarriesHeader(t, RequestArea(d.b.phys, OFF_PARMS, d.cbReq), idClient, d.fn, d.n)
    {
      hide Load, SameOutside, WireParmAt;
    }

    /** A write clear of all that was filled in so far leaves the draft as it is. */
    lemma DraftKept(m: seq<byte>, t: seq<byte>, d: Draft, lo: nat, hi: nat)
      requires Drafted(m, d) && Wrote(m, t, lo, hi) && d.b.phys + OFF_PARMS <= lo && hi <= d.b.phys + d.hi
      requires forall i :: i in d.parms ==> var p := d.b.phys + OffParm(i); p + SizeofParm(is64) <= lo || hi <= p
      requires forall o :: o in d.lists ==> d.b.phys + o + d.lists[o].Size() <= lo || hi <= d.b.phys + o
      ensures Drafted(t, d)
    {
      hide Load, SameOutside, WireParmAt, HeaderLeads, CarriesHeader;
      HeaderKept(m, t, d, lo, hi);
    }

    /** Writing parameter i adds it to the draft and leaves the rest alone. */
    lemma ParmSet(m: seq<byte>, t: seq<byte>, d: Draft, i: nat, w: WireParm) returns (e: Draft)
      requires Drafted(m, d) && i < d.n
      requires var p := d.b.phys + OffParm(i);
               Wrote(m, t, p, p + SizeofParm(is64)) && WireParmAt(t, p, is64) == w
      ensures e == d.(parms := d.parms[i := w]) && Drafted(t, e)
    {
      hide Load, SameOutside, WireParmAt, HeaderLeads, CarriesHeader, Wrote, OffParm, SizeofParm, ListAt, List.Size;
      ParmsApart(i, d.n);
      var p := d.b.phys + OffParm(i);
      var rest := d.(parms := d.parms - {i});
      DraftKept(m, t, rest, p, p + SizeofParm(is64));
      e := d.(parms := d.parms[i := w]);
    }

    lemma ParmsApart(i: nat, n: nat)
      requires i < n
      ensures OFF_PARMS <= OffParm(i) && OffParm(i) + SizeofParm(is64) <= OffParm(n)
      ensures forall j: nat :: j < i ==> OffParm(j) + SizeofParm(is64) <= OffParm(i)
      ensures forall j: nat :: i < j ==> OffParm(i) + SizeofParm(is64) <= OffParm(j)
    {
      if is64 { } else { }
    }

    method SetParm32(req: nat, i: nat, v: u32, ghost d: Draft) returns (ghost e: Draft)
      requires req == d.b.phys && i < d.n && Drafted(ram[..], d)
      modifies ram
      ensures e == d.(parms := d.parms[i := W32(v)]) && Drafted(ram[..], e)
    {
      hide Load, SameOutside, Drafted;
      var p := req + OffParm(i);
      ghost var m := ram[..];
      ParmFits(m, d, i);
      Store32(p, TYPE_32BIT);
      Store32(p + 4, v);
      e := ParmSet(m, ram[..], d, i, W32(v));
    }

    method SetParm64(req: nat, i: nat, v: u64, ghost d: Draft) returns (ghost e: Draft)
      requires req == d.b.phys && i < d.n && Drafted(ram[..], d)
      modifies ram
      ensures e == d.(parms := d.parms[i := W64(v)]) && Drafted(ram[..], e)
    {
      hide Load, SameOutside, Drafted;
      var p := req + OffParm(i);
      ghost var m := ram[..];
      ParmFits(m, d, i);
      Store32(p, TYPE_64BIT);
      Store64(p + 4, v);
      e := ParmSet(m, ram[..], d, i, W64(v));
    }

    method SetEmbedded(req: nat, i: nat, dir: nat, off: nat, cb: u32, ghost d: Draft) returns (ghost e: Draft)
      requires req == d.b.phys && i < d.n && Drafted(ram[..], d)
      requires dir <= 3 && off < 0x100_0000
      modifies ram
      ensures e == d.(parms := d.parms[i := WEmbedded(dir, off, cb)]) && Drafted(ram[..], e)
    {
      hide Load, SameOutside, Drafted;
      var p := req + OffParm(i);
      ghost var m := ram[..];
      ParmFits(m, d, i);
      Store32(p, TYPE_EMBEDDED);
      Store32(p + 8, cb);
      Store32(p + 4, off * 0x100 + dir);
      e := ParmSet(m, ram[..], d, i, WEmbedded(dir, off, cb));
    }

    method SetLinAddr(req: nat, i: nat, ty: nat, cb: u32, lin: nat, ghost d: Draft) returns (ghost e: Draft)
      requires req == d.b.phys && i < d.n && Drafted(ram[..], d)
      requires FitsPointer(lin)
      requires ty == TYPE_LINADDR || ty == TYPE_LINADDR_IN || ty == TYPE_LINADDR_OUT
      modifies ram
      ensures e == d.(parms := d.parms[i := WLin(LinDirection(ty), cb, lin)]) && Drafted(ram[..], e)
    {
      hide Load, SameOutside, Drafted;
      var p := req + OffParm(i);
      ghost var m := ram[..];
      ParmFits(m, d, i);
      Store32(p, ty);
      Store32(p + 4, cb);
      if is64 {
        Store64(p + 8, lin);
      } else {
        Store32(p + 8, lin);
      }
      e := ParmSet(m, ram[..], d, i, WLin(LinDirection(ty), cb, lin));
    }

    method SetPageListParm(req: nat, i: nat, ty: nat, cb: u32, off: u32, ghost d: Draft) returns (ghost e: Draft)
      requires req == d.b.phys && i < d.n && Drafted(ram[..], d)
      requires ty == TYPE_PAGELIST || ty == TYPE_CONTIGUOUS_PAGELIST || ty == TYPE_NO_BOUNCE_PAGELIST
      modifies ram
      ensures e == d.(parms := d.parms[i := WPageList(ty, cb, off)]) && Drafted(ram[..], e)
    {
      hide Load, SameOutside, Drafted;
      var p := req + OffParm(i);
      ghost var m := ram[..];
      ParmFits(m, d, i);
      Store32(p, ty);
      Store32(p + 4, cb);
      Store32(p + 8, off);
      e := ParmSet(m, ram[..], d, i, WPageList(ty, cb, off));
    }

    lemma ParmFits(m: seq<byte>, d: Draft, i: nat)
      requires Drafted(m, d) && i < d.n
      ensures d.b.phys + OffParm(i) + SizeofParm(is64) <= ram.Length
    {
      ParmsApart(i, d.n);
    }

    /** A page list of one entry, at offset o of the request. */
    method SetOnePage(req: nat, o: nat, dir: u32, off: u16, page: u64, ghost d: Draft) returns (ghost e: Draft)
      requires req == d.b.phys && Drafted(ram[..], d)
      requires OffParm(d.n) <= o && o + SIZEOF_PAGELIST <= d.hi && req + d.hi <= ram.Length
      requires forall p :: p in d.lists ==> p + d.lists[p].Size() <= o
      modifies ram
      ensures e == d.(lists := d.lists[o := OneList(dir, off, page)]) && Drafted(ram[..], e)
    {
      hide Load, SameOutside, WireParmAt, Drafted;
      var a := req + o;
      ghost var m := ram[..];
      Store32(a, dir);
      Store16(a + 4, off);
      Store64(a + 8, page);
      Store16(a + 6, 1);
      ListSet(m, ram[..], d, o, OneList(dir, off, page));
      e := d.(lists := d.lists[o := OneList(dir, off, page)]);
    }

    /** Writing the list at o leaves the rest of the draft alone. */
    lemma ListSet(m: seq<byte>, t: seq<byte>, d: Draft, o: nat, l: List)
      requires Drafted(m, d) && OffParm(d.n) <= o && l.OneList? && o + SIZEOF_PAGELIST <= d.hi
      requires forall p :: p in d.lists ==> p + d.lists[p].Size() <= o
      requires Wrote(m, t, d.b.phys + o, d.b.phys + o + SIZEOF_PAGELIST) && ListAt(t, d.b.phys + o, l)
      ensures Drafted(t, d.(lists := d.lists[o := l]))
    {
      hide Load, SameOutside, WireParmAt, HeaderLeads, CarriesHeader, Wrote, ListAt;
      forall i | i in d.parms ensures OffParm(i) + SizeofParm(is64) <= OffParm(d.n) {
        ParmsApart(i, d.n);
      }
      DraftKept(m, t, d, d.b.phys + o, d.b.phys + o + SIZEOF_PAGELIST);
    }

    // ----- Submission -----

    /** Parameter i of the draft carries v. */
    ghost predicate Carried(m: seq<byte>, d: Draft, i: nat, v: Parm) {
      CarriesParm(m, pt, RequestArea(d.b.phys, d.hi, d.cbReq), d.n, i, v)
    }

    /** Every descriptor is submitted, of a type the host announced, and every part
        has its own place: page lists behind the parameters, one for each parameter
        that has one; embedded buffers behind all descriptors, reached by 24-bit
        offsets, the last of them ending where the request does. */
    ghost predicate LaidOut(d: Draft) {
      OFF_PARMS <= d.hi <= d.cbReq && Announced(d) && EmbeddedLaid(d) && ListsLaid(d)
    }

    ghost predicate Announced(d: Draft) {
      forall i :: i in d.parms ==>
        match d.parms[i]
        case WEmbedded(_, _, _) => Has(features, HVF_EMBEDDED_BUFFERS)
        case WPageList(ty, _, _) =>
          && (ty == TYPE_CONTIGUOUS_PAGELIST ==> Has(features, HVF_CONTIGUOUS_PAGE_LIST))
          && (ty == TYPE_NO_BOUNCE_PAGELIST ==> Has(features, HVF_NO_BOUNCE_PAGE_LIST))
        case _ => true
    }

    ghost predicate EmbeddedLaid(d: Draft) {
      && (forall i :: i in d.parms && d.parms[i].WEmbedded? ==>
            && DirectionValid(d.parms[i].dir) && d.parms[i].off < 0x100_0000
            && d.hi <= d.parms[i].off + SIZEOF_FASTCALL && d.parms[i].off + SIZEOF_FASTCALL + d.parms[i].cb <= d.cbReq)
      && (forall i, j :: i in d.parms && j in d.parms && i != j && d.parms[i].WEmbedded? && d.parms[j].WEmbedded? ==>
            d.parms[i].off + d.parms[i].cb <= d.parms[j].off || d.parms[j].off + d.parms[j].cb <= d.parms[i].off)
      && (forall i :: i in d.parms && d.parms[i].WEmbedded? ==>
            exists k :: k in d.parms && EndsAt(d.parms[k], d.cbReq))
    }

    ghost predicate ListsLaid(d: Draft) {
      && (forall i :: i in d.parms && d.parms[i].WPageList? ==> d.parms[i].off + SIZEOF_FASTCALL in d.lists)
      && (forall i, j :: i in d.parms && j in d.parms && i != j && d.parms[i].WPageList? && d.parms[j].WPageList? ==>
            d.parms[i].off != d.parms[j].off)
      && (forall o :: o in d.lists ==> OffParm(d.n) <= o && o + d.lists[o].Size() <= d.hi)
      && (forall o, q :: o in d.lists && q in d.lists && o != q ==>
            o + d.lists[o].Size() <= q || q + d.lists[q].Size() <= o)
    }

    predicate EndsAt(w: WireParm, cbReq: nat) {
      w.WEmbedded? && w.off + SIZEOF_FASTCALL + w.cb == cbReq
    }

    /** What the host finds of a parameter elsewhere in the call: from where to
        where, an embedded buffer or a page list with the pages it counts. */
    function Part(m: seq<byte>, gc: nat, w: WireParm): (nat, nat) {
      match w
      case WEmbedded(_, off, cb) => (off, off + cb)
      case WPageList(_, _, off) => (off, off + 8 + 8 * Load(m, gc + off + 6, 2))
      case _ => (0, 0)
    }

    /** Decoded from the bytes of a request that was laid out, the parts of its
        parameters lie in the submitted call behind the parameters and do not
        overlap; and the call ends with an embedded buffer, if there is one. */
    lemma PartsApart(m: seq<byte>, d: Draft, i: nat, j: nat)
      requires Drafted(m, d) && LaidOut(d) && i in d.parms && j in d.parms && i != j
      ensures var gc := d.b.phys + SIZEOF_FASTCALL;
              var (wi, wj) := (WireParmAt(m, d.b.phys + OffParm(i), is64), WireParmAt(m, d.b.phys + OffParm(j), is64));
              var ((lo, hi), (lo', hi')) := (Part(m, gc, wi), Part(m, gc, wj));
              && (wi.WEmbedded? || wi.WPageList? ==>
                    OffParm(d.n) - SIZEOF_FASTCALL <= lo && hi <= Load(m, gc + OFF_SIZE, 4))
              && (hi <= lo' || hi' <= lo)
              && (wi.WEmbedded? ==>
                    exists k :: k in d.parms && Part(m, gc, WireParmAt(m, d.b.phys + OffParm(k), is64)).1 == Load(m, gc + OFF_SIZE, 4))
    {
      hide Load, SameOutside, WireParmAt, OffParm, LaidOut, Drafted, Part, DraftPart;
      PartIs(m, d, i);
      PartIs(m, d, j);
      if d.parms[i].WEmbedded? || d.parms[i].WPageList? {
        PartInside(d, i);
      }
      DraftApart(d, i, j);
      if d.parms[i].WEmbedded? {
        var k := LastEnds(d, i);
        PartIs(m, d, k);
      }
    }

    /** The part of parameter i, going by the draft. */
    function DraftPart(d: Draft, i: nat): (nat, nat)
      requires i in d.parms && (d.parms[i].WPageList? ==> d.parms[i].off + SIZEOF_FASTCALL in d.lists)
    {
      match d.parms[i]
      case WEmbedded(_, off, cb) => (off, off + cb)
      case WPageList(_, _, off) => (off, off + d.lists[off + SIZEOF_FASTCALL].Size())
      case _ => (0, 0)
    }

    lemma PartIs(m: seq<byte>, d: Draft, i: nat)
      requires Drafted(m, d) && LaidOut(d) && i in d.parms
      ensures WireParmAt(m, d.b.phys + OffParm(i), is64) == d.parms[i]
      ensures d.parms[i].WPageList? ==> d.parms[i].off + SIZEOF_FASTCALL in d.lists
      ensures Part(m, d.b.phys + SIZEOF_FASTCALL, d.parms[i]) == DraftPart(d, i)
      ensures OffParm(d.n) <= d.hi && Load(m, d.b.phys + SIZEOF_FASTCALL + OFF_SIZE, 4) + SIZEOF_FASTCALL == d.cbReq
    {
      hide Load, SameOutside, WireParmAt, OffParm;
    }

    lemma PartInside(d: Draft, i: nat)
      requires LaidOut(d) && i in d.parms && (d.parms[i].WEmbedded? || d.parms[i].WPageList?) && OffParm(d.n) <= d.hi
      ensures d.parms[i].WPageList? ==> d.parms[i].off + SIZEOF_FASTCALL in d.lists
      ensures OffParm(d.n) <= DraftPart(d, i).0 + SIZEOF_FASTCALL && DraftPart(d, i).1 + SIZEOF_FASTCALL <= d.cbReq
    {
      hide OffParm;
    }

    lemma DraftApart(d: Draft, i: nat, j: nat)
      requires LaidOut(d) && i in d.parms && j in d.parms && i != j
      ensures d.parms[i].WPageList? ==> d.parms[i].off + SIZEOF_FASTCALL in d.lists
      ensures d.parms[j].WPageList? ==> d.parms[j].off + SIZEOF_FASTCALL in d.lists
      ensures DraftPart(d, i).1 <= DraftPart(d, j).0 || DraftPart(d, j).1 <= DraftPart(d, i).0
    {
      hide OffParm;
    }

    lemma LastEnds(d: Draft, i: nat) returns (k: nat)
      requires LaidOut(d) && i in d.parms && d.parms[i].WEmbedded?
      ensures k in d.parms && d.parms[k].WEmbedded? && DraftPart(d, k).1 + SIZEOF_FASTCALL == d.cbReq
    {
      hide OffParm;
      k :| k in d.parms && EndsAt(d.parms[k], d.cbReq);
    }

    /** The status a caller gets for a call the host refuses with rc: only the NT
        glue passes that on; elsewhere it is the result's preset value. */
    function RefusedStatus(rc: int32): int32 {
      if ntGlue then rc else VERR_INTERNAL_ERROR
    }

    /** The call was served as asked: status, memory but for the request's own
        descriptors [req, req + hi), and returned values. m0 is memory before
        the request was filled in. */
    ghost predicate CallDone(m0: seq<byte>, m: seq<byte>, req: nat, hi: nat, vrc: int32, fn: nat, view: seq<Parm>) {
      var want := Serve(m0, svc, idClient, fn, view);
      && vrc == (if want.refused then RefusedStatus(want.rc) else want.rc)
      && SameOutside(want.ram, m, req, req + hi)
      && (!want.refused ==>
            ValuesReturned(m, Area(req, req + SIZEOF_FASTCALL, req + hi, 0, is64), view, want.outs))
    }

    /** What a driver gets of a service, for a call that reaches the host's parser. */
    function AnswerTo(m: seq<byte>, svc: Service, fn: nat, view: seq<Parm>): Answer {
      var want := Serve(m, svc, idClient, fn, view);
      Answer(if want.refused then RefusedStatus(want.rc) else want.rc, want.ram, want.outs)
    }

    /** What it gets of any service, when the host turns the request down. */
    function RefusedAnswer(m: seq<byte>, rc: int32): Answer {
      Answer(RefusedStatus(rc), m, [])
    }

    lemma DoneIsAnswer(m0: seq<byte>, m: seq<byte>, req: nat, hi: nat, vrc: int32, fn: nat, view: seq<Parm>)
      requires CallDone(m0, m, req, hi, vrc, fn, view)
      ensures vrc == AnswerTo(m0, svc, fn, view).vrc && SameOutside(AnswerTo(m0, svc, fn, view).ram, m, req, req + hi)
    {
    }

    lemma CallDoneWider(m0: seq<byte>, m: seq<byte>, req: nat, hi: nat, wide: nat, vrc: int32, fn: nat, view: seq<Parm>)
      requires CallDone(m0, m, req, hi, vrc, fn, view) && hi <= wide
      ensures CallDone(m0, m, req, wide, vrc, fn, view)
    {
      hide Serve, Load;
      ValuesArea(m, Area(req, req + SIZEOF_FASTCALL, req + hi, 0, is64), Area(req, req + SIZEOF_FASTCALL, req + wide, 0, is64), view,
                 Serve(m0, svc, idClient, fn, view).outs);
    }

    /** VbglR0HGCMFastCall, then the status: that of the submission, unless it
        went through; that of the call then. A request the host turns down for
        its parameters leaves memory alone. */
    method Submit(b: Block, cbReq: nat, ghost d: Draft, ghost view: seq<Parm>, ghost bad: Option<int32> := None) returns (vrc: int32)
      requires b == d.b && cbReq == d.cbReq < 0x1_0000_0000 && Drafted(ram[..], d)
      requires LaidOut(d) && b.phys + cbReq <= ram.Length
      requires bad.Some? ==> bad.value < 0 && HostParse(ram[..], pt, b.phys + SIZEOF_FASTCALL) == Err(bad.value)
      requires bad.None? ==> |view| == d.n && forall i :: 0 <= i < |view| ==> Carried(ram[..], d, i, view[i])
      modifies ram
      ensures if bad.Some? then
                vrc == RefusedStatus(bad.value) && SameOutside(d.m0, ram[..], b.phys, b.phys + d.hi)
              else if cbReq - SIZEOF_FASTCALL > MAX_REQUEST_SIZE then
                vrc == RefusedStatus(VERR_NOT_SUPPORTED) && SameOutside(d.m0, ram[..], b.phys, b.phys + d.hi)
              else
                CallDone(d.m0, ram[..], b.phys, d.hi, vrc, d.fn, view)
    {
      hide Load, FastCall, HostParse, Drafted, Carried, CallDone, SameOutside;
      var req := b.phys;
      if bad.Some? {
        RefusedRun(ram[..], d, bad.value);
      } else {
        Accepted(ram[..], d, view);
      }
      var (m, rc) := FastCall(ram[..], pt, svc, locked, ntGlue, req, cbReq);
      forall i | 0 <= i < ram.Length {
        ram[i] := m[i];
      }
      assert ram[..] == m;
      vrc := rc;
      if vrc >= VINF_SUCCESS {
        LoadBounds(ram[..], req + SIZEOF_FASTCALL + OFF_RESULT);
        vrc := Dec32(Load(ram[..], req + SIZEOF_FASTCALL + OFF_RESULT, 4));
      }
    }

    /** The status of a submission and of the call in it, put together. */
    function Status(m: seq<byte>, req: nat, rc: int32): int32 {
      if rc >= VINF_SUCCESS then
        LoadBounds(m, req + SIZEOF_FASTCALL + OFF_RESULT);
        Dec32(Load(m, req + SIZEOF_FASTCALL + OFF_RESULT, 4))
      else rc
    }

    /** A header that leads to the host gets there; its status goes into it. */
    lemma Led(m: seq<byte>, req: nat, cbReq: nat)
      requires HeaderLeads(m, req, cbReq) && OFF_PARMS <= cbReq
      ensures var (t, rc) := HostRun(m, pt, req + SIZEOF_FASTCALL, svc, locked);
              FastCall(m, pt, svc, locked, ntGlue, req, cbReq)
              == (Put(t, req + OFF_HDR_RC, LeBytes(Enc32(rc), 4)), if ntGlue then rc else VINF_SUCCESS)
    {
      hide Load, HostRun;
    }

    /** The host's status in the header disturbs nothing that was to be found. */
    lemma HeaderRc(t: seq<byte>, m0: seq<byte>, req: nat, hi: nat, rc: int32, view: seq<Parm>, outs: seq<SvcOut>)
      requires SameOutside(m0, t, req, req + hi) && SIZEOF_FASTCALL <= hi
      ensures var u := Put(t, req + OFF_HDR_RC, LeBytes(Enc32(rc), 4));
              var area := Area(req, req + SIZEOF_FASTCALL, req + hi, 0, is64);
              && SameOutside(m0, u, req, req + hi)
              && Load(u, req + SIZEOF_FASTCALL + OFF_RESULT, 4) == Load(t, req + SIZEOF_FASTCALL + OFF_RESULT, 4)
              && (ValuesReturned(t, area, view, outs) ==> ValuesReturned(u, area, view, outs))
    {
      hide Load, SameOutside, Put, LeBytes;
      var u := Put(t, req + OFF_HDR_RC, LeBytes(Enc32(rc), 4));
      var area := Area(req, req + SIZEOF_FASTCALL, req + hi, 0, is64);
      PutInside(t, m0, req + OFF_HDR_RC, LeBytes(Enc32(rc), 4), req, req + hi);
      PutKeeps(t, req + OFF_HDR_RC, LeBytes(Enc32(rc), 4), req + SIZEOF_FASTCALL + OFF_RESULT, 4);
      forall i | 0 <= i < |view|
        ensures Load(u, area.Slot(i) + 4, 4) == Load(t, area.Slot(i) + 4, 4)
        ensures Load(u, area.Slot(i) + 4, 8) == Load(t, area.Slot(i) + 4, 8)
      {
        PutKeeps(t, req + OFF_HDR_RC, LeBytes(Enc32(rc), 4), area.Slot(i) + 4, 4);
        PutKeeps(t, req + OFF_HDR_RC, LeBytes(Enc32(rc), 4), area.Slot(i) + 4, 8);
      }
    }

    /** What the host refuses it does not touch but for the status. */
    lemma RefusedRun(m: seq<byte>, d: Draft, rc: int32)
      requires Drafted(m, d) && OFF_PARMS <= d.cbReq && HostParse(m, pt, d.b.phys + SIZEOF_FASTCALL) == Err(rc) && rc < 0
      ensures var (t, status) := FastCall(m, pt, svc, locked, ntGlue, d.b.phys, d.cbReq);
              SameOutside(d.m0, t, d.b.phys, d.b.phys + d.hi) && Status(t, d.b.phys, status) == RefusedStatus(rc)
    {
      hide Load, HostParse, SameOutside, Put, LeBytes, WireParmAt, ListAt, FastCall;
      var req := d.b.phys;
      var gc := req + SIZEOF_FASTCALL;
      Led(m, req, d.cbReq);
      var t := Put(m, gc + OFF_RC, LeBytes(Enc32(rc), 4));
      PutInside(m, d.m0, gc + OFF_RC, LeBytes(Enc32(rc), 4), req, req + d.hi);
      PutKeeps(m, gc + OFF_RC, LeBytes(Enc32(rc), 4), gc + OFF_RESULT, 4);
      HeaderRc(t, d.m0, req, d.hi, rc, [], []);
    }

    lemma Accepted(m: seq<byte>, d: Draft, view: seq<Parm>)
      requires Drafted(m, d) && d.hi <= d.cbReq && d.b.phys + d.cbReq <= ram.Length
      requires |view| == d.n && forall i :: 0 <= i < |view| ==> Carried(m, d, i, view[i])
      ensures var (t, rc) := FastCall(m, pt, svc, locked, ntGlue, d.b.phys, d.cbReq);
              if d.cbReq - SIZEOF_FASTCALL > MAX_REQUEST_SIZE then
                Status(t, d.b.phys, rc) == RefusedStatus(VERR_NOT_SUPPORTED) && SameOutside(d.m0, t, d.b.phys, d.b.phys + d.hi)
              else
                CallDone(d.m0, t, d.b.phys, d.hi, Status(t, d.b.phys, rc), d.fn, view)
    {
      hide Load, HostRun, HostParse, CarriesParm, WriteBack, CallOf, SameOutside, ValuesReturned, FastCall, Put, LeBytes, TotalCb, ListAt;
      var req := d.b.phys;
      var area := RequestArea(req, d.hi, d.cbReq);
      assert Carries(m, pt, area, idClient, d.fn, view);
      if d.cbReq - SIZEOF_FASTCALL > MAX_REQUEST_SIZE {
        TooBig(m, area);
        RefusedRun(m, d, VERR_NOT_SUPPORTED);
      } else {
        CarriedRun(m, pt, area, idClient, d.fn, view);
        if TotalCb(view, 0) > MAX_DATA_SIZE {
          RefusedRun(m, d, VERR_INVALID_PARAMETER);
        } else {
          Served(d.m0, m, pt, area, idClient, d.fn, view, svc, locked);
          Led(m, req, d.cbReq);
          var (t, rc) := HostRun(m, pt, area.gc, svc, locked);
          var outs := Serve(d.m0, svc, idClient, d.fn, view).outs;
          ValuesArea(t, area, Area(req, req + SIZEOF_FASTCALL, req + d.hi, 0, is64), view, outs);
          HeaderRc(t, Serve(d.m0, svc, idClient, d.fn, view).ram, req, d.hi, rc, view, outs);
        }
      }
    }

    /** A request that is too large is refused before it is looked into. */
    lemma TooBig(m: seq<byte>, area: Area)
      requires area.cbCall > MAX_REQUEST_SIZE
      requires Load(m, area.gc + OFF_SIZE, 4) == area.cbCall && Load(m, area.gc + OFF_VERSION, 4) == HEADER_VERSION
      ensures HostParse(m, pt, area.gc) == Err(VERR_NOT_SUPPORTED)
    {
      hide Load, ParseParms;
    }

    lemma ValuesArea(m: seq<byte>, a: Area, b: Area, view: seq<Parm>, outs: seq<SvcOut>)
      requires a.gc == b.gc && a.is64 == b.is64
      ensures ValuesReturned(m, a, view, outs) == ValuesReturned(m, b, view, outs)
    {
      hide Load;
      assert forall i: nat :: a.Slot(i) == b.Slot(i);
    }
  }

  /** Two drivers that differ in what they know of the host, on hosts that
      differ in how they complete a call, end up with the same status, the same
      memory outside the descriptors and the same returned values. */
  lemma TransportInvisible(g1: Guest, g2: Guest, m0: seq<byte>, m1: seq<byte>, m2: seq<byte>, req: nat, hi: nat,
                           vrc1: int32, vrc2: int32, fn: nat, view: seq<Parm>)
    requires g1.svc == g2.svc && g1.idClient == g2.idClient && g1.is64 == g2.is64 && g1.ntGlue == g2.ntGlue
    requires g1.CallDone(m0, m1, req, hi, vrc1, fn, view) && g2.CallDone(m0, m2, req, hi, vrc2, fn, view)
    ensures vrc1 == vrc2 && SameOutside(m1, m2, req, req + hi)
    ensures !Serve(m0, g1.svc, g1.idClient, fn, view).refused ==>
              forall i :: 0 <= i < |view| ==>
                var p := req + g1.OffParm(i) + 4;
                && (view[i].V32? ==> Load(m1, p, 4) == Load(m2, p, 4))
                && (view[i].V64? ==> Load(m1, p, 8) == Load(m2, p, 8))
  {
    hide Load, Serve;
  }
}
