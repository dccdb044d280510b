/** The shared folder requests on open files: object information, reading and
    writing, and listing a directory. */
module FileIo {
  import opened Bytes
  import opened Hgcm
  import opened PageLists
  import opened Transport
  import opened Marshal
  import opened Carry
  import opened SharedFolders
  import opened Delivery

  const SHFL_INFO_GET: u32 := 0
  const SHFL_INFO_SET: u32 := 1
  const SHFL_INFO_SIZE: u32 := 4
  const SHFL_INFO_FILE: u32 := 8

  // ----- Requests with four values and a buffer -----

  /** Four values, then a field behind the parameters. */
  ghost predicate FieldDraft(g: Guest, d: Draft, dir: nat, cb: nat, embedded: bool) {
    && d.n == 5 && d.hi == g.OffParm(5) && d.lists == map[] && d.cbReq == d.hi + (if embedded then cb else 0)
    && 4 in d.parms && d.parms[4] == FieldWire(d.b, dir, d.hi, cb, embedded)
    && forall i :: i in d.parms && i != 4 ==> d.parms[i].W32? || d.parms[i].W64?
  }

  /** Four values, then a buffer elsewhere, for which there is room for a list. */
  ghost predicate SeparateDraft(g: Guest, d: Draft, dir: nat, buf: Block, cb: nat, how: Choice) {
    && d.n == 5 && d.hi == d.cbReq == g.OffParm(5) + SIZEOF_PAGELIST
    && d.lists == SeparateLists(map[], how, dir, g.OffParm(5), buf.phys)
    && 4 in d.parms && d.parms[4] == SeparateWire(how, dir, g.OffParm(5), buf.lin, cb)
    && forall i :: i in d.parms && i != 4 ==> d.parms[i].W32? || d.parms[i].W64?
  }

  lemma FieldLaid(g: Guest, d: Draft, dir: nat, cb: nat, embedded: bool)
    requires FieldDraft(g, d, dir, cb, embedded) && DirectionValid(dir) && embedded == Has(g.features, HVF_EMBEDDED_BUFFERS)
    ensures g.LaidOut(d) && Transports(g, d, {4}, {})
  {
    hide Guest.EmbeddedLaid, Guest.ListsLaid;
    OneEmbedded(g, d, 4);
    NoLists(g, d);
  }

  lemma SeparateLaid(g: Guest, d: Draft, dir: nat, buf: Block, cb: nat, how: Choice)
    requires SeparateDraft(g, d, dir, buf, cb, how) && how == ContigChoice(g)
    ensures g.LaidOut(d) && Transports(g, d, {}, {4})
  {
    hide Guest.EmbeddedLaid, Guest.ListsLaid;
    OneEmbedded(g, d, 4);
    OneListLaid(g, d, 4, g.OffParm(5));
  }

  /** The values of the view stand in the other parameters. */
  ghost predicate ValuesFor(d: Draft, view: seq<Parm>) {
    |view| == 5 && forall i :: 0 <= i < 4 ==> i in d.parms && ScalarFor(d.parms[i], view[i])
  }

  lemma FieldCarried(g: Guest, m: seq<byte>, d: Draft, dir: nat, cb: u32, embedded: bool, view: seq<Parm>)
    requires FieldDraft(g, d, dir, cb, embedded) && DirectionValid(dir) && g.Drafted(m, d) && |m| == g.ram.Length
    requires ValidBlock(g, d.b, g.OffParm(5) + cb)
    requires ValuesFor(d, view) && view[4] == LinBuf(g, dir, d.b.lin + g.OffParm(5), cb)
    ensures forall i :: 0 <= i < 5 ==> g.Carried(m, d, i, view[i])
  {
    hide Load, LinAddrs, LinBuf, ScalarFor, Guest.Drafted, Guest.Carried;
    CarryScalars(g, m, d, view);
    CarryField(g, m, d, 4, dir, g.OffParm(5), cb, g.OffParm(5) + cb);
  }

  lemma SeparateCarried(g: Guest, m: seq<byte>, d: Draft, dir: nat, buf: Block, cb: u32, how: Choice, view: seq<Parm>)
    requires SeparateDraft(g, d, dir, buf, cb, how) && DirectionValid(dir) && g.Drafted(m, d) && |m| == g.ram.Length
    requires how.ByList? ==> how.ty == TYPE_CONTIGUOUS_PAGELIST
    requires ValidBlock(g, d.b, d.cbReq) && Separate(g, buf, cb, d.b, d.cbReq)
    requires ValuesFor(d, view) && view[4] == LinBuf(g, dir, buf.lin, cb)
    ensures forall i :: 0 <= i < 5 ==> g.Carried(m, d, i, view[i])
  {
    hide Load, LinAddrs, LinBuf, ContigList, ScalarFor, Guest.Drafted, Guest.Carried;
    CarryScalars(g, m, d, view);
    CarrySeparate(g, m, d, 4, dir, buf, cb, d.cbReq);
  }

  // ----- Object information -----

  function InformationView(idRoot: u32, hFile: u64, fFlags: u32, cb: u32, info: Parm): seq<Parm> {
    [V32(idRoot), V64(hFile), V32(fFlags), V32(cb), info]
  }

  /** The first four parameters of these requests. */
  method SetHead(g: Guest, b: Block, idRoot: u32, h: u64, fFlags: u32, cb: u32, ghost d: Draft) returns (ghost e: Draft)
    requires b == d.b && d.n > 4 && g.Drafted(g.ram[..], d)
    modifies g.ram
    ensures e == d.(parms := d.parms[0 := W32(idRoot)][1 := W64(h)][2 := W32(fFlags)][3 := W32(cb)])
    ensures g.Drafted(g.ram[..], e)
  {
    hide Guest.Drafted;
    e := g.SetParm32(b.phys, 0, idRoot, d);
    e := g.SetParm64(b.phys, 1, h, e);
    e := g.SetParm32(b.phys, 2, fFlags, e);
    e := g.SetParm32(b.phys, 3, cb, e);
  }

  /** The body the object information requests share: they differ in the flags
      and in which way the information goes. */
  method ReqObjInfo(g: Guest, idRoot: u32, b: Block, hFile: u64, fFlags: u32, dir: nat) returns (vrc: int32, ghost d: Draft)
    requires ValidBlock(g, b, g.OffParm(5) + SIZEOF_OBJINFO) && DirectionValid(dir)
    modifies g.ram
    ensures Request(g, d, old(g.ram[..]), b, SHFL_FN_INFORMATION) && Transports(g, d, {4}, {})
    ensures g.CallDone(old(g.ram[..]), g.ram[..], b.phys, g.OffParm(5), vrc, SHFL_FN_INFORMATION,
                       InformationView(idRoot, hFile, fFlags, SIZEOF_OBJINFO, LinBuf(g, dir, b.lin + g.OffParm(5), SIZEOF_OBJINFO)))
  {
    hide Load, StringSize, LinAddrs, LinBuf, Has, FieldWire, SeparateWire, SeparateLists, Guest.Drafted, Guest.Carried, Guest.CallDone, Guest.LaidOut, Transports;
    var offInfo := g.OffParm(5);
    var embedded := Has(g.features, HVF_EMBEDDED_BUFFERS);
    var cbReq := if embedded then offInfo + SIZEOF_OBJINFO else offInfo;
    ghost var view := InformationView(idRoot, hFile, fFlags, SIZEOF_OBJINFO, LinBuf(g, dir, b.lin + offInfo, SIZEOF_OBJINFO));
    d := g.InitCall(b, SHFL_FN_INFORMATION, 5, cbReq, offInfo);
    d := SetHead(g, b, idRoot, hFile, fFlags, SIZEOF_OBJINFO, d);
    d := SetField(g, b, 4, dir, offInfo, SIZEOF_OBJINFO, embedded, d);
    FieldLaid(g, d, dir, SIZEOF_OBJINFO, embedded);
    FieldCarried(g, g.ram[..], d, dir, SIZEOF_OBJINFO, embedded, view);
    vrc := g.Submit(b, cbReq, d, view);
  }

  method ReqQueryObjInfo(g: Guest, idRoot: u32, b: Block, hFile: u64) returns (vrc: int32, ghost d: Draft)
    requires ValidBlock(g, b, g.OffParm(5) + SIZEOF_OBJINFO)
    modifies g.ram
    ensures Request(g, d, old(g.ram[..]), b, SHFL_FN_INFORMATION) && Transports(g, d, {4}, {})
    ensures g.CallDone(old(g.ram[..]), g.ram[..], b.phys, g.OffParm(5), vrc, SHFL_FN_INFORMATION,
                       InformationView(idRoot, hFile, SHFL_INFO_GET + SHFL_INFO_FILE, SIZEOF_OBJINFO,
                                       LinBuf(g, DIR_FROM_HOST, b.lin + g.OffParm(5), SIZEOF_OBJINFO)))
  {
    vrc, d := ReqObjInfo(g, idRoot, b, hFile, SHFL_INFO_GET + SHFL_INFO_FILE, DIR_FROM_HOST);
  }

  method ReqSetObjInfo(g: Guest, idRoot: u32, b: Block, hFile: u64) returns (vrc: int32, ghost d: Draft)
    requires ValidBlock(g, b, g.OffParm(5) + SIZEOF_OBJINFO)
    modifies g.ram
    ensures Request(g, d, old(g.ram[..]), b, SHFL_FN_INFORMATION) && Transports(g, d, {4}, {})
    ensures g.CallDone(old(g.ram[..]), g.ram[..], b.phys, g.OffParm(5), vrc, SHFL_FN_INFORMATION,
                       InformationView(idRoot, hFile, SHFL_INFO_SET + SHFL_INFO_FILE, SIZEOF_OBJINFO,
                                       LinBuf(g, DIR_BOTH, b.lin + g.OffParm(5), SIZEOF_OBJINFO)))
  {
    vrc, d := ReqObjInfo(g, idRoot, b, hFile, SHFL_INFO_SET + SHFL_INFO_FILE, DIR_BOTH);
  }

  method ReqSetFileSizeOld(g: Guest, idRoot: u32, b: Block, hFile: u64) returns (vrc: int32, ghost d: Draft)
    requires ValidBlock(g, b, g.OffParm(5) + SIZEOF_OBJINFO)
    modifies g.ram
    ensures Request(g, d, old(g.ram[..]), b, SHFL_FN_INFORMATION) && Transports(g, d, {4}, {})
    ensures g.CallDone(old(g.ram[..]), g.ram[..], b.phys, g.OffParm(5), vrc, SHFL_FN_INFORMATION,
                       InformationView(idRoot, hFile, SHFL_INFO_SET + SHFL_INFO_SIZE, SIZEOF_OBJINFO,
                                       LinBuf(g, DIR_BOTH, b.lin + g.OffParm(5), SIZEOF_OBJINFO)))
  {
    vrc, d := ReqObjInfo(g, idRoot, b, hFile, SHFL_INFO_SET + SHFL_INFO_SIZE, DIR_BOTH);
  }

  /** Where a field of the given alignment goes after the five parameters. */
  function FieldAfterParms(is64: bool, align: nat): nat
    requires align > 0
  {
    var off := OFF_PARMS + 5 * SizeofParm(is64);
    (off + align - 1) / align * align
  }

  /** SetObjInfoWithBuf takes the offset of its page list (aligned to 4) from the
      object information of a sibling structure. For both sizes of a parameter
      the two are the same place exactly when that information is not aligned to
      8 or more; it is packed. */
  lemma SiblingOffset(align: nat)
    requires align == 1 || align == 2 || align == 4 || align == 8
    ensures (forall is64: bool :: FieldAfterParms(is64, align) == FieldAfterParms(is64, 4)) <==> align <= 4
  {
    assert FieldAfterParms(false, 8) == 160 && FieldAfterParms(false, 4) == 156;
  }

  method ReqSetObjInfoWithBuf(g: Guest, idRoot: u32, b: Block, hFile: u64, alloc: Block, offInAlloc: u32)
    returns (vrc: int32, ghost d: Draft)
    requires ValidBlock(g, b, g.OffParm(5) + SIZEOF_PAGELIST)
    requires Separate(g, Block(alloc.lin + offInAlloc, alloc.phys + offInAlloc), SIZEOF_OBJINFO, b, g.OffParm(5) + SIZEOF_PAGELIST)
    modifies g.ram
    ensures Request(g, d, old(g.ram[..]), b, SHFL_FN_INFORMATION) && Transports(g, d, {}, {4})
    ensures g.CallDone(old(g.ram[..]), g.ram[..], b.phys, g.OffParm(5) + SIZEOF_PAGELIST, vrc, SHFL_FN_INFORMATION,
                       InformationView(idRoot, hFile, SHFL_INFO_SET + SHFL_INFO_FILE, SIZEOF_OBJINFO,
                                       LinBuf(g, DIR_BOTH, alloc.lin + offInAlloc, SIZEOF_OBJINFO)))
  {
    hide Load, StringSize, LinAddrs, LinBuf, Has, FieldWire, SeparateWire, SeparateLists, Guest.Drafted, Guest.Carried, Guest.CallDone, Guest.LaidOut, Transports;
    var info := Block(alloc.lin + offInAlloc, alloc.phys + offInAlloc);
    var cbReq := g.OffParm(5) + SIZEOF_PAGELIST;
    var how := ContigChoice(g);
    ghost var view := InformationView(idRoot, hFile, SHFL_INFO_SET + SHFL_INFO_FILE, SIZEOF_OBJINFO,
                                      LinBuf(g, DIR_BOTH, info.lin, SIZEOF_OBJINFO));
    d := g.InitCall(b, SHFL_FN_INFORMATION, 5, cbReq, cbReq);
    d := SetHead(g, b, idRoot, hFile, SHFL_INFO_SET + SHFL_INFO_FILE, SIZEOF_OBJINFO, d);
    SiblingOffset(1);
    assert FieldAfterParms(g.is64, 1) == g.OffParm(5);
    d := SetSeparate(g, b, 4, how, DIR_BOTH, FieldAfterParms(g.is64, 1), info, SIZEOF_OBJINFO, d);
    SeparateLaid(g, d, DIR_BOTH, info, SIZEOF_OBJINFO, how);
    SeparateCarried(g, g.ram[..], d, DIR_BOTH, info, SIZEOF_OBJINFO, how, view);
    vrc := g.Submit(b, cbReq, d, view);
  }

  // ----- Reading and writing -----

  function TransferView(idRoot: u32, hFile: u64, off: u64, cb: u32, buf: Parm): seq<Parm> {
    [V32(idRoot), V64(hFile), V64(off), V32(cb), buf]
  }

  /** Reads and writes: alike but for the function and the way the data goes. */
  datatype Way = Read | Write
  {
    function Fn(): u32 {
      if Read? then SHFL_FN_READ else SHFL_FN_WRITE
    }

    function Dir(): (dir: nat)
      ensures DirectionValid(dir)
    {
      if Read? then DIR_FROM_HOST else DIR_TO_HOST
    }
  }

  /** The transfer in so many words: the service is handed root, handle, offset and
      size as they are, and the bytes at the buffer's addresses, or that many
      zeros if it does not see them; the status is its own, the size it gives back
      stands in the fourth parameter, and what it reads in the buffer. */
  ghost predicate Transferred(g: Guest, m0: seq<byte>, m: seq<byte>, req: nat, vrc: int32, way: Way, idRoot: u32, hFile: u64, off: u64,
                              cb: u32, addrs: seq<int>, sees: bool)
    requires |addrs| == cb && |m| == |m0| && forall k :: 0 <= k < cb ==> 0 <= addrs[k] < |m0|
  {
    var file: seq<byte> := seq(cb, k requires 0 <= k < cb => if sees then m0[addrs[k]] else 0);
    var reply := g.svc(SvcCall(g.idClient, if way.Read? then 5 else 6, [I32(idRoot), I64(hFile), I64(off), I32(cb), IPtr(file)]));
    && vrc == reply.result
    && (|reply.outs| > 3 && reply.outs[3].O32? && reply.outs[3].v < 0x1_0000_0000 ==>
          Load(m, req + g.OffParm(3) + 4, 4) == reply.outs[3].v)
    && (way.Write? ==> forall k :: 0 <= k < cb ==> m[addrs[k]] == m0[addrs[k]])
    && (way.Read? && |reply.outs| > 4 && reply.outs[4].OPtr? ==>
          forall k :: 0 <= k < cb ==>
            m[addrs[k]] == if k < |reply.outs[4].data| then reply.outs[4].data[k] else m0[addrs[k]])
  }

  /** A buffer a transfer sees or not, and that comes back when it reads. */
  function TransferBuf(way: Way, cb: nat, addrs: seq<int>, sees: bool): Parm {
    VPtr(cb, if sees then addrs else [], if way.Read? then addrs else [])
  }

  /** A transfer served within the data limit is that, when the buffer is made of
      different bytes of RAM clear of the request. */
  lemma TransferDelivers(g: Guest, m0: seq<byte>, m: seq<byte>, req: nat, hi: nat, vrc: int32, way: Way, idRoot: u32, hFile: u64, off: u64,
                         cb: u32, addrs: seq<int>, sees: bool)
    requires |addrs| == cb <= MAX_DATA_SIZE && forall k :: 0 <= k < cb ==> 0 <= addrs[k] < |m0|
    requires Outside(addrs, req, req + hi) && forall j, k :: 0 <= j < k < cb ==> addrs[j] != addrs[k]
    requires g.CallDone(m0, m, req, hi, vrc, way.Fn(), TransferView(idRoot, hFile, off, cb, TransferBuf(way, cb, addrs, sees)))
    ensures |m| == |m0| && Transferred(g, m0, m, req, vrc, way, idRoot, hFile, off, cb, addrs, sees)
  {
    hide Serve, Load, TotalCb, CallOf;
    var view := TransferView(idRoot, hFile, off, cb, TransferBuf(way, cb, addrs, sees));
    var file: seq<byte> := seq(cb, k requires 0 <= k < cb => if sees then m0[addrs[k]] else 0);
    var c := SvcCall(g.idClient, way.Fn(), [I32(idRoot), I64(hFile), I64(off), I32(cb), IPtr(file)]);
    OnlyLastTotal(view);
    HandedOver(m0, g.svc, g.idClient, way.Fn(), view, c);
    var want := Serve(m0, g.svc, g.idClient, way.Fn(), view);
    var area := Area(req, req + SIZEOF_FASTCALL, req + hi, 0, g.is64);
    assert area.Slot(3) == req + g.OffParm(3);
    if |want.outs| > 3 {
      ValueComesBack(m, area, view, want.outs, 3);
    }
    forall k | 0 <= k < cb
      ensures way.Write? ==> m[addrs[k]] == m0[addrs[k]]
      ensures way.Read? && |want.outs| > 4 && want.outs[4].OPtr? ==>
                m[addrs[k]] == if k < |want.outs[4].data| then want.outs[4].data[k] else m0[addrs[k]]
    {
      assert ByteAt(m, addrs[k]) == ByteAt(want.ram, addrs[k]);
      if way.Write? {
        OthersStay(m0, g.svc, g.idClient, way.Fn(), view, addrs[k]);
        assert ByteAt(m0, addrs[k]) == m0[addrs[k]];
      } else if |want.outs| > 4 && want.outs[4].OPtr? {
        assert Alone(view, 4, k);
        DataComesBack(m0, g.svc, g.idClient, way.Fn(), view, 4, k);
      }
    }
  }

  /** The same for a contiguous buffer. */
  lemma ContigDelivers(g: Guest, m0: seq<byte>, m: seq<byte>, req: nat, hi: nat, vrc: int32, way: Way, idRoot: u32, hFile: u64, off: u64,
                       cb: u32, lin: nat, phys: nat)
    requires cb <= MAX_DATA_SIZE && MappedTo(g.pt, lin, phys, cb, |m0|) && (phys + cb <= req || req + hi <= phys)
    requires g.CallDone(m0, m, req, hi, vrc, way.Fn(), TransferView(idRoot, hFile, off, cb, LinBuf(g, way.Dir(), lin, cb)))
    ensures |m| == |m0| && Transferred(g, m0, m, req, vrc, way, idRoot, hFile, off, cb, Range(phys, cb), way.Write?)
  {
    hide Guest.CallDone, Transferred, LinAddrs;
    assert LinBuf(g, way.Dir(), lin, cb) == TransferBuf(way, cb, Range(phys, cb), way.Write?);
    TransferDelivers(g, m0, m, req, hi, vrc, way, idRoot, hFile, off, cb, Range(phys, cb), way.Write?);
  }

  /** Whether an embedded transfer makes a request that is too large. */
  predicate TooLarge(g: Guest, cb: nat) {
    Has(g.features, HVF_EMBEDDED_BUFFERS) && g.OffParm(5) - SIZEOF_FASTCALL + cb > MAX_REQUEST_SIZE
  }

  /** The first four parameters of these requests. */
  method SetTransfer(g: Guest, b: Block, idRoot: u32, hFile: u64, off: u64, cb: u32, ghost d: Draft) returns (ghost e: Draft)
    requires b == d.b && d.n > 4 && g.Drafted(g.ram[..], d)
    modifies g.ram
    ensures e == d.(parms := d.parms[0 := W32(idRoot)][1 := W64(hFile)][2 := W64(off)][3 := W32(cb)])
    ensures g.Drafted(g.ram[..], e)
  {
    hide Guest.Drafted;
    e := g.SetParm32(b.phys, 0, idRoot, d);
    e := g.SetParm64(b.phys, 1, hFile, e);
    e := g.SetParm64(b.phys, 2, off, e);
    e := g.SetParm32(b.phys, 3, cb, e);
  }

  /** What the driver gets of a transfer through the request block. */
  function EmbeddedAnswer(g: Guest, svc: Service, m: seq<byte>, way: Way, idRoot: u32, b: Block, hFile: u64, off: u64, cb: u32): Answer {
    if TooLarge(g, cb) then g.RefusedAnswer(m, VERR_NOT_SUPPORTED)
    else g.AnswerTo(m, svc, way.Fn(), TransferView(idRoot, hFile, off, cb, LinBuf(g, way.Dir(), b.lin + g.OffParm(5), cb)))
  }

  method ReqTransferEmbedded(g: Guest, way: Way, idRoot: u32, b: Block, hFile: u64, off: u64, cb: u32)
    returns (vrc: int32, ghost d: Draft)
    requires ValidBlock(g, b, g.OffParm(5) + cb)
    modifies g.ram
    ensures Request(g, d, old(g.ram[..]), b, way.Fn()) && Transports(g, d, {4}, {})
    ensures var (m0, m) := (old(g.ram[..]), g.ram[..]);
            if TooLarge(g, cb) then
              vrc == g.RefusedStatus(VERR_NOT_SUPPORTED) && SameOutside(m0, m, b.phys, b.phys + g.OffParm(5))
            else
              g.CallDone(m0, m, b.phys, g.OffParm(5), vrc, way.Fn(),
                         TransferView(idRoot, hFile, off, cb, LinBuf(g, way.Dir(), b.lin + g.OffParm(5), cb)))
    ensures var want := EmbeddedAnswer(g, g.svc, old(g.ram[..]), way, idRoot, b, hFile, off, cb);
            vrc == want.vrc && SameOutside(want.ram, g.ram[..], b.phys, b.phys + g.OffParm(5))
    ensures !TooLarge(g, cb) && cb <= MAX_DATA_SIZE ==>
              Transferred(g, old(g.ram[..]), g.ram[..], b.phys, vrc, way, idRoot, hFile, off, cb,
                          Range(b.phys + g.OffParm(5), cb), way.Write?)
  {
    hide Guest.AnswerTo, Transferred, EmbeddedAnswer;
    hide Load, StringSize, LinAddrs, LinBuf, Has, SameOutside, FieldWire, SeparateWire, SeparateLists, Guest.Drafted, Guest.Carried, Guest.CallDone, Guest.LaidOut, Transports;
    var offData := g.OffParm(5);
    var embedded := Has(g.features, HVF_EMBEDDED_BUFFERS);
    var cbReq := offData + if embedded then cb else 0;
    ghost var view := TransferView(idRoot, hFile, off, cb, LinBuf(g, way.Dir(), b.lin + offData, cb));
    d := g.InitCall(b, way.Fn(), 5, cbReq, offData);
    d := SetTransfer(g, b, idRoot, hFile, off, cb, d);
    d := SetField(g, b, 4, way.Dir(), offData, cb, embedded, d);
    FieldLaid(g, d, way.Dir(), cb, embedded);
    FieldCarried(g, g.ram[..], d, way.Dir(), cb, embedded, view);
    vrc := g.Submit(b, cbReq, d, view);
    EmbeddedOutcome(g, d.m0, g.ram[..], vrc, way, idRoot, b, hFile, off, cb);
  }

  /** What the served or refused transfer comes to. */
  lemma EmbeddedOutcome(g: Guest, m0: seq<byte>, m: seq<byte>, vrc: int32, way: Way, idRoot: u32, b: Block, hFile: u64, off: u64, cb: u32)
    requires Backed(g, b, g.OffParm(5) + cb) && |m0| == |m| == g.ram.Length
    requires if TooLarge(g, cb) then vrc == g.RefusedStatus(VERR_NOT_SUPPORTED) && SameOutside(m0, m, b.phys, b.phys + g.OffParm(5))
             else g.CallDone(m0, m, b.phys, g.OffParm(5), vrc, way.Fn(),
                             TransferView(idRoot, hFile, off, cb, LinBuf(g, way.Dir(), b.lin + g.OffParm(5), cb)))
    ensures var want := EmbeddedAnswer(g, g.svc, m0, way, idRoot, b, hFile, off, cb);
            vrc == want.vrc && SameOutside(want.ram, m, b.phys, b.phys + g.OffParm(5))
    ensures !TooLarge(g, cb) && cb <= MAX_DATA_SIZE ==>
              Transferred(g, m0, m, b.phys, vrc, way, idRoot, hFile, off, cb, Range(b.phys + g.OffParm(5), cb), way.Write?)
  {
    hide TooLarge, SameOutside, LinAddrs, LinBuf, Transferred, Guest.CallDone, Guest.AnswerTo;
    if !TooLarge(g, cb) {
      var view := TransferView(idRoot, hFile, off, cb, LinBuf(g, way.Dir(), b.lin + g.OffParm(5), cb));
      g.DoneIsAnswer(m0, m, b.phys, g.OffParm(5), vrc, way.Fn(), view);
      if cb <= MAX_DATA_SIZE {
        MappedPart(g.pt, b.lin, b.phys, g.OffParm(5) + cb, g.ram.Length, g.OffParm(5), cb);
        ContigDelivers(g, m0, m, b.phys, g.OffParm(5), vrc, way, idRoot, hFile, off, cb, b.lin + g.OffParm(5), b.phys + g.OffParm(5));
      }
    }
  }

  /** A service that always succeeds. */
  function Succeeds(): Service {
    (c: SvcCall) => Reply(VINF_SUCCESS, [])
  }

  lemma OnlyLastTotal(view: seq<Parm>)
    requires |view| == 5 && forall i :: 0 <= i < 4 ==> !view[i].VPtr?
    ensures TotalCb(view, 0) == Cb(view[4])
  {
    assert TotalCb(view, 4) == Cb(view[4]) + TotalCb(view, 5);
    assert TotalCb(view, 2) == TotalCb(view, 3) == TotalCb(view, 4);
    assert TotalCb(view, 0) == TotalCb(view, 1) == TotalCb(view, 2);
  }

  /** Of a transfer within the data limit the driver gets the service's status, of
      one beyond it the same refusal whatever the service. */
  lemma TransferAnswer(g: Guest, svc: Service, m: seq<byte>, way: Way, idRoot: u32, hFile: u64, off: u64, cb: u32, buf: Parm)
    requires Cb(buf) == cb
    ensures var view := TransferView(idRoot, hFile, off, cb, buf);
            if cb > MAX_DATA_SIZE then g.AnswerTo(m, svc, way.Fn(), view) == g.RefusedAnswer(m, VERR_INVALID_PARAMETER)
            else
              && !Serve(m, svc, g.idClient, way.Fn(), view).refused
              && g.AnswerTo(m, Succeeds(), way.Fn(), view).vrc == VINF_SUCCESS
  {
    hide TotalCb, CallOf, WriteBack;
    OnlyLastTotal(TransferView(idRoot, hFile, off, cb, buf));
  }

  /** Two drivers get the same from a transfer through the request block, whatever
      the service, if and only if both or neither make a request too large, or
      the data limit is passed and none is told why. */
  lemma EmbeddedVisible(g1: Guest, g2: Guest, m: seq<byte>, way: Way, idRoot: u32, b: Block, hFile: u64, off: u64, cb: u32)
    requires g1.idClient == g2.idClient && g1.ntGlue == g2.ntGlue && g1.is64 == g2.is64 && g1.pt == g2.pt
    ensures (forall svc: Service ::
               EmbeddedAnswer(g1, svc, m, way, idRoot, b, hFile, off, cb) == EmbeddedAnswer(g2, svc, m, way, idRoot, b, hFile, off, cb))
            <==> TooLarge(g1, cb) == TooLarge(g2, cb) || (cb > MAX_DATA_SIZE && !g1.ntGlue)
  {
    hide Serve, LinAddrs, TooLarge;
    var buf := LinBuf(g1, way.Dir(), b.lin + g1.OffParm(5), cb);
    assert buf == LinBuf(g2, way.Dir(), b.lin + g2.OffParm(5), cb);
    forall svc: Service
      ensures cb > MAX_DATA_SIZE ==>
                EmbeddedAnswer(g1, svc, m, way, idRoot, b, hFile, off, cb)
                == g1.RefusedAnswer(m, if TooLarge(g1, cb) then VERR_NOT_SUPPORTED else VERR_INVALID_PARAMETER)
      ensures cb > MAX_DATA_SIZE ==>
                EmbeddedAnswer(g2, svc, m, way, idRoot, b, hFile, off, cb)
                == g2.RefusedAnswer(m, if TooLarge(g2, cb) then VERR_NOT_SUPPORTED else VERR_INVALID_PARAMETER)
    {
      TransferAnswer(g1, svc, m, way, idRoot, hFile, off, cb, buf);
      TransferAnswer(g2, svc, m, way, idRoot, hFile, off, cb, buf);
    }
    TransferAnswer(g1, Succeeds(), m, way, idRoot, hFile, off, cb, buf);
    TransferAnswer(g2, Succeeds(), m, way, idRoot, hFile, off, cb, buf);
    if TooLarge(g1, cb) != TooLarge(g2, cb) && (cb <= MAX_DATA_SIZE || g1.ntGlue) {
      assert EmbeddedAnswer(g1, Succeeds(), m, way, idRoot, b, hFile, off, cb)
          != EmbeddedAnswer(g2, Succeeds(), m, way, idRoot, b, hFile, off, cb);
    }
  }

  method ReqTransferContig(g: Guest, way: Way, idRoot: u32, b: Block, hFile: u64, off: u64, cb: u32, buf: Block)
    returns (vrc: int32, ghost d: Draft)
    requires ValidBlock(g, b, g.OffParm(5) + SIZEOF_PAGELIST)
    requires Separate(g, buf, cb, b, g.OffParm(5) + SIZEOF_PAGELIST)
    modifies g.ram
    ensures Request(g, d, old(g.ram[..]), b, way.Fn()) && Transports(g, d, {}, {4})
    ensures g.CallDone(old(g.ram[..]), g.ram[..], b.phys, g.OffParm(5) + SIZEOF_PAGELIST, vrc, way.Fn(),
                       TransferView(idRoot, hFile, off, cb, LinBuf(g, way.Dir(), buf.lin, cb)))
    ensures cb <= MAX_DATA_SIZE ==>
              Transferred(g, old(g.ram[..]), g.ram[..], b.phys, vrc, way, idRoot, hFile, off, cb, Range(buf.phys, cb), way.Write?)
  {
    hide Transferred, Load, StringSize, LinAddrs, LinBuf, Has, FieldWire, SeparateWire, SeparateLists, Guest.Drafted, Guest.Carried, Guest.CallDone, Guest.LaidOut, Transports;
    var cbReq := g.OffParm(5) + SIZEOF_PAGELIST;
    var how := ContigChoice(g);
    ghost var view := TransferView(idRoot, hFile, off, cb, LinBuf(g, way.Dir(), buf.lin, cb));
    d := g.InitCall(b, way.Fn(), 5, cbReq, cbReq);
    d := SetTransfer(g, b, idRoot, hFile, off, cb, d);
    d := SetSeparate(g, b, 4, how, way.Dir(), g.OffParm(5), buf, cb, d);
    SeparateLaid(g, d, way.Dir(), buf, cb, how);
    SeparateCarried(g, g.ram[..], d, way.Dir(), buf, cb, how, view);
    vrc := g.Submit(b, cbReq, d, view);
    if cb <= MAX_DATA_SIZE {
      ContigDelivers(g, d.m0, g.ram[..], b.phys, cbReq, vrc, way, idRoot, hFile, off, cb, buf.lin, buf.phys);
    }
  }

  // ----- Listing a directory -----

  /** The filter string, or nothing. */
  datatype Filter = NoFilter | Filter(str: Block)

  function FilterSize(m: seq<byte>, filter: Filter): nat {
    match filter
    case NoFilter => 0
    case Filter(str) => StringSize(m, str.phys)
  }

  lemma FilterSizeBound(m: seq<byte>, filter: Filter)
    ensures FilterSize(m, filter) <= 0x1_0003 && (filter.NoFilter? ==> FilterSize(m, filter) == 0)
  {
    if filter.Filter? {
      StringSizeBound(m, filter.str.phys);
    }
  }

  /** What the filter parameter stands for. */
  function FilterParm(g: Guest, m: seq<byte>, filter: Filter): Parm {
    match filter
    case NoFilter => VPtr(0, [], [])
    case Filter(str) => LinBuf(g, DIR_TO_HOST, str.lin, StringSize(m, str.phys))
  }

  function ListView(g: Guest, m: seq<byte>, idRoot: u32, hDir: u64, filter: Filter, fFlags: u32, buf: Block, cbBuffer: u32): seq<Parm> {
    [ V32(idRoot), V64(hDir), V32(fFlags), V32(cbBuffer),
      FilterParm(g, m, filter), LinBuf(g, DIR_FROM_HOST, buf.lin, cbBuffer), V32(0), V32(0) ]
  }

  function FilterAddress(filter: Filter): nat {
    if filter.Filter? then filter.str.lin else 0
  }

  /** The list for the filter, which may have no page. */
  function FilterLists(how: Choice, off: nat, filter: Filter): map<nat, List> {
    if how.ByAddress? then map[]
    else map[off := if filter.Filter? then ContigList(DIR_TO_HOST, filter.str.phys) else OneList(DIR_TO_HOST, 0, NIL)]
  }

  method SetFilter(g: Guest, b: Block, off: nat, filter: Filter, cbFilter: u32, how: Choice, ghost d: Draft) returns (ghost e: Draft)
    requires b == d.b && d.n > 4 && g.Drafted(g.ram[..], d) && d.lists == map[] && SIZEOF_FASTCALL <= off < 0x1_0000_0000
    requires g.OffParm(d.n) <= off && off + SIZEOF_PAGELIST <= d.hi && b.phys + d.hi <= g.ram.Length
    requires filter.Filter? ==> filter.str.phys < 0x1_0000_0000_0000_0000 && g.FitsPointer(filter.str.lin)
    requires (filter.NoFilter? ==> cbFilter == 0) && (how.ByList? ==> how.ty == TYPE_CONTIGUOUS_PAGELIST)
    modifies g.ram
    ensures g.Drafted(g.ram[..], e)
    ensures e == d.(parms := d.parms[4 := SeparateWire(how, DIR_TO_HOST, off, FilterAddress(filter), cbFilter)],
                    lists := FilterLists(how, off, filter))
  {
    hide Guest.Drafted;
    if how.ByAddress? || filter.Filter? {
      e := SetSeparate(g, b, 4, how, DIR_TO_HOST, off, if filter.Filter? then filter.str else Block(0, 0), cbFilter, d);
    } else {
      e := g.SetPageListParm(b.phys, 4, how.ty, 0, off - SIZEOF_FASTCALL, d);
      e := g.SetOnePage(b.phys, off, DIR_TO_HOST, 0, NIL, e);
    }
  }

  ghost predicate ListDraft(g: Guest, d: Draft, filter: Filter, cbFilter: nat, buf: Block, cbBuffer: nat, how: Choice) {
    var offStr := g.OffParm(8);
    var offBuf := offStr + SIZEOF_PAGELIST;
    && d.n == 8 && d.hi == d.cbReq == offBuf + SIZEOF_PAGELIST
    && d.lists == SeparateLists(FilterLists(how, offStr, filter), how, DIR_FROM_HOST, offBuf, buf.phys)
    && 4 in d.parms && d.parms[4] == SeparateWire(how, DIR_TO_HOST, offStr, FilterAddress(filter), cbFilter)
    && 5 in d.parms && d.parms[5] == SeparateWire(how, DIR_FROM_HOST, offBuf, buf.lin, cbBuffer)
    && forall i :: i in d.parms && i != 4 && i != 5 ==> d.parms[i].W32? || d.parms[i].W64?
  }

  lemma ListDirLaid(g: Guest, d: Draft, filter: Filter, cbFilter: nat, buf: Block, cbBuffer: nat, how: Choice)
    requires ListDraft(g, d, filter, cbFilter, buf, cbBuffer, how) && how == ContigChoice(g)
    ensures g.LaidOut(d) && Transports(g, d, {}, {4, 5})
  {
    hide Guest.EmbeddedLaid;
    OneEmbedded(g, d, 4);
  }

  lemma CarryFilter(g: Guest, m0: seq<byte>, m: seq<byte>, d: Draft, off: nat, filter: Filter, how: Choice)
    requires g.Drafted(m, d) && 4 in d.parms && d.hi <= d.cbReq && d.b.phys + d.cbReq <= |m| <= 0x1_0000_0000_0000
    requires (how.ByList? ==> how.ty == TYPE_CONTIGUOUS_PAGELIST) && SIZEOF_FASTCALL <= off
    requires var cb := FilterSize(m0, filter);
             && (filter.Filter? ==> Separate(g, filter.str, cb, d.b, d.cbReq))
             && d.parms[4] == SeparateWire(how, DIR_TO_HOST, off, FilterAddress(filter), cb)
             && (how.ByList? ==> off in d.lists && d.lists[off] == FilterLists(how, off, filter)[off])
    ensures g.Carried(m, d, 4, FilterParm(g, m0, filter))
  {
    hide Guest.Drafted, Guest.Carried, LinBuf, Load;
    match filter
    case NoFilter => CarryNothing(g, m, d, 4, DIR_TO_HOST);
    case Filter(str) => CarrySeparate(g, m, d, 4, DIR_TO_HOST, str, StringSize(m0, str.phys), d.cbReq);
  }

  /** The six values and two buffers of the request are all that it carries. */
  lemma ListCarried(g: Guest, m: seq<byte>, d: Draft, filter: Filter, buf: Block, cbBuffer: u32, how: Choice, view: seq<Parm>)
    requires ListDraft(g, d, filter, FilterSize(d.m0, filter), buf, cbBuffer, how) && g.Drafted(m, d) && |m| == g.ram.Length
    requires how.ByList? ==> how.ty == TYPE_CONTIGUOUS_PAGELIST
    requires ValidBlock(g, d.b, d.cbReq) && Separate(g, buf, cbBuffer, d.b, d.cbReq)
    requires filter.Filter? ==> Separate(g, filter.str, FilterSize(d.m0, filter), d.b, d.cbReq)
    requires |view| == 8 && view[4] == FilterParm(g, d.m0, filter) && view[5] == LinBuf(g, DIR_FROM_HOST, buf.lin, cbBuffer)
    requires forall i :: 0 <= i < 8 && i != 4 && i != 5 ==> i in d.parms && ScalarFor(d.parms[i], view[i])
    ensures forall i :: 0 <= i < 8 ==> g.Carried(m, d, i, view[i])
  {
    hide Load, LinAddrs, LinBuf, ContigList, ScalarFor, FilterSize, FilterParm, Guest.Drafted, Guest.Carried;
    CarryScalars(g, m, d, view);
    CarryFilter(g, d.m0, m, d, g.OffParm(8), filter, how);
    CarrySeparate(g, m, d, 5, DIR_FROM_HOST, buf, cbBuffer, d.cbReq);
  }

  method ReqListDirContig2x(g: Guest, idRoot: u32, b: Block, hDir: u64, filter: Filter, fFlags: u32, buf: Block, cbBuffer: u32)
    returns (vrc: int32, ghost d: Draft)
    requires var cbReq := g.OffParm(8) + 2 * SIZEOF_PAGELIST;
             && ValidBlock(g, b, cbReq) && Separate(g, buf, cbBuffer, b, cbReq)
             && (filter.Filter? ==> Separate(g, filter.str, FilterSize(g.ram[..], filter), b, cbReq))
    modifies g.ram
    ensures Request(g, d, old(g.ram[..]), b, SHFL_FN_LIST) && Transports(g, d, {}, {4, 5})
    ensures g.CallDone(old(g.ram[..]), g.ram[..], b.phys, g.OffParm(8) + 2 * SIZEOF_PAGELIST, vrc, SHFL_FN_LIST,
                       old(ListView(g, g.ram[..], idRoot, hDir, filter, fFlags, buf, cbBuffer)))
  {
    hide Load, LinAddrs, LinBuf, Has, FilterSize, FilterParm, FilterLists, SeparateWire, SeparateLists, ContigList, ListDraft;
    hide Guest.Drafted, Guest.Carried, Guest.CallDone, Guest.LaidOut, Transports;
    var cbReq := g.OffParm(8) + 2 * SIZEOF_PAGELIST;
    FilterSizeBound(g.ram[..], filter);
    var cbFilter, how := FilterSize(g.ram[..], filter), ContigChoice(g);
    ghost var view := ListView(g, g.ram[..], idRoot, hDir, filter, fFlags, buf, cbBuffer);
    d := g.InitCall(b, SHFL_FN_LIST, 8, cbReq, cbReq);
    d := SetHead(g, b, idRoot, hDir, fFlags, cbBuffer, d);
    d := SetListBuffers(g, b, filter, cbFilter, buf, cbBuffer, how, d);
    ListDirLaid(g, d, filter, cbFilter, buf, cbBuffer, how);
    ListCarried(g, g.ram[..], d, filter, buf, cbBuffer, how, view);
    vrc := g.Submit(b, cbReq, d, view);
  }

  /** The filter, the buffer and the two values the service fills in. */
  method SetListBuffers(g: Guest, b: Block, filter: Filter, cbFilter: u32, buf: Block, cbBuffer: u32, how: Choice, ghost d: Draft)
    returns (ghost e: Draft)
    requires b == d.b && g.Drafted(g.ram[..], d) && d.n == 8 && d.lists == map[]
    requires d.hi == d.cbReq == g.OffParm(8) + 2 * SIZEOF_PAGELIST && b.phys + d.hi <= g.ram.Length
    requires forall i :: i in d.parms ==> d.parms[i].W32? || d.parms[i].W64?
    requires filter.Filter? ==> filter.str.phys < 0x1_0000_0000_0000_0000 && g.FitsPointer(filter.str.lin)
    requires buf.phys < 0x1_0000_0000_0000_0000 && g.FitsPointer(buf.lin)
    requires (filter.NoFilter? ==> cbFilter == 0) && (how.ByList? ==> how.ty == TYPE_CONTIGUOUS_PAGELIST)
    modifies g.ram
    ensures g.Drafted(g.ram[..], e) && ListDraft(g, e, filter, cbFilter, buf, cbBuffer, how)
    ensures e == d.(parms := e.parms, lists := e.lists) && (forall i :: i < 4 && i in d.parms ==> i in e.parms && e.parms[i] == d.parms[i])
    ensures 6 in e.parms && e.parms[6] == W32(0) && 7 in e.parms && e.parms[7] == W32(0)
  {
    hide FilterLists, SeparateWire, SeparateLists, ContigList, FilterAddress, Guest.Drafted;
    var offStr := g.OffParm(8);
    e := SetFilter(g, b, offStr, filter, cbFilter, how, d);
    FilterListEnds(how, offStr, filter);
    e := SetSeparate(g, b, 5, how, DIR_FROM_HOST, offStr + SIZEOF_PAGELIST, buf, cbBuffer, e);
    e := SetListTail(g, b, e);
  }

  /** The two values the service fills in. */
  method SetListTail(g: Guest, b: Block, ghost d: Draft) returns (ghost e: Draft)
    requires b == d.b && d.n == 8 && g.Drafted(g.ram[..], d)
    modifies g.ram
    ensures e == d.(parms := d.parms[6 := W32(0)][7 := W32(0)]) && g.Drafted(g.ram[..], e)
  {
    hide Guest.Drafted;
    e := g.SetParm32(b.phys, 6, 0, d);
    e := g.SetParm32(b.phys, 7, 0, e);
  }

  lemma FilterListEnds(how: Choice, off: nat, filter: Filter)
    ensures forall p :: p in FilterLists(how, off, filter) ==> p + FilterLists(how, off, filter)[p].Size() <= off + SIZEOF_PAGELIST
  {
  }
}
