/** The HGCM call request as the host sees it: how it is decoded and validated,
    what it hands to the service, and what it writes back on completion. */
module Hgcm {
  import opened Bytes

  const PAGE_SIZE: nat := 4096
  /** Largest request packet the host takes. */
  const MAX_REQUEST_SIZE: nat := 0x10_0000
  /** Largest sum of the buffer sizes of one call. */
  const MAX_DATA_SIZE: nat := 0x800_0000
  const MAX_PARMS: nat := 32

  const HEADER_VERSION: nat := 0x1_0001
  const REQ_HGCM_CALL32: nat := 62
  const REQ_HGCM_CALL64: nat := 63

  const TYPE_32BIT: nat := 1
  const TYPE_64BIT: nat := 2
  const TYPE_LINADDR: nat := 4
  const TYPE_LINADDR_IN: nat := 5
  const TYPE_LINADDR_OUT: nat := 6
  const TYPE_PAGELIST: nat := 10
  const TYPE_EMBEDDED: nat := 11
  const TYPE_CONTIGUOUS_PAGELIST: nat := 12
  const TYPE_NO_BOUNCE_PAGELIST: nat := 13

  const DIR_TO_HOST: nat := 1
  const DIR_FROM_HOST: nat := 2
  const DIR_BOTH: nat := 3

  const REQ_DONE: nat := 1

  const VINF_SUCCESS: int32 := 0
  const VERR_INVALID_PARAMETER: int32 := -2
  const VERR_INVALID_POINTER: int32 := -6
  const VERR_NO_MEMORY: int32 := -8
  const VERR_INVALID_FLAGS: int32 := -13
  const VERR_NOT_SUPPORTED: int32 := -37
  const VERR_OUT_OF_RANGE: int32 := -54
  const VERR_FILENAME_TOO_LONG: int32 := -120
  const VERR_INTERNAL_ERROR: int32 := -225

  // Offsets in VMMDevHGCMCall, its size, and the size of HGCMPageListInfo.
  const OFF_SIZE: nat := 0
  const OFF_VERSION: nat := 4
  const OFF_TYPE: nat := 8
  const OFF_RC: nat := 12
  const OFF_FLAGS: nat := 24
  const OFF_RESULT: nat := 28
  const OFF_CLIENT: nat := 32
  const OFF_FUNCTION: nat := 36
  const OFF_CPARMS: nat := 40
  const SIZEOF_CALL: nat := 44
  const SIZEOF_PAGELIST: nat := 16

  datatype Result<+T> = Ok(value: T) | Err(rc: int32)

  /** Linear page number to physical page number. */
  type PageTable = map<nat, nat>

  function SizeofParm(is64: bool): nat {
    if is64 then 16 else 12
  }

  /** The physical address of a linear one, NIL where nothing is mapped. */
  function Translate(pt: PageTable, lin: nat): nat {
    if lin / PAGE_SIZE in pt then pt[lin / PAGE_SIZE] * PAGE_SIZE + lin % PAGE_SIZE else NIL
  }

  /** A 32-bit two's complement status code as stored in memory. */
  function Enc32(rc: int32): u32 {
    if rc < 0 then rc + 0x1_0000_0000 else rc
  }

  function Dec32(v: u32): int32 {
    if v < 0x8000_0000 then v else v - 0x1_0000_0000
  }

  predicate ToHost(dir: nat) { dir % 2 == 1 }
  predicate FromHost(dir: nat) { dir / 2 % 2 == 1 }
  predicate DirectionValid(dir: nat) { 1 <= dir <= 3 }

  // ----- Wire format -----

  /** One HGCMFunctionParameter as it stands in the request. */
  datatype WireParm =
    | W32(v: nat)
    | W64(v: nat)
    | WLin(dir: nat, cb: nat, addr: nat)
    | WPageList(ty: nat, cb: nat, off: nat)
    | WEmbedded(dir: nat, off: nat, cb: nat)
    | WBad
  {
    function Size(): nat {
      match this
      case WLin(_, cb, _) => cb
      case WPageList(_, cb, _) => cb
      case WEmbedded(_, _, cb) => cb
      case _ => 0
    }
  }

  function LinDirection(ty: nat): nat {
    if ty == TYPE_LINADDR_IN then DIR_TO_HOST
    else if ty == TYPE_LINADDR_OUT then DIR_FROM_HOST
    else DIR_BOTH
  }

  function WireParmAt(m: seq<byte>, p: nat, is64: bool): WireParm {
    var ty := Load(m, p, 4);
    if ty == TYPE_32BIT then W32(Load(m, p + 4, 4))
    else if ty == TYPE_64BIT then W64(Load(m, p + 4, 8))
    else if ty == TYPE_LINADDR || ty == TYPE_LINADDR_IN || ty == TYPE_LINADDR_OUT then
      WLin(LinDirection(ty), Load(m, p + 4, 4), Load(m, p + 8, if is64 then 8 else 4))
    else if ty == TYPE_PAGELIST || ty == TYPE_CONTIGUOUS_PAGELIST || ty == TYPE_NO_BOUNCE_PAGELIST then
      WPageList(ty, Load(m, p + 4, 4), Load(m, p + 8, 4))
    else if ty == TYPE_EMBEDDED then
      WEmbedded(Load(m, p + 4, 4) % 0x100, Load(m, p + 4, 4) / 0x100, Load(m, p + 8, 4))
    else WBad
  }

  // ----- Host parser -----

  datatype BufKind = Linear | PageList | Contiguous | NoBounce | Embedded

  /** What the host keeps of one guest parameter: a value with its place and
      size in the request, or a buffer. */
  datatype GuestParm =
    | GVal(v: nat, off: nat, n: nat)
    | GBuf(kind: BufKind, cb: nat, dir: nat, off: nat, pages: seq<nat>)

  /** Offsets into a page stay below its size. */
  predicate ParmOk(g: GuestParm) {
    match g
    case GVal(_, _, n) => n == 4 || n == 8
    case GBuf(kind, _, _, off, _) => kind != Embedded ==> off < PAGE_SIZE
  }

  /** The n page entries of the page list at address a. */
  function PagesAt(m: seq<byte>, a: nat, n: nat): (r: seq<nat>)
    ensures |r| == n && forall i :: 0 <= i < n ==> r[i] == Load(m, a + 8 + 8 * i, 8)
  {
    seq(n, i requires 0 <= i < n => Load(m, a + 8 + 8 * i, 8))
  }

  /** The pages under cb bytes of linear memory. */
  function LinPages(pt: PageTable, addr: nat, cb: nat): (r: seq<nat>)
    ensures |r| == if cb > 0 then (addr % PAGE_SIZE + cb + PAGE_SIZE - 1) / PAGE_SIZE else 0
  {
    var off := addr % PAGE_SIZE;
    seq(if cb > 0 then (off + cb + PAGE_SIZE - 1) / PAGE_SIZE else 0,
        i requires 0 <= i => Translate(pt, addr - off + i * PAGE_SIZE))
  }

  function PageCount(off: nat, cb: nat): nat {
    (off + cb + PAGE_SIZE - 1) / PAGE_SIZE
  }

  function PageKind(ty: nat): BufKind {
    if ty == TYPE_CONTIGUOUS_PAGELIST then Contiguous
    else if ty == TYPE_NO_BOUNCE_PAGELIST then NoBounce
    else PageList
  }

  /** Checks the page list at gc + off and reads it in. */
  function ResolvePageList(m: seq<byte>, gc: nat, cbCall: nat, offExtra: nat, ty: nat, cb: nat, off: nat): (r: Result<GuestParm>)
    ensures r.Ok? ==> ParmOk(r.value)
  {
    if !(off >= offExtra && cbCall >= SIZEOF_PAGELIST && off <= cbCall - SIZEOF_PAGELIST) then Err(VERR_INVALID_PARAMETER)
    else
      var cMaxPages := 1 + (cbCall - off - SIZEOF_PAGELIST) / 8;
      var flags := Load(m, gc + off, 4);
      var offFirst := Load(m, gc + off + 4, 2);
      var cPages := Load(m, gc + off + 6, 2);
      var pages := PagesAt(m, gc + off, cPages);
      if !(0 < cPages <= cMaxPages) then Err(VERR_INVALID_PARAMETER)
      else if !DirectionValid(flags) then Err(VERR_INVALID_FLAGS)
      else if offFirst >= PAGE_SIZE then Err(VERR_INVALID_PARAMETER)
      else if ty == TYPE_CONTIGUOUS_PAGELIST && cPages != 1 then Err(VERR_INVALID_PARAMETER)
      else if ty == TYPE_NO_BOUNCE_PAGELIST && cPages != PageCount(offFirst, cb) then Err(VERR_INVALID_PARAMETER)
      else if ty == TYPE_NO_BOUNCE_PAGELIST
              && !(   (pages[0] % PAGE_SIZE == 0 || pages[0] % PAGE_SIZE == offFirst)
                   && forall i :: 1 <= i < cPages ==> pages[i] % PAGE_SIZE == 0) then Err(VERR_INVALID_POINTER)
      else Ok(GBuf(PageKind(ty), cb, flags, offFirst, pages))
  }

  /** Validates one parameter; p is where it stands. */
  function Resolve(m: seq<byte>, pt: PageTable, gc: nat, cbCall: nat, offExtra: nat, p: nat, w: WireParm): (r: Result<GuestParm>)
    requires gc <= p
    ensures r.Ok? ==> ParmOk(r.value)
  {
    match w
    case W32(v) => Ok(GVal(v, p + 4 - gc, 4))
    case W64(v) => Ok(GVal(v, p + 4 - gc, 8))
    case WLin(dir, cb, addr) =>
      Ok(GBuf(Linear, cb, dir, if cb > 0 then addr % PAGE_SIZE else 0, LinPages(pt, addr, cb)))
    case WPageList(ty, cb, off) => ResolvePageList(m, gc, cbCall, offExtra, ty, cb, off)
    case WEmbedded(dir, off, cb) =>
      if !DirectionValid(dir) then Err(VERR_INVALID_FLAGS)
      else if !(off >= offExtra && off <= cbCall && cb <= cbCall - off) then Err(VERR_INVALID_PARAMETER)
      else Ok(GBuf(Embedded, cb, dir, off, [gc + off]))
    case WBad => Err(VERR_INVALID_PARAMETER)
  }

  /** A decoded and validated call. */
  datatype Command = Command(client: nat, fn: nat, is64: bool, gc: nat, cbCall: nat, parms: seq<GuestParm>)

  /** Parameters i .. n - 1, with total the buffer bytes accepted so far. */
  function ParseParms(m: seq<byte>, pt: PageTable, gc: nat, cbCall: nat, is64: bool, n: nat, i: nat, total: nat)
    : (r: Result<seq<GuestParm>>)
    requires i <= n && total <= MAX_DATA_SIZE
    ensures r.Ok? ==> |r.value| == n - i && forall g :: g in r.value ==> ParmOk(g)
    decreases n - i
  {
    if i == n then Ok([])
    else
      var p := gc + SIZEOF_CALL + i * SizeofParm(is64);
      var w := WireParmAt(m, p, is64);
      if w.Size() > MAX_DATA_SIZE - total then Err(VERR_INVALID_PARAMETER)
      else match Resolve(m, pt, gc, cbCall, SIZEOF_CALL + n * SizeofParm(is64), p, w)
        case Err(rc) => Err(rc)
        case Ok(g) =>
          match ParseParms(m, pt, gc, cbCall, is64, n, i + 1, total + w.Size())
          case Err(rc) => Err(rc)
          case Ok(gs) => Ok([g] + gs)
  }

  /** The request at physical address gc, decoded. A request without a proper
      header is dropped, which leaves the status the guest put there. */
  function HostParse(m: seq<byte>, pt: PageTable, gc: nat): (r: Result<Command>)
    ensures r.Ok? ==> r.value.gc == gc && forall g :: g in r.value.parms ==> ParmOk(g)
  {
    var size := Load(m, gc + OFF_SIZE, 4);
    var ty := Load(m, gc + OFF_TYPE, 4);
    var n := Load(m, gc + OFF_CPARMS, 4);
    var is64 := ty == REQ_HGCM_CALL64;
    if size < 24 || Load(m, gc + OFF_VERSION, 4) != HEADER_VERSION then Err(VERR_INTERNAL_ERROR)
    else if size > MAX_REQUEST_SIZE then Err(VERR_NOT_SUPPORTED)
    else if ty != REQ_HGCM_CALL32 && ty != REQ_HGCM_CALL64 then Err(VERR_INVALID_PARAMETER)
    else if size < SIZEOF_CALL then Err(VERR_INVALID_PARAMETER)
    else if !(n <= (size - SIZEOF_CALL) / SizeofParm(is64) && n <= MAX_PARMS) then Err(VERR_INVALID_PARAMETER)
    else match ParseParms(m, pt, gc, size, is64, n, 0, 0)
      case Err(rc) => Err(rc)
      case Ok(gs) =>
        Ok(Command(Load(m, gc + OFF_CLIENT, 4), Load(m, gc + OFF_FUNCTION, 4), is64, gc, size, gs))
  }

  // ----- Which bytes a buffer is -----

  function BitOr(x: nat, y: nat): nat {
    if x == 0 then y
    else if y == 0 then x
    else 2 * BitOr(x / 2, y / 2) + (if x % 2 == 1 || y % 2 == 1 then 1 else 0)
  }

  /** page | off, the way the host joins a page address and an offset. */
  function OrOffset(page: nat, off: nat): nat
    requires off < PAGE_SIZE
  {
    page - page % PAGE_SIZE + BitOr(page % PAGE_SIZE, off)
  }

  /** Whether the host takes the pages for one contiguous run: it goes through
      them with a 64-bit address it steps by a page. */
  predicate IsContiguous(pages: seq<nat>) {
    && |pages| > 0
    && forall i :: 1 <= i < |pages| ==> pages[i] == (pages[0] + i * PAGE_SIZE) % 0x1_0000_0000_0000_0000
  }

  /** Byte k of a buffer found page by page. */
  function PageByte(pages: seq<nat>, off: nat, k: nat): int {
    var i := (off + k) / PAGE_SIZE;
    if i < |pages| && pages[i] != NIL then pages[i] + (off + k) % PAGE_SIZE else SKIP
  }

  function PageBytes(pages: seq<nat>, off: nat, cb: nat): (r: seq<int>)
    ensures |r| == cb
    ensures forall k :: 0 <= k < cb ==> r[k] == PageByte(pages, off, k)
  {
    seq(cb, k requires 0 <= k < cb => PageByte(pages, off, k))
  }

  /** The pages without what the first may carry of the offset into it. */
  function Frames(pages: seq<nat>): (r: seq<nat>)
    ensures |r| == |pages| && forall i :: 0 <= i < |r| ==> r[i] == pages[i] - pages[i] % PAGE_SIZE
  {
    seq(|pages|, i requires 0 <= i < |pages| => pages[i] - pages[i] % PAGE_SIZE)
  }

  /** The addresses a host read of the buffer touches, byte by byte. */
  function ReadAddrs(g: GuestParm, gc: nat): (r: seq<int>)
    requires g.GBuf? && (g.kind != Embedded ==> g.off < PAGE_SIZE)
    ensures |r| == g.cb
  {
    if g.kind == Embedded then Range(gc + g.off, g.cb)
    else if g.kind == NoBounce then PageBytes(Frames(g.pages), g.off, g.cb)
    else if IsContiguous(g.pages) then Range(OrOffset(g.pages[0], g.off), g.cb)
    else PageBytes(g.pages, g.off, g.cb)
  }

  /** The addresses a host write-back to the buffer touches, byte by byte. */
  function WriteAddrs(g: GuestParm, gc: nat): (r: seq<int>)
    requires g.GBuf? && (g.kind != Embedded ==> g.off < PAGE_SIZE)
    ensures |r| == g.cb
  {
    if g.kind == Embedded then Range(gc + g.off, g.cb)
    else if g.kind == NoBounce then PageBytes(Frames(g.pages), g.off, g.cb)
    else if g.kind == Contiguous && |g.pages| > 0 then Range(OrOffset(g.pages[0], g.off), g.cb)
    else PageBytes(g.pages, g.off, g.cb)
  }

  // ----- What the service sees -----

  /** A parameter free of its transport: a value, or a buffer given by the
      addresses the service's bytes come from and go back to (none in a direction
      that is not transferred). */
  datatype Parm =
    | V32(v: nat)
    | V64(v: nat)
    | VPtr(cb: nat, rd: seq<int>, wr: seq<int>)

  /** Without bouncing the service works on the guest's pages, so it finds there
      what the guest left even when nothing is to be read. */
  function View(g: GuestParm, gc: nat): Parm
    requires ParmOk(g)
  {
    match g
    case GVal(v, _, n) => if n == 4 then V32(v) else V64(v)
    case GBuf(kind, cb, dir, _, _) =>
      VPtr(cb, if ToHost(dir) || kind == NoBounce then ReadAddrs(g, gc) else [],
               if FromHost(dir) then WriteAddrs(g, gc) else [])
  }

  datatype SvcIn = I32(v: nat) | I64(v: nat) | IPtr(data: seq<byte>)
  datatype SvcCall = SvcCall(client: nat, fn: nat, ins: seq<SvcIn>)

  datatype SvcOut = O32(v: nat) | O64(v: nat) | OPtr(data: seq<byte>)
  datatype Reply = Reply(result: int32, outs: seq<SvcOut>)
  /** The service behind the call, as a function of what it is handed. */
  type Service = SvcCall -> Reply

  function OutValue(outs: seq<SvcOut>, i: nat, n: nat): nat {
    if i >= |outs| then 0
    else match outs[i]
      case O32(v) => v % 0x1_0000_0000
      case O64(v) => if n == 4 then v % 0x1_0000_0000 else v % 0x1_0000_0000_0000_0000
      case OPtr(_) => 0
  }

  function OutData(outs: seq<SvcOut>, i: nat): seq<byte> {
    if i < |outs| && outs[i].OPtr? then outs[i].data else []
  }

  /** The input of one parameter; a buffer that is not read starts zeroed. */
  function Input(m: seq<byte>, v: Parm): SvcIn {
    match v
    case V32(x) => I32(x)
    case V64(x) => I64(x)
    case VPtr(cb, rd, _) => IPtr(if rd == [] then seq(cb, _ => 0) else Gather(m, rd))
  }

  function CallOf(m: seq<byte>, client: nat, fn: nat, view: seq<Parm>): SvcCall {
    SvcCall(client, fn, seq(|view|, i requires 0 <= i < |view| => Input(m, view[i])))
  }

  /** Memory after the service's data for parameter i is written back. */
  function WriteOut(m: seq<byte>, v: Parm, outs: seq<SvcOut>, i: nat): (r: seq<byte>)
    ensures |r| == |m|
  {
    if v.VPtr? then
      var data := OutData(outs, i);
      var k := if |data| < |v.wr| then |data| else |v.wr|;
      Scatter(m, v.wr[..k], data[..k])
    else m
  }

  function WriteBack(m: seq<byte>, view: seq<Parm>, outs: seq<SvcOut>, i: nat): (r: seq<byte>)
    requires i <= |view|
    ensures |r| == |m|
    decreases |view| - i
  {
    if i == |view| then m else WriteBack(WriteOut(m, view[i], outs, i), view, outs, i + 1)
  }

  // ----- Completion -----

  /** Bookkeeping the completion does in the request itself for parameter g,
      whose slot is at p: a value, or the size a buffer came back with. */
  function WriteSlot(m: seq<byte>, base: nat, p: nat, g: GuestParm, outs: seq<SvcOut>, i: nat): (r: seq<byte>)
    ensures |r| == |m|
  {
    match g
    case GVal(_, off, n) => Put(m, base + off, LeBytes(OutValue(outs, i, n), n))
    case GBuf(kind, _, _, _, _) =>
      var cb := LeBytes(|OutData(outs, i)|, 4);
      if kind == Embedded then Put(m, p + 8, cb)
      else if kind == Contiguous || kind == NoBounce then Put(m, p + 4, cb)
      else m
  }

  /** Completion straight into guest memory, parameters i and up. */
  function CompleteInPlace(m: seq<byte>, cmd: Command, outs: seq<SvcOut>, i: nat): (r: seq<byte>)
    requires i <= |cmd.parms| && forall g :: g in cmd.parms ==> ParmOk(g)
    ensures |r| == |m|
    decreases |cmd.parms| - i
  {
    if i == |cmd.parms| then m
    else
      var g := cmd.parms[i];
      var p := cmd.gc + SIZEOF_CALL + i * SizeofParm(cmd.is64);
      var m1 := WriteSlot(m, cmd.gc, p, g, outs, i);
      CompleteInPlace(WriteOut(m1, View(g, cmd.gc), outs, i), cmd, outs, i + 1)
  }

  /** Completion with a private copy of the request: values, sizes and embedded
      data go to the copy, all other buffers to guest memory. */
  function CompleteCopy(m: seq<byte>, copy: seq<byte>, cmd: Command, outs: seq<SvcOut>, i: nat)
    : (r: (seq<byte>, seq<byte>))
    requires i <= |cmd.parms| && forall g :: g in cmd.parms ==> ParmOk(g)
    ensures |r.0| == |m| && |r.1| == |copy|
    decreases |cmd.parms| - i
  {
    if i == |cmd.parms| then (m, copy)
    else
      var g := cmd.parms[i];
      var copy1 := WriteSlot(copy, 0, SIZEOF_CALL + i * SizeofParm(cmd.is64), g, outs, i);
      if g.GBuf? && g.kind == Embedded then
        var copy2 := WriteOut(copy1, View(g, 0), outs, i);
        CompleteCopy(m, copy2, cmd, outs, i + 1)
      else
        CompleteCopy(WriteOut(m, View(g, cmd.gc), outs, i), copy1, cmd, outs, i + 1)
  }

  /** The final marks on the request: its result, then the done flag. */
  function Finish(m: seq<byte>, base: nat, result: int32): (r: seq<byte>)
    ensures |r| == |m|
  {
    var flags := Load(m, base + OFF_FLAGS, 4);
    var done := if flags % 2 == 1 then flags else flags + REQ_DONE;
    Put(Put(m, base + OFF_RESULT, LeBytes(Enc32(result), 4)), base + OFF_FLAGS, LeBytes(done, 4))
  }

  /** The bytes m[a .. a + n), as a copy. */
  function CopyOut(m: seq<byte>, a: nat, n: nat): (r: seq<byte>)
    ensures |r| == n && forall k :: 0 <= k < n ==> r[k] == ByteAt(m, a + k)
  {
    seq<byte>(n, k requires 0 <= k < n => ByteAt(m, a + k))
  }

  /** One trip through the host: the new memory, and the submission status.
      A locked request is completed in place, any other through a copy of it
      that is written back whole at the end. */
  function HostRun(m: seq<byte>, pt: PageTable, gc: nat, svc: Service, locked: bool): (r: (seq<byte>, int32))
    ensures |r.0| == |m|
  {
    match HostParse(m, pt, gc)
    case Err(rc) => (Put(m, gc + OFF_RC, LeBytes(Enc32(rc), 4)), rc)
    case Ok(cmd) =>
      var view := seq(|cmd.parms|, i requires 0 <= i < |cmd.parms| => View(cmd.parms[i], gc));
      var reply := svc(CallOf(m, cmd.client, cmd.fn, view));
      if locked then
        (Finish(CompleteInPlace(m, cmd, reply.outs, 0), gc, reply.result), VINF_SUCCESS)
      else
        var (m1, copy) := CompleteCopy(m, CopyOut(m, gc, cmd.cbCall), cmd, reply.outs, 0);
        (Put(m1, gc, Finish(copy, 0, reply.result)), VINF_SUCCESS)
  }
}
