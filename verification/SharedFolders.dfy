/** The ring-0 shared folder requests. Each method fills in the request at a
    physical heap block and submits it; its contract says the call is served on
    the strings and buffers it was given, in terms that mention neither the
    host's features nor the descriptors they select, and that the parts of the
    request have each their own place in it. */
module SharedFolders {
  import opened Bytes
  import opened Hgcm
  import opened PageLists
  import opened Transport
  import opened Marshal
  import opened Carry

  const SHFL_FN_CREATE: u32 := 3
  const SHFL_FN_READ: u32 := 5
  const SHFL_FN_WRITE: u32 := 6
  const SHFL_FN_LIST: u32 := 8
  const SHFL_FN_INFORMATION: u32 := 9
  const SHFL_FN_REMOVE: u32 := 11
  const SHFL_FN_RENAME: u32 := 14
  const SHFL_FN_MAP_FOLDER: u32 := 17
  const SHFL_FN_READLINK: u32 := 18
  const SHFL_FN_SYMLINK: u32 := 19
  const SHFL_FN_CLOSE_AND_REMOVE: u32 := 28

  const SHFL_ROOT_NIL: u32 := 0xFFFF_FFFF

  /** SHFLSTRING without its characters; sizes of the other fixed structures. */
  const SHFLSTRING_HEADER_SIZE: nat := 4
  const SIZEOF_CREATEPARMS: nat := 108
  const SIZEOF_OBJINFO: nat := 92

  /** Bytes of the SHFLSTRING at a physical address, header included. */
  function StringSize(m: seq<byte>, phys: nat): nat {
    SHFLSTRING_HEADER_SIZE + Load(m, phys, 2)
  }

  lemma StringSizeBound(m: seq<byte>, phys: nat)
    ensures SHFLSTRING_HEADER_SIZE <= StringSize(m, phys) <= 0x1_0003
  {
    LoadBounds(m, phys);
  }

  /** The submitted request: laid out at b, in memory m0, for the function. */
  ghost predicate Request(g: Guest, d: Draft, m0: seq<byte>, b: Block, fn: nat) {
    g.LaidOut(d) && d.m0 == m0 && d.b == b && d.fn == fn
  }

  /** The request uses what the host has: the given fields are embedded, and the
      given separate buffers go by page list, just when it announced to take them
      that way. */
  ghost predicate Transports(g: Guest, d: Draft, fields: set<nat>, buffers: set<nat>) {
    && (forall i :: i in fields ==> i in d.parms && (d.parms[i].WEmbedded? <==> Has(g.features, HVF_EMBEDDED_BUFFERS)))
    && (forall i :: i in buffers ==> i in d.parms && (d.parms[i].WPageList? <==> Has(g.features, HVF_CONTIGUOUS_PAGE_LIST)))
  }

  /** For a link, buffer i goes by a plain list on one page, else like others. */
  ghost predicate LinkTransport(g: Guest, d: Draft, i: nat, phys: nat, cb: nat) {
    && i in d.parms
    && if phys % 4096 + cb <= 4096 then d.parms[i].WPageList? && d.parms[i].ty == TYPE_PAGELIST
       else if Has(g.features, HVF_CONTIGUOUS_PAGE_LIST) then d.parms[i].WPageList? && d.parms[i].ty == TYPE_CONTIGUOUS_PAGELIST
       else d.parms[i].WLin?
  }

  // ----- The choices all builders make -----

  /** A field of the request: embedded in what is submitted, or by its linear
      address. */
  function FieldWire(b: Block, dir: nat, off: nat, cb: nat, embedded: bool): WireParm
    requires SIZEOF_FASTCALL <= off
  {
    if embedded then WEmbedded(dir, off - SIZEOF_FASTCALL, cb) else WLin(dir, cb, b.lin + off)
  }

  method SetField(g: Guest, b: Block, i: nat, dir: nat, off: nat, cb: u32, embedded: bool, ghost d: Draft)
    returns (ghost e: Draft)
    requires b == d.b && i < d.n && g.Drafted(g.ram[..], d) && DirectionValid(dir)
    requires SIZEOF_FASTCALL <= off < 0x100_0000 && g.FitsPointer(b.lin + off)
    modifies g.ram
    ensures e == d.(parms := d.parms[i := FieldWire(b, dir, off, cb, embedded)])
    ensures g.Drafted(g.ram[..], e)
  {
    hide Guest.Drafted;
    if embedded {
      e := g.SetEmbedded(b.phys, i, dir, off - SIZEOF_FASTCALL, cb, d);
    } else {
      e := g.SetLinAddr(b.phys, i, LinType(dir), cb, b.lin + off, d);
    }
  }

  /** A contiguous buffer elsewhere: by a page list with one entry, or by its
      linear address. */
  datatype Choice = ByList(ty: nat) | ByAddress

  /** Contiguous page lists are used when the host has them. */
  function ContigChoice(g: Guest): Choice {
    if Has(g.features, HVF_CONTIGUOUS_PAGE_LIST) then ByList(TYPE_CONTIGUOUS_PAGELIST) else ByAddress
  }

  /** Whether a buffer stays on its first page. */
  predicate OnOnePage(phys: nat, cb: nat) {
    cb <= PAGE_SIZE - phys % PAGE_SIZE
  }

  /** For links, a plain page list when the buffer stays on one page, else a
      contiguous one when the host has that, else the address. */
  function LinkChoice(g: Guest, phys: nat, cb: nat): Choice {
    if OnOnePage(phys, cb) then ByList(TYPE_PAGELIST) else ContigChoice(g)
  }

  function SeparateWire(how: Choice, dir: nat, off: nat, lin: nat, cb: nat): WireParm
    requires SIZEOF_FASTCALL <= off
  {
    if how.ByList? then WPageList(how.ty, cb, off - SIZEOF_FASTCALL) else WLin(dir, cb, lin)
  }

  function SeparateLists(lists: map<nat, List>, how: Choice, dir: nat, off: nat, phys: nat): map<nat, List> {
    if how.ByList? then lists[off := ContigList(dir, phys)] else lists
  }

  method SetSeparate(g: Guest, b: Block, i: nat, how: Choice, dir: nat, off: nat, buf: Block, cb: u32, ghost d: Draft)
    returns (ghost e: Draft)
    requires b == d.b && i < d.n && g.Drafted(g.ram[..], d) && DirectionValid(dir)
    requires SIZEOF_FASTCALL <= off < 0x1_0000_0000 && buf.phys < 0x1_0000_0000_0000_0000 && g.FitsPointer(buf.lin)
    requires how.ByList? ==>
               && (how.ty == TYPE_PAGELIST || how.ty == TYPE_CONTIGUOUS_PAGELIST)
               && g.OffParm(d.n) <= off && off + SIZEOF_PAGELIST <= d.hi && b.phys + d.hi <= g.ram.Length
               && forall p :: p in d.lists ==> p + d.lists[p].Size() <= off
    modifies g.ram
    ensures e == d.(parms := d.parms[i := SeparateWire(how, dir, off, buf.lin, cb)],
                    lists := SeparateLists(d.lists, how, dir, off, buf.phys))
    ensures g.Drafted(g.ram[..], e)
  {
    hide Guest.Drafted;
    if how.ByList? {
      e := g.SetPageListParm(b.phys, i, how.ty, cb, off - SIZEOF_FASTCALL, d);
      e := g.SetOnePage(b.phys, off, dir, buf.phys % 0x1_0000 % PAGE_SIZE, buf.phys - buf.phys % PAGE_SIZE, e);
    } else {
      e := g.SetLinAddr(b.phys, i, LinType(dir), cb, buf.lin, d);
    }
  }

  // ----- Create -----

  function CreateView(g: Guest, m: seq<byte>, idRoot: u32, b: Block): seq<Parm> {
    var offParms := g.OffParm(3);
    var offPath := offParms + SIZEOF_CREATEPARMS;
    [ V32(idRoot),
      LinBuf(g, DIR_TO_HOST, b.lin + offPath, StringSize(m, b.phys + offPath)),
      LinBuf(g, DIR_BOTH, b.lin + offParms, SIZEOF_CREATEPARMS) ]
  }

  method ReqCreate(g: Guest, idRoot: u32, b: Block) returns (vrc: int32, ghost d: Draft)
    requires var offPath := g.OffParm(3) + SIZEOF_CREATEPARMS;
             ValidBlock(g, b, offPath + StringSize(g.ram[..], b.phys + offPath))
    modifies g.ram
    ensures Request(g, d, old(g.ram[..]), b, SHFL_FN_CREATE) && Transports(g, d, {1, 2}, {})
    ensures g.CallDone(old(g.ram[..]), g.ram[..], b.phys, g.OffParm(3), vrc, SHFL_FN_CREATE, old(CreateView(g, g.ram[..], idRoot, b)))
  {
    hide Load, StringSize, LinAddrs, LinBuf, Has, FieldWire, SeparateWire, SeparateLists, Guest.Drafted, Guest.Carried, Guest.CallDone, Guest.LaidOut, Transports, LinkTransport;
    var offParms := g.OffParm(3);
    var offPath := offParms + SIZEOF_CREATEPARMS;
    StringSizeBound(g.ram[..], b.phys + offPath);
    var cbPath := StringSize(g.ram[..], b.phys + offPath);
    var embedded := Has(g.features, HVF_EMBEDDED_BUFFERS);
    var cbReq := if embedded then offPath + cbPath else offParms;
    d := g.InitCall(b, SHFL_FN_CREATE, 3, cbReq, offParms);
    d := g.SetParm32(b.phys, 0, idRoot, d);
    d := SetField(g, b, 1, DIR_TO_HOST, offPath, cbPath, embedded, d);
    d := SetField(g, b, 2, DIR_BOTH, offParms, SIZEOF_CREATEPARMS, embedded, d);
    CreateLaid(g, d, idRoot, cbPath, embedded);
    CreateCarried(g, g.ram[..], d, idRoot, cbPath, embedded);
    vrc := g.Submit(b, cbReq, d, CreateView(g, d.m0, idRoot, b));
  }

  ghost predicate CreateDraft(g: Guest, d: Draft, idRoot: u32, cbPath: nat, embedded: bool) {
    var offParms := g.OffParm(3);
    var offPath := offParms + SIZEOF_CREATEPARMS;
    && d.n == 3 && d.hi == offParms && d.lists == map[]
    && d.cbReq == (if embedded then offPath + cbPath else offParms)
    && d.parms == map[][0 := W32(idRoot)][1 := FieldWire(d.b, DIR_TO_HOST, offPath, cbPath, embedded)]
                       [2 := FieldWire(d.b, DIR_BOTH, offParms, SIZEOF_CREATEPARMS, embedded)]
  }

  lemma CreateLaid(g: Guest, d: Draft, idRoot: u32, cbPath: nat, embedded: bool)
    requires CreateDraft(g, d, idRoot, cbPath, embedded) && cbPath <= 0x1_0003 && embedded == Has(g.features, HVF_EMBEDDED_BUFFERS)
    ensures g.LaidOut(d) && Transports(g, d, {1, 2}, {})
  {
    hide Guest.EmbeddedLaid, Guest.ListsLaid;
    TwoEmbedded(g, d, 2, 1);
    NoLists(g, d);
  }

  lemma CreateCarried(g: Guest, m: seq<byte>, d: Draft, idRoot: u32, cbPath: nat, embedded: bool)
    requires CreateDraft(g, d, idRoot, cbPath, embedded) && g.Drafted(m, d) && |m| == g.ram.Length
    requires var offPath := g.OffParm(3) + SIZEOF_CREATEPARMS;
             cbPath == StringSize(d.m0, d.b.phys + offPath) && ValidBlock(g, d.b, offPath + cbPath)
    ensures var view := CreateView(g, d.m0, idRoot, d.b); forall i :: 0 <= i < 3 ==> g.Carried(m, d, i, view[i])
  {
    hide Load, StringSize, LinAddrs, LinBuf, Guest.Drafted, Guest.Carried;
    var offPath := g.OffParm(3) + SIZEOF_CREATEPARMS;
    StringSizeBound(d.m0, d.b.phys + offPath);
    CarryScalars(g, m, d, CreateView(g, d.m0, idRoot, d.b));
    CarryField(g, m, d, 1, DIR_TO_HOST, offPath, cbPath, offPath + cbPath);
    CarryField(g, m, d, 2, DIR_BOTH, g.OffParm(3), SIZEOF_CREATEPARMS, offPath + cbPath);
  }

  // ----- Remove -----

  function RemoveView(g: Guest, m: seq<byte>, idRoot: u32, b: Block, fFlags: u32): seq<Parm> {
    var offPath := g.OffParm(3);
    [ V32(idRoot), LinBuf(g, DIR_TO_HOST, b.lin + offPath, StringSize(m, b.phys + offPath)), V32(fFlags) ]
  }

  /** A request with the path behind its n parameters, and as its second. */
  ghost predicate PathDraft(g: Guest, d: Draft, n: nat, cbPath: nat, embedded: bool) {
    var offPath := g.OffParm(n);
    && d.n == n && d.hi == offPath && d.lists == map[]
    && d.cbReq == (if embedded then offPath + cbPath else offPath + SHFLSTRING_HEADER_SIZE)
    && 1 in d.parms && d.parms[1] == FieldWire(d.b, DIR_TO_HOST, offPath, cbPath, embedded)
    && forall i :: i in d.parms && i != 1 ==> d.parms[i].W32? || d.parms[i].W64?
  }

  lemma PathLaid(g: Guest, d: Draft, n: nat, cbPath: nat, embedded: bool)
    requires PathDraft(g, d, n, cbPath, embedded) && cbPath <= 0x1_0003 && n <= MAX_PARMS && embedded == Has(g.features, HVF_EMBEDDED_BUFFERS)
    ensures g.LaidOut(d) && Transports(g, d, {1}, {})
  {
    hide Guest.EmbeddedLaid, Guest.ListsLaid;
    OneEmbedded(g, d, 1);
    NoLists(g, d);
  }

  lemma PathCarried(g: Guest, m: seq<byte>, d: Draft, n: nat, cbPath: nat, embedded: bool, view: seq<Parm>)
    requires PathDraft(g, d, n, cbPath, embedded) && g.Drafted(m, d) && |m| == g.ram.Length
    requires var offPath := g.OffParm(n);
             cbPath == StringSize(d.m0, d.b.phys + offPath) && ValidBlock(g, d.b, offPath + cbPath)
             && |view| == n > 1 && view[1] == LinBuf(g, DIR_TO_HOST, d.b.lin + offPath, cbPath)
    requires forall i :: 0 <= i < n && i != 1 ==> i in d.parms && ScalarFor(d.parms[i], view[i])
    ensures forall i :: 0 <= i < n ==> g.Carried(m, d, i, view[i])
  {
    hide Load, StringSize, LinAddrs, LinBuf, ScalarFor, Guest.Drafted, Guest.Carried;
    StringSizeBound(d.m0, d.b.phys + g.OffParm(n));
    CarryScalars(g, m, d, view);
    CarryField(g, m, d, 1, DIR_TO_HOST, g.OffParm(n), cbPath, g.OffParm(n) + cbPath);
  }

  method ReqRemove(g: Guest, idRoot: u32, b: Block, fFlags: u32) returns (vrc: int32, ghost d: Draft)
    requires ValidBlock(g, b, g.OffParm(3) + StringSize(g.ram[..], b.phys + g.OffParm(3)))
    modifies g.ram
    ensures Request(g, d, old(g.ram[..]), b, SHFL_FN_REMOVE) && Transports(g, d, {1}, {})
    ensures g.CallDone(old(g.ram[..]), g.ram[..], b.phys, g.OffParm(3), vrc, SHFL_FN_REMOVE,
                       old(RemoveView(g, g.ram[..], idRoot, b, fFlags)))
  {
    hide Load, StringSize, LinAddrs, LinBuf, Has, FieldWire, SeparateWire, SeparateLists, Guest.Drafted, Guest.Carried, Guest.CallDone, Guest.LaidOut, Transports, LinkTransport;
    var offPath := g.OffParm(3);
    StringSizeBound(g.ram[..], b.phys + offPath);
    var cbPath := StringSize(g.ram[..], b.phys + offPath);
    var embedded := Has(g.features, HVF_EMBEDDED_BUFFERS);
    var cbReq := offPath + SHFLSTRING_HEADER_SIZE + if embedded then cbPath - SHFLSTRING_HEADER_SIZE else 0;
    d := g.InitCall(b, SHFL_FN_REMOVE, 3, cbReq, offPath);
    d := g.SetParm32(b.phys, 0, idRoot, d);
    d := SetField(g, b, 1, DIR_TO_HOST, offPath, cbPath, embedded, d);
    d := g.SetParm32(b.phys, 2, fFlags, d);
    ghost var view := RemoveView(g, d.m0, idRoot, b, fFlags);
    PathLaid(g, d, 3, cbPath, embedded);
    PathCarried(g, g.ram[..], d, 3, cbPath, embedded, view);
    vrc := g.Submit(b, cbReq, d, view);
  }

  function CloseAndRemoveView(g: Guest, m: seq<byte>, idRoot: u32, b: Block, fFlags: u32, hToClose: u64): seq<Parm> {
    var offPath := g.OffParm(4);
    [ V32(idRoot), LinBuf(g, DIR_TO_HOST, b.lin + offPath, StringSize(m, b.phys + offPath)), V32(fFlags), V64(hToClose) ]
  }

  method ReqCloseAndRemove(g: Guest, idRoot: u32, b: Block, fFlags: u32, hToClose: u64) returns (vrc: int32, ghost d: Draft)
    requires ValidBlock(g, b, g.OffParm(4) + StringSize(g.ram[..], b.phys + g.OffParm(4)))
    modifies g.ram
    ensures Request(g, d, old(g.ram[..]), b, SHFL_FN_CLOSE_AND_REMOVE) && Transports(g, d, {1}, {})
    ensures g.CallDone(old(g.ram[..]), g.ram[..], b.phys, g.OffParm(4), vrc, SHFL_FN_CLOSE_AND_REMOVE,
                       old(CloseAndRemoveView(g, g.ram[..], idRoot, b, fFlags, hToClose)))
  {
    hide Load, StringSize, LinAddrs, LinBuf, Has, FieldWire, SeparateWire, SeparateLists, Guest.Drafted, Guest.Carried, Guest.CallDone, Guest.LaidOut, Transports, LinkTransport;
    var offPath := g.OffParm(4);
    StringSizeBound(g.ram[..], b.phys + offPath);
    var cbPath := StringSize(g.ram[..], b.phys + offPath);
    var embedded := Has(g.features, HVF_EMBEDDED_BUFFERS);
    var cbReq := offPath + SHFLSTRING_HEADER_SIZE + if embedded then cbPath - SHFLSTRING_HEADER_SIZE else 0;
    d := g.InitCall(b, SHFL_FN_CLOSE_AND_REMOVE, 4, cbReq, offPath);
    d := g.SetParm32(b.phys, 0, idRoot, d);
    d := SetField(g, b, 1, DIR_TO_HOST, offPath, cbPath, embedded, d);
    d := g.SetParm32(b.phys, 2, fFlags, d);
    d := g.SetParm64(b.phys, 3, hToClose, d);
    ghost var view := CloseAndRemoveView(g, d.m0, idRoot, b, fFlags, hToClose);
    PathLaid(g, d, 4, cbPath, embedded);
    PathCarried(g, g.ram[..], d, 4, cbPath, embedded, view);
    vrc := g.Submit(b, cbReq, d, view);
  }

  // ----- Rename -----

  function RenameView(g: Guest, m: seq<byte>, idRoot: u32, b: Block, src: Block, fFlags: u32): seq<Parm> {
    var offDst := g.OffParm(4) + SIZEOF_PAGELIST;
    [ V32(idRoot),
      LinBuf(g, DIR_TO_HOST, src.lin, StringSize(m, src.phys)),
      LinBuf(g, DIR_TO_HOST, b.lin + offDst, StringSize(m, b.phys + offDst)),
      V32(fFlags) ]
  }

  ghost predicate RenameDraft(g: Guest, d: Draft, idRoot: u32, src: Block, fFlags: u32, cbSrc: nat, cbDst: nat, how: Choice, embedded: bool) {
    var offList := g.OffParm(4);
    var offDst := offList + SIZEOF_PAGELIST;
    && d.n == 4 && d.hi == offDst && d.lists == SeparateLists(map[], how, DIR_TO_HOST, offList, src.phys)
    && d.cbReq == (if embedded then offDst + cbDst else offDst + SHFLSTRING_HEADER_SIZE)
    && d.parms == map[][0 := W32(idRoot)][1 := SeparateWire(how, DIR_TO_HOST, offList, src.lin, cbSrc)]
                       [2 := FieldWire(d.b, DIR_TO_HOST, offDst, cbDst, embedded)][3 := W32(fFlags)]
  }

  lemma RenameLaid(g: Guest, d: Draft, idRoot: u32, src: Block, fFlags: u32, cbSrc: nat, cbDst: nat, how: Choice, embedded: bool)
    requires RenameDraft(g, d, idRoot, src, fFlags, cbSrc, cbDst, how, embedded) && cbDst <= 0x1_0003
    requires embedded == Has(g.features, HVF_EMBEDDED_BUFFERS) && how == ContigChoice(g)
    ensures g.LaidOut(d) && Transports(g, d, {2}, {1})
  {
    hide Guest.EmbeddedLaid, Guest.ListsLaid;
    OneEmbedded(g, d, 2);
    OneListLaid(g, d, 1, g.OffParm(4));
  }

  lemma RenameCarried(g: Guest, m: seq<byte>, d: Draft, idRoot: u32, src: Block, fFlags: u32, cbSrc: nat, cbDst: nat, how: Choice, embedded: bool)
    requires RenameDraft(g, d, idRoot, src, fFlags, cbSrc, cbDst, how, embedded) && g.Drafted(m, d) && |m| == g.ram.Length
    requires how.ByList? ==> how.ty == TYPE_CONTIGUOUS_PAGELIST
    requires var offDst := g.OffParm(4) + SIZEOF_PAGELIST;
             && cbDst == StringSize(d.m0, d.b.phys + offDst) && cbSrc == StringSize(d.m0, src.phys)
             && ValidBlock(g, d.b, offDst + cbDst) && Separate(g, src, cbSrc, d.b, offDst + cbDst)
    ensures var view := RenameView(g, d.m0, idRoot, d.b, src, fFlags); forall i :: 0 <= i < 4 ==> g.Carried(m, d, i, view[i])
  {
    hide Load, StringSize, LinAddrs, LinBuf, ContigList, Guest.Drafted, Guest.Carried;
    var offDst := g.OffParm(4) + SIZEOF_PAGELIST;
    StringSizeBound(d.m0, d.b.phys + offDst);
    CarryScalars(g, m, d, RenameView(g, d.m0, idRoot, d.b, src, fFlags));
    CarrySeparate(g, m, d, 1, DIR_TO_HOST, src, cbSrc, offDst + cbDst);
    CarryField(g, m, d, 2, DIR_TO_HOST, offDst, cbDst, offDst + cbDst);
  }

  method ReqRenameWithSrcContig(g: Guest, idRoot: u32, b: Block, src: Block, fFlags: u32) returns (vrc: int32, ghost d: Draft)
    requires var offDst := g.OffParm(4) + SIZEOF_PAGELIST;
             var cbBlock := offDst + StringSize(g.ram[..], b.phys + offDst);
             ValidBlock(g, b, cbBlock) && Separate(g, src, StringSize(g.ram[..], src.phys), b, cbBlock)
    modifies g.ram
    ensures Request(g, d, old(g.ram[..]), b, SHFL_FN_RENAME) && Transports(g, d, {2}, {1})
    ensures g.CallDone(old(g.ram[..]), g.ram[..], b.phys, g.OffParm(4) + SIZEOF_PAGELIST, vrc, SHFL_FN_RENAME,
                       old(RenameView(g, g.ram[..], idRoot, b, src, fFlags)))
  {
    hide Load, StringSize, LinAddrs, LinBuf, Has, FieldWire, SeparateWire, SeparateLists, Guest.Drafted, Guest.Carried, Guest.CallDone, Guest.LaidOut, Transports, LinkTransport;
    var offList := g.OffParm(4);
    var offDst := offList + SIZEOF_PAGELIST;
    StringSizeBound(g.ram[..], b.phys + offDst);
    StringSizeBound(g.ram[..], src.phys);
    var cbDst, cbSrc := StringSize(g.ram[..], b.phys + offDst), StringSize(g.ram[..], src.phys);
    var embedded, how := Has(g.features, HVF_EMBEDDED_BUFFERS), ContigChoice(g);
    var cbReq := offDst + SHFLSTRING_HEADER_SIZE + if embedded then cbDst - SHFLSTRING_HEADER_SIZE else 0;
    d := g.InitCall(b, SHFL_FN_RENAME, 4, cbReq, offDst);
    d := g.SetParm32(b.phys, 0, idRoot, d);
    d := SetSeparate(g, b, 1, how, DIR_TO_HOST, offList, src, cbSrc, d);
    d := SetField(g, b, 2, DIR_TO_HOST, offDst, cbDst, embedded, d);
    d := g.SetParm32(b.phys, 3, fFlags, d);
    RenameLaid(g, d, idRoot, src, fFlags, cbSrc, cbDst, how, embedded);
    RenameCarried(g, g.ram[..], d, idRoot, src, fFlags, cbSrc, cbDst, how, embedded);
    vrc := g.Submit(b, cbReq, d, RenameView(g, d.m0, idRoot, b, src, fFlags));
  }

  // ----- Mapping a folder -----

  /** The name of the folder: with contiguous page lists the host gets it by a
      plain list in both directions, else by a linear address to read. */
  function NameParm(g: Guest, m: seq<byte>, name: Block): Parm {
    var cb := StringSize(m, name.phys);
    if Has(g.features, HVF_CONTIGUOUS_PAGE_LIST) then OnePageBuf(g, name, cb) else LinBuf(g, DIR_TO_HOST, name.lin, cb)
  }

  function MapFolderView(name: Parm, wcDelimiter: u16, fCaseSensitive: bool): seq<Parm> {
    [name, V32(SHFL_ROOT_NIL), V32(wcDelimiter), V32(if fCaseSensitive then 1 else 0)]
  }

  lemma MapFolderLaid(g: Guest, d: Draft, off: nat)
    requires d.hi == d.cbReq == off + SIZEOF_PAGELIST && off == g.OffParm(4) && d.n == 4
    requires (forall i :: i in d.parms ==> !d.parms[i].WEmbedded? && (d.parms[i].WPageList? ==> i == 0 && d.parms[i].ty == TYPE_PAGELIST))
    requires d.lists.Keys <= {off} && (off in d.lists ==> d.lists[off].OneList?)
    requires 0 in d.parms && (d.parms[0].WPageList? ==> d.parms[0].off + SIZEOF_FASTCALL == off && off in d.lists)
    requires d.parms[0].WPageList? <==> Has(g.features, HVF_CONTIGUOUS_PAGE_LIST)
    ensures g.LaidOut(d) && Transports(g, d, {}, {0})
  {
    hide Guest.EmbeddedLaid, Guest.ListsLaid;
    OneEmbedded(g, d, 0);
    OneListLaid(g, d, 0, off);
  }

  method ReqMapFolderWithContig(g: Guest, b: Block, name: Block, wcDelimiter: u16, fCaseSensitive: bool)
    returns (vrc: int32, ghost d: Draft)
    requires var cbBlock := g.OffParm(4) + SIZEOF_PAGELIST;
             ValidBlock(g, b, cbBlock) && Separate(g, name, StringSize(g.ram[..], name.phys), b, cbBlock)
    modifies g.ram
    ensures Request(g, d, old(g.ram[..]), b, SHFL_FN_MAP_FOLDER) && Transports(g, d, {}, {0})
    ensures g.CallDone(old(g.ram[..]), g.ram[..], b.phys, g.OffParm(4) + SIZEOF_PAGELIST, vrc, SHFL_FN_MAP_FOLDER,
                       MapFolderView(old(NameParm(g, g.ram[..], name)), wcDelimiter, fCaseSensitive))
  {
    hide Load, LinAddrs, LinBuf, StringSize, OnePageBuf, Has, Guest.Drafted, Guest.Carried, Guest.CallDone, Guest.LaidOut, Transports, LinkTransport;
    var offList := g.OffParm(4);
    var cbReq := offList + SIZEOF_PAGELIST;
    StringSizeBound(g.ram[..], name.phys);
    var cbName := StringSize(g.ram[..], name.phys);
    d := g.InitCall(b, SHFL_FN_MAP_FOLDER, 4, cbReq, cbReq);
    d := g.SetParm32(b.phys, 1, SHFL_ROOT_NIL, d);
    d := g.SetParm32(b.phys, 2, wcDelimiter, d);
    d := g.SetParm32(b.phys, 3, if fCaseSensitive then 1 else 0, d);
    if Has(g.features, HVF_CONTIGUOUS_PAGE_LIST) {
      d := SetSeparate(g, b, 0, ByList(TYPE_PAGELIST), DIR_BOTH, offList, name, cbName, d);
      CarryOnePageBoth(g, g.ram[..], d, 0, offList, name, cbName, cbReq);
    } else {
      d := SetSeparate(g, b, 0, ByAddress, DIR_TO_HOST, offList, name, cbName, d);
      CarrySeparate(g, g.ram[..], d, 0, DIR_TO_HOST, name, cbName, cbReq);
    }
    ghost var view := MapFolderView(NameParm(g, d.m0, name), wcDelimiter, fCaseSensitive);
    CarryScalars(g, g.ram[..], d, view);
    MapFolderLaid(g, d, offList);
    vrc := g.Submit(b, cbReq, d, view);
  }

  /** For one service: the two ways of mapping a folder hand it the same call,
      and agree on status, values and memory exactly when it hands the part of
      the name on its first page back as it was. */
  lemma MapFolderTransport(g: Guest, svc: Service, m: seq<byte>, name: Block, cb: nat, wcDelimiter: u16, fCaseSensitive: bool)
    requires MappedTo(g.pt, name.lin, name.phys, cb, |m|) && cb <= MAX_DATA_SIZE
    ensures var (viaList, viaAddr) := (MapFolderView(OnePageBuf(g, name, cb), wcDelimiter, fCaseSensitive),
                                       MapFolderView(LinBuf(g, DIR_TO_HOST, name.lin, cb), wcDelimiter, fCaseSensitive));
            var (x, y) := (Serve(m, svc, g.idClient, SHFL_FN_MAP_FOLDER, viaList),
                           Serve(m, svc, g.idClient, SHFL_FN_MAP_FOLDER, viaAddr));
            var data := OutData(x.outs, 0);
            && x.rc == y.rc && x.outs == y.outs
            && x.outs == svc(CallOf(m, g.idClient, SHFL_FN_MAP_FOLDER, viaList)).outs
            && (x.ram == y.ram <==>
                  forall k :: 0 <= k < |data| && k < cb && name.phys % PAGE_SIZE + k < PAGE_SIZE ==> data[k] == m[name.phys + k])
  {
    hide WriteOut, WriteBack, CallOf, LinBuf, OnePageBuf, TotalCb;
    var page, addr := OnePageBuf(g, name, cb), LinBuf(g, DIR_TO_HOST, name.lin, cb);
    var v, w := MapFolderView(page, wcDelimiter, fCaseSensitive), MapFolderView(addr, wcDelimiter, fCaseSensitive);
    NameSeen(g, m, name, cb, v, w);
    OnlyFirstTotal(v);
    OnlyFirstTotal(w);
    var outs := Serve(m, svc, g.idClient, SHFL_FN_MAP_FOLDER, v).outs;
    OnlyFirstBack(m, v, outs);
    OnlyFirstBack(m, w, outs);
    NameWritten(g, m, name, cb, outs);
  }

  function Flipped(x: byte): (y: byte)
    ensures y != x
  {
    if x == 0xFF then 0 else x + 1
  }

  /** A service that hands the first byte of the name back changed. */
  function FlipsName(): Service {
    (c: SvcCall) =>
      Reply(VINF_SUCCESS,
            [OPtr([Flipped(if |c.ins| > 0 && c.ins[0].IPtr? && |c.ins[0].data| > 0 then c.ins[0].data[0] else 0)])])
  }

  /** Two drivers get the same from mapping a folder, whatever the service, if and
      only if both or neither know the host to have contiguous page lists. */
  lemma MapFolderVisible(g1: Guest, g2: Guest, m: seq<byte>, name: Block, wcDelimiter: u16, fCaseSensitive: bool)
    requires g1.pt == g2.pt && g1.idClient == g2.idClient
    requires MappedTo(g1.pt, name.lin, name.phys, StringSize(m, name.phys), |m|)
    ensures var (v, w) := (MapFolderView(NameParm(g1, m, name), wcDelimiter, fCaseSensitive),
                           MapFolderView(NameParm(g2, m, name), wcDelimiter, fCaseSensitive));
            (forall svc: Service :: Serve(m, svc, g1.idClient, SHFL_FN_MAP_FOLDER, v)
                                 == Serve(m, svc, g2.idClient, SHFL_FN_MAP_FOLDER, w))
            <==> Has(g1.features, HVF_CONTIGUOUS_PAGE_LIST) == Has(g2.features, HVF_CONTIGUOUS_PAGE_LIST)
  {
    hide Load, Serve, StringSize, Has, LinAddrs, OnePageBuf, LinBuf;
    var cb := StringSize(m, name.phys);
    StringSizeBound(m, name.phys);
    SameNames(g1, g2, name, cb);
    FlipSeen(g1, m, name, cb, wcDelimiter, fCaseSensitive);
    if Has(g1.features, HVF_CONTIGUOUS_PAGE_LIST) != Has(g2.features, HVF_CONTIGUOUS_PAGE_LIST) {
      var (v, w) := (MapFolderView(NameParm(g1, m, name), wcDelimiter, fCaseSensitive),
                     MapFolderView(NameParm(g2, m, name), wcDelimiter, fCaseSensitive));
      assert Serve(m, FlipsName(), g1.idClient, SHFL_FN_MAP_FOLDER, v) != Serve(m, FlipsName(), g2.idClient, SHFL_FN_MAP_FOLDER, w);
    }
  }

  lemma SameNames(g1: Guest, g2: Guest, name: Block, cb: nat)
    requires g1.pt == g2.pt
    ensures OnePageBuf(g1, name, cb) == OnePageBuf(g2, name, cb)
    ensures LinBuf(g1, DIR_TO_HOST, name.lin, cb) == LinBuf(g2, DIR_TO_HOST, name.lin, cb)
  {
  }

  /** That service is where the two ways part. */
  lemma FlipSeen(g: Guest, m: seq<byte>, name: Block, cb: nat, wcDelimiter: u16, fCaseSensitive: bool)
    requires MappedTo(g.pt, name.lin, name.phys, cb, |m|) && 0 < cb <= MAX_DATA_SIZE
    ensures Serve(m, FlipsName(), g.idClient, SHFL_FN_MAP_FOLDER, MapFolderView(OnePageBuf(g, name, cb), wcDelimiter, fCaseSensitive)).ram
         != Serve(m, FlipsName(), g.idClient, SHFL_FN_MAP_FOLDER,
                  MapFolderView(LinBuf(g, DIR_TO_HOST, name.lin, cb), wcDelimiter, fCaseSensitive)).ram
  {
    hide Serve, LinAddrs;
    MapFolderTransport(g, FlipsName(), m, name, cb, wcDelimiter, fCaseSensitive);
    var view := MapFolderView(OnePageBuf(g, name, cb), wcDelimiter, fCaseSensitive);
    var call := CallOf(m, g.idClient, SHFL_FN_MAP_FOLDER, view);
    assert call.ins[0] == Input(m, view[0]);
    assert LinAddrs(g.pt, name.lin, cb)[0] == Range(name.phys, cb)[0] == name.phys;
    assert call.ins[0].data[0] == m[name.phys];
    assert FlipsName()(call).outs == [OPtr([Flipped(m[name.phys])])];
    var data := OutData(Serve(m, FlipsName(), g.idClient, SHFL_FN_MAP_FOLDER, view).outs, 0);
    assert 0 < |data| && data[0] != m[name.phys + 0];
  }

  lemma NameSeen(g: Guest, m: seq<byte>, name: Block, cb: nat, v: seq<Parm>, w: seq<Parm>)
    requires |v| == |w| == 4 && forall i :: 1 <= i < 4 ==> v[i] == w[i]
    requires v[0] == OnePageBuf(g, name, cb) && w[0] == LinBuf(g, DIR_TO_HOST, name.lin, cb)
    ensures Cb(v[0]) == Cb(w[0]) == cb
    ensures CallOf(m, g.idClient, SHFL_FN_MAP_FOLDER, v) == CallOf(m, g.idClient, SHFL_FN_MAP_FOLDER, w)
  {
    hide Gather, LinAddrs;
    assert Input(m, v[0]) == Input(m, w[0]);
  }

  lemma NameWritten(g: Guest, m: seq<byte>, name: Block, cb: nat, outs: seq<SvcOut>)
    requires MappedTo(g.pt, name.lin, name.phys, cb, |m|)
    ensures WriteOut(m, LinBuf(g, DIR_TO_HOST, name.lin, cb), outs, 0) == m
    ensures var data := OutData(outs, 0);
            WriteOut(m, OnePageBuf(g, name, cb), outs, 0) == m <==>
              forall k :: 0 <= k < |data| && k < cb && name.phys % PAGE_SIZE + k < PAGE_SIZE ==> data[k] == m[name.phys + k]
  {
    hide Scatter, LinAddrs, OutData;
    var data := OutData(outs, 0);
    var n := if |data| < cb then |data| else cb;
    var off := name.phys % PAGE_SIZE;
    var addrs := FirstPage(Range(name.phys, cb), off)[..n];
    ScatterIdle(m, [], []);
    ScatterIdle(m, addrs, data[..n]);
    forall k | 0 <= k < n ensures addrs[k] == if off + k < PAGE_SIZE then name.phys + k else SKIP {
    }
  }

  lemma OnlyFirstTotal(view: seq<Parm>)
    requires |view| == 4 && forall i :: 1 <= i < 4 ==> view[i].V32?
    ensures TotalCb(view, 0) == Cb(view[0])
  {
    assert TotalCb(view, 3) == TotalCb(view, 4) == 0;
    assert TotalCb(view, 1) == TotalCb(view, 2) == 0;
  }

  lemma OnlyFirstBack(m: seq<byte>, view: seq<Parm>, outs: seq<SvcOut>)
    requires |view| == 4 && forall i :: 1 <= i < 4 ==> view[i].V32?
    ensures WriteBack(m, view, outs, 0) == WriteOut(m, view[0], outs, 0)
  {
    var m1 := WriteOut(m, view[0], outs, 0);
    assert WriteBack(m1, view, outs, 3) == WriteBack(m1, view, outs, 4) == m1;
    assert WriteBack(m1, view, outs, 1) == WriteBack(m1, view, outs, 2) == m1;
  }

  // ----- Symbolic links -----

  function ReadLinkView(g: Guest, m: seq<byte>, idRoot: u32, buf: Block, cbBuffer: u32, b: Block): seq<Parm> {
    var offPath := g.OffParm(3) + SIZEOF_PAGELIST;
    [ V32(idRoot),
      LinBuf(g, DIR_TO_HOST, b.lin + offPath, StringSize(m, b.phys + offPath)),
      LinBuf(g, DIR_FROM_HOST, buf.lin, cbBuffer) ]
  }

  /** The request in its three sizes; without embedding nor a list, descriptors
      and request end before the list. */
  ghost predicate ReadLinkDraft(g: Guest, d: Draft, idRoot: u32, buf: Block, cbBuffer: nat, cbPath: nat, how: Choice, embedded: bool) {
    var offList := g.OffParm(3);
    var offPath := offList + SIZEOF_PAGELIST;
    && d.n == 3 && d.lists == SeparateLists(map[], how, DIR_FROM_HOST, offList, buf.phys)
    && d.cbReq == (if embedded then offPath + cbPath else if how.ByList? then offPath + SHFLSTRING_HEADER_SIZE else offList)
    && d.hi == (if d.cbReq == offList then offList else offPath)
    && d.parms == map[][0 := W32(idRoot)][1 := FieldWire(d.b, DIR_TO_HOST, offPath, cbPath, embedded)]
                       [2 := SeparateWire(how, DIR_FROM_HOST, offList, buf.lin, cbBuffer)]
  }

  lemma ReadLinkLaid(g: Guest, d: Draft, idRoot: u32, buf: Block, cbBuffer: nat, cbPath: nat, how: Choice, embedded: bool)
    requires ReadLinkDraft(g, d, idRoot, buf, cbBuffer, cbPath, how, embedded) && 0 < cbPath <= 0x1_0003
    requires embedded == Has(g.features, HVF_EMBEDDED_BUFFERS) && how == LinkChoice(g, buf.phys, cbBuffer)
    ensures g.LaidOut(d) && Transports(g, d, {1}, {}) && LinkTransport(g, d, 2, buf.phys, cbBuffer)
  {
    hide Guest.EmbeddedLaid, Guest.ListsLaid;
    OneEmbedded(g, d, 1);
    OneListLaid(g, d, 2, g.OffParm(3));
  }

  lemma ReadLinkCarried(g: Guest, m: seq<byte>, d: Draft, idRoot: u32, buf: Block, cbBuffer: u32, cbPath: nat, how: Choice, embedded: bool)
    requires ReadLinkDraft(g, d, idRoot, buf, cbBuffer, cbPath, how, embedded) && g.Drafted(m, d) && |m| == g.ram.Length
    requires how == LinkChoice(g, buf.phys, cbBuffer)
    requires var offPath := g.OffParm(3) + SIZEOF_PAGELIST;
             && cbPath == StringSize(d.m0, d.b.phys + offPath)
             && ValidBlock(g, d.b, offPath + cbPath) && Separate(g, buf, cbBuffer, d.b, offPath + cbPath)
    ensures var view := ReadLinkView(g, d.m0, idRoot, buf, cbBuffer, d.b); forall i :: 0 <= i < 3 ==> g.Carried(m, d, i, view[i])
  {
    hide Load, StringSize, LinAddrs, LinBuf, ContigList, Has, Guest.Drafted, Guest.Carried;
    var offPath := g.OffParm(3) + SIZEOF_PAGELIST;
    StringSizeBound(d.m0, d.b.phys + offPath);
    CarryScalars(g, m, d, ReadLinkView(g, d.m0, idRoot, buf, cbBuffer, d.b));
    CarryField(g, m, d, 1, DIR_TO_HOST, offPath, cbPath, offPath + cbPath);
    CarrySeparate(g, m, d, 2, DIR_FROM_HOST, buf, cbBuffer, offPath + cbPath);
  }

  method ReqReadLinkContig(g: Guest, idRoot: u32, buf: Block, cbBuffer: u32, b: Block) returns (vrc: int32, ghost d: Draft)
    requires var offPath := g.OffParm(3) + SIZEOF_PAGELIST;
             var cbBlock := offPath + StringSize(g.ram[..], b.phys + offPath);
             ValidBlock(g, b, cbBlock) && Separate(g, buf, cbBuffer, b, cbBlock)
    modifies g.ram
    ensures Request(g, d, old(g.ram[..]), b, SHFL_FN_READLINK) && Transports(g, d, {1}, {}) && LinkTransport(g, d, 2, buf.phys, cbBuffer)
    ensures g.CallDone(old(g.ram[..]), g.ram[..], b.phys, g.OffParm(3) + SIZEOF_PAGELIST, vrc, SHFL_FN_READLINK,
                       old(ReadLinkView(g, g.ram[..], idRoot, buf, cbBuffer, b)))
  {
    hide Load, StringSize, LinAddrs, LinBuf, Has, FieldWire, SeparateWire, SeparateLists, Guest.Drafted, Guest.Carried, Guest.CallDone, Guest.LaidOut, Transports, LinkTransport;
    var offList := g.OffParm(3);
    var offPath := offList + SIZEOF_PAGELIST;
    StringSizeBound(g.ram[..], b.phys + offPath);
    var cbPath := StringSize(g.ram[..], b.phys + offPath);
    var embedded, how := Has(g.features, HVF_EMBEDDED_BUFFERS), LinkChoice(g, buf.phys, cbBuffer);
    var cbReq := if embedded then offPath + cbPath
                 else if how.ByList? then offPath + SHFLSTRING_HEADER_SIZE
                 else offList;
    d := g.InitCall(b, SHFL_FN_READLINK, 3, cbReq, if cbReq == offList then offList else offPath);
    d := g.SetParm32(b.phys, 0, idRoot, d);
    d := SetField(g, b, 1, DIR_TO_HOST, offPath, cbPath, embedded, d);
    d := SetSeparate(g, b, 2, how, DIR_FROM_HOST, offList, buf, cbBuffer, d);
    ghost var view := ReadLinkView(g, d.m0, idRoot, buf, cbBuffer, b);
    ReadLinkLaid(g, d, idRoot, buf, cbBuffer, cbPath, how, embedded);
    ReadLinkCarried(g, g.ram[..], d, idRoot, buf, cbBuffer, cbPath, how, embedded);
    vrc := g.Submit(b, cbReq, d, view);
    g.CallDoneWider(d.m0, g.ram[..], b.phys, d.hi, offPath, vrc, SHFL_FN_READLINK, view);
  }

  function CreateSymlinkView(g: Guest, m: seq<byte>, idRoot: u32, target: Block, b: Block): seq<Parm> {
    var offInfo := g.OffParm(4) + SIZEOF_PAGELIST;
    var offPath := offInfo + SIZEOF_OBJINFO;
    [ V32(idRoot),
      LinBuf(g, DIR_TO_HOST, b.lin + offPath, StringSize(m, b.phys + offPath)),
      LinBuf(g, DIR_TO_HOST, target.lin, StringSize(m, target.phys)),
      LinBuf(g, DIR_FROM_HOST, b.lin + offInfo, SIZEOF_OBJINFO) ]
  }

  ghost predicate SymlinkDraft(g: Guest, d: Draft, idRoot: u32, target: Block, cbTarget: nat, cbPath: nat, how: Choice, embedded: bool) {
    var offList := g.OffParm(4);
    var offInfo := offList + SIZEOF_PAGELIST;
    var offPath := offInfo + SIZEOF_OBJINFO;
    && d.n == 4 && d.hi == offInfo && d.lists == SeparateLists(map[], how, DIR_TO_HOST, offList, target.phys)
    && d.cbReq == (if embedded then offPath + cbPath else offInfo)
    && d.parms == map[][0 := W32(idRoot)][1 := FieldWire(d.b, DIR_TO_HOST, offPath, cbPath, embedded)]
                       [2 := SeparateWire(how, DIR_TO_HOST, offList, target.lin, cbTarget)]
                       [3 := FieldWire(d.b, DIR_FROM_HOST, offInfo, SIZEOF_OBJINFO, embedded)]
  }

  lemma SymlinkLaid(g: Guest, d: Draft, idRoot: u32, target: Block, cbTarget: nat, cbPath: nat, how: Choice, embedded: bool)
    requires SymlinkDraft(g, d, idRoot, target, cbTarget, cbPath, how, embedded) && cbPath <= 0x1_0003
    requires embedded == Has(g.features, HVF_EMBEDDED_BUFFERS) && how == LinkChoice(g, target.phys, cbTarget)
    ensures g.LaidOut(d) && Transports(g, d, {1, 3}, {}) && LinkTransport(g, d, 2, target.phys, cbTarget)
  {
    hide Guest.EmbeddedLaid, Guest.ListsLaid;
    TwoEmbedded(g, d, 3, 1);
    OneListLaid(g, d, 2, g.OffParm(4));
  }

  lemma SymlinkCarried(g: Guest, m: seq<byte>, d: Draft, idRoot: u32, target: Block, cbTarget: nat, cbPath: nat, how: Choice, embedded: bool)
    requires SymlinkDraft(g, d, idRoot, target, cbTarget, cbPath, how, embedded) && g.Drafted(m, d) && |m| == g.ram.Length
    requires how == LinkChoice(g, target.phys, cbTarget)
    requires var offPath := g.OffParm(4) + SIZEOF_PAGELIST + SIZEOF_OBJINFO;
             && cbPath == StringSize(d.m0, d.b.phys + offPath) && cbTarget == StringSize(d.m0, target.phys)
             && ValidBlock(g, d.b, offPath + cbPath) && Separate(g, target, cbTarget, d.b, offPath + cbPath)
    ensures var view := CreateSymlinkView(g, d.m0, idRoot, target, d.b); forall i :: 0 <= i < 4 ==> g.Carried(m, d, i, view[i])
  {
    hide Load, StringSize, LinAddrs, LinBuf, ContigList, Has, Guest.Drafted, Guest.Carried;
    var offInfo := g.OffParm(4) + SIZEOF_PAGELIST;
    var offPath := offInfo + SIZEOF_OBJINFO;
    StringSizeBound(d.m0, d.b.phys + offPath);
    CarryScalars(g, m, d, CreateSymlinkView(g, d.m0, idRoot, target, d.b));
    CarryField(g, m, d, 1, DIR_TO_HOST, offPath, cbPath, offPath + cbPath);
    CarrySeparate(g, m, d, 2, DIR_TO_HOST, target, cbTarget, offPath + cbPath);
    CarryField(g, m, d, 3, DIR_FROM_HOST, offInfo, SIZEOF_OBJINFO, offPath + cbPath);
  }

  method ReqCreateSymlinkContig(g: Guest, idRoot: u32, target: Block, b: Block) returns (vrc: int32, ghost d: Draft)
    requires var offPath := g.OffParm(4) + SIZEOF_PAGELIST + SIZEOF_OBJINFO;
             var cbBlock := offPath + StringSize(g.ram[..], b.phys + offPath);
             ValidBlock(g, b, cbBlock) && Separate(g, target, StringSize(g.ram[..], target.phys), b, cbBlock)
    modifies g.ram
    ensures Request(g, d, old(g.ram[..]), b, SHFL_FN_SYMLINK) && Transports(g, d, {1, 3}, {})
    ensures LinkTransport(g, d, 2, target.phys, StringSize(old(g.ram[..]), target.phys))
    ensures g.CallDone(old(g.ram[..]), g.ram[..], b.phys, g.OffParm(4) + SIZEOF_PAGELIST, vrc, SHFL_FN_SYMLINK,
                       old(CreateSymlinkView(g, g.ram[..], idRoot, target, b)))
  {
    hide Load, StringSize, LinAddrs, LinBuf, Has, FieldWire, SeparateWire, SeparateLists, Guest.Drafted, Guest.Carried, Guest.CallDone, Guest.LaidOut, Transports, LinkTransport;
    var offList := g.OffParm(4);
    var offInfo := offList + SIZEOF_PAGELIST;
    var offPath := offInfo + SIZEOF_OBJINFO;
    StringSizeBound(g.ram[..], b.phys + offPath);
    StringSizeBound(g.ram[..], target.phys);
    var cbPath, cbTarget := StringSize(g.ram[..], b.phys + offPath), StringSize(g.ram[..], target.phys);
    var embedded, how := Has(g.features, HVF_EMBEDDED_BUFFERS), LinkChoice(g, target.phys, cbTarget);
    var cbReq := if embedded then offPath + cbPath else offInfo;
    d := g.InitCall(b, SHFL_FN_SYMLINK, 4, cbReq, offInfo);
    d := g.SetParm32(b.phys, 0, idRoot, d);
    d := SetField(g, b, 1, DIR_TO_HOST, offPath, cbPath, embedded, d);
    d := SetSeparate(g, b, 2, how, DIR_TO_HOST, offList, target, cbTarget, d);
    d := SetField(g, b, 3, DIR_FROM_HOST, offInfo, SIZEOF_OBJINFO, embedded, d);
    SymlinkLaid(g, d, idRoot, target, cbTarget, cbPath, how, embedded);
    SymlinkCarried(g, g.ram[..], d, idRoot, target, cbTarget, cbPath, how, embedded);
    vrc := g.Submit(b, cbReq, d, CreateSymlinkView(g, d.m0, idRoot, target, b));
  }
}
