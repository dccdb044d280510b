/** Reading and writing through a page list of any length that the caller has
    put into the request, whatever it holds. */
module PageListIo {
  import opened Bytes
  import opened Hgcm
  import opened PageLists
  import opened Transport
  import opened Marshal
  import opened Carry
  import opened SharedFolders
  import opened FileIo
  import opened Delivery

  /** Size of a page list without its pages, and the most pages it can count. */
  const PAGELIST_HEADER_SIZE: nat := 8
  const UINT16_MAX: nat := 0xFFFF

  /** The caller's list: its pages, and where on the first the buffer starts. */
  function CallerPages(g: Guest, m: seq<byte>, b: Block, cPages: nat): (r: seq<nat>)
    ensures |r| == cPages
  {
    PagesAt(m, b.phys + g.OffParm(5), cPages)
  }

  function CallerOffset(g: Guest, m: seq<byte>, b: Block): nat {
    Load(m, b.phys + g.OffParm(5) + 4, 2)
  }

  /** Where the request, with cPages pages, ends. */
  function ListEnd(g: Guest, cPages: nat): nat {
    g.OffParm(5) + PAGELIST_HEADER_SIZE + 8 * cPages
  }

  /** The page list type the features select. */
  function ListType(g: Guest): nat {
    if Has(g.features, HVF_NO_BOUNCE_PAGE_LIST) then TYPE_NO_BOUNCE_PAGELIST else TYPE_PAGELIST
  }

  /** Why the host refuses the list, if it does: it is empty or starts beyond its
      first page; or, when it is not to bounce the buffer, its pages are not as
      many as the buffer has or not aligned, but for the first, which may carry
      the offset. */
  function Refusal(g: Guest, pages: seq<nat>, off: nat, cb: nat): Option<int32> {
    if |pages| == 0 || off >= PAGE_SIZE then Some(VERR_INVALID_PARAMETER)
    else if ListType(g) != TYPE_NO_BOUNCE_PAGELIST then None
    else if |pages| != PageCount(off, cb) then Some(VERR_INVALID_PARAMETER)
    else if (pages[0] % PAGE_SIZE == 0 || pages[0] % PAGE_SIZE == off) && Aligned(pages[1..]) then None
    else Some(if cb > MAX_DATA_SIZE then VERR_INVALID_PARAMETER else VERR_INVALID_POINTER)
  }

  predicate Aligned(pages: seq<nat>) {
    forall i :: 0 <= i < |pages| ==> pages[i] % PAGE_SIZE == 0
  }

  /** What the listed buffer is to the service. */
  function ListParm(g: Guest, pages: seq<nat>, off: nat, dir: nat, cb: nat): Parm
    requires off < PAGE_SIZE
  {
    View(GBuf(PageKind(ListType(g)), cb, dir, off, pages), 0)
  }

  /** No listed byte lies in the request. */
  ghost predicate Clear(v: Parm, b: Block, end: nat) {
    v.VPtr? && Outside(v.rd, b.phys, b.phys + end) && Outside(v.wr, b.phys, b.phys + end)
  }

  /** The draft with the caller's list behind the parameters. */
  ghost predicate ListDraft(g: Guest, d: Draft, cb: nat, cPages: nat) {
    && d.n == 5 && d.hi == d.cbReq == ListEnd(g, cPages) && d.lists == map[g.OffParm(5) := Pages(cPages)]
    && 4 in d.parms && d.parms[4] == WPageList(ListType(g), cb, g.OffParm(5) - SIZEOF_FASTCALL)
    && forall i :: i in d.parms && i != 4 ==> d.parms[i].W32? || d.parms[i].W64?
  }

  lemma ListDraftLaid(g: Guest, d: Draft, cb: nat, cPages: nat)
    requires ListDraft(g, d, cb, cPages)
    ensures g.LaidOut(d) && ListTransport(g, d)
  {
    hide Guest.EmbeddedLaid, Guest.ListsLaid;
    OneEmbedded(g, d, 4);
    OneListLaid(g, d, 4, g.OffParm(5));
  }

  /** The request as the host is to serve it on the list. */
  function PgLstView(g: Guest, way: Way, idRoot: u32, hFile: u64, offFile: u64, cb: u32, pages: seq<nat>, off: nat): seq<Parm>
    requires off < PAGE_SIZE
  {
    TransferView(idRoot, hFile, offFile, cb, ListParm(g, pages, off, way.Dir(), cb))
  }

  /** The pages the block has to have room for: a count that does not fit is not
      gone by. */
  function Fitting(cPages: nat): nat {
    if cPages <= UINT16_MAX then cPages else 0
  }

  /** The list is one not to be bounced just when the host announced to take them. */
  ghost predicate ListTransport(g: Guest, d: Draft) {
    4 in d.parms && d.parms[4].WPageList? && d.parms[4].ty == if Has(g.features, HVF_NO_BOUNCE_PAGE_LIST) then 13 else 10
  }

  method ReqTransferPgLst(g: Guest, way: Way, idRoot: u32, b: Block, hFile: u64, off: u64, cb: u32, cPages: u32)
    returns (vrc: int32, ghost d: Draft)
    requires ValidBlock(g, b, ListEnd(g, Fitting(cPages)))
    requires var (pages, offFirst) := (CallerPages(g, g.ram[..], b, cPages), CallerOffset(g, g.ram[..], b));
             cPages <= UINT16_MAX && Refusal(g, pages, offFirst, cb).None? ==>
               Clear(ListParm(g, pages, offFirst, way.Dir(), cb), b, ListEnd(g, cPages))
    modifies g.ram
    ensures cPages <= UINT16_MAX ==> Request(g, d, old(g.ram[..]), b, way.Fn()) && ListTransport(g, d)
    ensures PgLstDone(g, old(g.ram[..]), g.ram[..], vrc, way, idRoot, b, hFile, off, cb, cPages)
  {
    hide Load, Has, ListParm, Refusal, SameOutside, LinAddrs, CallerPages, CallerOffset, ListType, ListInPlace, Clear;
    hide ListTransport, Guest.Drafted, Guest.Carried, Guest.CallDone, Guest.LaidOut, Guest.AnswerTo;
    ghost var m0 := g.ram[..];
    ghost var pages, offFirst := CallerPages(g, m0, b, cPages), CallerOffset(g, m0, b);
    var cbReq, ty := ListEnd(g, cPages) % 0x1_0000_0000, ListType(g);
    d := g.InitCall(b, way.Fn(), 5, cbReq, g.OffParm(5));
    d := SetTransfer(g, b, idRoot, hFile, off, cb, d);
    ListTypeIs(g);
    d := g.SetPageListParm(b.phys, 4, ty, cb, g.OffParm(5) - SIZEOF_FASTCALL, d);
    d := SetListHeader(g, b, way.Dir(), cPages % 0x1_0000, d, Fitting(cPages));
    if cPages > UINT16_MAX {
      return VERR_OUT_OF_RANGE, d;
    }
    ListDraftLaid(g, d, cb, cPages);
    ghost var bad := Refusal(g, pages, offFirst, cb);
    ghost var buf := V32(0);
    if bad.None? {
      RefusalOffset(g, pages, offFirst, cb);
      buf := ListParm(g, pages, offFirst, way.Dir(), cb);
    }
    ghost var view := TransferView(idRoot, hFile, off, cb, buf);
    ListEither(g, g.ram[..], d, view, way.Dir(), cb, cPages);
    vrc := g.Submit(b, cbReq, d, view, bad);
  }

  /** From memory m0 to m the request was dealt with as the caller's list asks. */
  ghost predicate PgLstDone(g: Guest, m0: seq<byte>, m: seq<byte>, vrc: int32, way: Way, idRoot: u32, b: Block, hFile: u64, off: u64,
                            cb: u32, cPages: u32) {
    var (pages, offFirst) := (CallerPages(g, m0, b, cPages), CallerOffset(g, m0, b));
    if cPages > UINT16_MAX then
      vrc == VERR_OUT_OF_RANGE && SameOutside(m0, m, b.phys, b.phys + ListEnd(g, 0))
    else match Refusal(g, pages, offFirst, cb)
      case Some(rc) => vrc == g.RefusedStatus(rc) && SameOutside(m0, m, b.phys, b.phys + ListEnd(g, cPages))
      case None =>
        g.CallDone(m0, m, b.phys, ListEnd(g, cPages), vrc, way.Fn(),
                   PgLstView(g, way, idRoot, hFile, off, cb, pages, offFirst))
  }

  /** What the driver gets of a transfer through a list: nothing is submitted when
      its count does not fit; else the host refuses the list or serves the call. */
  function PgLstAnswer(g: Guest, svc: Service, m: seq<byte>, way: Way, idRoot: u32, hFile: u64, offFile: u64, cb: u32,
                       pages: seq<nat>, off: nat): Answer {
    if |pages| > UINT16_MAX then Answer(VERR_OUT_OF_RANGE, m, [])
    else match Refusal(g, pages, off, cb)
      case Some(rc) => g.RefusedAnswer(m, rc)
      case None => g.AnswerTo(m, svc, way.Fn(), PgLstView(g, way, idRoot, hFile, offFile, cb, pages, off))
  }

  /** That is what the request above comes to. */
  lemma DoneIsPgLstAnswer(g: Guest, m0: seq<byte>, m: seq<byte>, vrc: int32, way: Way, idRoot: u32, b: Block, hFile: u64, off: u64,
                          cb: u32, cPages: u32)
    requires PgLstDone(g, m0, m, vrc, way, idRoot, b, hFile, off, cb, cPages)
    ensures var want := PgLstAnswer(g, g.svc, m0, way, idRoot, hFile, off, cb, CallerPages(g, m0, b, cPages), CallerOffset(g, m0, b));
            vrc == want.vrc && SameOutside(want.ram, m, b.phys, b.phys + ListEnd(g, Fitting(cPages)))
  {
    hide Load, Refusal, ListParm, SameOutside, CallerOffset, Guest.CallDone, Guest.AnswerTo;
    var (pages, offFirst) := (CallerPages(g, m0, b, cPages), CallerOffset(g, m0, b));
    if cPages <= UINT16_MAX && Refusal(g, pages, offFirst, cb).None? {
      RefusalOffset(g, pages, offFirst, cb);
      g.DoneIsAnswer(m0, m, b.phys, ListEnd(g, cPages), vrc, way.Fn(), PgLstView(g, way, idRoot, hFile, off, cb, pages, offFirst));
    }
  }

  /** The host refuses the list, or the request carries it. */
  lemma ListEither(g: Guest, m: seq<byte>, d: Draft, view: seq<Parm>, dir: nat, cb: nat, cPages: nat)
    requires ListDraft(g, d, cb, cPages) && ListInPlace(g, m, d, dir, cPages, cPages) && DirectionValid(dir)
    requires g.Drafted(m, d) && ValuesFor(d, view) && cPages <= UINT16_MAX && d.b.phys + d.cbReq <= |m|
    requires var (pages, off) := (CallerPages(g, d.m0, d.b, cPages), CallerOffset(g, d.m0, d.b));
             Refusal(g, pages, off, cb).None? ==>
               off < PAGE_SIZE && view[4] == ListParm(g, pages, off, dir, cb) && Clear(view[4], d.b, d.cbReq)
    ensures match Refusal(g, CallerPages(g, d.m0, d.b, cPages), CallerOffset(g, d.m0, d.b), cb)
            case Some(rc) => rc < 0 && HostParse(m, g.pt, d.b.phys + SIZEOF_FASTCALL) == Err(rc)
            case None => forall i :: 0 <= i < 5 ==> g.Carried(m, d, i, view[i])
  {
    hide Load, ScalarFor, ListInPlace, Refusal, ListParm, Clear, CallerPages, CallerOffset, Guest.Drafted, Guest.Carried;
    if Refusal(g, CallerPages(g, d.m0, d.b, cPages), CallerOffset(g, d.m0, d.b), cb).Some? {
      RefusedList(g, m, d, view, dir, cb, cPages);
    } else {
      TakenList(g, m, d, view, dir, cb, cPages);
    }
  }

  lemma ListTypeIs(g: Guest)
    ensures ListType(g) == TYPE_PAGELIST || ListType(g) == TYPE_NO_BOUNCE_PAGELIST
  {
  }

  lemma RefusalOffset(g: Guest, pages: seq<nat>, off: nat, cb: nat)
    requires Refusal(g, pages, off, cb).None?
    ensures off < PAGE_SIZE
  {
  }

  // ----- The list's header -----

  /** The list is the caller's, with direction and count filled in. */
  ghost predicate ListInPlace(g: Guest, m: seq<byte>, d: Draft, dir: nat, count: nat, cPages: nat) {
    var a := d.b.phys + g.OffParm(5);
    && Load(m, a, 4) == dir && Load(m, a + 6, 2) == count
    && CallerOffset(g, m, d.b) == CallerOffset(g, d.m0, d.b)
    && CallerPages(g, m, d.b, cPages) == CallerPages(g, d.m0, d.b, cPages)
  }

  /** Writes the list's direction and count, which keeps the caller's pages. */
  method SetListHeader(g: Guest, b: Block, dir: nat, count: u16, ghost d: Draft, ghost cPages: nat) returns (ghost e: Draft)
    requires b == d.b && g.Drafted(g.ram[..], d) && d.n == 5 && d.hi == g.OffParm(5) && d.lists == map[]
    requires b.phys + ListEnd(g, cPages) <= g.ram.Length && DirectionValid(dir)
    modifies g.ram
    ensures e == d.(hi := ListEnd(g, cPages), lists := if count == cPages then map[g.OffParm(5) := Pages(cPages)] else map[])
    ensures SameOutside(d.m0, g.ram[..], b.phys, b.phys + ListEnd(g, 0))
    ensures g.Drafted(g.ram[..], e) && ListInPlace(g, g.ram[..], e, dir, count, cPages)
  {
    hide Load, WireParmAt, SameOutside, Guest.Drafted;
    var a := b.phys + g.OffParm(5);
    ghost var m := g.ram[..];
    CallersKept(g, m, d, cPages);
    DraftSame(g, m, d, ListEnd(g, 0));
    Widened(g, m, d, cPages);
    e := d.(hi := ListEnd(g, cPages));
    g.Store32(a, dir);
    HeaderStored(g, m, g.ram[..], e, a, a + 4);
    ghost var m1 := g.ram[..];
    g.Store16(a + 6, count);
    HeaderStored(g, m1, g.ram[..], e, a + 6, a + 8);
    if count == cPages {
      e := WithList(g, g.ram[..], e, cPages);
    }
  }

  lemma WithList(g: Guest, m: seq<byte>, d: Draft, cPages: nat) returns (e: Draft)
    requires g.Drafted(m, d) && d.n == 5 && d.hi == ListEnd(g, cPages) && d.lists == map[]
    requires Load(m, d.b.phys + g.OffParm(5) + 6, 2) == cPages
    ensures e == d.(lists := map[g.OffParm(5) := Pages(cPages)]) && g.Drafted(m, e)
  {
    hide Load, WireParmAt, SameOutside;
    e := d.(lists := map[g.OffParm(5) := Pages(cPages)]);
  }

  lemma CallersKept(g: Guest, m: seq<byte>, d: Draft, cPages: nat)
    requires g.Drafted(m, d) && d.hi == g.OffParm(5)
    ensures CallerOffset(g, m, d.b) == CallerOffset(g, d.m0, d.b)
    ensures CallerPages(g, m, d.b, cPages) == CallerPages(g, d.m0, d.b, cPages)
  {
    hide Load, WireParmAt;
    var a := d.b.phys + g.OffParm(5);
    LoadFrame(d.m0, m, a + 4, 2);
    forall i | 0 <= i < cPages ensures Load(m, a + 8 + 8 * i, 8) == Load(d.m0, a + 8 + 8 * i, 8) {
      LoadFrame(d.m0, m, a + 8 + 8 * i, 8);
    }
  }

  lemma DraftSame(g: Guest, m: seq<byte>, d: Draft, wide: nat)
    requires g.Drafted(m, d) && d.hi <= wide
    ensures SameOutside(d.m0, m, d.b.phys, d.b.phys + wide)
  {
    hide Load, WireParmAt, SameOutside;
    SameWider(d.m0, m, d.b.phys, d.b.phys + d.hi, d.b.phys + wide);
  }

  lemma Widened(g: Guest, m: seq<byte>, d: Draft, cPages: nat)
    requires g.Drafted(m, d) && d.hi == g.OffParm(5) && d.b.phys + ListEnd(g, cPages) <= |m| && d.lists == map[]
    ensures g.Drafted(m, d.(hi := ListEnd(g, cPages)))
  {
    hide Load, WireParmAt, SameOutside;
    SameWider(d.m0, m, d.b.phys, d.b.phys + d.hi, d.b.phys + ListEnd(g, cPages));
  }

  lemma HeaderStored(g: Guest, m: seq<byte>, t: seq<byte>, d: Draft, lo: nat, hi: nat)
    requires g.Drafted(m, d) && d.n == 5 && d.lists == map[] && Wrote(m, t, lo, hi)
    requires d.b.phys + g.OffParm(5) <= lo && hi <= d.b.phys + d.hi
    ensures g.Drafted(t, d)
  {
    hide Load, WireParmAt, SameOutside, Wrote, Guest.HeaderLeads, CarriesHeader;
    forall i | i in d.parms ensures g.OffParm(i) + SizeofParm(g.is64) <= g.OffParm(5) {
      g.ParmsApart(i, 5);
    }
    g.DraftKept(m, t, d, lo, hi);
  }

  // ----- What the host makes of the list -----

  /** Whatever the caller's list holds, the host refuses it for the stated reason
      or takes its pages and offset as they are. */
  lemma ListResolved(g: Guest, m: seq<byte>, d: Draft, dir: nat, cb: nat, cPages: nat)
    requires ListDraft(g, d, cb, cPages) && ListInPlace(g, m, d, dir, cPages, cPages) && DirectionValid(dir)
    ensures var (gc, o) := (d.b.phys + SIZEOF_FASTCALL, g.OffParm(5) - SIZEOF_FASTCALL);
            var (pages, off) := (CallerPages(g, d.m0, d.b, cPages), CallerOffset(g, d.m0, d.b));
            match ResolvePageList(m, gc, d.cbReq - SIZEOF_FASTCALL, o, ListType(g), cb, o)
            case Ok(r) => Refusal(g, pages, off, cb).None? && r == GBuf(PageKind(ListType(g)), cb, dir, off, pages)
            case Err(rc) =>
              Refusal(g, pages, off, cb) == Some(if cb > MAX_DATA_SIZE then VERR_INVALID_PARAMETER else rc) && rc < 0
  {
    hide Load, Has;
    var pages := CallerPages(g, d.m0, d.b, cPages);
    assert |pages| > 0 ==> (Aligned(pages[1..]) <==> forall i :: 1 <= i < cPages ==> pages[i] % PAGE_SIZE == 0) by {
      if |pages| > 0 && Aligned(pages[1..]) {
        forall i | 1 <= i < cPages ensures pages[i] % PAGE_SIZE == 0 {
          assert pages[1..][i - 1] == pages[i];
        }
      }
    }
  }

  lemma TakenList(g: Guest, m: seq<byte>, d: Draft, view: seq<Parm>, dir: nat, cb: nat, cPages: nat)
    requires ListDraft(g, d, cb, cPages) && ListInPlace(g, m, d, dir, cPages, cPages) && DirectionValid(dir)
    requires g.Drafted(m, d) && ValuesFor(d, view)
    requires var (pages, off) := (CallerPages(g, d.m0, d.b, cPages), CallerOffset(g, d.m0, d.b));
             && Refusal(g, pages, off, cb).None? && off < PAGE_SIZE
             && view[4] == ListParm(g, pages, off, dir, cb) && Clear(view[4], d.b, d.cbReq)
    ensures forall i :: 0 <= i < 5 ==> g.Carried(m, d, i, view[i])
  {
    hide Load, ScalarFor, ListInPlace, Refusal, ListParm, Clear, Guest.Drafted, Guest.Carried;
    CarryScalars(g, m, d, view);
    ListCarried(g, m, d, view[4], dir, cb, cPages);
  }

  lemma ListCarried(g: Guest, m: seq<byte>, d: Draft, v: Parm, dir: nat, cb: nat, cPages: nat)
    requires ListDraft(g, d, cb, cPages) && ListInPlace(g, m, d, dir, cPages, cPages) && DirectionValid(dir)
    requires g.Drafted(m, d)
    requires var (pages, off) := (CallerPages(g, d.m0, d.b, cPages), CallerOffset(g, d.m0, d.b));
             Refusal(g, pages, off, cb).None? && off < PAGE_SIZE && v == ListParm(g, pages, off, dir, cb)
    requires Clear(v, d.b, d.cbReq)
    ensures g.Carried(m, d, 4, v)
  {
    hide WireParmAt, Load, SameOutside, ResolvePageList, View, Refusal, ListType, ListInPlace;
    var area := g.RequestArea(d.b.phys, d.hi, d.cbReq);
    assert area.Slot(4) == d.b.phys + g.OffParm(4) && area.Slot(5) == d.b.phys + g.OffParm(5);
    ListResolved(g, m, d, dir, cb, cPages);
    ListTypeIs(g);
    var gb := GBuf(PageKind(ListType(g)), cb, dir, CallerOffset(g, d.m0, d.b), CallerPages(g, d.m0, d.b, cPages));
    ViewAnywhere(gb, area.gc);
  }

  lemma ViewAnywhere(gb: GuestParm, gc: nat)
    requires gb.GBuf? && gb.kind != Embedded && gb.off < PAGE_SIZE
    ensures View(gb, gc) == View(gb, 0) && View(gb, gc).VPtr? && View(gb, gc).cb == gb.cb
  {
  }

  lemma RefusedList(g: Guest, m: seq<byte>, d: Draft, view: seq<Parm>, dir: nat, cb: nat, cPages: nat)
    requires ListDraft(g, d, cb, cPages) && ListInPlace(g, m, d, dir, cPages, cPages) && DirectionValid(dir)
    requires g.Drafted(m, d) && ValuesFor(d, view) && cPages <= UINT16_MAX && d.b.phys + d.cbReq <= |m|
    requires Refusal(g, CallerPages(g, d.m0, d.b, cPages), CallerOffset(g, d.m0, d.b), cb).Some?
    ensures var rc := Refusal(g, CallerPages(g, d.m0, d.b, cPages), CallerOffset(g, d.m0, d.b), cb).value;
            rc < 0 && HostParse(m, g.pt, d.b.phys + SIZEOF_FASTCALL) == Err(rc)
  {
    hide WireParmAt, Load, SameOutside, ResolvePageList, Refusal, ListType, ListInPlace, PagesAt, WireTotal;
    var area := g.RequestArea(d.b.phys, d.hi, d.cbReq);
    assert area.Slot(4) == d.b.phys + g.OffParm(4) && area.Slot(5) == d.b.phys + g.OffParm(5);
    ListResolved(g, m, d, dir, cb, cPages);
    ListTypeIs(g);
    forall j | 0 <= j < 4 ensures WireParmAt(m, area.Slot(j), g.is64).W32? || WireParmAt(m, area.Slot(j), g.is64).W64? {
      assert j in d.parms && area.Slot(j) == d.b.phys + g.OffParm(j);
    }
    ValuesHaveNoSize(m, area);
    var r := ResolvePageList(m, area.gc, area.cbCall, area.Slot(5) - area.gc, ListType(g), cb, g.OffParm(5) - SIZEOF_FASTCALL);
    Rejected(m, g.pt, area, g.idClient, d.fn, 5, 4, r.rc);
  }

  lemma ValuesHaveNoSize(m: seq<byte>, area: Area)
    requires forall j :: 0 <= j < 4 ==> WireParmAt(m, area.Slot(j), area.is64).W32? || WireParmAt(m, area.Slot(j), area.is64).W64?
    ensures WireTotal(m, area, 0, 5) == WireParmAt(m, area.Slot(4), area.is64).Size()
  {
    hide WireParmAt, Area.Slot;
    assert WireTotal(m, area, 4, 5) == WireParmAt(m, area.Slot(4), area.is64).Size() + WireTotal(m, area, 5, 5);
    assert WireTotal(m, area, 2, 5) == WireTotal(m, area, 3, 5) == WireTotal(m, area, 4, 5);
    assert WireTotal(m, area, 0, 5) == WireTotal(m, area, 1, 5) == WireTotal(m, area, 2, 5);
  }

  // ----- What lists stand for -----

  /** A full list stands for its bytes page by page, bouncing or not; without
      bouncing the service also finds what the guest left in them. */
  lemma ListDenotes(g: Guest, pages: seq<nat>, off: nat, dir: nat, cb: nat)
    requires FullList(pages, off, cb)
    ensures ListParm(g, pages, off, dir, cb)
         == VPtr(cb, if ToHost(dir) || ListType(g) == TYPE_NO_BOUNCE_PAGELIST then PageBytes(pages, off, cb) else [],
                     if FromHost(dir) then PageBytes(pages, off, cb) else [])
  {
    hide PageBytes, OrOffset, Has;
    assert Frames(pages) == pages;
    ListTypeIs(g);
    if IsContiguous(pages) {
      ShortcutRefines(pages, off, cb);
    }
  }

  /** A list whose first entry carries its offset, as its type without bouncing
      allows, stands for the right bytes there. A plain list of that kind writes
      all that belongs on its first page beyond where it should, by that offset,
      and reads it from there too unless it has a single page, which the shortcut
      joins with the offset instead of adding it. So it writes the right bytes
      exactly when the first entry carries no offset, and reads them exactly when
      it carries none or is the only one. */
  lemma OffsetInFirst(pages: seq<nat>, off: nat, cb: nat)
    requires FullList(Frames(pages), off, cb) && 0 < cb && |pages| > 0
    requires (pages[0] % PAGE_SIZE == 0 || pages[0] % PAGE_SIZE == off) && Aligned(pages[1..])
    ensures var g := GBuf(NoBounce, cb, DIR_BOTH, off, pages);
            ReadAddrs(g, 0) == WriteAddrs(g, 0) == PageBytes(Frames(pages), off, cb)
    ensures var g := GBuf(PageList, cb, DIR_BOTH, off, pages);
            && (WriteAddrs(g, 0) == PageBytes(Frames(pages), off, cb) <==> pages[0] % PAGE_SIZE == 0)
            && (ReadAddrs(g, 0) == PageBytes(Frames(pages), off, cb) <==> pages[0] % PAGE_SIZE == 0 || |pages| == 1)
            && (forall k :: 0 <= k < cb ==>
                  WriteAddrs(g, 0)[k] == PageByte(Frames(pages), off, k) + if off + k < PAGE_SIZE then pages[0] % PAGE_SIZE else 0)
            && (pages[0] % PAGE_SIZE != 0 && |pages| > 1 ==> ReadAddrs(g, 0) == WriteAddrs(g, 0))
  {
    hide OrOffset;
    var g := GBuf(PageList, cb, DIR_BOTH, off, pages);
    PlainWrites(pages, off, cb);
    if pages[0] % PAGE_SIZE != 0 {
      assert WriteAddrs(g, 0)[0] != PageBytes(Frames(pages), off, cb)[0];
    }
    if |pages| == 1 {
      SinglePage(pages[0], off, cb);
    } else if pages[0] % PAGE_SIZE != 0 {
      NotContiguous(pages);
    } else {
      AllAligned(pages);
      if IsContiguous(pages) {
        ShortcutRefines(pages, off, cb);
      }
    }
  }

  lemma PlainWrites(pages: seq<nat>, off: nat, cb: nat)
    requires FullList(Frames(pages), off, cb) && |pages| > 0 && Aligned(pages[1..])
    ensures forall k :: 0 <= k < cb ==>
              PageByte(pages, off, k) == PageByte(Frames(pages), off, k) + if off + k < PAGE_SIZE then pages[0] % PAGE_SIZE else 0
  {
    forall k | 0 <= k < cb
      ensures PageByte(pages, off, k) == PageByte(Frames(pages), off, k) + if off + k < PAGE_SIZE then pages[0] % PAGE_SIZE else 0
    {
      var i := (off + k) / PAGE_SIZE;
      PageAt(Frames(pages), off, cb, k);
      if i > 0 {
        assert pages[1..][i - 1] == pages[i];
      }
    }
  }

  lemma {:induction false} BitOrSame(x: nat)
    ensures BitOr(x, x) == x
  {
    if x > 0 {
      BitOrSame(x / 2);
    }
  }

  lemma SinglePage(page: nat, off: nat, cb: nat)
    requires FullList(Frames([page]), off, cb) && (page % PAGE_SIZE == 0 || page % PAGE_SIZE == off)
    ensures Range(OrOffset(page, off), cb) == PageBytes(Frames([page]), off, cb) && IsContiguous([page])
  {
    BitOrSame(off);
    assert OrOffset(page, off) == page - page % PAGE_SIZE + off;
    forall k | 0 <= k < cb ensures PageByte(Frames([page]), off, k) == page - page % PAGE_SIZE + off + k {
      PageAt(Frames([page]), off, cb, k);
    }
  }

  lemma NotContiguous(pages: seq<nat>)
    requires |pages| > 1 && pages[0] % PAGE_SIZE != 0 && Aligned(pages[1..])
    ensures !IsContiguous(pages)
  {
    assert pages[1..][0] == pages[1];
    assert (pages[0] + 1 * PAGE_SIZE) % 0x1_0000_0000_0000_0000 % PAGE_SIZE == pages[0] % PAGE_SIZE;
  }

  lemma AllAligned(pages: seq<nat>)
    requires |pages| > 0 && pages[0] % PAGE_SIZE == 0 && Aligned(pages[1..])
    ensures Frames(pages) == pages
  {
    forall i | 1 <= i < |pages| ensures pages[i] % PAGE_SIZE == 0 {
      assert pages[1..][i - 1] == pages[i];
    }
  }

  /** A list of the pages under a linear buffer describes that buffer's bytes and
      is one every host takes, if it gets there: the buffer must not span more
      pages than the count can hold. */
  lemma ListOfLinear(g: Guest, dir: nat, lin: nat, cb: u32)
    requires cb > 0 && Mapped(g.pt, lin, cb, g.ram.Length)
    ensures var (pages, off) := (LinPages(g.pt, lin, cb), lin % PAGE_SIZE);
            && Refusal(g, pages, off, cb).None?
            && (|pages| <= UINT16_MAX <==> off + cb <= UINT16_MAX * PAGE_SIZE)
            && (ToHost(dir) || ListType(g) == TYPE_PAGELIST ==> ListParm(g, pages, off, dir, cb) == LinBuf(g, dir, lin, cb))
  {
    hide PageBytes, LinPages, LinAddrs;
    LinPagesFull(g.pt, lin, cb, g.ram.Length);
    var (pages, off) := (LinPages(g.pt, lin, cb), lin % PAGE_SIZE);
    ListDenotes(g, pages, off, dir, cb);
    assert Aligned(pages[1..]) by {
      forall i | 0 <= i < |pages[1..]| ensures pages[1..][i] % PAGE_SIZE == 0 {
        assert pages[1..][i] == pages[i + 1];
      }
    }
  }

  /** Served on a full list of different pages of RAM, the transfer moves their
      bytes page by page, in order. */
  lemma PgLstDelivers(g: Guest, m0: seq<byte>, m: seq<byte>, vrc: int32, way: Way, idRoot: u32, b: Block, hFile: u64, off: u64,
                      cb: u32, cPages: u32, pages: seq<nat>, offFirst: nat)
    requires PgLstDone(g, m0, m, vrc, way, idRoot, b, hFile, off, cb, cPages)
    requires pages == CallerPages(g, m0, b, cPages) && offFirst == CallerOffset(g, m0, b) && FullList(pages, offFirst, cb)
    requires cPages <= UINT16_MAX && cb <= MAX_DATA_SIZE && Refusal(g, pages, offFirst, cb).None?
    requires Clear(ListParm(g, pages, offFirst, way.Dir(), cb), b, ListEnd(g, cPages))
    requires forall i, l :: 0 <= i < l < |pages| ==> pages[i] != pages[l]
    requires forall i :: 0 <= i < |pages| ==> pages[i] + PAGE_SIZE <= |m0|
    ensures (forall k :: 0 <= k < cb ==> 0 <= PageBytes(pages, offFirst, cb)[k] < |m0|) && |m| == |m0|
    ensures Transferred(g, m0, m, b.phys, vrc, way, idRoot, hFile, off, cb, PageBytes(pages, offFirst, cb),
                        way.Write? || ListType(g) == TYPE_NO_BOUNCE_PAGELIST)
  {
    hide Transferred, Refusal, ListType, CallerPages, CallerOffset, ListParm, PageByte, Guest.CallDone;
    var addrs := PageBytes(pages, offFirst, cb);
    var sees := way.Write? || ListType(g) == TYPE_NO_BOUNCE_PAGELIST;
    forall k | 0 <= k < cb ensures 0 <= addrs[k] < |m0| {
      PageAt(pages, offFirst, cb, k);
    }
    forall j, k | 0 <= j < k < cb ensures addrs[j] != addrs[k] {
      BytesDistinct(pages, offFirst, cb, j, k);
    }
    ListDenotes(g, pages, offFirst, way.Dir(), cb);
    DirIs(way);
    ViewIs(g, way, idRoot, hFile, off, cb, pages, offFirst);
    TransferDelivers(g, m0, m, b.phys, ListEnd(g, cPages), vrc, way, idRoot, hFile, off, cb, addrs, sees);
  }

  // ----- Who can tell -----

  /** A service that tells whether it finds anything in the buffer. */
  function Peeks(): Service {
    (c: SvcCall) =>
      Reply(if |c.ins| == 5 && c.ins[4].IPtr? && c.ins[4].data != seq(|c.ins[4].data|, _ => 0 as byte) then 1 else 0, [])
  }

  /** For a full list, two drivers get the same from a transfer, whatever the
      service, if and only if they choose the same list type, or the list is not
      submitted, or over the data limit; or it has no page too many and is written
      from, or read into while it holds nothing but zeros. */
  lemma TransferVisible(g1: Guest, g2: Guest, m: seq<byte>, way: Way, idRoot: u32, hFile: u64, offFile: u64, cb: u32, pages: seq<nat>, off: nat)
    requires g1.idClient == g2.idClient && g1.ntGlue == g2.ntGlue && FullList(pages, off, cb)
    ensures (forall svc: Service ::
               PgLstAnswer(g1, svc, m, way, idRoot, hFile, offFile, cb, pages, off)
               == PgLstAnswer(g2, svc, m, way, idRoot, hFile, offFile, cb, pages, off))
            <==> || ListType(g1) == ListType(g2) || |pages| > UINT16_MAX || cb > MAX_DATA_SIZE
                 || (|pages| == PageCount(off, cb) && (way.Write? || Gather(m, PageBytes(pages, off, cb)) == Zeros(cb)))
  {
    hide PgLstAnswer, PageBytes, Gather, ListType, PageCount;
    if |pages| > UINT16_MAX || cb > MAX_DATA_SIZE || |pages| == 0 {
      forall svc: Service
        ensures PgLstAnswer(g1, svc, m, way, idRoot, hFile, offFile, cb, pages, off)
             == PgLstAnswer(g2, svc, m, way, idRoot, hFile, offFile, cb, pages, off)
      {
        NotServed(g1, svc, m, way, idRoot, hFile, offFile, cb, pages, off);
        NotServed(g2, svc, m, way, idRoot, hFile, offFile, cb, pages, off);
      }
      if |pages| == 0 {
        NoPages(m, pages, off, cb);
      }
    } else if ListType(g1) == ListType(g2) {
      forall svc: Service
        ensures PgLstAnswer(g1, svc, m, way, idRoot, hFile, offFile, cb, pages, off)
             == PgLstAnswer(g2, svc, m, way, idRoot, hFile, offFile, cb, pages, off)
      {
        SameType(g1, g2, svc, m, way, idRoot, hFile, offFile, cb, pages, off);
      }
    } else {
      ListTypeIs(g1);
      ListTypeIs(g2);
      if |pages| == PageCount(off, cb) {
        ExactVisible(g1, g2, m, way, idRoot, hFile, offFile, cb, pages, off);
      } else {
        SurplusSeen(g1, Succeeds(), m, way, idRoot, hFile, offFile, cb, pages, off);
        SurplusSeen(g2, Succeeds(), m, way, idRoot, hFile, offFile, cb, pages, off);
        assert PgLstAnswer(g1, Succeeds(), m, way, idRoot, hFile, offFile, cb, pages, off).vrc
            != PgLstAnswer(g2, Succeeds(), m, way, idRoot, hFile, offFile, cb, pages, off).vrc;
      }
    }
  }

  /** Without a page, over the count or over the data limit no service is called. */
  lemma NotServed(g: Guest, svc: Service, m: seq<byte>, way: Way, idRoot: u32, hFile: u64, offFile: u64, cb: u32, pages: seq<nat>, off: nat)
    requires FullList(pages, off, cb) && (|pages| > UINT16_MAX || cb > MAX_DATA_SIZE || |pages| == 0)
    ensures PgLstAnswer(g, svc, m, way, idRoot, hFile, offFile, cb, pages, off)
         == if |pages| > UINT16_MAX then Answer(VERR_OUT_OF_RANGE, m, []) else g.RefusedAnswer(m, VERR_INVALID_PARAMETER)
  {
    hide Guest.AnswerTo, PageBytes, ListParm, ListType;
    if |pages| <= UINT16_MAX && Refusal(g, pages, off, cb).None? {
      ListDenotes(g, pages, off, way.Dir(), cb);
      TransferAnswer(g, svc, m, way, idRoot, hFile, offFile, cb, ListParm(g, pages, off, way.Dir(), cb));
    }
  }

  lemma NoPages(m: seq<byte>, pages: seq<nat>, off: nat, cb: nat)
    requires FullList(pages, off, cb) && |pages| == 0
    ensures |pages| == PageCount(off, cb) && Gather(m, PageBytes(pages, off, cb)) == Zeros(cb)
  {
  }

  lemma SameType(g1: Guest, g2: Guest, svc: Service, m: seq<byte>, way: Way, idRoot: u32, hFile: u64, offFile: u64, cb: u32, pages: seq<nat>, off: nat)
    requires g1.idClient == g2.idClient && g1.ntGlue == g2.ntGlue && ListType(g1) == ListType(g2)
    ensures PgLstAnswer(g1, svc, m, way, idRoot, hFile, offFile, cb, pages, off)
         == PgLstAnswer(g2, svc, m, way, idRoot, hFile, offFile, cb, pages, off)
  {
    hide Serve, ListType, View;
  }

  /** A full list with a page too many is refused without bouncing, and only then. */
  lemma SurplusSeen(g: Guest, svc: Service, m: seq<byte>, way: Way, idRoot: u32, hFile: u64, offFile: u64, cb: u32, pages: seq<nat>, off: nat)
    requires FullList(pages, off, cb) && 0 < |pages| <= UINT16_MAX && cb <= MAX_DATA_SIZE && |pages| != PageCount(off, cb)
    ensures var a := PgLstAnswer(g, svc, m, way, idRoot, hFile, offFile, cb, pages, off);
            if ListType(g) == TYPE_NO_BOUNCE_PAGELIST then a == g.RefusedAnswer(m, VERR_INVALID_PARAMETER)
            else && a == g.AnswerTo(m, svc, way.Fn(), PgLstView(g, way, idRoot, hFile, offFile, cb, pages, off))
                 && (svc == Succeeds() ==> a.vrc == VINF_SUCCESS)
  {
    hide Guest.AnswerTo, PageBytes, ListParm, ListType, PageCount;
    if Refusal(g, pages, off, cb).None? {
      ListDenotes(g, pages, off, way.Dir(), cb);
      TransferAnswer(g, svc, m, way, idRoot, hFile, offFile, cb, ListParm(g, pages, off, way.Dir(), cb));
    }
  }

  /** Such a list: two pages for ten bytes. Written from, they get to the service
      through a plain list only. */
  lemma SurplusPage(plain: Guest, noBounce: Guest, m: seq<byte>, idRoot: u32, hFile: u64, offFile: u64)
    requires ListType(plain) == TYPE_PAGELIST && ListType(noBounce) == TYPE_NO_BOUNCE_PAGELIST
    ensures var pages := [0x1000, 0x2000];
            && FullList(pages, 0, 10)
            && PgLstAnswer(plain, Succeeds(), m, Write, idRoot, hFile, offFile, 10, pages, 0).vrc == VINF_SUCCESS
            && PgLstAnswer(noBounce, Succeeds(), m, Write, idRoot, hFile, offFile, 10, pages, 0)
               == noBounce.RefusedAnswer(m, VERR_INVALID_PARAMETER)
  {
    hide PgLstAnswer, ListType, Guest.AnswerTo;
    SurplusSeen(plain, Succeeds(), m, Write, idRoot, hFile, offFile, 10, [0x1000, 0x2000], 0);
    SurplusSeen(noBounce, Succeeds(), m, Write, idRoot, hFile, offFile, 10, [0x1000, 0x2000], 0);
  }

  /** With just the pages it needs a full list is taken by every host. */
  lemma ExactTaken(g: Guest, svc: Service, m: seq<byte>, way: Way, idRoot: u32, hFile: u64, offFile: u64, cb: u32, pages: seq<nat>, off: nat)
    requires FullList(pages, off, cb) && 0 < |pages| <= UINT16_MAX && cb <= MAX_DATA_SIZE && |pages| == PageCount(off, cb)
    ensures var view := PgLstView(g, way, idRoot, hFile, offFile, cb, pages, off);
            && PgLstAnswer(g, svc, m, way, idRoot, hFile, offFile, cb, pages, off) == g.AnswerTo(m, svc, way.Fn(), view)
            && !Serve(m, svc, g.idClient, way.Fn(), view).refused
  {
    hide Guest.AnswerTo, Serve, PageBytes, ListParm, ListType, PageCount;
    ListDenotes(g, pages, off, way.Dir(), cb);
    TransferAnswer(g, svc, m, way, idRoot, hFile, offFile, cb, ListParm(g, pages, off, way.Dir(), cb));
  }

  lemma ExactVisible(g1: Guest, g2: Guest, m: seq<byte>, way: Way, idRoot: u32, hFile: u64, offFile: u64, cb: u32, pages: seq<nat>, off: nat)
    requires g1.idClient == g2.idClient && g1.ntGlue == g2.ntGlue && ListType(g1) != ListType(g2)
    requires FullList(pages, off, cb) && 0 < |pages| <= UINT16_MAX && cb <= MAX_DATA_SIZE && |pages| == PageCount(off, cb)
    ensures (forall svc: Service ::
               PgLstAnswer(g1, svc, m, way, idRoot, hFile, offFile, cb, pages, off)
               == PgLstAnswer(g2, svc, m, way, idRoot, hFile, offFile, cb, pages, off))
            <==> way.Write? || Gather(m, PageBytes(pages, off, cb)) == Zeros(cb)
  {
    hide PgLstAnswer, Serve, PageBytes, Gather, ListType, ListParm, PageCount;
    var (v, w) := (PgLstView(g1, way, idRoot, hFile, offFile, cb, pages, off), PgLstView(g2, way, idRoot, hFile, offFile, cb, pages, off));
    forall svc: Service
      ensures PgLstAnswer(g1, svc, m, way, idRoot, hFile, offFile, cb, pages, off)
              == PgLstAnswer(g2, svc, m, way, idRoot, hFile, offFile, cb, pages, off)
          <==> Serve(m, svc, g1.idClient, way.Fn(), v) == Serve(m, svc, g2.idClient, way.Fn(), w)
    {
      ExactTaken(g1, svc, m, way, idRoot, hFile, offFile, cb, pages, off);
      ExactTaken(g2, svc, m, way, idRoot, hFile, offFile, cb, pages, off);
    }
    ServedAlike(g1, g2, m, way, idRoot, hFile, offFile, cb, pages, off);
  }

  /** Served on a full list of one type or the other, a call comes to the same for
      every service if and only if it writes, or what it reads into holds nothing
      but zeros. */
  lemma ServedAlike(g1: Guest, g2: Guest, m: seq<byte>, way: Way, idRoot: u32, hFile: u64, offFile: u64, cb: u32, pages: seq<nat>, off: nat)
    requires g1.idClient == g2.idClient && ListType(g1) != ListType(g2) && FullList(pages, off, cb) && off < PAGE_SIZE && cb <= MAX_DATA_SIZE
    ensures var (v, w) := (PgLstView(g1, way, idRoot, hFile, offFile, cb, pages, off), PgLstView(g2, way, idRoot, hFile, offFile, cb, pages, off));
            (forall svc: Service :: Serve(m, svc, g1.idClient, way.Fn(), v) == Serve(m, svc, g2.idClient, way.Fn(), w))
            <==> way.Write? || Gather(m, PageBytes(pages, off, cb)) == Zeros(cb)
  {
    hide Serve, PageBytes, PgLstView, Gather, ListType, Zeros, FullList;
    var addrs := PageBytes(pages, off, cb);
    var (v, w) := (PgLstView(g1, way, idRoot, hFile, offFile, cb, pages, off), PgLstView(g2, way, idRoot, hFile, offFile, cb, pages, off));
    ViewIs(g1, way, idRoot, hFile, offFile, cb, pages, off);
    ViewIs(g2, way, idRoot, hFile, offFile, cb, pages, off);
    ListTypeIs(g1);
    ListTypeIs(g2);
    if way.Read? {
      if ListType(g1) == TYPE_NO_BOUNCE_PAGELIST {
        Tellable(m, g1.idClient, way.Fn(), v, w, addrs);
      } else {
        Tellable(m, g1.idClient, way.Fn(), w, v, addrs);
      }
    }
  }

  lemma ViewIs(g: Guest, way: Way, idRoot: u32, hFile: u64, offFile: u64, cb: u32, pages: seq<nat>, off: nat)
    requires FullList(pages, off, cb)
    ensures var addrs := PageBytes(pages, off, cb);
            PgLstView(g, way, idRoot, hFile, offFile, cb, pages, off)
            == TransferView(idRoot, hFile, offFile, cb,
                            VPtr(cb, if way.Write? || ListType(g) == TYPE_NO_BOUNCE_PAGELIST then addrs else [],
                                     if way.Read? then addrs else []))
  {
    hide PageBytes, ListParm, ListType, TransferView;
    ListDenotes(g, pages, off, way.Dir(), cb);
    DirIs(way);
  }

  lemma DirIs(way: Way)
    ensures ToHost(way.Dir()) <==> way.Write?
    ensures FromHost(way.Dir()) <==> way.Read?
  {
  }

  /** Whether a call that finds what is in the buffer can be told from one that
      does not. */
  lemma Tellable(m: seq<byte>, client: nat, fn: nat, seen: seq<Parm>, blind: seq<Parm>, addrs: seq<int>)
    requires |seen| == |blind| == 5 && (forall i :: 0 <= i < 4 ==> seen[i] == blind[i] && !seen[i].VPtr?)
    requires |addrs| <= MAX_DATA_SIZE && seen[4] == VPtr(|addrs|, addrs, addrs) && blind[4] == VPtr(|addrs|, [], addrs)
    ensures (forall svc: Service :: Serve(m, svc, client, fn, seen) == Serve(m, svc, client, fn, blind))
        <==> Gather(m, addrs) == Zeros(|addrs|)
  {
    hide Serve, Input;
    SeenOrBlind(m, |addrs|, addrs);
    if Gather(m, addrs) == Zeros(|addrs|) {
      forall svc: Service ensures Serve(m, svc, client, fn, seen) == Serve(m, svc, client, fn, blind) {
        SameServe(m, svc, client, fn, seen, blind);
      }
    } else {
      Told(m, client, fn, seen, blind);
      assert Serve(m, Peeks(), client, fn, seen) != Serve(m, Peeks(), client, fn, blind);
    }
  }

  lemma SeenOrBlind(m: seq<byte>, cb: nat, addrs: seq<int>)
    requires |addrs| == cb
    ensures Input(m, VPtr(cb, addrs, addrs)) == IPtr(Gather(m, addrs)) && Input(m, VPtr(cb, [], addrs)) == IPtr(Zeros(cb))
  {
    if cb == 0 {
      assert Gather(m, addrs) == Zeros(0);
    }
  }

  /** Buffers that look the same and are written to alike are served alike. */
  lemma SameServe(m: seq<byte>, svc: Service, client: nat, fn: nat, v: seq<Parm>, w: seq<Parm>)
    requires |v| == |w| == 5 && (forall i :: 0 <= i < 4 ==> v[i] == w[i] && !v[i].VPtr?)
    requires v[4].VPtr? && w[4].VPtr? && v[4].cb == w[4].cb && v[4].wr == w[4].wr && Input(m, v[4]) == Input(m, w[4])
    ensures Serve(m, svc, client, fn, v) == Serve(m, svc, client, fn, w)
  {
    hide Input, WriteOut;
    assert CallOf(m, client, fn, v) == CallOf(m, client, fn, w);
    OnlyLastTotal(v);
    OnlyLastTotal(w);
    var outs := svc(CallOf(m, client, fn, v)).outs;
    OnlyLastBack(m, v, outs);
    OnlyLastBack(m, w, outs);
    AlikeOut(m, v[4], w[4], outs, 4);
  }

  lemma AlikeOut(m: seq<byte>, v: Parm, w: Parm, outs: seq<SvcOut>, i: nat)
    requires v.VPtr? && w.VPtr? && v.wr == w.wr
    ensures WriteOut(m, v, outs, i) == WriteOut(m, w, outs, i)
  {
  }

  lemma OnlyLastBack(m: seq<byte>, view: seq<Parm>, outs: seq<SvcOut>)
    requires |view| == 5 && forall i :: 0 <= i < 4 ==> !view[i].VPtr?
    ensures WriteBack(m, view, outs, 0) == WriteOut(m, view[4], outs, 4)
  {
    assert WriteBack(m, view, outs, 4) == WriteBack(WriteOut(m, view[4], outs, 4), view, outs, 5) == WriteOut(m, view[4], outs, 4);
    assert WriteBack(m, view, outs, 2) == WriteBack(m, view, outs, 3) == WriteBack(m, view, outs, 4);
    assert WriteBack(m, view, outs, 0) == WriteBack(m, view, outs, 1) == WriteBack(m, view, outs, 2);
  }

  /** That service is where buffers that look different part. */
  lemma Told(m: seq<byte>, client: nat, fn: nat, v: seq<Parm>, w: seq<Parm>)
    requires |v| == |w| == 5 && (forall i :: 0 <= i < 4 ==> v[i] == w[i] && !v[i].VPtr?)
    requires v[4].VPtr? && w[4].VPtr? && v[4].cb == w[4].cb <= MAX_DATA_SIZE
    requires var (x, y, zeros) := (Input(m, v[4]), Input(m, w[4]), IPtr(Zeros(v[4].cb)));
             x.IPtr? && y.IPtr? && |x.data| == |y.data| == v[4].cb && x != y && (x == zeros || y == zeros)
    ensures Serve(m, Peeks(), client, fn, v).rc != Serve(m, Peeks(), client, fn, w).rc
  {
    hide Input, WriteBack;
    OnlyLastTotal(v);
    OnlyLastTotal(w);
    var (c, e) := (CallOf(m, client, fn, v), CallOf(m, client, fn, w));
    assert c.ins[4] == Input(m, v[4]) && e.ins[4] == Input(m, w[4]);
    assert seq(|c.ins[4].data|, _ => 0 as byte) == Zeros(v[4].cb) == seq(|e.ins[4].data|, _ => 0 as byte);
    assert Peeks()(c).result != Peeks()(e).result;
  }
}
