/** What the parameters of a filled-in request carry: which bytes of guest
    memory each descriptor stands for. */
module Carry {
  import opened Bytes
  import opened Hgcm
  import opened PageLists
  import opened Transport
  import opened Marshal

  /** cb bytes of RAM below 4 GB, not from address 0 on, that the guest can
      address in one piece. */
  ghost predicate Backed(g: Guest, b: Block, cb: nat) {
    && MappedTo(g.pt, b.lin, b.phys, cb, g.ram.Length)
    && 0 < b.phys && b.phys + cb <= 0x1_0000_0000
    && g.FitsPointer(b.lin + cb)
  }

  /** The block is in use, and so large. */
  ghost predicate ValidBlock(g: Guest, b: Block, cb: nat)
    reads g
  {
    b in g.live && cb <= g.live[b] && Backed(g, b, cb)
  }

  /** cb bytes at a linear address, as a buffer parameter. */
  function LinBuf(g: Guest, dir: nat, lin: nat, cb: nat): Parm {
    Buf(dir, cb, LinAddrs(g.pt, lin, cb))
  }

  // ----- Values -----

  predicate ScalarFor(w: WireParm, v: Parm) {
    (w.W32? && v == V32(w.v)) || (w.W64? && v == V64(w.v))
  }

  lemma CarryScalar(m: seq<byte>, pt: PageTable, area: Area, n: nat, i: nat, v: Parm)
    requires ScalarFor(WireParmAt(m, area.Slot(i), area.is64), v)
    ensures CarriesParm(m, pt, area, n, i, v)
  {
    hide WireParmAt;
  }

  lemma CarryScalars(g: Guest, m: seq<byte>, d: Draft, view: seq<Parm>)
    requires g.Drafted(m, d)
    ensures forall i :: 0 <= i < |view| && i in d.parms && ScalarFor(d.parms[i], view[i]) ==> g.Carried(m, d, i, view[i])
  {
    hide Load, WireParmAt, CarriesParm;
    var area := g.RequestArea(d.b.phys, d.hi, d.cbReq);
    forall i | 0 <= i < |view| && i in d.parms && ScalarFor(d.parms[i], view[i]) ensures g.Carried(m, d, i, view[i]) {
      assert area.Slot(i) == d.b.phys + g.OffParm(i);
      CarryScalar(m, g.pt, area, d.n, i, view[i]);
    }
  }

  // ----- Buffers inside the request -----

  /** A linear address carries the bytes at it, if they are clear of the
      descriptors and, when they come back, of all that is submitted. */
  lemma CarryLinear(m: seq<byte>, pt: PageTable, area: Area, n: nat, i: nat, dir: nat, cb: u32, lin: nat)
    requires WireParmAt(m, area.Slot(i), area.is64) == WLin(dir, cb, lin)
    requires Mapped(pt, lin, cb, |m|) && Outside(LinAddrs(pt, lin, cb), area.lo, area.hi)
    requires FromHost(dir) ==> Outside(LinAddrs(pt, lin, cb), area.gc, area.gc + area.cbCall)
    ensures CarriesParm(m, pt, area, n, i, Buf(dir, cb, LinAddrs(pt, lin, cb)))
  {
    hide WireParmAt, LinPages, ReadAddrs, WriteAddrs, Mapped;
    LinearDenotes(pt, lin, cb, dir, |m|, area.gc);
  }

  /** An embedded buffer carries the bytes of the request it covers. */
  lemma CarryEmbedded(m: seq<byte>, pt: PageTable, area: Area, n: nat, i: nat, dir: nat, off: nat, cb: nat, lin: nat)
    requires area.Valid(n, |m|) && WireParmAt(m, area.Slot(i), area.is64) == WEmbedded(dir, off, cb)
    requires DirectionValid(dir) && area.hi <= area.gc + off && off + cb <= area.cbCall
    requires MappedTo(pt, lin, area.gc + off, cb, |m|)
    ensures CarriesParm(m, pt, area, n, i, Buf(dir, cb, LinAddrs(pt, lin, cb)))
  {
    hide WireParmAt;
  }

  /** A field of the request itself carries its bytes either way: embedded, when
      it is among what is submitted, or by its linear address, when it is clear
      of that or only read. */
  lemma CarryField(g: Guest, m: seq<byte>, d: Draft, i: nat, dir: nat, off: nat, cb: u32, cbBlock: nat)
    requires g.Drafted(m, d) && i in d.parms && ValidBlock(g, d.b, cbBlock) && off + cb <= cbBlock
    requires d.hi <= d.cbReq && d.b.phys + d.cbReq <= |m|
    requires DirectionValid(dir) && SIZEOF_FASTCALL <= off && d.hi <= off
    requires var w := d.parms[i];
             || (w == WEmbedded(dir, off - SIZEOF_FASTCALL, cb) && off + cb <= d.cbReq)
             || (w == WLin(dir, cb, d.b.lin + off) && (FromHost(dir) ==> d.cbReq <= off))
    ensures g.Carried(m, d, i, LinBuf(g, dir, d.b.lin + off, cb))
  {
    hide WireParmAt, CarriesParm, LinAddrs, Load, SameOutside;
    var area := g.RequestArea(d.b.phys, d.hi, d.cbReq);
    assert area.Slot(i) == d.b.phys + g.OffParm(i) && area.Slot(d.n) == d.b.phys + g.OffParm(d.n);
    MappedPart(g.pt, d.b.lin, d.b.phys, cbBlock, g.ram.Length, off, cb);
    if d.parms[i].WEmbedded? {
      CarryEmbedded(m, g.pt, area, d.n, i, dir, off - SIZEOF_FASTCALL, cb, d.b.lin + off);
    } else {
      CarryLinear(m, g.pt, area, d.n, i, dir, cb, d.b.lin + off);
    }
  }

  // ----- Buffers elsewhere -----

  /** The page list of one entry for a physically contiguous buffer. */
  function ContigList(dir: nat, phys: nat): List {
    OneList(dir, phys % PAGE_SIZE, phys - phys % PAGE_SIZE)
  }

  /** What the host makes of a one-entry page list. */
  lemma OnePageResolved(m: seq<byte>, gc: nat, cbCall: nat, offExtra: nat, ty: nat, cb: nat, off: nat, l: List)
    requires ty == TYPE_PAGELIST || ty == TYPE_CONTIGUOUS_PAGELIST
    requires offExtra <= off && off + SIZEOF_PAGELIST <= cbCall
    requires l.OneList? && ListAt(m, gc + off, l) && DirectionValid(l.dir) && l.off < PAGE_SIZE
    ensures ResolvePageList(m, gc, cbCall, offExtra, ty, cb, off) == Ok(GBuf(PageKind(ty), cb, l.dir, l.off, [l.page]))
  {
    hide Load;
    assert PagesAt(m, gc + off, 1) == [l.page];
  }

  /** Whether a one-entry list of this type reaches a whole buffer. */
  predicate Reaches(ty: nat, dir: nat, phys: nat, cb: nat) {
    || ty == TYPE_CONTIGUOUS_PAGELIST
    || (ty == TYPE_PAGELIST && (phys % PAGE_SIZE + cb <= PAGE_SIZE || !FromHost(dir)))
  }

  lemma OnePageDenotes(ty: nat, cb: nat, dir: nat, phys: nat, gc: nat)
    requires Reaches(ty, dir, phys, cb) && phys <= 0x1_0000_0000_0000
    ensures View(GBuf(PageKind(ty), cb, dir, phys % PAGE_SIZE, [phys - phys % PAGE_SIZE]), gc) == Buf(dir, cb, Range(phys, cb))
  {
    var page, off := phys - phys % PAGE_SIZE, phys % PAGE_SIZE;
    assert OrOffset(page, off) == phys;
    if off + cb <= PAGE_SIZE {
      assert PageBytes([page], off, cb) == Range(phys, cb);
    }
  }

  /** A one-entry page list carries the physically contiguous buffer it is made
      for, if it is a contiguous one or the buffer stays on the page. */
  lemma CarryOnePage(m: seq<byte>, pt: PageTable, area: Area, n: nat, i: nat, ty: nat, cb: nat, off: nat, dir: nat, lin: nat, phys: nat)
    requires area.Valid(n, |m|) && WireParmAt(m, area.Slot(i), area.is64) == WPageList(ty, cb, off)
    requires Reaches(ty, dir, phys, cb) && DirectionValid(dir)
    requires area.Slot(n) - area.gc <= off && off + SIZEOF_PAGELIST <= area.cbCall
    requires ListAt(m, area.gc + off, ContigList(dir, phys))
    requires MappedTo(pt, lin, phys, cb, |m|) && Outside(LinAddrs(pt, lin, cb), area.lo, area.hi)
    requires FromHost(dir) ==> Outside(LinAddrs(pt, lin, cb), area.gc, area.gc + area.cbCall)
    ensures CarriesParm(m, pt, area, n, i, Buf(dir, cb, LinAddrs(pt, lin, cb)))
  {
    hide WireParmAt, ResolvePageList, Load, View, LinAddrs, OrOffset;
    OnePageResolved(m, area.gc, area.cbCall, area.Slot(n) - area.gc, ty, cb, off, ContigList(dir, phys));
    OnePageDenotes(ty, cb, dir, phys, area.gc);
  }

  /** cb bytes of contiguous memory in RAM, clear of the whole request block. */
  ghost predicate Separate(g: Guest, buf: Block, cb: nat, b: Block, cbBlock: nat) {
    && MappedTo(g.pt, buf.lin, buf.phys, cb, g.ram.Length) && g.FitsPointer(buf.lin) && cb < 0x1_0000_0000
    && (buf.phys + cb <= b.phys || b.phys + cbBlock <= buf.phys)
  }

  /** A contiguous buffer clear of the request is carried either way: by a
      one-entry page list or by its linear address. */
  lemma CarrySeparate(g: Guest, m: seq<byte>, d: Draft, i: nat, dir: nat, buf: Block, cb: nat, cbBlock: nat)
    requires g.Drafted(m, d) && i in d.parms && Separate(g, buf, cb, d.b, cbBlock)
    requires d.hi <= d.cbReq <= cbBlock && d.b.phys + d.cbReq <= |m| && DirectionValid(dir)
    requires var w := d.parms[i];
             || w == WLin(dir, cb, buf.lin)
             || (w.WPageList? && w.cb == cb && Reaches(w.ty, dir, buf.phys, cb)
                 && w.off + SIZEOF_FASTCALL in d.lists
                 && d.lists[w.off + SIZEOF_FASTCALL] == ContigList(dir, buf.phys))
    ensures g.Carried(m, d, i, LinBuf(g, dir, buf.lin, cb))
  {
    hide WireParmAt, CarriesParm, Load, SameOutside, LinAddrs;
    var area := g.RequestArea(d.b.phys, d.hi, d.cbReq);
    assert area.Slot(i) == d.b.phys + g.OffParm(i) && area.Slot(d.n) == d.b.phys + g.OffParm(d.n);
    MappedPart(g.pt, buf.lin, buf.phys, cb, g.ram.Length, 0, cb);
    var w := d.parms[i];
    if w.WLin? {
      CarryLinear(m, g.pt, area, d.n, i, dir, cb, buf.lin);
    } else {
      CarryOnePage(m, g.pt, area, d.n, i, w.ty, cb, w.off, dir, buf.lin, buf.phys);
    }
  }

  /** An absent buffer, of size zero, is carried either way, whatever its
      address or page. */
  lemma CarryNothing(g: Guest, m: seq<byte>, d: Draft, i: nat, dir: nat)
    requires g.Drafted(m, d) && i in d.parms && DirectionValid(dir)
    requires d.hi <= d.cbReq && d.b.phys + d.cbReq <= |m| <= 0x1_0000_0000_0000
    requires var w := d.parms[i];
             || (w.WLin? && w.dir == dir && w.cb == 0)
             || (w.WPageList? && w.ty == TYPE_CONTIGUOUS_PAGELIST && w.cb == 0
                 && w.off + SIZEOF_FASTCALL in d.lists
                 && var l := d.lists[w.off + SIZEOF_FASTCALL];
                    l.OneList? && l.dir == dir && l.off == 0)
    ensures g.Carried(m, d, i, VPtr(0, [], []))
  {
    hide WireParmAt, Load, SameOutside, ResolvePageList;
    var area := g.RequestArea(d.b.phys, d.hi, d.cbReq);
    assert area.Slot(i) == d.b.phys + g.OffParm(i) && area.Slot(d.n) == d.b.phys + g.OffParm(d.n);
    var w := d.parms[i];
    if w.WPageList? {
      OnePageResolved(m, area.gc, area.cbCall, area.Slot(d.n) - area.gc, w.ty, 0, w.off, d.lists[w.off + SIZEOF_FASTCALL]);
    }
  }

  // ----- A plain one-entry list in both directions -----

  /** The given addresses as far as the first page goes. */
  function FirstPage(addrs: seq<int>, off: nat): (r: seq<int>)
    ensures |r| == |addrs| && forall k :: 0 <= k < |r| ==> r[k] == if off + k < PAGE_SIZE then addrs[k] else SKIP
  {
    seq(|addrs|, k requires 0 <= k < |addrs| => if off + k < PAGE_SIZE then addrs[k] else SKIP)
  }

  /** What a contiguous buffer in a plain one-entry list is: all of it can be
      read, what is on its first page written. */
  function OnePageBuf(g: Guest, buf: Block, cb: nat): Parm {
    VPtr(cb, LinAddrs(g.pt, buf.lin, cb), FirstPage(LinAddrs(g.pt, buf.lin, cb), buf.phys % PAGE_SIZE))
  }

  lemma OnePageBoth(cb: nat, phys: nat, gc: nat)
    requires phys <= 0x1_0000_0000_0000
    ensures View(GBuf(PageList, cb, DIR_BOTH, phys % PAGE_SIZE, [phys - phys % PAGE_SIZE]), gc)
         == VPtr(cb, Range(phys, cb), FirstPage(Range(phys, cb), phys % PAGE_SIZE))
  {
    var page, off := phys - phys % PAGE_SIZE, phys % PAGE_SIZE;
    assert OrOffset(page, off) == phys;
    assert PageBytes([page], off, cb) == FirstPage(Range(phys, cb), off);
  }

  lemma CarryOnePagePlain(m: seq<byte>, pt: PageTable, area: Area, n: nat, i: nat, cb: nat, off: nat, lin: nat, phys: nat)
    requires area.Valid(n, |m|) && WireParmAt(m, area.Slot(i), area.is64) == WPageList(TYPE_PAGELIST, cb, off)
    requires area.Slot(n) - area.gc <= off && off + SIZEOF_PAGELIST <= area.cbCall
    requires ListAt(m, area.gc + off, ContigList(DIR_BOTH, phys)) && MappedTo(pt, lin, phys, cb, |m|)
    requires Outside(LinAddrs(pt, lin, cb), area.lo, area.hi) && Outside(LinAddrs(pt, lin, cb), area.gc, area.gc + area.cbCall)
    ensures CarriesParm(m, pt, area, n, i, VPtr(cb, LinAddrs(pt, lin, cb), FirstPage(LinAddrs(pt, lin, cb), phys % PAGE_SIZE)))
  {
    hide WireParmAt, ResolvePageList, Load, View, LinAddrs, OrOffset;
    OnePageResolved(m, area.gc, area.cbCall, area.Slot(n) - area.gc, TYPE_PAGELIST, cb, off, ContigList(DIR_BOTH, phys));
    OnePageBoth(cb, phys, area.gc);
  }

  lemma CarryOnePageBoth(g: Guest, m: seq<byte>, d: Draft, i: nat, off: nat, buf: Block, cb: nat, cbBlock: nat)
    requires g.Drafted(m, d) && i in d.parms && Separate(g, buf, cb, d.b, cbBlock)
    requires d.hi <= d.cbReq <= cbBlock && d.b.phys + d.cbReq <= |m|
    requires SIZEOF_FASTCALL <= off && d.parms[i] == WPageList(TYPE_PAGELIST, cb, off - SIZEOF_FASTCALL)
    requires off in d.lists && d.lists[off] == ContigList(DIR_BOTH, buf.phys)
    ensures g.Carried(m, d, i, OnePageBuf(g, buf, cb))
  {
    hide WireParmAt, CarriesParm, Load, SameOutside, LinAddrs, FirstPage;
    var area := g.RequestArea(d.b.phys, d.hi, d.cbReq);
    assert area.Slot(i) == d.b.phys + g.OffParm(i) && area.Slot(d.n) == d.b.phys + g.OffParm(d.n);
    CarryOnePagePlain(m, g.pt, area, d.n, i, cb, off - SIZEOF_FASTCALL, buf.lin, buf.phys);
  }

  // ----- Layouts -----

  /** Of the parameters only k may be embedded, behind the descriptors and up to
      the end of the request. */
  lemma OneEmbedded(g: Guest, d: Draft, k: nat)
    requires forall i :: i in d.parms && d.parms[i].WEmbedded? ==> i == k
    requires k in d.parms && d.parms[k].WEmbedded? ==>
               && DirectionValid(d.parms[k].dir) && d.parms[k].off + SIZEOF_FASTCALL == d.hi < 0x100_0000
               && g.EndsAt(d.parms[k], d.cbReq)
    ensures g.EmbeddedLaid(d)
  {
  }

  /** Only j and k may be embedded, one after the other. */
  lemma TwoEmbedded(g: Guest, d: Draft, j: nat, k: nat)
    requires j != k && j in d.parms && k in d.parms && d.parms[j].WEmbedded? == d.parms[k].WEmbedded?
    requires forall i :: i in d.parms && d.parms[i].WEmbedded? ==> i == j || i == k
    requires d.parms[j].WEmbedded? ==>
               && DirectionValid(d.parms[j].dir) && DirectionValid(d.parms[k].dir)
               && d.parms[j].off + SIZEOF_FASTCALL == d.hi && d.parms[j].off + d.parms[j].cb == d.parms[k].off < 0xF0_0000
               && g.EndsAt(d.parms[k], d.cbReq)
    ensures g.EmbeddedLaid(d)
  {
  }

  lemma NoLists(g: Guest, d: Draft)
    requires d.lists == map[] && forall i :: i in d.parms ==> !d.parms[i].WPageList?
    ensures g.ListsLaid(d)
  {
  }

  /** Of the parameters only k may have a page list, at o. */
  lemma OneListLaid(g: Guest, d: Draft, k: nat, o: nat)
    requires d.lists.Keys <= {o} && forall i :: i in d.parms && d.parms[i].WPageList? ==> i == k
    requires k in d.parms && d.parms[k].WPageList? ==> d.parms[k].off + SIZEOF_FASTCALL == o && o in d.lists
    requires o in d.lists ==> g.OffParm(d.n) <= o && o + d.lists[o].Size() <= d.hi
    ensures g.ListsLaid(d)
  {
  }
}
