/** Guest buffers given by pages: the host's page-by-page copies, its shortcut
    for contiguous pages, and what the different lists of pages stand for. */
module PageLists {
  import opened Bytes
  import opened Hgcm

  // ----- Guest physical memory access -----

  method PhysRead(ram: array<byte>, a: nat, dst: array<byte>, at: nat, n: nat)
    requires ram != dst && at + n <= dst.Length
    modifies dst
    ensures dst[..] == old(dst[..at]) + CopyOut(ram[..], a, n) + old(dst[at + n..])
  {
    forall k | 0 <= k < n {
      dst[at + k] := if a + k < ram.Length then ram[a + k] else 0xFF;
    }
  }

  method PhysWrite(ram: array<byte>, a: nat, data: seq<byte>)
    modifies ram
    ensures ram[..] == Put(old(ram[..]), a, data)
  {
    forall k | 0 <= k < |data| && a + k < ram.Length {
      ram[a + k] := data[k];
    }
  }

  // ----- The host's copies -----

  /** Whether the pages follow each other, found by stepping a 64-bit address. */
  method GuestBufferIsContiguous(pages: seq<nat>) returns (r: bool)
    requires |pages| > 0 && forall i :: 0 <= i < |pages| ==> pages[i] < 0x1_0000_0000_0000_0000
    ensures r == IsContiguous(pages)
  {
    if |pages| == 1 {
      return true;
    }
    var phys := (pages[0] + PAGE_SIZE) % 0x1_0000_0000_0000_0000;
    if phys != pages[1] {
      return false;
    }
    var iPage := 2;
    assert (pages[0] + 1 * PAGE_SIZE) % 0x1_0000_0000_0000_0000 == phys;
    while iPage < |pages|
      invariant 2 <= iPage <= |pages|
      invariant phys == (pages[0] + (iPage - 1) * PAGE_SIZE) % 0x1_0000_0000_0000_0000
      invariant forall i :: 1 <= i < iPage ==> pages[i] == (pages[0] + i * PAGE_SIZE) % 0x1_0000_0000_0000_0000
    {
      StepWraps(pages[0] + (iPage - 1) * PAGE_SIZE);
      phys := (phys + PAGE_SIZE) % 0x1_0000_0000_0000_0000;
      assert pages[0] + (iPage - 1) * PAGE_SIZE + PAGE_SIZE == pages[0] + iPage * PAGE_SIZE;
      if phys != pages[iPage] {
        return false;
      }
      iPage := iPage + 1;
    }
    return true;
  }

  lemma StepWraps(a: nat)
    ensures (a % 0x1_0000_0000_0000_0000 + PAGE_SIZE) % 0x1_0000_0000_0000_0000 == (a + PAGE_SIZE) % 0x1_0000_0000_0000_0000
  {
  }

  function Min(x: nat, y: nat): nat {
    if x < y then x else y
  }

  /** Reads a guest buffer into the cleared host buffer dst. */
  method GuestBufferRead(ram: array<byte>, g: GuestParm, dst: array<byte>)
    requires g.GBuf? && (g.kind == Linear || g.kind == PageList) && g.off < PAGE_SIZE
    requires |g.pages| > 0 && forall i :: 0 <= i < |g.pages| ==> g.pages[i] <= NIL
    requires ram != dst && dst.Length == g.cb && forall k :: 0 <= k < g.cb ==> dst[k] == 0
    modifies dst
    ensures dst[..] == Gather(ram[..], ReadAddrs(g, 0))
  {
    hide OrOffset, PageByte;
    var contiguous := GuestBufferIsContiguous(g.pages);
    if contiguous {
      PhysRead(ram, OrOffset(g.pages[0], g.off), dst, 0, g.cb);
      return;
    }
    ghost var want := Gather(ram[..], ReadAddrs(g, 0));
    var offPage, done, iPage := g.off, 0, 0;
    while iPage < |g.pages| && done < g.cb
      invariant 0 <= done <= g.cb && iPage <= |g.pages|
      invariant done < g.cb ==> offPage < PAGE_SIZE && g.off + done == iPage * PAGE_SIZE + offPage
      invariant done < g.cb && iPage > 0 ==> offPage == 0
      invariant forall k :: 0 <= k < done ==> dst[k] == want[k]
      invariant forall k :: done <= k < g.cb ==> dst[k] == 0
    {
      var cbToRead := Min(PAGE_SIZE - offPage, g.cb - done);
      PageOf(g.pages, g.off, done, cbToRead, iPage, offPage);
      if g.pages[iPage] != NIL {
        PhysRead(ram, g.pages[iPage] + offPage, dst, done, cbToRead);
      }
      offPage, done, iPage := 0, done + cbToRead, iPage + 1;
    }
    if done < g.cb {
      BeyondPages(g.pages, g.off, done, g.cb);
    }
    assert dst[..] == want;
  }

  /** The bytes from done to done + n of a buffer lie on one page. */
  lemma PageOf(pages: seq<nat>, off: nat, done: nat, n: nat, iPage: nat, offPage: nat)
    requires iPage < |pages| && off + done == iPage * PAGE_SIZE + offPage && offPage + n <= PAGE_SIZE
    ensures forall k: nat :: done <= k < done + n ==>
              PageByte(pages, off, k) == if pages[iPage] == NIL then SKIP else pages[iPage] + offPage + (k - done)
  {
    forall k: nat | done <= k < done + n
      ensures PageByte(pages, off, k) == if pages[iPage] == NIL then SKIP else pages[iPage] + offPage + (k - done)
    {
      assert off + k == iPage * PAGE_SIZE + (offPage + (k - done));
    }
  }

  lemma BeyondPages(pages: seq<nat>, off: nat, done: nat, cb: nat)
    requires off + done >= |pages| * PAGE_SIZE
    ensures forall k: nat :: done <= k < cb ==> PageByte(pages, off, k) == SKIP
  {
    forall k: nat | done <= k < cb ensures PageByte(pages, off, k) == SKIP {
      assert (off + k) / PAGE_SIZE >= |pages|;
    }
  }

  /** Writes the service's data back to a guest buffer, page by page. */
  method GuestBufferWrite(ram: array<byte>, g: GuestParm, src: seq<byte>)
    requires g.GBuf? && (g.kind == Linear || g.kind == PageList) && g.off < PAGE_SIZE
    modifies ram
    ensures var n := Min(|src|, g.cb);
            ram[..] == Scatter(old(ram[..]), WriteAddrs(g, 0)[..n], src[..n])
  {
    hide Scatter, PageByte, Put;
    var cbRemaining := Min(|src|, g.cb);
    ghost var total, m0 := cbRemaining, ram[..];
    ghost var addrs := PageBytes(g.pages, g.off, g.cb);
    var offPage, done, iPage := g.off, 0, 0;
    assert addrs[..0] == [] && src[..0] == [] && Scatter(m0, [], []) == m0 by { ScatterSkipped(m0, [], []); }
    while iPage < |g.pages| && cbRemaining > 0
      invariant 0 <= done <= total && 0 <= iPage <= |g.pages| && cbRemaining == total - done
      invariant done < total ==> 0 <= offPage < PAGE_SIZE && g.off + done == iPage * PAGE_SIZE + offPage
      invariant ram[..] == Scatter(m0, addrs[..done], src[..done])
    {
      var cbToWrite := Min(PAGE_SIZE - offPage, cbRemaining);
      ScatterPage(m0, g.pages, g.off, g.cb, src, done, cbToWrite, iPage, offPage);
      if g.pages[iPage] != NIL {
        PhysWrite(ram, g.pages[iPage] + offPage, src[done..done + cbToWrite]);
      }
      offPage, cbRemaining, done, iPage := 0, cbRemaining - cbToWrite, done + cbToWrite, iPage + 1;
    }
    if done < total {
      ScatterBeyond(m0, g.pages, g.off, g.cb, src, done, total);
    }
  }

  /** Going on with a scatter for one more page writes that page's bytes in one
      go, or nothing when the page is not there. */
  lemma ScatterPage(m0: seq<byte>, pages: seq<nat>, off: nat, cb: nat, src: seq<byte>, done: nat, n: nat, iPage: nat, offPage: nat)
    requires iPage < |pages| && off + done == iPage * PAGE_SIZE + offPage && offPage + n <= PAGE_SIZE
    requires done + n <= cb && done + n <= |src|
    ensures var addrs := PageBytes(pages, off, cb);
            var m := Scatter(m0, addrs[..done], src[..done]);
            var next := if pages[iPage] != NIL then Put(m, pages[iPage] + offPage, src[done..done + n]) else m;
            Scatter(m0, addrs[..done + n], src[..done + n]) == next
  {
    hide Scatter, Put;
    var addrs := PageBytes(pages, off, cb);
    var m := Scatter(m0, addrs[..done], src[..done]);
    var next := done + n;
    PageOf(pages, off, done, n, iPage, offPage);
    ScatterAppend(m0, addrs[..done], src[..done], addrs[done..next], src[done..next]);
    assert addrs[..done] + addrs[done..next] == addrs[..next];
    assert src[..done] + src[done..next] == src[..next];
    if pages[iPage] != NIL {
      PutIsScatter(m, pages[iPage] + offPage, src[done..next]);
      assert addrs[done..next] == Range(pages[iPage] + offPage, n);
    } else {
      ScatterSkipped(m, addrs[done..next], src[done..next]);
    }
  }

  lemma ScatterBeyond(m0: seq<byte>, pages: seq<nat>, off: nat, cb: nat, src: seq<byte>, done: nat, total: nat)
    requires done <= total <= cb && total <= |src| && off + done >= |pages| * PAGE_SIZE
    ensures var addrs := PageBytes(pages, off, cb);
            Scatter(m0, addrs[..total], src[..total]) == Scatter(m0, addrs[..done], src[..done])
  {
    hide Scatter;
    var addrs := PageBytes(pages, off, cb);
    BeyondPages(pages, off, done, cb);
    ScatterAppend(m0, addrs[..done], src[..done], addrs[done..total], src[done..total]);
    assert addrs[..done] + addrs[done..total] == addrs[..total];
    assert src[..done] + src[done..total] == src[..total];
    ScatterSkipped(Scatter(m0, addrs[..done], src[..done]), addrs[done..total], src[done..total]);
  }

  lemma {:induction false} ScatterAppend(m: seq<byte>, a: seq<int>, x: seq<byte>, b: seq<int>, y: seq<byte>)
    requires |a| == |x| && |b| == |y|
    ensures Scatter(m, a + b, x + y) == Scatter(Scatter(m, a, x), b, y)
  {
    if |b| == 0 {
      assert a + b == a && x + y == x;
    } else {
      var n := |b| - 1;
      ScatterAppend(m, a, x, b[..n], y[..n]);
      assert (a + b)[..|a| + n] == a + b[..n];
      assert (x + y)[..|a| + n] == x + y[..n];
    }
  }

  lemma {:induction false} ScatterSkipped(m: seq<byte>, addrs: seq<int>, data: seq<byte>)
    requires |addrs| == |data| && forall k :: 0 <= k < |addrs| ==> addrs[k] == SKIP
    ensures Scatter(m, addrs, data) == m
  {
    if |addrs| > 0 {
      var n := |addrs| - 1;
      ScatterSkipped(m, addrs[..n], data[..n]);
    }
  }

  // ----- What lists of pages stand for -----

  /** The physical addresses of cb bytes of linear memory. */
  function LinAddrs(pt: PageTable, lin: nat, cb: nat): (r: seq<int>)
    ensures |r| == cb && forall k :: 0 <= k < cb ==> r[k] == Translate(pt, lin + k)
  {
    seq(cb, k requires 0 <= k < cb => Translate(pt, lin + k))
  }

  /** Linear memory [lin, lin + cb) is backed by RAM. */
  ghost predicate Mapped(pt: PageTable, lin: nat, cb: nat, ramSize: nat) {
    && ramSize <= 0x1_0000_0000_0000
    && forall k :: 0 <= k < cb ==> LinAddrs(pt, lin, cb)[k] < ramSize
  }

  /** Linear memory [lin, lin + cb) is backed by one run of RAM from phys on. */
  ghost predicate MappedTo(pt: PageTable, lin: nat, phys: nat, cb: nat, ramSize: nat) {
    && phys + cb <= ramSize <= 0x1_0000_0000_0000
    && LinAddrs(pt, lin, cb) == Range(phys, cb)
  }

  lemma MappedPart(pt: PageTable, lin: nat, phys: nat, cb: nat, ramSize: nat, o: nat, n: nat)
    requires MappedTo(pt, lin, phys, cb, ramSize) && o + n <= cb
    ensures MappedTo(pt, lin + o, phys + o, n, ramSize) && Mapped(pt, lin + o, n, ramSize)
  {
    var whole, part := LinAddrs(pt, lin, cb), LinAddrs(pt, lin + o, n);
    forall k | 0 <= k < n ensures part[k] == phys + o + k {
      assert whole[o + k] == Range(phys, cb)[o + k];
    }
  }

  /** A byte r into page i of an aligned run translates with its page. */
  lemma TranslateInPage(pt: PageTable, base: nat, i: nat, r: nat)
    requires base % PAGE_SIZE == 0 && r < PAGE_SIZE
    ensures var (page, byte) := (Translate(pt, base + i * PAGE_SIZE), Translate(pt, base + i * PAGE_SIZE + r));
            if base / PAGE_SIZE + i in pt then page % PAGE_SIZE == 0 && byte == page + r else page == byte == NIL
  {
    assert (base + i * PAGE_SIZE + r) / PAGE_SIZE == base / PAGE_SIZE + i;
    assert (base + i * PAGE_SIZE + r) % PAGE_SIZE == r;
  }

  /** A full list of the pages under a buffer: enough of them, each page aligned
      and there. */
  predicate FullList(pages: seq<nat>, off: nat, cb: nat) {
    && off < PAGE_SIZE && off + cb <= |pages| * PAGE_SIZE
    && forall i :: 0 <= i < |pages| ==> pages[i] % PAGE_SIZE == 0 && pages[i] + PAGE_SIZE * |pages| <= NIL
  }

  /** The host's shortcut for contiguous pages touches the bytes the page by
      page copy would, in the same order, whenever the list is full. */
  lemma ShortcutRefines(pages: seq<nat>, off: nat, cb: nat)
    requires FullList(pages, off, cb) && IsContiguous(pages)
    ensures Range(OrOffset(pages[0], off), cb) == PageBytes(pages, off, cb)
  {
    assert OrOffset(pages[0], off) == pages[0] + off;
    forall k | 0 <= k < cb ensures pages[0] + off + k == PageByte(pages, off, k) {
      var i := (off + k) / PAGE_SIZE;
      assert i < |pages|;
      assert pages[i] == pages[0] + i * PAGE_SIZE;
    }
  }

  /** A one-entry list made from a physical address denotes the same bytes as
      the list of all pages under the buffer. */
  lemma ContiguousRefinesFull(phys: nat, cb: nat, pages: seq<nat>)
    requires |pages| == PageCount(phys % PAGE_SIZE, cb)
    requires forall i :: 0 <= i < |pages| ==> pages[i] == phys - phys % PAGE_SIZE + i * PAGE_SIZE
    ensures Range(OrOffset(phys - phys % PAGE_SIZE, phys % PAGE_SIZE), cb) == PageBytes(pages, phys % PAGE_SIZE, cb)
         == Range(phys, cb)
  {
    var base, off := phys - phys % PAGE_SIZE, phys % PAGE_SIZE;
    forall k | 0 <= k < cb ensures PageByte(pages, off, k) == phys + k {
      var i := (off + k) / PAGE_SIZE;
      assert i < |pages|;
      assert pages[i] == base + i * PAGE_SIZE;
    }
  }

  /** Over different aligned pages no two bytes of a buffer are the same byte. */
  lemma BytesDistinct(pages: seq<nat>, off: nat, cb: nat, j: nat, k: nat)
    requires FullList(pages, off, cb) && j < k < cb
    requires forall i, l :: 0 <= i < l < |pages| ==> pages[i] != pages[l]
    ensures PageByte(pages, off, j) != PageByte(pages, off, k)
  {
    var i, l := (off + j) / PAGE_SIZE, (off + k) / PAGE_SIZE;
    PageAt(pages, off, cb, j);
    PageAt(pages, off, cb, k);
    if i < l {
      AlignedApart(pages[i], pages[l], (off + j) % PAGE_SIZE, (off + k) % PAGE_SIZE);
    }
  }

  lemma PageAt(pages: seq<nat>, off: nat, cb: nat, k: nat)
    requires FullList(pages, off, cb) && k < cb
    ensures var i := (off + k) / PAGE_SIZE;
            i < |pages| && pages[i] % PAGE_SIZE == 0 && PageByte(pages, off, k) == pages[i] + (off + k) % PAGE_SIZE
  {
  }

  lemma AlignedApart(p: nat, q: nat, r: nat, s: nat)
    requires p % PAGE_SIZE == 0 && q % PAGE_SIZE == 0 && p != q && r < PAGE_SIZE && s < PAGE_SIZE
    ensures p + r != q + s
  {
    assert (p + r) / PAGE_SIZE == p / PAGE_SIZE && (q + s) / PAGE_SIZE == q / PAGE_SIZE;
    assert p == p / PAGE_SIZE * PAGE_SIZE && q == q / PAGE_SIZE * PAGE_SIZE;
  }

  /** Each byte once and in order: what is written to a guest buffer of different
      pages of RAM is what is read from it afterwards. */
  lemma ListReadsBack(m: seq<byte>, g: GuestParm, data: seq<byte>)
    requires g.GBuf? && (g.kind == Linear || g.kind == PageList || g.kind == NoBounce) && g.cb == |data|
    requires FullList(g.pages, g.off, g.cb)
    requires forall i, l :: 0 <= i < l < |g.pages| ==> g.pages[i] != g.pages[l]
    requires forall i :: 0 <= i < |g.pages| ==> g.pages[i] + PAGE_SIZE <= |m|
    ensures Gather(Scatter(m, WriteAddrs(g, 0), data), ReadAddrs(g, 0)) == data
  {
    hide Gather, Scatter, PageByte, OrOffset;
    var addrs := PageBytes(g.pages, g.off, g.cb);
    assert Frames(g.pages) == g.pages;
    if IsContiguous(g.pages) {
      ShortcutRefines(g.pages, g.off, g.cb);
    }
    forall k | 0 <= k < g.cb ensures 0 <= addrs[k] < |m| {
      PageAt(g.pages, g.off, g.cb, k);
    }
    forall j, k | 0 <= j < k < g.cb ensures addrs[j] != addrs[k] {
      BytesDistinct(g.pages, g.off, g.cb, j, k);
    }
    GatherScatter(m, addrs, data);
  }

  /** Write-back through a one-entry plain page list reaches the whole buffer
      exactly when the buffer does not cross the end of the page; reading does
      in any case. */
  lemma OnePageWriteBack(page: nat, off: nat, cb: nat)
    requires page % PAGE_SIZE == 0 && page + PAGE_SIZE <= NIL && off < PAGE_SIZE
    ensures var g := GBuf(PageList, cb, DIR_BOTH, off, [page]);
            && ReadAddrs(g, 0) == Range(page + off, cb)
            && (WriteAddrs(g, 0) == Range(page + off, cb) <==> off + cb <= PAGE_SIZE)
            && forall k :: PAGE_SIZE <= off + k && 0 <= k < cb ==> WriteAddrs(g, 0)[k] == SKIP
  {
    var g := GBuf(PageList, cb, DIR_BOTH, off, [page]);
    assert OrOffset(page, off) == page + off;
    if off + cb <= PAGE_SIZE {
      assert WriteAddrs(g, 0) == Range(page + off, cb);
    } else {
      assert WriteAddrs(g, 0)[cb - 1] == PageByte([page], off, cb - 1) == SKIP;
      assert Range(page + off, cb)[cb - 1] == page + off + (cb - 1);
    }
  }

  /** The pages the host finds under a mapped linear buffer. */
  lemma LinPagesFull(pt: PageTable, lin: nat, cb: nat, ramSize: nat)
    requires 0 < cb < 0x1_0000_0000 && Mapped(pt, lin, cb, ramSize)
    ensures FullList(LinPages(pt, lin, cb), lin % PAGE_SIZE, cb)
    ensures PageBytes(LinPages(pt, lin, cb), lin % PAGE_SIZE, cb) == LinAddrs(pt, lin, cb)
  {
    var off := lin % PAGE_SIZE;
    var base := lin - off;
    var pages := LinPages(pt, lin, cb);
    var addrs := LinAddrs(pt, lin, cb);
    forall i | 0 <= i < |pages| ensures pages[i] < ramSize && pages[i] % PAGE_SIZE == 0 {
      var k := if i == 0 then 0 else i * PAGE_SIZE - off;
      var r := if i == 0 then off else 0;
      TranslateInPage(pt, base, i, r);
      assert lin + k == base + i * PAGE_SIZE + r;
      assert addrs[k] < ramSize;
    }
    forall k | 0 <= k < cb ensures PageByte(pages, off, k) == addrs[k] {
      var i, r := (off + k) / PAGE_SIZE, (off + k) % PAGE_SIZE;
      TranslateInPage(pt, base, i, r);
      assert lin + k == base + i * PAGE_SIZE + r;
      assert addrs[k] < ramSize;
    }
  }

  /** Read or written back, a linear address parameter stands for the bytes at
      that address. */
  lemma LinearDenotes(pt: PageTable, lin: nat, cb: nat, dir: nat, ramSize: nat, gc: nat)
    requires Mapped(pt, lin, cb, ramSize) && cb < 0x1_0000_0000
    ensures var g := GBuf(Linear, cb, dir, if cb > 0 then lin % PAGE_SIZE else 0, LinPages(pt, lin, cb));
            ReadAddrs(g, gc) == LinAddrs(pt, lin, cb) == WriteAddrs(g, gc)
  {
    if cb > 0 {
      LinPagesFull(pt, lin, cb, ramSize);
      var pages := LinPages(pt, lin, cb);
      if IsContiguous(pages) {
        ShortcutRefines(pages, lin % PAGE_SIZE, cb);
      }
    }
  }
}
