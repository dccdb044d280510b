/** The wrappers that take their request block from the physical heap, and the
    heap as far as they can tell: blocks that do not overlap. */
module PhysHeap {
  import opened Bytes
  import opened Hgcm
  import opened PageLists
  import opened Transport
  import opened Marshal
  import opened Carry
  import opened SharedFolders
  import opened Delivery

  const SHFL_FN_SET_SYMLINKS: u32 := 20
  const SHFL_FN_SET_FILE_SIZE: u32 := 24
  const SHFL_FN_QUERY_FEATURES: u32 := 25

  const VINF_NOT_SUPPORTED: int32 := 37
  const MAX_PATH: nat := 0xFFFF
  /** Stands for whatever the heap or its next user leaves in a freed block. */
  const FREED: byte := 0xDD

  /** Which block an allocation gets, if any, given the blocks in use. */
  type Policy = (map<Block, nat>, nat) -> Option<Block>

  predicate Apart(b: Block, cb: nat, c: Block, cbC: nat) {
    b.phys + cb <= c.phys || c.phys + cbC <= b.phys
  }

  /** What is handed out is memory that overlaps nothing in use. */
  ghost predicate Sound(g: Guest, pick: Policy, used: map<Block, nat>, cb: nat) {
    pick(used, cb).Some? ==>
      var b := pick(used, cb).value;
      b !in used && Backed(g, b, cb) && forall c :: c in used ==> Apart(b, cb, c, used[c])
  }

  class Heap {
    const g: Guest
    const pick: Policy

    ghost predicate Valid()
      reads g
    {
      && (forall used: map<Block, nat>, cb: nat :: Sound(g, pick, used, cb))
      && (forall b, c :: b in g.live && c in g.live && b != c ==> Apart(b, g.live[b], c, g.live[c]))
    }

    constructor (g: Guest, pick: Policy)
      requires g.live == map[] && forall used: map<Block, nat>, cb: nat :: Sound(g, pick, used, cb)
      ensures Valid() && this.g == g && this.pick == pick
    {
      this.g, this.pick := g, pick;
    }

    /** The n bytes at c are clear of what an allocation of cb bytes gets now. */
    predicate Clear(c: Block, n: nat, cb: nat)
      reads g
    {
      var r := pick(g.live, cb);
      r.Some? ==> Apart(r.value, cb, c, n)
    }

    /** A block in use is. */
    lemma LiveIsClear(c: Block, n: nat, cb: nat)
      requires Valid() && c in g.live && n <= g.live[c]
      ensures Clear(c, n, cb)
    {
      assert Sound(g, pick, g.live, cb);
    }

    method Alloc(cb: nat) returns (r: Option<Block>)
      requires Valid()
      modifies g`live
      ensures Valid() && r == pick(old(g.live), cb)
      ensures g.live == if r.Some? then old(g.live)[r.value := cb] else old(g.live)
      ensures r.Some? ==> r.value !in old(g.live) && ValidBlock(g, r.value, cb)
    {
      assert Sound(g, pick, g.live, cb);
      r := pick(g.live, cb);
      if r.Some? {
        g.live := g.live[r.value := cb];
      }
    }

    /** Nothing is promised of what the block holds afterwards. */
    method Free(b: Block)
      requires Valid() && b in g.live
      modifies g`live, g.ram
      ensures Valid() && g.live == old(g.live) - {b}
      ensures SameOutside(old(g.ram[..]), g.ram[..], b.phys, b.phys + old(g.live[b]))
    {
      forall i | b.phys <= i < b.phys + g.live[b] && i < g.ram.Length {
        g.ram[i] := FREED;
      }
      g.live := g.live - {b};
    }

    // ----- Features -----

    method QueryFeaturesSimple() returns (vrc: int32, fFeatures: nat, uLastFunction: nat)
      requires Valid()
      modifies g`live, g.ram
      ensures Valid() && g.live == old(g.live)
      ensures var m0, cb := old(g.ram[..]), g.OffParm(2);
              match pick(g.live, cb)
              case None => vrc == VERR_NO_MEMORY && fFeatures == uLastFunction == 0 && g.ram[..] == m0
              case Some(b) =>
                var want := Serve(m0, g.svc, g.idClient, SHFL_FN_QUERY_FEATURES, [V64(0), V32(0)]);
                && SameOutside(want.ram, g.ram[..], b.phys, b.phys + cb)
                && vrc == (if want.rc == VERR_NOT_SUPPORTED then VINF_NOT_SUPPORTED else want.rc)
                && fFeatures == (if want.rc >= VINF_SUCCESS then OutValue(want.outs, 0, 8) else 0)
                && uLastFunction == (if want.rc >= VINF_SUCCESS then OutValue(want.outs, 1, 4)
                                     else if Has(g.features, HVF_NO_BOUNCE_PAGE_LIST) then SHFL_FN_SET_FILE_SIZE
                                     else SHFL_FN_SET_SYMLINKS)
                && FeaturesTold(g, vrc, fFeatures, uLastFunction)
    {
      hide Load, SameOutside, Serve, Has;
      Features(g, g.ram[..]);
      fFeatures, uLastFunction := 0, 0;
      var r := Alloc(g.OffParm(2));
      if r.None? {
        return VERR_NO_MEMORY, 0, 0;
      }
      ghost var d;
      vrc, d := ReqQueryFeatures(g, r.value);
      fFeatures := Load(g.ram[..], r.value.phys + g.OffParm(0) + 4, 8);
      uLastFunction := Load(g.ram[..], r.value.phys + g.OffParm(1) + 4, 4);
      ghost var m := g.ram[..];
      Free(r.value);
      SameThen(Serve(d.m0, g.svc, g.idClient, SHFL_FN_QUERY_FEATURES, [V64(0), V32(0)]).ram, m, g.ram[..], r.value.phys,
               r.value.phys + g.OffParm(2), r.value.phys + g.OffParm(2));
    }

    // ----- Mapping a folder -----

    method MapFolderWithContigSimple(name: Block, wcDelimiter: u16, fCaseSensitive: bool) returns (vrc: int32, idRoot: nat)
      requires Valid() && Clear(name, StringSize(g.ram[..], name.phys), g.OffParm(4) + SIZEOF_PAGELIST)
      requires MappedTo(g.pt, name.lin, name.phys, StringSize(g.ram[..], name.phys), g.ram.Length) && g.FitsPointer(name.lin)
      modifies g`live, g.ram
      ensures Valid() && g.live == old(g.live)
      ensures var m0, cb := old(g.ram[..]), g.OffParm(4) + SIZEOF_PAGELIST;
              match pick(g.live, cb)
              case None => vrc == VERR_NO_MEMORY && idRoot == SHFL_ROOT_NIL && g.ram[..] == m0
              case Some(b) =>
                var want := Serve(m0, g.svc, g.idClient, SHFL_FN_MAP_FOLDER,
                                  MapFolderView(NameParm(g, m0, name), wcDelimiter, fCaseSensitive));
                && Answered(g, g.ram[..], b, cb, vrc, want)
                && idRoot == (if vrc >= VINF_SUCCESS then OutValue(want.outs, 1, 4) else SHFL_ROOT_NIL)
                && FolderMapped(g, m0, vrc, idRoot, name, wcDelimiter, fCaseSensitive)
    {
      hide Load, StringSize, LinAddrs, WriteBack, CallOf, TotalCb, NameParm, SameOutside, Serve, FolderMapped;
      idRoot := SHFL_ROOT_NIL;
      var r := Alloc(g.OffParm(4) + SIZEOF_PAGELIST);
      if r.None? {
        return VERR_NO_MEMORY, SHFL_ROOT_NIL;
      }
      StringSizeBound(g.ram[..], name.phys);
      ghost var view := MapFolderView(NameParm(g, g.ram[..], name), wcDelimiter, fCaseSensitive);
      ghost var d;
      vrc, d := ReqMapFolderWithContig(g, r.value, name, wcDelimiter, fCaseSensitive);
      if vrc >= VINF_SUCCESS {
        idRoot := Load(g.ram[..], r.value.phys + g.OffParm(1) + 4, 4);
      }
      Refusals(g, d.m0, SHFL_FN_MAP_FOLDER, view);
      Folder(g, d.m0, name, wcDelimiter, fCaseSensitive, vrc, idRoot);
      ghost var m := g.ram[..];
      Free(r.value);
      SameThen(Serve(d.m0, g.svc, g.idClient, SHFL_FN_MAP_FOLDER, view).ram, m, g.ram[..], r.value.phys,
               r.value.phys + g.OffParm(4) + SIZEOF_PAGELIST, r.value.phys + g.OffParm(4) + SIZEOF_PAGELIST);
    }

    // ----- Reading a link -----

    method ReadLinkContigSimple(idRoot: u32, path: seq<byte>, buf: Block, cbBuffer: u32) returns (vrc: int32)
      requires Valid() && Clear(buf, cbBuffer, LinkBlockSize(g, path))
      requires MappedTo(g.pt, buf.lin, buf.phys, cbBuffer, g.ram.Length) && g.FitsPointer(buf.lin)
      modifies g`live, g.ram
      ensures Valid() && g.live == old(g.live)
      ensures var m0, off := old(g.ram[..]), g.OffParm(3) + SIZEOF_PAGELIST;
              if |path| >= MAX_PATH then vrc == VERR_FILENAME_TOO_LONG && g.ram[..] == m0
              else match pick(g.live, LinkBlockSize(g, path))
                case None => vrc == VERR_NO_MEMORY && g.ram[..] == m0
                case Some(b) =>
                  var m := Put(m0, b.phys + off, ShflString(path));
                  && Answered(g, g.ram[..], b, LinkBlockSize(g, path), vrc,
                              Serve(m, g.svc, g.idClient, SHFL_FN_READLINK, ReadLinkView(g, m, idRoot, buf, cbBuffer, b)))
                  && (|path| + 5 + cbBuffer <= MAX_DATA_SIZE ==> LinkRead(g, m0, g.ram[..], vrc, idRoot, path, buf, cbBuffer))
    {
      hide Load, StringSize, LinAddrs, LeBytes, ReadLinkView, SameOutside, Serve, LinkRead;
      if |path| >= MAX_PATH {
        return VERR_FILENAME_TOO_LONG;
      }
      var off := g.OffParm(3) + SIZEOF_PAGELIST;
      var r := Alloc(LinkBlockSize(g, path));
      if r.None? {
        return VERR_NO_MEMORY;
      }
      var b := r.value;
      PutString(g.ram, b.phys + off, path);
      StringPutSize(old(g.ram[..]), b.phys + off, path);
      SmallerBlock(g, b, LinkBlockSize(g, path), off + SHFLSTRING_HEADER_SIZE + |path| + 1);
      ghost var view := ReadLinkView(g, g.ram[..], idRoot, buf, cbBuffer, b);
      ghost var d;
      vrc, d := ReqReadLinkContig(g, idRoot, buf, cbBuffer, b);
      ghost var t := g.ram[..];
      Free(b);
      SameThen(Serve(d.m0, g.svc, g.idClient, SHFL_FN_READLINK, view).ram, t, g.ram[..], b.phys,
               b.phys + off, b.phys + LinkBlockSize(g, path));
      if |path| + 5 + cbBuffer <= MAX_DATA_SIZE {
        LinkDelivers(g, old(g.ram[..]), g.ram[..], vrc, idRoot, path, buf, cbBuffer, b);
      }
    }
  }

  /** The call was answered as wanted: its status, and memory but for the request
      block, which is free again. */
  ghost predicate Answered(g: Guest, m: seq<byte>, b: Block, cb: nat, vrc: int32, want: Outcome) {
    && vrc == (if want.refused then g.RefusedStatus(want.rc) else want.rc)
    && SameOutside(want.ram, m, b.phys, b.phys + cb)
  }

  /** Bytes of the request to read a link: the string's header is counted once
      more, with its terminator. */
  function LinkBlockSize(g: Guest, path: seq<byte>): nat {
    g.OffParm(3) + SIZEOF_PAGELIST + 2 * SHFLSTRING_HEADER_SIZE + |path|
  }

  /** The service is asked with a zero for each, and its answers are returned. */
  ghost predicate FeaturesTold(g: Guest, vrc: int32, fFeatures: nat, uLastFunction: nat) {
    var reply := g.svc(SvcCall(g.idClient, 25, [I64(0), I32(0)]));
    && vrc == (if reply.result == VERR_NOT_SUPPORTED then VINF_NOT_SUPPORTED else reply.result)
    && (reply.result >= 0 && |reply.outs| > 0 && reply.outs[0].O64? && reply.outs[0].v < 0x1_0000_0000_0000_0000 ==>
          fFeatures == reply.outs[0].v)
    && (reply.result >= 0 && |reply.outs| > 1 && reply.outs[1].O32? && reply.outs[1].v < 0x1_0000_0000 ==>
          uLastFunction == reply.outs[1].v)
  }

  lemma Features(g: Guest, m: seq<byte>)
    ensures var (reply, want) := (g.svc(SvcCall(g.idClient, 25, [I64(0), I32(0)])),
                                  Serve(m, g.svc, g.idClient, SHFL_FN_QUERY_FEATURES, [V64(0), V32(0)]));
            && want.rc == reply.result && want.outs == reply.outs
            && (|reply.outs| > 0 && reply.outs[0].O64? && reply.outs[0].v < 0x1_0000_0000_0000_0000 ==>
                  OutValue(want.outs, 0, 8) == reply.outs[0].v)
            && (|reply.outs| > 1 && reply.outs[1].O32? && reply.outs[1].v < 0x1_0000_0000 ==>
                  OutValue(want.outs, 1, 4) == reply.outs[1].v)
  {
    hide Serve;
    var view := [V64(0), V32(0)];
    NeverRefused(g, m, view);
    HandedOver(m, g.svc, g.idClient, SHFL_FN_QUERY_FEATURES, view, SvcCall(g.idClient, 25, [I64(0), I32(0)]));
  }

  /** The service is handed the name's bytes, no root yet, the delimiter and the
      case flag, and the root it gives is returned. */
  ghost predicate FolderMapped(g: Guest, m0: seq<byte>, vrc: int32, idRoot: nat, name: Block, wcDelimiter: u16, fCaseSensitive: bool)
    requires name.phys + StringSize(m0, name.phys) <= |m0|
  {
    var str := m0[name.phys..name.phys + StringSize(m0, name.phys)];
    var reply := g.svc(SvcCall(g.idClient, 17, [IPtr(str), I32(0xFFFF_FFFF), I32(wcDelimiter), I32(if fCaseSensitive then 1 else 0)]));
    && vrc == reply.result
    && (vrc >= 0 && |reply.outs| > 1 && reply.outs[1].O32? && reply.outs[1].v < 0x1_0000_0000 ==> idRoot == reply.outs[1].v)
  }

  lemma Folder(g: Guest, m: seq<byte>, name: Block, wcDelimiter: u16, fCaseSensitive: bool, vrc: int32, idRoot: nat)
    requires MappedTo(g.pt, name.lin, name.phys, StringSize(m, name.phys), |m|)
    requires var want := Serve(m, g.svc, g.idClient, SHFL_FN_MAP_FOLDER, MapFolderView(NameParm(g, m, name), wcDelimiter, fCaseSensitive));
             && vrc == (if want.refused then g.RefusedStatus(want.rc) else want.rc)
             && (vrc >= VINF_SUCCESS ==> idRoot == OutValue(want.outs, 1, 4))
    ensures FolderMapped(g, m, vrc, idRoot, name, wcDelimiter, fCaseSensitive)
  {
    hide Serve, LinAddrs, StringSize, Has;
    var cb := StringSize(m, name.phys);
    StringSizeBound(m, name.phys);
    var view := MapFolderView(NameParm(g, m, name), wcDelimiter, fCaseSensitive);
    var c := SvcCall(g.idClient, 17, [IPtr(m[name.phys..name.phys + cb]), I32(0xFFFF_FFFF), I32(wcDelimiter), I32(if fCaseSensitive then 1 else 0)]);
    NameHanded(g, m, name, cb);
    OnlyFirstTotal(view);
    HandedOver(m, g.svc, g.idClient, SHFL_FN_MAP_FOLDER, view, c);
    if |g.svc(c).outs| > 1 {
      ValueIs(g.svc(c).outs, 1);
    }
  }

  lemma NameHanded(g: Guest, m: seq<byte>, name: Block, cb: nat)
    requires cb == StringSize(m, name.phys) && cb > 0 && MappedTo(g.pt, name.lin, name.phys, cb, |m|)
    ensures HandedIn(IPtr(m[name.phys..name.phys + cb]), m, NameParm(g, m, name)) && Cb(NameParm(g, m, name)) == cb
  {
    hide LinAddrs, StringSize, Has;
  }

  /** The bytes of a string: its size with terminator and its length, each low
      byte first, then the path and a terminator. */
  ghost predicate StringOf(s: seq<byte>, path: seq<byte>) {
    && |s| == |path| + 5
    && s[0] == (|path| + 1) % 0x100 && s[1] == (|path| + 1) / 0x100
    && s[2] == |path| % 0x100 && s[3] == |path| / 0x100
    && s[4..4 + |path|] == path && s[4 + |path|] == 0
  }

  /** The service is handed root, path and a cleared buffer, and what it gives for
      the buffer is there. */
  ghost predicate LinkRead(g: Guest, m0: seq<byte>, m: seq<byte>, vrc: int32, idRoot: u32, path: seq<byte>, buf: Block, cbBuffer: u32)
    requires buf.phys + cbBuffer <= |m0| == |m|
  {
    forall s: seq<byte> :: StringOf(s, path) ==> LinkGiven(g, m0, m, vrc, idRoot, s, buf, cbBuffer)
  }

  ghost predicate LinkGiven(g: Guest, m0: seq<byte>, m: seq<byte>, vrc: int32, idRoot: u32, str: seq<byte>, buf: Block, cbBuffer: u32)
    requires buf.phys + cbBuffer <= |m0| == |m|
  {
    var reply := g.svc(SvcCall(g.idClient, 18, [I32(idRoot), IPtr(str), IPtr(Zeros(cbBuffer))]));
    && vrc == reply.result
    && (|reply.outs| > 2 && reply.outs[2].OPtr? ==>
          forall a :: buf.phys <= a < buf.phys + cbBuffer ==>
            m[a] == if a - buf.phys < |reply.outs[2].data| then reply.outs[2].data[a - buf.phys] else m0[a])
  }

  lemma SameThen(s: seq<byte>, t: seq<byte>, u: seq<byte>, lo: nat, hi: nat, wide: nat)
    requires SameOutside(s, t, lo, hi) && SameOutside(t, u, lo, wide) && hi <= wide
    ensures SameOutside(s, u, lo, wide)
  {
  }

  lemma Refusals(g: Guest, m: seq<byte>, fn: nat, view: seq<Parm>)
    ensures var want := Serve(m, g.svc, g.idClient, fn, view); want.refused ==> want.rc < 0
  {
    hide TotalCb, CallOf, WriteBack;
  }

  method ReqQueryFeatures(g: Guest, b: Block) returns (vrc: int32, ghost d: Draft)
    requires ValidBlock(g, b, g.OffParm(2))
    modifies g.ram
    ensures Request(g, d, old(g.ram[..]), b, SHFL_FN_QUERY_FEATURES)
    ensures var m0, m, want := old(g.ram[..]), g.ram[..], Serve(old(g.ram[..]), g.svc, g.idClient, SHFL_FN_QUERY_FEATURES, [V64(0), V32(0)]);
            && SameOutside(want.ram, m, b.phys, b.phys + g.OffParm(2))
            && vrc == (if want.rc == VERR_NOT_SUPPORTED then VINF_NOT_SUPPORTED else want.rc)
            && Load(m, b.phys + g.OffParm(0) + 4, 8) == (if want.rc >= VINF_SUCCESS then OutValue(want.outs, 0, 8) else 0)
            && Load(m, b.phys + g.OffParm(1) + 4, 4)
               == (if want.rc >= VINF_SUCCESS then OutValue(want.outs, 1, 4)
                   else if Has(g.features, HVF_NO_BOUNCE_PAGE_LIST) then SHFL_FN_SET_FILE_SIZE else SHFL_FN_SET_SYMLINKS)
  {
    hide Load, LinAddrs, Has, SameOutside, WireParmAt, Serve, Guest.Drafted, Guest.Carried, Guest.LaidOut;
    ghost var view := [V64(0), V32(0)];
    d := g.InitCall(b, SHFL_FN_QUERY_FEATURES, 2, g.OffParm(2), g.OffParm(2));
    d := g.SetParm64(b.phys, 0, 0, d);
    d := g.SetParm32(b.phys, 1, 0, d);
    CarryScalars(g, g.ram[..], d, view);
    ValuesLaid(g, d);
    NeverRefused(g, d.m0, view);
    vrc := g.Submit(b, g.OffParm(2), d, view);
    if vrc < VINF_SUCCESS {
      g.Store64(b.phys + g.OffParm(0) + 4, 0);
      g.Store32(b.phys + g.OffParm(1) + 4, if Has(g.features, HVF_NO_BOUNCE_PAGE_LIST) then SHFL_FN_SET_FILE_SIZE else SHFL_FN_SET_SYMLINKS);
      if vrc == VERR_NOT_SUPPORTED {
        vrc := VINF_NOT_SUPPORTED;
      }
    }
  }

  lemma ValuesLaid(g: Guest, d: Draft)
    requires OFF_PARMS <= d.hi <= d.cbReq && d.lists == map[] && forall i :: i in d.parms ==> d.parms[i].W32? || d.parms[i].W64?
    ensures g.LaidOut(d)
  {
  }

  /** Without buffers no data limit is passed. */
  lemma NeverRefused(g: Guest, m: seq<byte>, view: seq<Parm>)
    requires view == [V64(0), V32(0)]
    ensures !Serve(m, g.svc, g.idClient, SHFL_FN_QUERY_FEATURES, view).refused
  {
    assert TotalCb(view, 1) == TotalCb(view, 2) == 0;
  }

  // ----- Strings -----

  /** The SHFLSTRING of a path: size with and without terminator, the path. */
  function ShflString(path: seq<byte>): (s: seq<byte>)
    ensures |s| == SHFLSTRING_HEADER_SIZE + |path| + 1
  {
    LeBytes(|path| + 1, 2) + LeBytes(|path|, 2) + path + [0]
  }

  /** Fills in the string in the order the wrapper does. */
  method PutString(ram: array<byte>, a: nat, path: seq<byte>)
    requires |path| < MAX_PATH && a + SHFLSTRING_HEADER_SIZE + |path| + 1 <= ram.Length
    modifies ram
    ensures ram[..] == Put(old(ram[..]), a, ShflString(path))
  {
    hide LeBytes, Load;
    ghost var m := ram[..];
    PowValues();
    StoreLe(ram, a + 2, |path|, 2);
    StoreLe(ram, a, |path| + 1, 2);
    PhysWrite(ram, a + 4, path);
    ram[a + 4 + |path|] := 0;
    SamePoints(ram[..], Put(m, a, ShflString(path)));
  }

  lemma SamePoints(s: seq<byte>, t: seq<byte>)
    requires |s| == |t| && forall i: nat :: i < |s| ==> ByteAt(s, i) == ByteAt(t, i)
    ensures s == t
  {
    forall i | 0 <= i < |s| ensures s[i] == t[i] {
      assert ByteAt(s, i) == ByteAt(t, i);
    }
  }

  lemma StringPutSize(m: seq<byte>, a: nat, path: seq<byte>)
    requires |path| < MAX_PATH && a + SHFLSTRING_HEADER_SIZE + |path| + 1 <= |m|
    ensures StringSize(Put(m, a, ShflString(path)), a) == |ShflString(path)|
  {
    hide LeBytes;
    PowValues();
    LoadLeBytes(Put(m, a, ShflString(path)), a, |path| + 1, 2);
  }

  lemma SmallerBlock(g: Guest, b: Block, cb: nat, n: nat)
    requires ValidBlock(g, b, cb) && n <= cb
    ensures ValidBlock(g, b, n)
  {
    hide LinAddrs;
    MappedPart(g.pt, b.lin, b.phys, cb, g.ram.Length, 0, n);
  }

  lemma ShflStringIs(path: seq<byte>)
    requires |path| < MAX_PATH
    ensures StringOf(ShflString(path), path)
  {
    assert LeBytes(|path| + 1, 2) == [(|path| + 1) % 0x100] + LeBytes((|path| + 1) / 0x100, 1);
    assert LeBytes(|path|, 2) == [|path| % 0x100] + LeBytes(|path| / 0x100, 1);
  }

  lemma StringUnique(s: seq<byte>, t: seq<byte>, path: seq<byte>)
    requires StringOf(s, path) && StringOf(t, path)
    ensures s == t
  {
    assert s == s[..4] + s[4..4 + |path|] + s[4 + |path|..];
    assert t == t[..4] + t[4..4 + |path|] + t[4 + |path|..];
  }

  /** What the service is handed for the path is the path's string, whole and
      not cut to 16 bits. */
  lemma PathSeen(g: Guest, m: seq<byte>, b: Block, off: nat, path: seq<byte>, cb: nat, s: seq<byte>)
    requires |path| < MAX_PATH && Backed(g, b, cb) && off + |path| + 5 <= cb && |m| == g.ram.Length
    requires var t := Put(m, b.phys + off, ShflString(path));
             HandedIn(IPtr(s), t, LinBuf(g, DIR_TO_HOST, b.lin + off, StringSize(t, b.phys + off)))
    ensures |s| == |path| + 5 && Load(s, 0, 2) == |path| + 1 && Load(s, 2, 2) == |path|
    ensures s[4..4 + |path|] == path && s[4 + |path|] == 0 && StringOf(s, path)
  {
    hide LinAddrs, StringSize, ShflString, Put, Input, Gather, Buf, Range, Backed, HandedIn, StringOf;
    var str := ShflString(path);
    var t := Put(m, b.phys + off, str);
    BlockAddrs(g, b, cb, off, |str|);
    StringPutSize(m, b.phys + off, path);
    GatherPut(m, b.phys + off, str);
    InputOf(t, |str|, LinAddrs(g.pt, b.lin + off, |str|), str);
    InputIs(IPtr(s), t, LinBuf(g, DIR_TO_HOST, b.lin + off, |str|));
    ShflStringIs(path);
    StringLoads(s, path);
  }

  lemma StringLoads(s: seq<byte>, path: seq<byte>)
    requires StringOf(s, path) && |path| < MAX_PATH
    ensures |s| == |path| + 5 && Load(s, 0, 2) == |path| + 1 && Load(s, 2, 2) == |path|
    ensures s[4..4 + |path|] == path && s[4 + |path|] == 0
  {
    assert Load(s, 1, 1) == s[1] && Load(s, 3, 1) == s[3];
  }

  /** The path's string is handed in. */
  lemma PathHanded(g: Guest, m: seq<byte>, b: Block, off: nat, path: seq<byte>, cb: nat)
    requires |path| < MAX_PATH && Backed(g, b, cb) && off + |path| + 5 <= cb && |m| == g.ram.Length
    ensures var t := Put(m, b.phys + off, ShflString(path));
            && StringSize(t, b.phys + off) == |path| + 5
            && HandedIn(IPtr(ShflString(path)), t, LinBuf(g, DIR_TO_HOST, b.lin + off, |path| + 5))
  {
    hide LinAddrs, StringSize, ShflString, Put, Backed;
    var str := ShflString(path);
    BlockAddrs(g, b, cb, off, |str|);
    StringPutSize(m, b.phys + off, path);
    forall k | 0 <= k < |str| ensures Found(str[k], Put(m, b.phys + off, str), b.phys + off + k) {
      assert ByteAt(Put(m, b.phys + off, str), b.phys + off + k) == str[k];
    }
  }

  lemma LinkDelivers(g: Guest, m0: seq<byte>, m: seq<byte>, vrc: int32, idRoot: u32, path: seq<byte>, buf: Block, cbBuffer: u32, b: Block)
    requires |path| < MAX_PATH && |path| + 5 + cbBuffer <= MAX_DATA_SIZE && |m0| == |m| == g.ram.Length
    requires Backed(g, b, LinkBlockSize(g, path)) && MappedTo(g.pt, buf.lin, buf.phys, cbBuffer, g.ram.Length)
    requires Apart(b, LinkBlockSize(g, path), buf, cbBuffer)
    requires var t := Put(m0, b.phys + g.OffParm(3) + SIZEOF_PAGELIST, ShflString(path));
             Answered(g, m, b, LinkBlockSize(g, path), vrc,
                      Serve(t, g.svc, g.idClient, SHFL_FN_READLINK, ReadLinkView(g, t, idRoot, buf, cbBuffer, b)))
    ensures LinkRead(g, m0, m, vrc, idRoot, path, buf, cbBuffer)
  {
    hide Serve, LinAddrs, StringSize, ShflString, Put, Backed, StringOf;
    var off := g.OffParm(3) + SIZEOF_PAGELIST;
    var (str, t) := (ShflString(path), Put(m0, b.phys + off, ShflString(path)));
    var view := ReadLinkView(g, t, idRoot, buf, cbBuffer, b);
    PathHanded(g, m0, b, off, path, LinkBlockSize(g, path));
    var c := SvcCall(g.idClient, 18, [I32(idRoot), IPtr(str), IPtr(Zeros(cbBuffer))]);
    LinkTotal(view);
    HandedOver(t, g.svc, g.idClient, SHFL_FN_READLINK, view, c);
    var want := Serve(t, g.svc, g.idClient, SHFL_FN_READLINK, view);
    if |want.outs| > 2 && want.outs[2].OPtr? {
      assert view[2].wr == Range(buf.phys, cbBuffer);
      OnlyBufferBack(t, g.svc, g.idClient, SHFL_FN_READLINK, view, 2, buf.phys, cbBuffer);
      forall a | buf.phys <= a < buf.phys + cbBuffer ensures m[a] == want.ram[a] && t[a] == m0[a] {
        assert ByteAt(m, a) == ByteAt(want.ram, a) && ByteAt(t, a) == ByteAt(m0, a);
      }
    }
    assert LinkGiven(g, m0, m, vrc, idRoot, str, buf, cbBuffer);
    forall s: seq<byte> | StringOf(s, path) ensures LinkGiven(g, m0, m, vrc, idRoot, s, buf, cbBuffer) {
      ShflStringIs(path);
      StringUnique(s, str, path);
    }
  }

  lemma LinkTotal(view: seq<Parm>)
    requires |view| == 3 && view[0].V32?
    ensures TotalCb(view, 0) == Cb(view[1]) + Cb(view[2])
  {
    assert TotalCb(view, 1) == Cb(view[1]) + TotalCb(view, 2) && TotalCb(view, 2) == Cb(view[2]) + TotalCb(view, 3);
  }

  lemma BlockAddrs(g: Guest, b: Block, cb: nat, off: nat, n: nat)
    requires Backed(g, b, cb) && off + n <= cb
    ensures LinAddrs(g.pt, b.lin + off, n) == Range(b.phys + off, n) && b.phys + cb <= g.ram.Length
  {
    MappedPart(g.pt, b.lin, b.phys, cb, g.ram.Length, off, n);
  }

  lemma InputOf(m: seq<byte>, cb: nat, addrs: seq<int>, s: seq<byte>)
    requires |addrs| > 0 && Gather(m, addrs) == s
    ensures Input(m, Buf(DIR_TO_HOST, cb, addrs)) == IPtr(s)
  {
  }

  lemma GatherPut(m: seq<byte>, a: nat, s: seq<byte>)
    requires a + |s| <= |m|
    ensures Gather(Put(m, a, s), Range(a, |s|)) == s
  {
  }
}
