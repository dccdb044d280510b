/** What the service is handed, and what comes back to the guest of its reply, in
    so many words. */
module Delivery {
  import opened Bytes
  import opened Hgcm
  import opened Transport

  // ----- What the service is handed -----

  /** What a read finds at an address: nothing was read of a page that is not
      there, and memory outside the RAM reads as 0xff. */
  ghost predicate Found(x: byte, m: seq<byte>, a: int) {
    x == if a < 0 then 0 else if a < |m| then m[a] else 0xFF
  }

  function Zeros(n: nat): (z: seq<byte>)
    ensures |z| == n && forall k :: 0 <= k < n ==> z[k] == 0
  {
    seq(n, _ => 0)
  }

  /** A value comes whole, a buffer with its bytes, or cleared if it is not read. */
  ghost predicate HandedIn(x: SvcIn, m: seq<byte>, v: Parm) {
    match v
    case V32(n) => x == I32(n)
    case V64(n) => x == I64(n)
    case VPtr(cb, rd, _) =>
      && x.IPtr?
      && if |rd| == 0 then |x.data| == cb && forall k :: 0 <= k < cb ==> x.data[k] == 0
         else |x.data| == |rd| && forall k :: 0 <= k < |rd| ==> Found(x.data[k], m, rd[k])
  }

  ghost predicate Handed(c: SvcCall, m: seq<byte>, client: nat, fn: nat, view: seq<Parm>) {
    && c.client == client && c.fn == fn && |c.ins| == |view|
    && forall i :: 0 <= i < |view| ==> HandedIn(c.ins[i], m, view[i])
  }

  /** That is the call a served request comes to, and its only one: status and
      reply are the service's for it. */
  lemma HandedOver(m: seq<byte>, svc: Service, client: nat, fn: nat, view: seq<Parm>, c: SvcCall)
    requires Handed(c, m, client, fn, view)
    ensures var r := Serve(m, svc, client, fn, view);
            if r.refused then TotalCb(view, 0) > MAX_DATA_SIZE else r.rc == svc(c).result && r.outs == svc(c).outs
  {
    hide WriteBack, TotalCb;
    var d := CallOf(m, client, fn, view);
    forall i | 0 <= i < |view| ensures c.ins[i] == d.ins[i] {
      InputIs(c.ins[i], m, view[i]);
    }
    assert c.ins == d.ins;
  }

  lemma InputIs(x: SvcIn, m: seq<byte>, v: Parm)
    requires HandedIn(x, m, v)
    ensures x == Input(m, v)
  {
    if v.VPtr? {
      assert x.data == Input(m, v).data;
    }
  }

  // ----- What comes back -----

  /** Byte k of buffer i goes to an address no other byte that comes back has. */
  ghost predicate Alone(view: seq<Parm>, i: nat, k: nat) {
    && i < |view| && view[i].VPtr? && k < |view[i].wr|
    && forall j, l :: 0 <= j < |view| && view[j].VPtr? && 0 <= l < |view[j].wr| && !(j == i && l == k) ==>
         view[j].wr[l] != view[i].wr[k]
  }

  lemma {:induction false} ScatterHit(m: seq<byte>, addrs: seq<int>, data: seq<byte>, k: nat)
    requires |addrs| == |data| && k < |addrs| && 0 <= addrs[k] < |m|
    requires forall l :: 0 <= l < |addrs| && l != k ==> addrs[l] != addrs[k]
    ensures Scatter(m, addrs, data)[addrs[k]] == data[k]
  {
    var n := |addrs| - 1;
    if k < n {
      ScatterHit(m, addrs[..n], data[..n], k);
    }
  }

  /** The data of element i of the reply reaches its place in buffer i. */
  lemma OutHits(m: seq<byte>, view: seq<Parm>, outs: seq<SvcOut>, i: nat, k: nat)
    requires Alone(view, i, k) && 0 <= view[i].wr[k] < |m| && i < |outs| && outs[i].OPtr?
    ensures var a := view[i].wr[k];
            WriteOut(m, view[i], outs, i)[a] == if k < |outs[i].data| then outs[i].data[k] else m[a]
  {
    hide Scatter;
    var (wr, data) := (view[i].wr, outs[i].data);
    var n := if |data| < |wr| then |data| else |wr|;
    if k < n {
      assert wr[..n][k] == wr[k];
      ScatterHit(m, wr[..n], data[..n], k);
    } else {
      ScatterOutside(m, wr[..n], data[..n], wr[k]);
      assert ByteAt(Scatter(m, wr[..n], data[..n]), wr[k]) == ByteAt(m, wr[k]);
    }
  }

  /** Writing back from parameter j on changes no byte that none of them has. */
  lemma {:induction false} BackKeeps(m: seq<byte>, view: seq<Parm>, outs: seq<SvcOut>, j: nat, a: nat)
    requires j <= |view| && forall i :: j <= i < |view| && view[i].VPtr? ==> a !in view[i].wr
    ensures ByteAt(WriteBack(m, view, outs, j), a) == ByteAt(m, a)
    decreases |view| - j
  {
    hide WriteOut;
    if j < |view| {
      OutKeeps(m, view[j], outs, j, a);
      BackKeeps(WriteOut(m, view[j], outs, j), view, outs, j + 1, a);
    }
  }

  lemma {:induction false} BackHits(m: seq<byte>, view: seq<Parm>, outs: seq<SvcOut>, j: nat, i: nat, k: nat)
    requires j <= i && Alone(view, i, k) && 0 <= view[i].wr[k] < |m| && i < |outs| && outs[i].OPtr?
    ensures var a := view[i].wr[k];
            WriteBack(m, view, outs, j)[a] == if k < |outs[i].data| then outs[i].data[k] else m[a]
    decreases i - j
  {
    hide WriteOut;
    var a := view[i].wr[k];
    var m1 := WriteOut(m, view[j], outs, j);
    if j < i {
      OutKeeps(m, view[j], outs, j, a);
      assert ByteAt(m1, a) == m1[a] == m[a];
      BackHits(m1, view, outs, j + 1, i, k);
    } else {
      OutHits(m, view, outs, i, k);
      BackKeeps(m1, view, outs, j + 1, a);
      assert ByteAt(WriteBack(m, view, outs, j), a) == ByteAt(m1, a);
    }
  }

  /** Every byte the service hands back for a buffer ends up at that buffer's
      address for it; where it hands back less, memory is as it was. */
  lemma DataComesBack(m: seq<byte>, svc: Service, client: nat, fn: nat, view: seq<Parm>, i: nat, k: nat)
    requires Alone(view, i, k) && 0 <= view[i].wr[k] < |m|
    requires var r := Serve(m, svc, client, fn, view); !r.refused && i < |r.outs| && r.outs[i].OPtr?
    ensures var (r, a) := (Serve(m, svc, client, fn, view), view[i].wr[k]);
            r.ram[a] == if k < |r.outs[i].data| then r.outs[i].data[k] else m[a]
  {
    hide CallOf, TotalCb, WriteBack;
    BackHits(m, view, Serve(m, svc, client, fn, view).outs, 0, i, k);
  }

  /** So the data for the only buffer that comes back, if it is in one piece. */
  lemma OnlyBufferBack(m: seq<byte>, svc: Service, client: nat, fn: nat, view: seq<Parm>, i: nat, phys: nat, n: nat)
    requires i < |view| && view[i].VPtr? && view[i].wr == Range(phys, n) && phys + n <= |m|
    requires forall j :: 0 <= j < |view| && j != i && view[j].VPtr? ==> view[j].wr == []
    requires var r := Serve(m, svc, client, fn, view); !r.refused && i < |r.outs| && r.outs[i].OPtr?
    ensures var r := Serve(m, svc, client, fn, view);
            forall a :: phys <= a < phys + n ==>
              r.ram[a] == if a - phys < |r.outs[i].data| then r.outs[i].data[a - phys] else m[a]
  {
    hide Serve;
    var r := Serve(m, svc, client, fn, view);
    forall a | phys <= a < phys + n
      ensures r.ram[a] == if a - phys < |r.outs[i].data| then r.outs[i].data[a - phys] else m[a]
    {
      assert view[i].wr[a - phys] == a;
      DataComesBack(m, svc, client, fn, view, i, a - phys);
    }
  }

  /** And a byte of no buffer that comes back is as it was. */
  lemma OthersStay(m: seq<byte>, svc: Service, client: nat, fn: nat, view: seq<Parm>, a: nat)
    requires forall i :: 0 <= i < |view| && view[i].VPtr? ==> a !in view[i].wr
    ensures ByteAt(Serve(m, svc, client, fn, view).ram, a) == ByteAt(m, a)
  {
    hide CallOf, TotalCb, WriteBack;
    BackKeeps(m, view, Serve(m, svc, client, fn, view).outs, 0, a);
  }

  /** A value the service gives back stands whole in its parameter's slot. */
  lemma ValueComesBack(m: seq<byte>, area: Area, view: seq<Parm>, outs: seq<SvcOut>, i: nat)
    requires ValuesReturned(m, area, view, outs) && i < |view| && i < |outs|
    ensures view[i].V32? && outs[i].O32? && outs[i].v < 0x1_0000_0000 ==> Load(m, area.Slot(i) + 4, 4) == outs[i].v
    ensures view[i].V64? && outs[i].O64? && outs[i].v < 0x1_0000_0000_0000_0000 ==> Load(m, area.Slot(i) + 4, 8) == outs[i].v
  {
    hide Load;
  }

  lemma ValueIs(outs: seq<SvcOut>, i: nat)
    requires i < |outs|
    ensures outs[i].O32? && outs[i].v < 0x1_0000_0000 ==> OutValue(outs, i, 4) == outs[i].v
    ensures outs[i].O64? && outs[i].v < 0x1_0000_0000_0000_0000 ==> OutValue(outs, i, 8) == outs[i].v
  {
  }
}
