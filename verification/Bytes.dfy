/** Bytes of guest physical memory: little-endian loads and stores, gathers and
    scatters over lists of byte addresses. Memory is total: a byte outside the
    RAM reads as 0xff and a write to it is dropped, as for unassigned guest
    physical addresses. */
module Bytes {

  type byte = x: int | 0 <= x < 0x100
  type u16 = x: int | 0 <= x < 0x1_0000
  type u32 = x: int | 0 <= x < 0x1_0000_0000
  type u64 = x: int | 0 <= x < 0x1_0000_0000_0000_0000
  type int32 = x: int | -0x8000_0000 <= x < 0x8000_0000

  /** The physical address no page has (NIL_RTGCPHYS). */
  const NIL: nat := 0xFFFF_FFFF_FFFF_FFFF

  function ByteAt(m: seq<byte>, a: nat): byte {
    if a < |m| then m[a] else 0xFF
  }

  /** The n-byte little-endian number at address a. */
  function Load(m: seq<byte>, a: nat, n: nat): nat
    decreases n
  {
    if n == 0 then 0 else ByteAt(m, a) + 0x100 * Load(m, a + 1, n - 1)
  }

  /** The n lowest bytes of v, least significant first. */
  function LeBytes(v: nat, n: nat): (b: seq<byte>)
    ensures |b| == n
  {
    if n == 0 then [] else [v % 0x100] + LeBytes(v / 0x100, n - 1)
  }

  function Pow256(n: nat): nat {
    if n == 0 then 1 else 0x100 * Pow256(n - 1)
  }

  /** The two memories agree outside [lo, hi). */
  ghost predicate SameOutside(s: seq<byte>, t: seq<byte>, lo: nat, hi: nat) {
    && |s| == |t|
    && forall a: nat :: !(lo <= a < hi) ==> ByteAt(s, a) == ByteAt(t, a)
  }

  lemma SameWider(s: seq<byte>, t: seq<byte>, lo: nat, hi: nat, wide: nat)
    requires SameOutside(s, t, lo, hi) && hi <= wide
    ensures SameOutside(s, t, lo, wide)
  {
  }

  /** Memory m with the bytes b written from address a on. */
  function Put(m: seq<byte>, a: nat, b: seq<byte>): (r: seq<byte>)
    ensures |r| == |m|
    ensures forall i: nat :: ByteAt(r, i) == if a <= i < a + |b| && i < |m| then b[i - a] else ByteAt(m, i)
  {
    seq(|m|, i requires 0 <= i < |m| => if a <= i < a + |b| then b[i - a] else m[i])
  }

  /** The address list a, a + 1, ..., a + n - 1. */
  function Range(a: nat, n: nat): (r: seq<int>)
    ensures |r| == n && forall k :: 0 <= k < n ==> r[k] == a + k
  {
    seq(n, k requires 0 <= k < n => a + k)
  }

  /** Stands for a byte the host passes over, because its page is not there. */
  const SKIP: int := -1

  /** The byte a host read finds at one address: a skipped byte keeps the zero
      the host buffer was cleared to. */
  function HostByte(m: seq<byte>, a: int): byte {
    if a < 0 then 0 else ByteAt(m, a)
  }

  /** The bytes at the listed addresses, in order. */
  function Gather(m: seq<byte>, addrs: seq<int>): (r: seq<byte>)
    ensures |r| == |addrs| && forall k :: 0 <= k < |r| ==> r[k] == HostByte(m, addrs[k])
  {
    seq(|addrs|, k requires 0 <= k < |addrs| => HostByte(m, addrs[k]))
  }

  /** Memory m with data[k] written to addrs[k], for k from 0 on. */
  function Scatter(m: seq<byte>, addrs: seq<int>, data: seq<byte>): (r: seq<byte>)
    requires |addrs| == |data|
    ensures |r| == |m|
  {
    if |addrs| == 0 then m
    else
      var n := |addrs| - 1;
      var s := Scatter(m, addrs[..n], data[..n]);
      if 0 <= addrs[n] < |s| then s[addrs[n] := data[n]] else s
  }

  lemma {:induction false} LoadLeBytes(m: seq<byte>, a: nat, v: nat, n: nat)
    requires v < Pow256(n)
    requires forall k :: 0 <= k < n ==> ByteAt(m, a + k) == LeBytes(v, n)[k]
    ensures Load(m, a, n) == v
    decreases n
  {
    if n > 0 {
      var rest := LeBytes(v / 0x100, n - 1);
      assert ByteAt(m, a + 0) == LeBytes(v, n)[0] == v % 0x100;
      forall k | 0 <= k < |rest| ensures ByteAt(m, a + 1 + k) == rest[k] {
        assert ByteAt(m, a + (k + 1)) == LeBytes(v, n)[k + 1];
      }
      LoadLeBytes(m, a + 1, v / 0x100, n - 1);
    }
  }

  lemma {:induction false} LoadFrame(s: seq<byte>, t: seq<byte>, a: nat, n: nat)
    requires forall i: nat :: a <= i < a + n ==> ByteAt(s, i) == ByteAt(t, i)
    ensures Load(s, a, n) == Load(t, a, n)
    decreases n
  {
    if n > 0 {
      LoadFrame(s, t, a + 1, n - 1);
    }
  }

  lemma {:induction false} LoadBound(m: seq<byte>, a: nat, n: nat)
    ensures Load(m, a, n) < Pow256(n)
    decreases n
  {
    if n > 0 {
      LoadBound(m, a + 1, n - 1);
    }
  }

  lemma LoadBounds(m: seq<byte>, a: nat)
    ensures Load(m, a, 2) < 0x1_0000
    ensures Load(m, a, 4) < 0x1_0000_0000
    ensures Load(m, a, 8) < 0x1_0000_0000_0000_0000
  {
    PowValues();
    LoadBound(m, a, 2);
    LoadBound(m, a, 4);
    LoadBound(m, a, 8);
  }

  lemma PowValues()
    ensures Pow256(1) == 0x100 && Pow256(2) == 0x1_0000 && Pow256(4) == 0x1_0000_0000
    ensures Pow256(8) == 0x1_0000_0000_0000_0000
  {
    assert Pow256(3) == 0x100_0000;
    assert Pow256(5) == 0x100_0000_0000;
    assert Pow256(6) == 0x1_0000_0000_0000;
    assert Pow256(7) == 0x100_0000_0000_0000;
  }

  /** Stores the n bytes of v in place; every load that does not overlap them
      reads what it read before. */
  method StoreLe(ram: array<byte>, a: nat, v: nat, n: nat)
    requires a + n <= ram.Length && v < Pow256(n)
    modifies ram
    ensures ram[..] == Put(old(ram[..]), a, LeBytes(v, n))
    ensures Load(ram[..], a, n) == v
    ensures SameOutside(old(ram[..]), ram[..], a, a + n)
    ensures forall q: nat, k: nat {:trigger Load(ram[..], q, k)} :: q + k <= a || a + n <= q
              ==> Load(ram[..], q, k) == old(Load(ram[..], q, k))
  {
    var b := LeBytes(v, n);
    forall k | 0 <= k < n {
      ram[a + k] := b[k];
    }
    ghost var s, t := old(ram[..]), ram[..];
    assert t == Put(s, a, b);
    LoadLeBytes(t, a, v, n);
    forall q: nat, k: nat | q + k <= a || a + n <= q
      ensures Load(t, q, k) == Load(s, q, k)
    {
      LoadFrame(s, t, q, k);
    }
  }

  /** A scatter touches listed addresses only. */
  lemma {:induction false} ScatterOutside(m: seq<byte>, addrs: seq<int>, data: seq<byte>, a: nat)
    requires |addrs| == |data| && a !in addrs
    ensures ByteAt(Scatter(m, addrs, data), a) == ByteAt(m, a)
  {
    if |addrs| > 0 {
      var n := |addrs| - 1;
      assert addrs[n] != a;
      ScatterOutside(m, addrs[..n], data[..n], a);
    }
  }

  /** Over distinct addresses inside the memory, a gather reads back exactly
      what the scatter wrote. */
  lemma {:induction false} GatherScatter(m: seq<byte>, addrs: seq<int>, data: seq<byte>)
    requires |addrs| == |data|
    requires forall k :: 0 <= k < |addrs| ==> 0 <= addrs[k] < |m|
    requires forall i, j :: 0 <= i < j < |addrs| ==> addrs[i] != addrs[j]
    ensures Gather(Scatter(m, addrs, data), addrs) == data
  {
    if |addrs| > 0 {
      var n := |addrs| - 1;
      var s := Scatter(m, addrs[..n], data[..n]);
      GatherScatter(m, addrs[..n], data[..n]);
      var r := Scatter(m, addrs, data);
      forall k | 0 <= k < |addrs| ensures Gather(r, addrs)[k] == data[k] {
        if k < n {
          assert Gather(s, addrs[..n])[k] == data[..n][k];
        }
      }
    }
  }

  /** Memories that agree outside a region still do after the same scatter. */
  lemma {:induction false} ScatterSame(s: seq<byte>, t: seq<byte>, addrs: seq<int>, data: seq<byte>, lo: nat, hi: nat)
    requires |addrs| == |data| && SameOutside(s, t, lo, hi)
    ensures SameOutside(Scatter(s, addrs, data), Scatter(t, addrs, data), lo, hi)
  {
    if |addrs| > 0 {
      var n := |addrs| - 1;
      ScatterSame(s, t, addrs[..n], data[..n], lo, hi);
      var s', t' := Scatter(s, addrs[..n], data[..n]), Scatter(t, addrs[..n], data[..n]);
      forall a: nat | !(lo <= a < hi)
        ensures ByteAt(Scatter(s, addrs, data), a) == ByteAt(Scatter(t, addrs, data), a)
      {
        assert ByteAt(s', a) == ByteAt(t', a);
      }
    }
  }

  /** A scatter that avoids a written-over region commutes with the write. */
  lemma {:induction false} ScatterPut(m: seq<byte>, addrs: seq<int>, data: seq<byte>, a: nat, b: seq<byte>)
    requires |addrs| == |data|
    requires forall k :: 0 <= k < |addrs| ==> !(a <= addrs[k] < a + |b|)
    ensures Scatter(Put(m, a, b), addrs, data) == Put(Scatter(m, addrs, data), a, b)
  {
    if |addrs| > 0 {
      var n := |addrs| - 1;
      ScatterPut(m, addrs[..n], data[..n], a, b);
    }
  }

  /** Writing a run of consecutive bytes is the scatter over their range. */
  lemma {:induction false} PutIsScatter(m: seq<byte>, a: nat, b: seq<byte>)
    ensures Put(m, a, b) == Scatter(m, Range(a, |b|), b)
  {
    if |b| == 0 {
      assert Put(m, a, b) == m;
    } else {
      var n := |b| - 1;
      PutIsScatter(m, a, b[..n]);
      assert Range(a, |b|)[..n] == Range(a, n);
      var s := Put(m, a, b[..n]);
      var r := Put(m, a, b);
      forall i | 0 <= i < |m| ensures r[i] == (if a + n < |s| then s[a + n := b[n]] else s)[i] {
        assert ByteAt(r, i) == r[i] && ByteAt(s, i) == s[i];
      }
      assert r == if a + n < |s| then s[a + n := b[n]] else s;
    }
  }

  /** A scatter over distinct addresses, some of them passed over, leaves its
      data at each address inside the memory. */
  lemma {:induction false} ScatterAt(m: seq<byte>, addrs: seq<int>, data: seq<byte>, k: nat)
    requires |addrs| == |data| && k < |addrs| && 0 <= addrs[k] < |m|
    requires forall i, j :: 0 <= i < j < |addrs| && addrs[i] != SKIP ==> addrs[i] != addrs[j]
    ensures Scatter(m, addrs, data)[addrs[k]] == data[k]
  {
    var n := |addrs| - 1;
    if k < n {
      ScatterAt(m, addrs[..n], data[..n], k);
    }
  }

  /** Such a scatter changes nothing exactly when its data is there already. */
  lemma ScatterIdle(m: seq<byte>, addrs: seq<int>, data: seq<byte>)
    requires |addrs| == |data|
    requires forall k :: 0 <= k < |addrs| ==> addrs[k] == SKIP || 0 <= addrs[k] < |m|
    requires forall i, j :: 0 <= i < j < |addrs| && addrs[i] != SKIP ==> addrs[i] != addrs[j]
    ensures Scatter(m, addrs, data) == m <==> forall k :: 0 <= k < |addrs| && addrs[k] != SKIP ==> data[k] == m[addrs[k]]
  {
    forall k | 0 <= k < |addrs| && addrs[k] != SKIP ensures Scatter(m, addrs, data)[addrs[k]] == data[k] {
      ScatterAt(m, addrs, data, k);
    }
    if forall k :: 0 <= k < |addrs| && addrs[k] != SKIP ==> data[k] == m[addrs[k]] {
      ScatterThere(m, addrs, data);
    }
  }

  lemma {:induction false} ScatterThere(m: seq<byte>, addrs: seq<int>, data: seq<byte>)
    requires |addrs| == |data|
    requires forall k :: 0 <= k < |addrs| && 0 <= addrs[k] < |m| ==> data[k] == m[addrs[k]]
    ensures Scatter(m, addrs, data) == m
  {
    if |addrs| > 0 {
      var n := |addrs| - 1;
      ScatterThere(m, addrs[..n], data[..n]);
    }
  }
}
