/**
  * Octets, fixed-width unsigned integers and the little-endian loaders and
  * stores shared by every wire format of the daemon.
  */
module Bytes {

  type byte = x: int | 0 <= x < 0x100
  type u16 = x: int | 0 <= x < 0x1_0000
  type u32 = x: int | 0 <= x < 0x1_0000_0000
  type u64 = x: int | 0 <= x < 0x1_0000_0000_0000_0000

  const U32: int := 0x1_0000_0000
  const U64: int := 0x1_0000_0000_0000_0000

  type Bytes = seq<byte>

  datatype Option<+T> = None | Some(value: T)

  function Min(a: nat, b: nat): nat {
    if a <= b then a else b
  }

  /** The octets of an ASCII literal. */
  function Ascii(s: string): (r: Bytes)
    requires forall i | 0 <= i < |s| :: s[i] as int < 0x100
    ensures |r| == |s|
    ensures forall i | 0 <= i < |s| :: r[i] == s[i] as int
  {
    seq(|s|, i requires 0 <= i < |s| => s[i] as int)
  }

  function Zeros(n: nat): (r: Bytes)
    ensures |r| == n
  {
    seq(n, _ => 0)
  }

  function Le16(v: u16): Bytes {
    [v % 0x100, v / 0x100]
  }

  /** The `n` low octets of `v`, least significant first. */
  function LeBytes(v: nat, n: nat): (r: Bytes)
    ensures |r| == n
  {
    if n == 0 then [] else [v % 0x100] + LeBytes(v / 0x100, n - 1)
  }

  function Le32(v: u32): Bytes {
    LeBytes(v, 4)
  }

  /** The octets of a 32-bit field, one by one. */
  lemma Le32Octets(v: u32)
    ensures Le32(v) == [v % 0x100, v / 0x100 % 0x100, v / 0x1_0000 % 0x100, v / 0x100_0000]
  {
    assert LeBytes(v / 0x100_0000, 1) == [v / 0x100_0000];
    assert LeBytes(v / 0x1_0000, 2) == [v / 0x1_0000 % 0x100, v / 0x100_0000];
    assert LeBytes(v / 0x100, 3) == [v / 0x100 % 0x100, v / 0x1_0000 % 0x100, v / 0x100_0000];
  }

  function Ld16(s: Bytes, at: nat): u16
    requires at + 2 <= |s|
  {
    s[at] as int + 0x100 * s[at + 1] as int
  }

  /** The little-endian value of the octets from `at` up to `end`. */
  function LdTo(s: Bytes, at: nat, end: nat): (v: nat)
    requires at <= end <= |s|
    ensures end <= at + 1 ==> v < 0x100
    ensures end <= at + 2 ==> v < 0x1_0000
    ensures end <= at + 3 ==> v < 0x100_0000
    ensures end <= at + 4 ==> v < U32
    decreases end - at
  {
    if at == end then 0 else s[at] as int + 0x100 * LdTo(s, at + 1, end)
  }

  function Ld32(s: Bytes, at: nat): u32
    requires at + 4 <= |s|
  {
    LdTo(s, at, at + 4)
  }

  /** A 16-bit store is undone by a 16-bit load, wherever it lands in a message. */
  lemma Ld16OfLe16(pre: Bytes, v: u16, post: Bytes)
    ensures Ld16(pre + Le16(v) + post, |pre|) == v
  {
    var s := pre + Le16(v) + post;
    assert s[|pre|] == Le16(v)[0] && s[|pre| + 1] == Le16(v)[1];
  }

  /** A 32-bit store is undone by a 32-bit load, wherever it lands in a message. */
  lemma Ld32OfLe32(pre: Bytes, v: u32, post: Bytes)
    ensures Ld32(pre + Le32(v) + post, |pre|) == v
  {
    LdToOfLeBytes(pre, v, 4, post);
  }

  /** One more than the largest value of `n` octets. */
  function Bound(n: nat): nat {
    if n == 0 then 1 else 0x100 * Bound(n - 1)
  }

  lemma {:induction false} LdToOfLeBytes(pre: Bytes, v: nat, n: nat, post: Bytes)
    requires v < Bound(n)
    ensures LdTo(pre + LeBytes(v, n) + post, |pre|, |pre| + n) == v
    decreases n
  {
    if n > 0 {
      var s := pre + LeBytes(v, n) + post;
      var pre' := pre + [v % 0x100];
      assert s == pre' + LeBytes(v / 0x100, n - 1) + post;
      assert s[|pre|] == v % 0x100;
      LdToOfLeBytes(pre', v / 0x100, n - 1, post);
    }
  }

  /** A load does not see what stands before it. */
  lemma {:induction false} LdToSkips(a: Bytes, b: Bytes, at: nat, end: nat)
    requires at <= end <= |b|
    ensures LdTo(a + b, |a| + at, |a| + end) == LdTo(b, at, end)
    decreases end - at
  {
    if at < end {
      LdToSkips(a, b, at + 1, end);
    }
  }

  /** memcpy: `src` stored at `at`, and nothing else. */
  method Copy(dst: array<byte>, at: nat, src: Bytes)
    requires at + |src| <= dst.Length
    modifies dst
    ensures dst[..at + |src|] == old(dst[..at]) + src && dst[at + |src|..] == old(dst[at + |src|..])
  {
    var k := 0;
    while k < |src|
      invariant k <= |src|
      invariant dst[..at + k] == old(dst[..at]) + src[..k] && dst[at + k..] == old(dst[at + k..])
    {
      dst[at + k] := src[k];
      k := k + 1;
    }
  }

  /** `t` stands in `s` at `at`. */
  ghost predicate StandsAt(s: Bytes, at: nat, t: Bytes) {
    at + |t| <= |s| && s[at..at + |t|] == t
  }

  lemma StandsInFront(s: Bytes, at: nat, e: Bytes, rest: Bytes)
    requires at <= |s| && s[at..] == e + rest
    ensures StandsAt(s, at, e) && s[at + |e|..] == rest
  {
    assert s[at..at + |e|] == s[at..][..|e|] == e;
    assert s[at + |e|..] == s[at..][|e|..] == rest;
  }

  /** A view into a buffer. */
  datatype Range = Range(off: nat, len: nat) {
    function End(): nat {
      off + len
    }

    predicate Inside(lo: nat, hi: nat) {
      lo <= off && off + len <= hi
    }
  }

  function Slice(p: Bytes, r: Range): Bytes
    requires r.Inside(0, |p|)
  {
    p[r.off..r.End()]
  }

  /** The C string at the start of a buffer. */
  function CString(p: Bytes): (r: Bytes)
    ensures |r| <= |p|
  {
    if p == [] || p[0] == 0 then [] else [p[0]] + CString(p[1..])
  }

  lemma Product(a: nat, b: nat, x: nat, y: nat)
    requires a <= x && b <= y
    ensures a * b <= x * y
  {
    assert a * b <= x * b <= x * y;
  }

  lemma Assoc(a: Bytes, b: Bytes, c: Bytes)
    ensures a + (b + c) == (a + b) + c
  {}

  /** The concatenation of a list of byte strings. */
  function Concat(parts: seq<Bytes>): Bytes {
    if parts == [] then [] else parts[0] + Concat(parts[1..])
  }

  lemma {:induction false} ConcatAppend(parts: seq<Bytes>, last: Bytes)
    ensures Concat(parts + [last]) == Concat(parts) + last
  {
    if parts == [] {
      assert [] + [last] == [last];
      assert [last][1..] == [];
    } else {
      assert (parts + [last])[1..] == parts[1..] + [last];
      ConcatAppend(parts[1..], last);
    }
  }
}
