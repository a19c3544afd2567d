/**
  * BER as the daemon writes and reads it: definite lengths of up to four octets
  * (section 8.1.3 of X.690), one-octet tags, INTEGER and OCTET STRING. Reading is
  * given twice, on the octets that are left and at an offset, and the two agree.
  */
module Ber {
  import opened Bytes

  const INTEGER: byte := 0x02
  const OCTETS: byte := 0x04
  const SEQUENCE: byte := 0x30

  // ---- Writing -----------------------------------------------------------

  /** The `n` low octets of `v`, most significant first. */
  function BeBytes(v: nat, n: nat): (r: Bytes)
    ensures |r| == n
  {
    if n == 0 then [] else BeBytes(v / 0x100, n - 1) + [v % 0x100]
  }

  /** How many octets the long form of a length takes. */
  function LongForm(len: nat): nat {
    if len <= 0xFF then 1 else if len <= 0xFFFF then 2 else if len <= 0xFF_FFFF then 3 else 4
  }

  function Length(len: nat): Bytes {
    if len <= 0x7F then [len] else [0x80 + LongForm(len)] + BeBytes(len, LongForm(len))
  }

  function Tlv(tag: byte, value: Bytes): Bytes {
    [tag] + (Length(|value|) + value)
  }

  /** How many octets a non-negative INTEGER takes: the sign bit stays clear. */
  function IntegerOctets(v: u32): nat {
    if v <= 0x7F then 1 else if v <= 0x7FFF then 2 else if v <= 0x7F_FFFF then 3 else if v <= 0x7FFF_FFFF then 4 else 5
  }

  function Integer(v: u32): Bytes {
    Tlv(INTEGER, BeBytes(v, IntegerOctets(v)))
  }

  function Pow256(n: nat): nat {
    if n == 0 then 1 else Pow256(n - 1) * 0x100
  }

  lemma {:induction false} FirstOctet(v: nat, n: nat)
    requires n > 0 && Pow256(n - 1) <= v < Pow256(n)
    ensures BeBytes(v, n)[0] != 0
  {
    if n > 1 {
      assert Pow256(n - 1) == Pow256(n - 2) * 0x100;
      FirstOctet(v / 0x100, n - 1);
    }
  }

  /** What the first two octets of `n` say. */
  lemma {:induction false} FirstTwoOctets(v: nat, n: nat)
    requires n > 1 && 0x80 * Pow256(n - 2) <= v < 0x80 * Pow256(n - 1)
    ensures BeBytes(v, n)[0] < 0x80 && (BeBytes(v, n)[0] == 0 ==> BeBytes(v, n)[1] >= 0x80)
  {
    var q := v / 0x100;
    assert BeBytes(v, n) == BeBytes(q, n - 1) + [v % 0x100];
    if n == 2 {
      assert BeBytes(q, 1) == BeBytes(q / 0x100, 0) + [q % 0x100];
    } else {
      assert Pow256(n - 1) == Pow256(n - 2) * 0x100 && Pow256(n - 2) == Pow256(n - 3) * 0x100;
      FirstTwoOctets(q, n - 1);
    }
  }

  /** Lengths are in the distinguished form: one octet up to 127, and no leading zero above. */
  lemma LengthIsShortest(len: nat)
    requires len < U32
    ensures if len < 0x80 then Length(len) == [len]
            else |Length(len)| >= 2 && Length(len)[0] as int == 0x80 + |Length(len)| - 1 && Length(len)[1] != 0
  {
    if len >= 0x80 {
      var n := LongForm(len);
      assert Pow256(1) == 0x100 && Pow256(2) == 0x1_0000 && Pow256(3) == 0x100_0000;
      assert Pow256(4) == 0x1_0000_0000;
      FirstOctet(len, n);
    }
  }

  /** So are integers: the sign bit is clear and no octet could be dropped. */
  lemma IntegerIsShortest(v: u32)
    ensures var b := BeBytes(v, IntegerOctets(v));
            |b| > 0 && b[0] < 0x80 && (|b| > 1 && b[0] == 0 ==> b[1] >= 0x80)
  {
    var n := IntegerOctets(v);
    if n > 1 {
      assert Pow256(0) == 1 && Pow256(1) == 0x100 && Pow256(2) == 0x1_0000 && Pow256(3) == 0x100_0000;
      assert Pow256(4) == 0x1_0000_0000;
      FirstTwoOctets(v, n);
    }
  }

  // ---- Reading -----------------------------------------------------------

  function BeValue(b: Bytes): nat {
    if b == [] then 0 else BeValue(b[..|b| - 1]) * 0x100 + b[|b| - 1] as int
  }

  datatype Len = Len(value: nat, rest: Bytes)

  function ReadLength(s: Bytes): Option<Len> {
    if s == [] then None
    else if s[0] < 0x80 then Some(Len(s[0], s[1..]))
    else
      var n := s[0] - 0x80;
      if n == 0 || n > 4 || |s| < 1 + n then None else Some(Len(BeValue(s[1..1 + n]), s[1 + n..]))
  }

  /** An element's value and what follows the element. */
  datatype Elem = Elem(body: Bytes, rest: Bytes)

  function ReadTag(s: Bytes, want: byte): Option<Elem> {
    if s == [] || s[0] != want then None
    else
      var l := ReadLength(s[1..]);
      if l.None? || l.value.value > |l.value.rest| then None
      else Some(Elem(l.value.rest[..l.value.value], l.value.rest[l.value.value..]))
  }

  function IntegerValue(b: Bytes): Option<u32> {
    if |b| == 0 || |b| > 5 then None
    else if |b| == 5 then (if b[0] != 0 then None else Some(BeValue(b[1..]) % U32))
    else Some(BeValue(b) % U32)
  }

  function ReadInteger(s: Bytes): Option<u32> {
    var e := ReadTag(s, INTEGER);
    if e.None? then None else IntegerValue(e.value.body)
  }

  // ---- Reading at an offset -----------------------------------------------

  /** A length field: where the value after it starts, and how long it is. */
  function LengthAt(p: Bytes, at: nat, end: nat): (r: Option<Range>)
    requires at <= end <= |p|
    ensures r.Some? ==> at < r.value.off <= end
  {
    if at == end then None
    else if p[at] < 0x80 then Some(Range(at + 1, p[at]))
    else
      var n := p[at] - 0x80;
      if n == 0 || n > 4 || end - at < 1 + n then None else Some(Range(at + 1 + n, BeValue(p[at + 1..at + 1 + n])))
  }

  /** The value of the element that starts at `at`, if it has the tag and ends by `end`. */
  function TagAt(p: Bytes, at: nat, end: nat, want: byte): (r: Option<Range>)
    requires at <= end <= |p|
    ensures r.Some? ==> r.value.Inside(at + 2, end)
  {
    if at == end || p[at] != want then None
    else
      var l := LengthAt(p, at + 1, end);
      if l.None? || l.value.len > end - l.value.off then None else l
  }

  function IntegerAt(p: Bytes, at: nat, end: nat): Option<u32>
    requires at <= end <= |p|
  {
    var e := TagAt(p, at, end, INTEGER);
    if e.None? then None else IntegerValue(Slice(p, e.value))
  }

  lemma SubSlice(p: Bytes, at: nat, end: nat, i: nat, j: nat)
    requires at <= end <= |p| && i <= j <= end - at
    ensures p[at..end][i..j] == p[at + i..at + j]
  {
    var a, b := p[at..end][i..j], p[at + i..at + j];
    assert |a| == |b| && forall k | 0 <= k < |a| :: a[k] == p[at + (i + k)] == b[k];
  }

  lemma LengthAtReads(p: Bytes, at: nat, end: nat)
    requires at <= end <= |p|
    ensures var l, r := ReadLength(p[at..end]), LengthAt(p, at, end);
            && (l.Some? <==> r.Some?)
            && (r.Some? ==> l.value == Len(r.value.len, p[r.value.off..end]))
  {
    var s := p[at..end];
    if at < end && p[at] >= 0x80 {
      var n := p[at] - 0x80;
      if end - at >= 1 + n {
        SubSlice(p, at, end, 1, 1 + n);
        SubSlice(p, at, end, 1 + n, end - at);
      }
    }
  }

  /** Reading at an offset and reading what is left there find the same value. */
  lemma TagAtReads(p: Bytes, at: nat, end: nat, want: byte)
    requires at <= end <= |p|
    ensures var e, r := ReadTag(p[at..end], want), TagAt(p, at, end, want);
            && (e.Some? <==> r.Some?)
            && (r.Some? ==> e.value == Elem(Slice(p, r.value), p[r.value.End()..end]))
  {
    var s := p[at..end];
    if at < end {
      assert s[1..] == p[at + 1..end];
      LengthAtReads(p, at + 1, end);
      var l := LengthAt(p, at + 1, end);
      if l.Some? && l.value.len <= end - l.value.off {
        var t := p[l.value.off..end];
        assert t[..l.value.len] == Slice(p, l.value) && t[l.value.len..] == p[l.value.End()..end];
      }
    }
  }

  lemma IntegerAtReads(p: Bytes, at: nat, end: nat)
    requires at <= end <= |p|
    ensures ReadInteger(p[at..end]) == IntegerAt(p, at, end)
  {
    TagAtReads(p, at, end, INTEGER);
  }

  lemma TagShrinks(s: Bytes, want: byte)
    ensures var e := ReadTag(s, want); e.Some? ==> |e.value.body| + |e.value.rest| + 2 <= |s|
  {}

  // ---- Reading what was written ------------------------------------------

  lemma {:induction false} BeValueOfBytes(v: nat, n: nat)
    requires v < Bound(n)
    ensures BeValue(BeBytes(v, n)) == v
    decreases n
  {
    if n > 0 {
      var b := BeBytes(v, n);
      assert b[..n - 1] == BeBytes(v / 0x100, n - 1);
      BeValueOfBytes(v / 0x100, n - 1);
    }
  }

  lemma BoundOf(n: nat)
    ensures Bound(n + 1) == 0x100 * Bound(n) && Bound(n + 2) == 0x1_0000 * Bound(n)
  {}

  lemma LongFormFits(len: u32)
    ensures len < Bound(LongForm(len))
  {
    BoundOf(0);
    BoundOf(1);
    BoundOf(2);
  }

  lemma LongLength(n: nat, b: Bytes, rest: Bytes)
    requires 1 <= n <= 4 && |b| == n
    ensures ReadLength([0x80 + n] + b + rest) == Some(Len(BeValue(b), rest))
  {
    var s := [0x80 + n] + b + rest;
    assert s[0] == 0x80 + n && s[1..1 + n] == b && s[1 + n..] == rest;
  }

  lemma LengthReadsBack(len: u32, rest: Bytes)
    ensures ReadLength(Length(len) + rest) == Some(Len(len, rest))
  {
    if len <= 0x7F {
      assert ([len] + rest)[1..] == rest;
    } else {
      LongFormFits(len);
      BeValueOfBytes(len, LongForm(len));
      LongLength(LongForm(len), BeBytes(len, LongForm(len)), rest);
    }
  }

  lemma TagThen(tag: byte, s: Bytes, value: Bytes, rest: Bytes)
    requires ReadLength(s) == Some(Len(|value|, value + rest))
    ensures ReadTag([tag] + s, tag) == Some(Elem(value, rest))
  {
    assert ([tag] + s)[1..] == s;
  }

  lemma TlvShape(tag: byte, len: Bytes, value: Bytes, rest: Bytes)
    ensures ([tag] + (len + value)) + rest == [tag] + (len + (value + rest))
  {}

  /** A written element reads back, whatever follows it. */
  lemma TlvReadsBack(tag: byte, value: Bytes, rest: Bytes)
    requires |value| < U32
    ensures ReadTag(Tlv(tag, value) + rest, tag) == Some(Elem(value, rest))
  {
    var len := Length(|value|);
    LengthReadsBack(|value|, value + rest);
    TagThen(tag, len + (value + rest), value, rest);
    TlvShape(tag, len, value, rest);
  }

  lemma {:induction false} LeadingZero(v: nat, n: nat)
    requires v < Bound(n)
    ensures BeBytes(v, n + 1) == [0] + BeBytes(v, n)
  {
    if n > 0 {
      LeadingZero(v / 0x100, n - 1);
    } else {
      assert BeBytes(0, 1) == BeBytes(0, 0) + [0];
    }
  }

  lemma IntegerFits(v: u32)
    ensures v < Bound(IntegerOctets(v)) && v < Bound(4)
  {
    BoundOf(0);
    BoundOf(1);
    BoundOf(2);
    BoundOf(3);
  }

  lemma ShortValue(b: Bytes, v: u32)
    requires 1 <= |b| <= 4 && BeValue(b) == v
    ensures IntegerValue(b) == Some(v)
  {}

  lemma SignedValue(b: Bytes, v: u32)
    requires |b| == 4 && BeValue(b) == v
    ensures IntegerValue([0] + b) == Some(v)
  {
    assert ([0] + b)[1..] == b;
  }

  lemma IntegerValueOf(v: u32)
    ensures IntegerValue(BeBytes(v, IntegerOctets(v))) == Some(v)
  {
    IntegerFits(v);
    if IntegerOctets(v) == 5 {
      LeadingZero(v, 4);
      BeValueOfBytes(v, 4);
      SignedValue(BeBytes(v, 4), v);
    } else {
      BeValueOfBytes(v, IntegerOctets(v));
      ShortValue(BeBytes(v, IntegerOctets(v)), v);
    }
  }

  lemma IntegerReadsBack(v: u32, rest: Bytes)
    ensures ReadInteger(Integer(v) + rest) == Some(v)
  {
    TlvReadsBack(INTEGER, BeBytes(v, IntegerOctets(v)), rest);
    IntegerValueOf(v);
  }

  // ---- The readers' loops ---------------------------------------------------

  method ReadBe(p: Bytes, at: nat, n: nat) returns (v: nat)
    requires at + n <= |p|
    ensures v == BeValue(p[at..at + n])
  {
    v := 0;
    var i := 0;
    while i < n
      invariant 0 <= i <= n && v == BeValue(p[at..at + i])
    {
      assert p[at..at + i + 1][..i] == p[at..at + i];
      v := v * 0x100 + p[at + i] as int;
      i := i + 1;
    }
  }

  method ReadLengthAt(p: Bytes, at: nat, end: nat) returns (r: Option<Range>)
    requires at <= end <= |p|
    ensures r == LengthAt(p, at, end)
  {
    if at == end {
      return None;
    }
    if p[at] < 0x80 {
      return Some(Range(at + 1, p[at]));
    }
    var n := p[at] - 0x80;
    if n == 0 || n > 4 || end - at < 1 + n {
      return None;
    }
    var v := ReadBe(p, at + 1, n);
    return Some(Range(at + 1 + n, v));
  }

  method ReadTagAt(p: Bytes, at: nat, end: nat, want: byte) returns (r: Option<Range>)
    requires at <= end <= |p|
    ensures r == TagAt(p, at, end, want)
  {
    if at == end || p[at] != want {
      return None;
    }
    r := ReadLengthAt(p, at + 1, end);
    if r.Some? && r.value.len > end - r.value.off {
      return None;
    }
  }

  method ReadIntegerAt(p: Bytes, at: nat, end: nat) returns (r: Option<u32>)
    requires at <= end <= |p|
    ensures r == IntegerAt(p, at, end)
  {
    var e := ReadTagAt(p, at, end, INTEGER);
    if e.None? || e.value.len == 0 || e.value.len > 5 {
      return None;
    }
    var off := e.value.off;
    if e.value.len == 5 && p[off] != 0 {
      return None;
    }
    var skip := if e.value.len == 5 then 1 else 0;
    var v := ReadBe(p, off + skip, e.value.len - skip);
    assert e.value.len == 5 ==> Slice(p, e.value)[1..] == p[off + 1..off + 5];
    return Some(v % U32);
  }

  // ---- The writer's cursor -------------------------------------------------

  /** A bounded buffer: `data` is what has been put in it, in order. */
  class Buf {
    const cap: nat
    var data: Bytes

    ghost predicate Valid()
      reads this
    {
      |data| <= cap
    }

    constructor (n: nat)
      ensures Valid() && cap == n && data == []
    {
      cap, data := n, [];
    }

    method Put(x: Bytes) returns (ok: bool)
      requires Valid()
      modifies this
      ensures Valid() && ok == (|old(data)| + |x| <= cap)
      ensures data == if ok then old(data) + x else old(data)
    {
      ok := |x| <= cap - |data|;
      if ok {
        data := data + x;
      }
    }

    method PutBoth(x: Bytes, y: Bytes) returns (ok: bool)
      requires Valid()
      modifies this
      ensures Valid() && ok == (|old(data)| + |x + y| <= cap)
      ensures ok ==> data == old(data) + (x + y)
    {
      ghost var was := data;
      ok := Put(x);
      if ok {
        ok := Put(y);
        Assoc(was, x, y);
      }
    }

    method WriteLength(len: nat) returns (ok: bool)
      requires Valid()
      modifies this
      ensures Valid() && ok == (|old(data)| + |Length(len)| <= cap)
      ensures ok ==> data == old(data) + Length(len)
    {
      if len <= 0x7F {
        ok := Put([len]);
        return;
      }
      var n := if len <= 0xFF then 1 else if len <= 0xFFFF then 2 else if len <= 0xFF_FFFF then 3 else 4;
      ok := PutBoth([0x80 + n], BeBytes(len, n));
    }

    method WriteElement(tag: byte, value: Bytes) returns (ok: bool)
      requires Valid()
      modifies this
      ensures Valid() && ok == (|old(data)| + |Tlv(tag, value)| <= cap)
      ensures ok ==> data == old(data) + Tlv(tag, value)
    {
      ghost var was := data;
      ok := Put([tag]);
      if ok {
        ok := WriteLength(|value|);
      }
      if ok {
        ok := Put(value);
        Parts(was, [tag], Length(|value|), value);
      }
    }

    method WriteInteger(v: u32) returns (ok: bool)
      requires Valid()
      modifies this
      ensures Valid() && ok == (|old(data)| + |Integer(v)| <= cap)
      ensures ok ==> data == old(data) + Integer(v)
    {
      var n := if v <= 0x7F then 1 else if v <= 0x7FFF then 2 else if v <= 0x7F_FFFF then 3
               else if v <= 0x7FFF_FFFF then 4 else 5;
      ok := WriteElement(INTEGER, BeBytes(v, n));
    }
  }

  lemma Parts(a: Bytes, b: Bytes, c: Bytes, d: Bytes)
    ensures ((a + b) + c) + d == a + (b + (c + d))
  {}
}
