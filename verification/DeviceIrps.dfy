/**
  * The octets of an I/O request (sections 2.2.1.4 and 2.2.3.3 of MS-RDPEFS): the
  * builders, and a client that reads a request back from its fixed offsets.
  */
module DeviceIrps {
  import opened Bytes
  import opened DeviceTable
  import opened DeviceRedirection
  import opened CharCode
  import opened Utf

  const PAKID_IOREQUEST: u16 := 0x4952

  // ---- The builders --------------------------------------------------------

  function Le64(v: u64): Bytes {
    Le32(v % U32) + Le32(v / U32)
  }

  /** Each octet of a name as one 16-bit unit. */
  function Wide(s: Bytes): (r: Bytes)
    ensures |r| == 2 * |s|
  {
    if s == [] then [] else [s[0], 0] + Wide(s[1..])
  }

  function FileOf(r: Request): u32 {
    if r.Create? then 0 else r.file
  }

  function Minor(r: Request): u32 {
    if r.QueryDir? then 1 else 0
  }

  function Head(i: Irp): (r: Bytes)
    ensures |r| == IRP_HDR
  {
    Le16(CTYP_CORE) + Le16(PAKID_IOREQUEST) + Le32(i.device) + Le32(FileOf(i.request)) + Le32(i.cid)
    + Le32(Major(i.request)) + Le32(Minor(i.request))
  }

  function NameLen(name: Bytes): u32 {
    (|name| + 1) * 2 % U32
  }

  /** The 32 octets after the header. */
  function Fixed(r: Request): (b: Bytes)
    ensures |b| == 32
  {
    match r
    case Create(access, disposition, options, path) =>
      Le32(access) + Zeros(12) + Le32(7) + Le32(disposition) + Le32(options) + Le32(NameLen(path))
    case Read(_, length, offset) => Le32(length) + Le64(offset) + Zeros(20)
    case Write(_, offset, data) => Le32(|data| % U32) + Le64(offset) + Zeros(20)
    case Close(_) => Zeros(32)
    case QueryDir(_, pattern, initial) => Le32(3) + [if initial then 1 else 0] + Le32(NameLen(pattern)) + Zeros(23)
    case QueryInfo(_, infoClass) => Le32(infoClass) + Le32(0) + Zeros(24)
    case SetInfo(_, infoClass, data) => Le32(infoClass) + Le32(|data| % U32) + Zeros(24)
  }

  /** The name with its NUL, or the data. */
  function Tail(r: Request): Bytes {
    match r
    case Create(_, _, _, path) => Wide(path) + [0, 0]
    case QueryDir(_, pattern, _) => Wide(pattern) + [0, 0]
    case Write(_, _, data) => data
    case SetInfo(_, _, data) => data
    case _ => []
  }

  function Octets(i: Irp): Bytes {
    Head(i) + Fixed(i.request) + Tail(i.request)
  }

  /** The length the builders compare with their buffer is the length they write. */
  lemma LengthIsWireSize(i: Irp)
    ensures |Octets(i)| == WireSize(i.request)
  {}

  method Widen(name: Bytes) returns (w: Bytes)
    ensures w == Wide(name) + [0, 0]
  {
    w := [];
    var k := 0;
    while k < |name|
      invariant 0 <= k <= |name| && w + Wide(name[k..]) == Wide(name)
    {
      assert name[k..][1..] == name[k + 1..];
      assert (w + [name[k], 0]) + Wide(name[k + 1..]) == w + ([name[k], 0] + Wide(name[k + 1..]));
      w := w + [name[k], 0];
      k := k + 1;
    }
    assert w + [] == w;
    w := w + [0, 0];
  }

  method PutThree(out: array<byte>, a: Bytes, b: Bytes, c: Bytes)
    requires |a| + |b| + |c| <= out.Length
    modifies out
    ensures out[..|a| + |b| + |c|] == a + b + c
  {
    Copy(out, 0, a);
    assert out[..|a|] == a;
    Copy(out, |a|, b);
    assert out[..|a| + |b|] == a + b;
    Copy(out, |a| + |b|, c);
  }

  /** A request into a buffer: its length, or None if it does not fit. */
  method PutIrp(out: array<byte>, i: Irp) returns (n: Option<nat>)
    modifies out
    ensures n == if WireSize(i.request) <= out.Length then Some(WireSize(i.request)) else None
    ensures n.Some? ==> out[..n.value] == Octets(i)
    ensures n.None? ==> out[..] == old(out[..])
  {
    LengthIsWireSize(i);
    if WireSize(i.request) > out.Length {
      return None;
    }
    var tail := Tail(i.request);
    if i.request.Create? {
      tail := Widen(i.request.path);
    } else if i.request.QueryDir? {
      tail := Widen(i.request.pattern);
    }
    PutThree(out, Head(i), Fixed(i.request), tail);
    return Some(IRP_HDR + 32 + |tail|);
  }

  // ---- The client --------------------------------------------------------

  function Ld64(s: Bytes, at: nat): u64
    requires at + 8 <= |s|
  {
    Ld32(s, at) + U32 * Ld32(s, at + 4) as int
  }

  /** The low octets of 16-bit units that have no others. */
  function Narrow(w: Bytes): Option<Bytes> {
    if |w| < 2 then (if w == [] then Some([]) else None)
    else if w[1] != 0 then None
    else
      var rest := Narrow(w[2..]);
      if rest.None? then None else Some([w[0]] + rest.value)
  }

  /** A name of that many octets, its NUL included. */
  function ReadName(s: Bytes, len: nat): Option<Bytes> {
    if len < 2 || len != |s| || s[len - 2..] != [0, 0] then None else Narrow(s[..len - 2])
  }

  /** The request behind a header with this file, function and minor function. */
  function ReadBody(file: u32, major: u32, minor: u32, b: Bytes): Option<Request>
    requires |b| >= 32
  {
    match major
    case 0 =>
      var name := ReadName(b[32..], Ld32(b, 28));
      if name.None? then None else Some(Create(Ld32(b, 0), Ld32(b, 20), Ld32(b, 24), name.value))
    case 2 => Some(Close(file))
    case 3 => Some(Read(file, Ld32(b, 0), Ld64(b, 4)))
    case 4 => if Ld32(b, 0) != |b| - 32 then None else Some(Write(file, Ld64(b, 4), b[32..]))
    case 5 => Some(QueryInfo(file, Ld32(b, 0)))
    case 6 => if Ld32(b, 4) != |b| - 32 then None else Some(SetInfo(file, Ld32(b, 0), b[32..]))
    case 12 =>
      var name := ReadName(b[32..], Ld32(b, 5));
      if minor != 1 || Ld32(b, 0) != 3 || name.None? then None else Some(QueryDir(file, name.value, b[4] != 0))
    case _ => None
  }

  datatype Received = Received(device: u32, cid: u32, request: Request)

  function ReadIrp(p: Bytes): Option<Received> {
    if |p| < 56 || Ld16(p, 0) != 0x4472 || Ld16(p, 2) != 0x4952 then None
    else
      var r := ReadBody(Ld32(p, 8), Ld32(p, 16), Ld32(p, 20), p[24..]);
      if r.None? then None else Some(Received(Ld32(p, 4), Ld32(p, 12), r.value))
  }

  // ---- Reading back ----------------------------------------------------------

  /** The field written after `pre` is read there. */
  lemma FieldAt(s: Bytes, pre: Bytes, v: u32, post: Bytes)
    requires s == pre + Le32(v) + post
    ensures |pre| + 4 <= |s| && Ld32(s, |pre|) == v
  {
    Ld32OfLe32(pre, v, post);
  }

  lemma HeadFields(a: u16, b: u16, device: u32, file: u32, cid: u32, major: u32, minor: u32, body: Bytes)
    ensures var p := Le16(a) + Le16(b) + Le32(device) + Le32(file) + Le32(cid) + Le32(major) + Le32(minor) + body;
            && Ld16(p, 0) == a && Ld16(p, 2) == b && Ld32(p, 4) == device && Ld32(p, 8) == file
            && Ld32(p, 12) == cid && Ld32(p, 16) == major && Ld32(p, 20) == minor && p[24..] == body
  {
    var h2 := Le16(a) + Le16(b);
    var h3 := h2 + Le32(device);
    var h4 := h3 + Le32(file);
    var h5 := h4 + Le32(cid);
    var h6 := h5 + Le32(major);
    var p := h6 + Le32(minor) + body;
    assert p[0] == Le16(a)[0] && p[1] == Le16(a)[1] && p[2] == Le16(b)[0] && p[3] == Le16(b)[1];
    assert p == h2 + Le32(device) + (Le32(file) + Le32(cid) + Le32(major) + Le32(minor) + body);
    FieldAt(p, h2, device, Le32(file) + Le32(cid) + Le32(major) + Le32(minor) + body);
    assert p == h3 + Le32(file) + (Le32(cid) + Le32(major) + Le32(minor) + body);
    FieldAt(p, h3, file, Le32(cid) + Le32(major) + Le32(minor) + body);
    assert p == h4 + Le32(cid) + (Le32(major) + Le32(minor) + body);
    FieldAt(p, h4, cid, Le32(major) + Le32(minor) + body);
    assert p == h5 + Le32(major) + (Le32(minor) + body);
    FieldAt(p, h5, major, Le32(minor) + body);
    FieldAt(p, h6, minor, body);
  }

  lemma {:induction false} NarrowOfWide(s: Bytes)
    ensures Narrow(Wide(s)) == Some(s)
  {
    if s != [] {
      assert Wide(s)[2..] == Wide(s[1..]);
      NarrowOfWide(s[1..]);
      assert [s[0]] + s[1..] == s;
    }
  }

  lemma NameEnds(w: Bytes)
    ensures ReadName(w + [0, 0], |w| + 2) == Narrow(w)
  {
    var s := w + [0, 0];
    assert s[|w|..] == [0, 0] && s[..|w|] == w;
  }

  lemma NameLenIs(name: Bytes)
    requires (|name| + 1) * 2 < U32
    ensures NameLen(name) == |Wide(name)| + 2
  {}

  lemma NameReadsBack(name: Bytes)
    requires (|name| + 1) * 2 < U32
    ensures ReadName(Wide(name) + [0, 0], NameLen(name)) == Some(name)
  {
    NameLenIs(name);
    NameEnds(Wide(name));
    NarrowOfWide(name);
  }

  lemma Wide64(v: u64)
    ensures v % U32 + U32 * (v / U32) == v
  {}

  lemma OffsetAt(s: Bytes, pre: Bytes, v: u64, post: Bytes)
    requires s == pre + Le64(v) + post
    ensures |pre| + 8 <= |s| && Ld64(s, |pre|) == v
  {
    var lo, hi := Le32(v % U32), Le32(v / U32);
    assert s == pre + lo + (hi + post);
    FieldAt(s, pre, v % U32, hi + post);
    assert s == (pre + lo) + hi + post;
    FieldAt(s, pre + lo, v / U32, post);
    Wide64(v);
  }

  lemma CreateFields(access: u32, disposition: u32, options: u32, n: u32, t: Bytes)
    ensures var b := Le32(access) + Zeros(12) + Le32(7) + Le32(disposition) + Le32(options) + Le32(n) + t;
            && |b| >= 32 && Ld32(b, 0) == access && Ld32(b, 20) == disposition && Ld32(b, 24) == options
            && Ld32(b, 28) == n && b[32..] == t
  {
    var p1 := Le32(access) + Zeros(12) + Le32(7);
    var p2 := p1 + Le32(disposition);
    var p3 := p2 + Le32(options);
    var b := p3 + Le32(n) + t;
    assert b == [] + Le32(access) + (Zeros(12) + Le32(7) + Le32(disposition) + Le32(options) + Le32(n) + t);
    FieldAt(b, [], access, Zeros(12) + Le32(7) + Le32(disposition) + Le32(options) + Le32(n) + t);
    assert b == p1 + Le32(disposition) + (Le32(options) + Le32(n) + t);
    FieldAt(b, p1, disposition, Le32(options) + Le32(n) + t);
    assert b == p2 + Le32(options) + (Le32(n) + t);
    FieldAt(b, p2, options, Le32(n) + t);
    FieldAt(b, p3, n, t);
  }

  lemma CreateReadsBack(access: u32, disposition: u32, options: u32, path: Bytes)
    requires (|path| + 1) * 2 < U32
    ensures var r := Create(access, disposition, options, path);
            ReadBody(0, 0, 0, Fixed(r) + Tail(r)) == Some(r)
  {
    CreateFields(access, disposition, options, NameLen(path), Wide(path) + [0, 0]);
    NameReadsBack(path);
  }

  lemma ReadReadsBack(file: u32, length: u32, offset: u64)
    ensures var r := Read(file, length, offset); ReadBody(file, 3, 0, Fixed(r) + Tail(r)) == Some(r)
  {
    var r := Read(file, length, offset);
    var b := Fixed(r) + Tail(r);
    assert b == [] + Le32(length) + (Le64(offset) + Zeros(20));
    FieldAt(b, [], length, Le64(offset) + Zeros(20));
    assert b == Le32(length) + Le64(offset) + Zeros(20);
    OffsetAt(b, Le32(length), offset, Zeros(20));
  }

  lemma WriteReadsBack(file: u32, offset: u64, data: Bytes)
    requires |data| < U32
    ensures var r := Write(file, offset, data); ReadBody(file, 4, 0, Fixed(r) + Tail(r)) == Some(r)
  {
    var r := Write(file, offset, data);
    var b, n := Fixed(r) + Tail(r), |data| % U32;
    assert b == [] + Le32(n) + (Le64(offset) + Zeros(20) + data);
    FieldAt(b, [], n, Le64(offset) + Zeros(20) + data);
    assert b == Le32(n) + Le64(offset) + (Zeros(20) + data);
    OffsetAt(b, Le32(n), offset, Zeros(20) + data);
    assert b[32..] == data;
  }

  lemma QueryDirFields(flag: byte, n: u32, t: Bytes)
    ensures var b := Le32(3) + [flag] + Le32(n) + Zeros(23) + t;
            |b| >= 32 && Ld32(b, 0) == 3 && b[4] == flag && Ld32(b, 5) == n && b[32..] == t
  {
    var b := Le32(3) + [flag] + Le32(n) + Zeros(23) + t;
    assert b == [] + Le32(3) + ([flag] + Le32(n) + Zeros(23) + t);
    FieldAt(b, [], 3, [flag] + Le32(n) + Zeros(23) + t);
    assert b == (Le32(3) + [flag]) + Le32(n) + (Zeros(23) + t);
    FieldAt(b, Le32(3) + [flag], n, Zeros(23) + t);
  }

  lemma QueryDirReadsBack(file: u32, pattern: Bytes, initial: bool)
    requires (|pattern| + 1) * 2 < U32
    ensures var r := QueryDir(file, pattern, initial); ReadBody(file, 12, 1, Fixed(r) + Tail(r)) == Some(r)
  {
    QueryDirFields(if initial then 1 else 0, NameLen(pattern), Wide(pattern) + [0, 0]);
    NameReadsBack(pattern);
  }

  lemma InfoFields(x: u32, y: u32, data: Bytes)
    ensures var b := Le32(x) + Le32(y) + Zeros(24) + data; Ld32(b, 0) == x && Ld32(b, 4) == y && b[32..] == data
  {
    var b := Le32(x) + Le32(y) + Zeros(24) + data;
    assert b == [] + Le32(x) + (Le32(y) + Zeros(24) + data);
    FieldAt(b, [], x, Le32(y) + Zeros(24) + data);
    assert b == Le32(x) + Le32(y) + (Zeros(24) + data);
    FieldAt(b, Le32(x), y, Zeros(24) + data);
  }

  lemma BodyReadsBack(r: Request)
    requires WireSize(r) < U32
    ensures ReadBody(FileOf(r), Major(r), Minor(r), Fixed(r) + Tail(r)) == Some(r)
  {
    match r
    case Create(access, disposition, options, path) => CreateReadsBack(access, disposition, options, path);
    case Read(file, length, offset) => ReadReadsBack(file, length, offset);
    case Write(file, offset, data) => WriteReadsBack(file, offset, data);
    case Close(_) =>
    case QueryDir(file, pattern, initial) => QueryDirReadsBack(file, pattern, initial);
    case QueryInfo(_, infoClass) => InfoFields(infoClass, 0, []);
    case SetInfo(_, infoClass, data) => InfoFields(infoClass, |data| % U32, data);
  }

  /** A client reading the octets at the standard's offsets gets the device, the completion
      id and the request, with all its fields. */
  lemma IrpReadsBack(i: Irp)
    requires WireSize(i.request) < U32
    ensures ReadIrp(Octets(i)) == Some(Received(i.device, i.cid, i.request))
  {
    var r := i.request;
    var body := Fixed(r) + Tail(r);
    assert Octets(i) == Le16(CTYP_CORE) + Le16(PAKID_IOREQUEST) + Le32(i.device) + Le32(FileOf(r)) + Le32(i.cid)
                        + Le32(Major(r)) + Le32(Minor(r)) + body;
    HeadFields(CTYP_CORE, PAKID_IOREQUEST, i.device, FileOf(r), i.cid, Major(r), Minor(r), body);
    BodyReadsBack(r);
  }

  // ---- Names -----------------------------------------------------------------

  /** The octets of a name, each taken for a character. */
  function AsChars(s: Bytes): seq<Scalar> {
    seq(|s|, i requires 0 <= i < |s| => s[i])
  }

  lemma {:induction false} WideIsUtf16(s: Bytes)
    ensures EncAll(Utf16(), AsChars(s)) == Wide(s)
  {
    if s != [] {
      assert AsChars(s)[1..] == AsChars(s[1..]);
      WideIsUtf16(s[1..]);
    }
  }

  lemma {:induction false} Utf8OfOctets(s: Bytes)
    ensures |EncAll(Utf8(), AsChars(s))| >= |s|
    ensures (forall i | 0 <= i < |s| :: s[i] < 0x80) ==> EncAll(Utf8(), AsChars(s)) == s
    ensures (exists i | 0 <= i < |s| :: s[i] >= 0x80) ==> |EncAll(Utf8(), AsChars(s))| > |s|
  {
    if s != [] {
      assert AsChars(s)[1..] == AsChars(s[1..]);
      Utf8OfOctets(s[1..]);
      if forall i | 0 <= i < |s| :: s[i] < 0x80 {
        assert [s[0]] + s[1..] == s;
      } else if s[0] < 0x80 {
        var i :| 0 <= i < |s| && s[i] >= 0x80;
        assert s[1..][i - 1] == s[i];
      }
    }
  }

  /** A client that reads a name as the UTF-16 it is meant to be gets the session's UTF-8
      name exactly if that is ASCII: the octets are widened, not converted. */
  lemma NameIsKeptIff(name: Bytes)
    ensures Convert(Utf16(), Utf8(), Wide(name)) == Some(name) <==> forall i | 0 <= i < |name| :: name[i] < 0x80
  {
    WideIsUtf16(name);
    Utf8OfOctets(name);
    Utf8IsFaithful();
    Utf16IsFaithful();
    RoundTrip(Utf16(), Utf8(), Wide(name), EncAll(Utf8(), AsChars(name)));
  }

  /** A name of one e with an acute accent (C3 A9) arrives as two other characters. */
  lemma AccentIsLost()
    ensures Convert(Utf16(), Utf8(), Wide([0xC3, 0xA9])) == Some([0xC3, 0x83, 0xC2, 0xA9])
  {
    var name: Bytes := [0xC3, 0xA9];
    WideIsUtf16(name);
    Utf8IsFaithful();
    Utf16IsFaithful();
    var cs := AsChars(name);
    assert cs[1..] == [0xA9] && cs[1..][1..] == [];
    assert EncAll(Utf8(), cs[1..]) == [0xC2, 0xA9] + [] == [0xC2, 0xA9];
    assert EncAll(Utf8(), cs) == [0xC3, 0x83, 0xC2, 0xA9];
    RoundTrip(Utf16(), Utf8(), Wide(name), [0xC3, 0x83, 0xC2, 0xA9]);
  }
}
