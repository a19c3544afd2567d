/**
  * The clipboard's file list: FileGroupDescriptorW, a count followed by 592-byte
  * file descriptors (section 2.2.5.2.3.1 of MS-RDPECLIP).
  */
module FileList {
  import opened Bytes
  import opened CharCode
  import opened Utf

  const RECORD: nat := 592
  const NAME_FIELD: nat := 520
  /** A local descriptor's name buffer, without its terminator. */
  const NAME_MAX: nat := 779

  /** A file descriptor; `name` is a C string, so it holds no NUL. */
  datatype File = File(flags: u32, attrs: u32, size: u64, mtime: u64, name: Bytes)

  predicate NulFree(s: Bytes) {
    forall i | 0 <= i < |s| :: s[i] != 0
  }

  // ---- The name field ----------------------------------------------------

  /** The characters of a name that the fixed field has room for. */
  function Kept(name: Bytes): seq<Scalar> {
    Fit(Utf16(), Decode(Utf8(), name, 0).chars, NAME_FIELD - 2)
  }

  function NameField(name: Bytes): Bytes {
    Filled(Utf16(), Decode(Utf8(), name, 0).chars, Zeros(NAME_FIELD - 2)) + [0, 0]
  }

  /** Octets before the first 16-bit NUL, or of all whole units. */
  function UnitsLen(p: Bytes): (n: nat)
    ensures n <= |p|
  {
    if |p| < 2 || (p[0] == 0 && p[1] == 0) then 0 else 2 + UnitsLen(p[2..])
  }

  /** The name read back from a field, as a C string. */
  function NameIn(field: Bytes): Bytes {
    var d := Decode(Utf16(), field[..UnitsLen(field)], 0);
    if d.ok then CString(Filled(Utf8(), d.chars, Zeros(NAME_MAX))) else []
  }

  predicate NoNuls(cs: seq<Scalar>) {
    forall i | 0 <= i < |cs| :: cs[i] != 0
  }

  lemma {:induction false} NulFreeText(cs: seq<Scalar>)
    ensures NoNuls(cs) <==> NulFree(EncAll(Utf8(), cs))
  {
    if cs != [] {
      NulFreeText(cs[1..]);
      var e, rest := Enc8(cs[0]), EncAll(Utf8(), cs[1..]);
      assert EncAll(Utf8(), cs) == e + rest;
      assert NulFree(e) <==> cs[0] != 0 by {
        assert cs[0] == 0 ==> e[0] == 0;
      }
      assert NulFree(e + rest) <==> NulFree(e) && NulFree(rest) by {
        NulFreeConcat(e, rest);
      }
      assert NoNuls(cs) <==> cs[0] != 0 && NoNuls(cs[1..]);
    }
  }

  lemma NulFreeConcat(a: Bytes, b: Bytes)
    ensures NulFree(a + b) <==> NulFree(a) && NulFree(b)
  {
    if NulFree(a + b) {
      forall i | 0 <= i < |a| ensures a[i] != 0 {
        assert (a + b)[i] == a[i];
      }
      forall i | 0 <= i < |b| ensures b[i] != 0 {
        assert (a + b)[|a| + i] == b[i];
      }
    }
  }

  lemma UnitsSkip(e: Bytes, rest: Bytes)
    requires |e| == 2 && (e[0] != 0 || e[1] != 0)
    ensures UnitsLen(e + rest) == 2 + UnitsLen(rest)
  {
    assert (e + rest)[2..] == rest;
  }

  /** No unit of a non-NUL character is zero. */
  lemma CharSkip(c: Scalar, rest: Bytes)
    requires c != 0
    ensures UnitsLen(Enc16(c) + rest) == |Enc16(c)| + UnitsLen(rest)
  {
    if c < 0x1_0000 {
      UnitsSkip(Enc16(c), rest);
    } else {
      var hi, lo := Le16(0xD800 + (c - 0x1_0000) / 0x400), Le16(0xDC00 + (c - 0x1_0000) % 0x400);
      assert Enc16(c) + rest == hi + (lo + rest);
      UnitsSkip(hi, lo + rest);
      UnitsSkip(lo, rest);
    }
  }

  lemma {:induction false} UnitsOfText(cs: seq<Scalar>, rest: Bytes)
    requires NoNuls(cs) && |rest| >= 2 && rest[0] == 0 && rest[1] == 0
    ensures UnitsLen(EncAll(Utf16(), cs) + rest) == |EncAll(Utf16(), cs)|
  {
    if cs == [] {
      assert EncAll(Utf16(), cs) + rest == rest;
    } else {
      var e, tail := Enc16(cs[0]), EncAll(Utf16(), cs[1..]);
      assert EncAll(Utf16(), cs) + rest == e + (tail + rest);
      CharSkip(cs[0], tail + rest);
      UnitsOfText(cs[1..], rest);
    }
  }

  lemma {:induction false} CStringOfPadded(s: Bytes, pad: Bytes)
    requires NulFree(s) && pad != [] && pad[0] == 0
    ensures CString(s + pad) == s
  {
    if s == [] {
      assert s + pad == pad;
    } else {
      assert (s + pad)[1..] == s[1..] + pad;
      CStringOfPadded(s[1..], pad);
    }
  }

  lemma {:induction false} ThreeHalves(cs: seq<Scalar>)
    ensures 2 * |EncAll(Utf8(), cs)| <= 3 * |EncAll(Utf16(), cs)|
  {
    if cs != [] {
      ThreeHalves(cs[1..]);
      assert 2 * |Enc8(cs[0])| <= 3 * |Enc16(cs[0])|;
    }
  }

  lemma KeptHasNoNuls(name: Bytes)
    requires NulFree(name)
    ensures NoNuls(Kept(name))
  {
    var chars := Decode(Utf8(), name, 0).chars;
    Utf8IsFaithful();
    DecodedIsPrefix(Utf8(), name, 0);
    assert name[0..] == name;
    NulFreeText(chars);
    FitIsLongestPrefix(Utf16(), chars, NAME_FIELD - 2, 0);
  }

  lemma TextInField(cs: seq<Scalar>, field: Bytes, pad: Bytes)
    requires NoNuls(cs) && |EncAll(Utf16(), cs)| <= NAME_FIELD - 2
    requires |pad| >= 2 && pad[0] == 0 && pad[1] == 0 && field == EncAll(Utf16(), cs) + pad
    ensures NameIn(field) == EncAll(Utf8(), cs)
  {
    var e, t := EncAll(Utf16(), cs), EncAll(Utf8(), cs);
    UnitsOfText(cs, pad);
    assert field[..|e|] == e && e[0..] == e;
    Utf16IsFaithful();
    DecodeReadsEncoding(Utf16(), e, 0, cs);
    ThreeHalves(cs);
    FitAppend(Utf8(), cs, 0, NAME_MAX);
    NulFreeText(cs);
    CStringOfPadded(t, Zeros(NAME_MAX)[|t|..]);
  }

  /** What is read back is the name up to the last whole character that fits the
      field, or up to the first malformed one. */
  lemma NameReadsBack(name: Bytes)
    requires NulFree(name)
    ensures NameIn(NameField(name)) == EncAll(Utf8(), Kept(name))
  {
    var e := EncAll(Utf16(), Kept(name));
    FitFits(Utf16(), Decode(Utf8(), name, 0).chars, NAME_FIELD - 2);
    KeptHasNoNuls(name);
    TextInField(Kept(name), NameField(name), Zeros(NAME_FIELD - 2)[|e|..] + [0, 0]);
  }

  /** A name a descriptor carries unchanged: well-formed UTF-8 of at most 259
      UTF-16 units. */
  ghost predicate Carried(name: Bytes) {
    WellFormed(Utf8(), name) && |TextOrNothing(Utf8(), Utf16(), name)| <= NAME_FIELD - 2
  }

  lemma NameSurvivesIff(name: Bytes)
    requires NulFree(name)
    ensures NameIn(NameField(name)) == name <==> Carried(name)
  {
    var chars := Decode(Utf8(), name, 0).chars;
    NameReadsBack(name);
    Utf8IsFaithful();
    AcceptsWellFormed(Utf8(), Utf16(), name);
    assert name[0..] == name;
    FitFits(Utf16(), chars, NAME_FIELD - 2);
    if Carried(name) {
      DecodedIsPrefix(Utf8(), name, 0);
      FitAppend(Utf16(), chars, 0, NAME_FIELD - 2);
    }
    if EncAll(Utf8(), Kept(name)) == name {
      DecodeReadsEncoding(Utf8(), name, 0, Kept(name));
    }
  }

  // ---- A descriptor ------------------------------------------------------

  function Record(f: File): (r: Bytes)
    ensures |r| == RECORD
  {
    FitFits(Utf16(), Decode(Utf8(), f.name, 0).chars, NAME_FIELD - 2);
    Le32(f.flags) + (Zeros(32) + (Le32(f.attrs) + (Zeros(16) + Times(f))))
  }

  function Times(f: File): Bytes {
    Le32(f.mtime % U32) + (Le32(f.mtime / U32) + (Le32(f.size / U32) + (Le32(f.size % U32) + NameField(f.name))))
  }

  function Read(d: Bytes): File
    requires |d| == RECORD
  {
    File(Ld32(d, 0), Ld32(d, 36),
         Ld32(d, 64) * U32 + Ld32(d, 68),
         Ld32(d, 56) + Ld32(d, 60) * U32,
         NameIn(d[72..]))
  }

  lemma LdHead(v: u32, rest: Bytes)
    ensures Ld32(Le32(v) + rest, 0) == v
  {
    Ld32OfLe32([], v, rest);
    assert [] + Le32(v) + rest == Le32(v) + rest;
  }

  lemma LdSkip(a: Bytes, b: Bytes, at: nat)
    requires at + 4 <= |b|
    ensures Ld32(a + b, |a| + at) == Ld32(b, at)
  {
    LdToSkips(a, b, at, at + 4);
  }

  lemma TimesFields(f: File)
    ensures |Times(f)| == 536
    ensures Ld32(Times(f), 0) == f.mtime % U32 && Ld32(Times(f), 4) == f.mtime / U32
    ensures Ld32(Times(f), 8) == f.size / U32 && Ld32(Times(f), 12) == f.size % U32
    ensures Times(f)[16..] == NameField(f.name)
  {
    FitFits(Utf16(), Decode(Utf8(), f.name, 0).chars, NAME_FIELD - 2);
    var n := NameField(f.name);
    FourWords(f.mtime % U32, f.mtime / U32, f.size / U32, f.size % U32, n);
  }

  lemma FourWords(a: u32, b: u32, c: u32, d: u32, n: Bytes)
    ensures var s := Le32(a) + (Le32(b) + (Le32(c) + (Le32(d) + n)));
            && Ld32(s, 0) == a && Ld32(s, 4) == b && Ld32(s, 8) == c && Ld32(s, 12) == d && s[16..] == n
  {
    var s4 := Le32(d) + n;
    var s3 := Le32(c) + s4;
    var s2 := Le32(b) + s3;
    LdHead(a, s2);
    LdHead(b, s3);
    LdHead(c, s4);
    LdHead(d, n);
    LdSkip(Le32(a), s2, 0);
    LdSkip(Le32(a), s2, 4);
    LdSkip(Le32(b), s3, 0);
    LdSkip(Le32(a), s2, 8);
    LdSkip(Le32(b), s3, 4);
    LdSkip(Le32(c), s4, 0);
  }

  lemma FirstWords(a: u32, b: u32, rest: Bytes)
    requires |rest| == 536
    ensures var s := Le32(a) + (Zeros(32) + (Le32(b) + (Zeros(16) + rest)));
            && |s| == RECORD && Ld32(s, 0) == a && Ld32(s, 36) == b && s[56..] == rest
  {
    var s3 := Zeros(16) + rest;
    var s2 := Le32(b) + s3;
    var s1 := Zeros(32) + s2;
    LdHead(a, s1);
    LdHead(b, s3);
    LdSkip(Zeros(32), s2, 0);
    LdSkip(Le32(a), s1, 32);
    assert s1[32..] == s2 && s3[16..] == rest;
  }

  /** What a descriptor becomes on the wire and back. */
  function AsCarried(f: File): File {
    f.(name := EncAll(Utf8(), Kept(f.name)))
  }

  /** Where the fields of a descriptor stand; the octets between them are zero. */
  lemma RecordOnTheWire(f: File)
    ensures var d := Record(f);
            && |d| == 592 && Ld32(d, 0) == f.flags && d[4..36] == Zeros(32) && Ld32(d, 36) == f.attrs
            && d[40..56] == Zeros(16) && Ld32(d, 56) == f.mtime % U32 && Ld32(d, 60) == f.mtime / U32
            && Ld32(d, 64) == f.size / U32 && Ld32(d, 68) == f.size % U32 && d[72..] == NameField(f.name)
  {
    var d, t := Record(f), Times(f);
    TimesFields(f);
    FirstWords(f.flags, f.attrs, t);
    forall k | 0 <= k && k + 4 <= 536 ensures Ld32(d, 56 + k) == Ld32(t, k) {
      assert d == d[..56] + t;
      LdSkip(d[..56], t, k);
    }
    assert Ld32(d, 56 + 0) == f.mtime % U32 && Ld32(d, 56 + 4) == f.mtime / U32;
    assert Ld32(d, 56 + 8) == f.size / U32 && Ld32(d, 56 + 12) == f.size % U32;
    assert d[72..] == t[16..];
  }

  lemma RecordReadsBack(f: File)
    requires NulFree(f.name)
    ensures Read(Record(f)) == AsCarried(f)
  {
    RecordOnTheWire(f);
    NameReadsBack(f.name);
  }

  // ---- The list ----------------------------------------------------------

  function Records(files: seq<File>): (r: Bytes)
    ensures |r| == RECORD * |files|
  {
    if files == [] then [] else Record(files[0]) + Records(files[1..])
  }

  function Build(files: seq<File>, cap: nat): Option<Bytes> {
    if |files| > 0xFF_FFFF || 4 + RECORD * |files| > cap then None else Some(Le32(|files|) + Records(files))
  }

  /** The wire form of the descriptor numbered `i`. */
  function Descriptor(p: Bytes, i: nat): (d: Bytes)
    requires 4 + RECORD * (i + 1) <= |p|
    ensures |d| == RECORD
  {
    p[4 + RECORD * i..4 + RECORD * (i + 1)]
  }

  function RecordsIn(p: Bytes, n: nat): seq<File>
    requires 4 + RECORD * n <= |p|
  {
    seq(n, i requires 0 <= i < n => Read(Descriptor(p, i)))
  }

  /** How many descriptors a parse stores: what the list declares, what it holds
      and what the caller has room for. */
  function StoredCount(p: Bytes, cap: nat): (n: nat)
    requires |p| >= 4
    ensures n <= cap && 4 + RECORD * n <= |p|
  {
    Min(cap, Min(Ld32(p, 0), (|p| - 4) / RECORD))
  }

  function Parse(p: Bytes, cap: nat): Option<seq<File>> {
    if |p| < 4 then None else Some(RecordsIn(p, StoredCount(p, cap)))
  }

  function AllCarried(files: seq<File>): seq<File> {
    seq(|files|, i requires 0 <= i < |files| => AsCarried(files[i]))
  }

  ghost predicate CNames(files: seq<File>) {
    forall i | 0 <= i < |files| :: NulFree(files[i].name)
  }

  lemma SliceSkips(a: Bytes, b: Bytes, lo: nat, hi: nat)
    requires lo <= hi <= |b|
    ensures (a + b)[|a| + lo..|a| + hi] == b[lo..hi]
  {}

  lemma {:induction false} RecordsAt(files: seq<File>, k: nat)
    requires k < |files|
    ensures Records(files)[RECORD * k..RECORD * (k + 1)] == Record(files[k])
  {
    if k > 0 {
      RecordsAt(files[1..], k - 1);
      SliceSkips(Record(files[0]), Records(files[1..]), RECORD * (k - 1), RECORD * k);
    }
  }

  lemma DescriptorOfBuilt(files: seq<File>, k: nat)
    requires k < |files| <= 0xFF_FFFF
    ensures Descriptor(Le32(|files|) + Records(files), k) == Record(files[k])
  {
    DescriptorOfBody(Le32(|files|), Records(files), k);
    RecordsAt(files, k);
  }

  lemma DescriptorOfBody(head: Bytes, body: Bytes, k: nat)
    requires |head| == 4 && RECORD * (k + 1) <= |body|
    ensures Descriptor(head + body, k) == body[RECORD * k..RECORD * (k + 1)]
  {
    SliceSkips(head, body, RECORD * k, RECORD * (k + 1));
  }

  lemma RecordReadsBackAt(files: seq<File>, k: nat)
    requires CNames(files) && k < |files| <= 0xFF_FFFF
    ensures Read(Descriptor(Le32(|files|) + Records(files), k)) == AsCarried(files[k])
  {
    DescriptorOfBuilt(files, k);
    RecordReadsBack(files[k]);
  }

  /** Lists agree that agree record by record. */
  lemma RecordsAgree(p: Bytes, n: nat, files: seq<File>)
    requires 4 + RECORD * n <= |p| && n == |files|
    requires forall k | 0 <= k < n :: RecordsIn(p, n)[k] == AsCarried(files[k])
    ensures RecordsIn(p, n) == AllCarried(files)
  {}

  lemma RecordsReadBack(files: seq<File>, n: nat)
    requires CNames(files) && n <= |files| <= 0xFF_FFFF
    ensures RecordsIn(Le32(|files|) + Records(files), n) == AllCarried(files[..n])
  {
    var p := Le32(|files|) + Records(files);
    forall k | 0 <= k < n ensures RecordsIn(p, n)[k] == AsCarried(files[..n][k]) {
      RecordReadsBackAt(files, k);
    }
    RecordsAgree(p, n, files[..n]);
  }

  lemma BuiltCount(files: seq<File>, cap: nat)
    requires |files| <= 0xFF_FFFF
    ensures StoredCount(Le32(|files|) + Records(files), cap) == Min(cap, |files|)
  {
    var p := Le32(|files|) + Records(files);
    assert Ld32(p, 0) == |files| by {
      LdHead(|files|, Records(files));
    }
    assert (|p| - 4) / RECORD == |files| by {
      WholeRecords(|files|, |p| - 4);
    }
  }

  lemma WholeRecords(n: nat, len: nat)
    requires len == RECORD * n
    ensures len / RECORD == n
  {}

  /** Parsing a built list gives back each descriptor, its name cut at the last
      whole character that the field carries, up to the caller's capacity. */
  lemma ParseOfBuild(files: seq<File>, room: nat, cap: nat)
    requires CNames(files) && Build(files, room).Some?
    ensures Parse(Build(files, room).value, cap) == Some(AllCarried(files[..Min(cap, |files|)]))
  {
    BuiltCount(files, cap);
    RecordsReadBack(files, Min(cap, |files|));
  }

  lemma AllCarriedIsIdentityIff(files: seq<File>)
    requires CNames(files)
    ensures AllCarried(files) == files <==> forall i | 0 <= i < |files| :: Carried(files[i].name)
  {
    forall i | 0 <= i < |files| ensures AsCarried(files[i]) == files[i] <==> Carried(files[i].name) {
      NameReadsBack(files[i].name);
      NameSurvivesIff(files[i].name);
    }
    if AllCarried(files) == files {
      forall i | 0 <= i < |files| ensures Carried(files[i].name) {
        assert AllCarried(files)[i] == files[i];
      }
    }
  }

  /** The round trip is the identity exactly when every name is carried. */
  lemma FileListRoundTripIff(files: seq<File>, room: nat, cap: nat)
    requires CNames(files) && Build(files, room).Some? && |files| <= cap
    ensures Parse(Build(files, room).value, cap) == Some(files)
       <==> forall i | 0 <= i < |files| :: Carried(files[i].name)
  {
    ParseOfBuild(files, room, cap);
    assert files[..|files|] == files;
    AllCarriedIsIdentityIff(files);
  }

  // ---- The code ----------------------------------------------------------

  method UnitsLength(p: Bytes) returns (n: nat)
    ensures n == UnitsLen(p)
  {
    n := 0;
    while n + 1 < |p|
      invariant n <= |p| && n + UnitsLen(p[n..]) == UnitsLen(p)
    {
      assert p[n..][2..] == p[n + 2..];
      if p[n] == 0 && p[n + 1] == 0 {
        return;
      }
      n := n + 2;
    }
  }

  method BuildRecord(f: File) returns (d: Bytes)
    ensures d == Record(f)
  {
    var name := new byte[NAME_FIELD - 2](_ => 0);
    assert name[..] == Zeros(NAME_FIELD - 2);
    var _ := ToUtf16(name, f.name);
    var field := name[..] + [0, 0];
    assert field == NameField(f.name);
    d := Le32(f.flags) + (Zeros(32) + (Le32(f.attrs) + (Zeros(16)
         + (Le32(f.mtime % U32) + (Le32(f.mtime / U32) + (Le32(f.size / U32) + (Le32(f.size % U32) + field)))))));
  }

  method BuildRecords(files: seq<File>) returns (out: Bytes)
    ensures out == Records(files)
  {
    out := [];
    var i := 0;
    ghost var goal := Records(files);
    assert files[0..] == files;
    while i < |files|
      invariant i <= |files| && out + Records(files[i..]) == goal
    {
      var d := BuildRecord(files[i]);
      NextBuilt(out, files, i);
      out := out + d;
      i := i + 1;
    }
    assert files[i..] == [];
  }

  method BuildFileList(files: seq<File>, cap: nat) returns (r: Option<Bytes>)
    ensures r == Build(files, cap)
  {
    if |files| > 0xFF_FFFF || 4 + RECORD * |files| > cap {
      return None;
    }
    var records := BuildRecords(files);
    return Some(Le32(|files|) + records);
  }

  lemma NextBuilt(out: Bytes, files: seq<File>, i: nat)
    requires i < |files|
    ensures out + Records(files[i..]) == (out + Record(files[i])) + Records(files[i + 1..])
  {
    assert files[i..][1..] == files[i + 1..];
    Assoc(out, Record(files[i]), Records(files[i + 1..]));
  }

  /** The name of one descriptor, through the local name buffer. */
  method ReadName(field: Bytes) returns (name: Bytes)
    ensures name == NameIn(field)
  {
    var n := UnitsLength(field);
    var buf := new byte[NAME_MAX](_ => 0);
    assert buf[..] == Zeros(NAME_MAX);
    var got := ToUtf8(buf, field[..n]);
    Utf16IsFaithful();
    AcceptsWellFormed(Utf16(), Utf8(), field[..n]);
    if got.None? {
      return [];
    }
    name := CString(buf[..]);
  }

  method ReadRecord(d: Bytes) returns (f: File)
    requires |d| == RECORD
    ensures f == Read(d)
  {
    var name := ReadName(d[72..]);
    f := File(Ld32(d, 0), Ld32(d, 36), Ld32(d, 64) * U32 + Ld32(d, 68), Ld32(d, 56) + Ld32(d, 60) * U32, name);
  }

  method ClampedCount(p: Bytes) returns (count: nat)
    requires |p| >= 4
    ensures count == Min(Ld32(p, 0), (|p| - 4) / RECORD) && 4 + RECORD * count <= |p|
  {
    count := Ld32(p, 0);
    if count > (|p| - 4) / RECORD {
      count := (|p| - 4) / RECORD;
    }
  }

  method ReadRecords(p: Bytes, count: nat, cap: nat) returns (files: seq<File>)
    requires 4 + RECORD * count <= |p|
    ensures files == RecordsIn(p, Min(cap, count))
  {
    files := [];
    var i := 0;
    while i < count && |files| < cap
      invariant 0 <= i == |files| <= Min(cap, count)
      invariant forall k | 0 <= k < i :: files[k] == Read(Descriptor(p, k))
    {
      var f := ReadRecord(Descriptor(p, i));
      files := files + [f];
      i := i + 1;
    }
  }

  method ParseFileList(p: Bytes, cap: nat) returns (r: Option<seq<File>>)
    ensures r == Parse(p, cap)
  {
    if |p| < 4 {
      return None;
    }
    var count := ClampedCount(p);
    var files := ReadRecords(p, count, cap);
    return Some(files);
  }
}
