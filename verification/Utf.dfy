/**
  * Conversion between UTF-8 (section 3 of RFC 3629) and UTF-16LE (section 2 of
  * RFC 2781). Bit masks and shifts are written as ranges, `/ 64` and `% 64`.
  */
module Utf {
  import opened Bytes
  import opened CharCode

  // ---- The encodings -----------------------------------------------------

  function Enc8(c: Scalar): Bytes {
    if c < 0x80 then [c]
    else if c < 0x800 then [0xC0 + c / 64, 0x80 + c % 64]
    else if c < 0x1_0000 then [0xE0 + c / 64 / 64, 0x80 + c / 64 % 64, 0x80 + c % 64]
    else [0xF0 + c / 64 / 64 / 64, 0x80 + c / 64 / 64 % 64, 0x80 + c / 64 % 64, 0x80 + c % 64]
  }

  function Enc16(c: Scalar): Bytes {
    if c < 0x1_0000 then Le16(c)
    else Le16(0xD800 + (c - 0x1_0000) / 0x400) + Le16(0xDC00 + (c - 0x1_0000) % 0x400)
  }

  // ---- Reading one character ---------------------------------------------

  /** How many octets a lead octet announces, 0 for one that leads nothing. */
  function Need(lead: byte): nat {
    if lead < 0x80 then 1
    else if 0xC0 <= lead < 0xE0 then 2
    else if 0xE0 <= lead < 0xF0 then 3
    else if 0xF0 <= lead < 0xF8 then 4
    else 0
  }

  function LeadBits(lead: byte): nat
    requires Need(lead) > 0
  {
    if lead < 0x80 then lead else if lead < 0xE0 then lead - 0xC0 else if lead < 0xF0 then lead - 0xE0 else lead - 0xF0
  }

  predicate IsTail(b: byte) {
    0x80 <= b < 0xC0
  }

  /** The code point gathered from the lead octet and the `n` octets after it. */
  function Gathered(s: Bytes, at: nat, n: nat): Option<nat>
    requires at + n < |s| && Need(s[at]) > 0
  {
    if n == 0 then Some(LeadBits(s[at]))
    else
      var v := Gathered(s, at, n - 1);
      if v.None? || !IsTail(s[at + n]) then None else Some(v.value * 64 + s[at + n] as int % 64)
  }

  /** The least code point that needs that many octets. */
  function Least(need: nat): nat {
    if need == 2 then 0x80 else if need == 3 then 0x800 else if need == 4 then 0x1_0000 else 0
  }

  predicate IsScalar(cp: int) {
    0 <= cp <= 0x10FFFF && !(0xD800 <= cp <= 0xDFFF)
  }

  function Next8(s: Bytes, at: nat): Option<Scalar> {
    if at >= |s| then None
    else
      var need := Need(s[at]);
      if need == 0 || at + need > |s| then None
      else
        var cp := Gathered(s, at, need - 1);
        if cp.None? || !IsScalar(cp.value) || cp.value < Least(need) then None else Some(cp.value)
  }

  function Next16(s: Bytes, at: nat): Option<Scalar> {
    if at + 2 > |s| then None
    else
      var u := Ld16(s, at);
      if 0xD800 <= u <= 0xDBFF then
        if at + 4 > |s| then None
        else
          var lo := Ld16(s, at + 2);
          if lo < 0xDC00 || lo > 0xDFFF then None
          else Some(0x1_0000 + (u - 0xD800) * 0x400 + (lo - 0xDC00))
      else if 0xDC00 <= u <= 0xDFFF then None
      else Some(u)
  }

  function Utf8(): Form {
    Form(Enc8, Next8)
  }

  function Utf16(): Form {
    Form(Enc16, Next16)
  }

  lemma Digit(q: nat, r: nat, c: nat)
    requires r < 64
    ensures c == q * 64 + r <==> q == c / 64 && r == c % 64
  {}

  lemma TailBits(b: byte, r: nat)
    requires r < 64
    ensures IsTail(b) && b % 64 == r <==> b == 0x80 + r
  {}

  lemma GatheredStep(s: Bytes, at: nat, n: nat, c: nat)
    requires 0 < n && at + n < |s| && Need(s[at]) > 0
    ensures Gathered(s, at, n) == Some(c) <==> Gathered(s, at, n - 1) == Some(c / 64) && s[at + n] == 0x80 + c % 64
  {
    TailBits(s[at + n], c % 64);
    if Gathered(s, at, n - 1).Some? {
      Digit(Gathered(s, at, n - 1).value, s[at + n] % 64, c);
    }
  }

  lemma Accepts2(s: Bytes, at: nat, c: Scalar)
    requires at + 2 <= |s| && Need(s[at]) == 2
    ensures Next8(s, at) == Some(c) <==>
            0x80 <= c < 0x800 && s[at] == 0xC0 + c / 64 && s[at + 1] == 0x80 + c % 64
  {
    GatheredStep(s, at, 1, c);
  }

  lemma Accepts3(s: Bytes, at: nat, c: Scalar)
    requires at + 3 <= |s| && Need(s[at]) == 3
    ensures Next8(s, at) == Some(c) <==>
            && 0x800 <= c < 0x1_0000 && s[at] == 0xE0 + c / 64 / 64
            && s[at + 1] == 0x80 + c / 64 % 64 && s[at + 2] == 0x80 + c % 64
  {
    GatheredStep(s, at, 2, c);
    GatheredStep(s, at, 1, c / 64);
  }

  lemma Gathered4(s: Bytes, at: nat, c: nat)
    requires at + 4 <= |s| && Need(s[at]) == 4
    ensures Gathered(s, at, 3) == Some(c) <==>
            && s[at] == 0xF0 + c / 64 / 64 / 64 && s[at + 1] == 0x80 + c / 64 / 64 % 64
            && s[at + 2] == 0x80 + c / 64 % 64 && s[at + 3] == 0x80 + c % 64
  {
    GatheredStep(s, at, 3, c);
    GatheredStep(s, at, 2, c / 64);
    GatheredStep(s, at, 1, c / 64 / 64);
  }

  lemma Accepts4(s: Bytes, at: nat, c: Scalar)
    requires at + 4 <= |s| && Need(s[at]) == 4
    ensures Next8(s, at) == Some(c) <==>
            && 0x1_0000 <= c && s[at] == 0xF0 + c / 64 / 64 / 64 && s[at + 1] == 0x80 + c / 64 / 64 % 64
            && s[at + 2] == 0x80 + c / 64 % 64 && s[at + 3] == 0x80 + c % 64
  {
    Gathered4(s, at, c);
    assert Next8(s, at) == Some(c) <==> 0x1_0000 <= c && Gathered(s, at, 3) == Some(c);
  }

  /** The lead octet of a character announces its length. */
  lemma LeadAnnounces(c: Scalar)
    ensures Need(Enc8(c)[0]) == |Enc8(c)|
  {}

  lemma Stands(s: Bytes, at: nat, e: Bytes)
    requires 1 <= |e| <= 4 && at + |e| <= |s|
    ensures StandsAt(s, at, e) <==>
            && s[at] == e[0] && (|e| > 1 ==> s[at + 1] == e[1])
            && (|e| > 2 ==> s[at + 2] == e[2]) && (|e| > 3 ==> s[at + 3] == e[3])
  {
    var t := s[at..at + |e|];
    assert t == e ==> t[0] == e[0] && (|e| > 1 ==> t[1] == e[1]) && (|e| > 2 ==> t[2] == e[2]) && (|e| > 3 ==> t[3] == e[3]);
  }

  /** The decoder accepts exactly the standard's table of forms. */
  lemma Next8Iff(s: Bytes, at: nat, c: Scalar)
    ensures Next8(s, at) == Some(c) <==> StandsAt(s, at, Enc8(c))
  {
    var e := Enc8(c);
    LeadAnnounces(c);
    if at + |e| <= |s| {
      Stands(s, at, e);
    }
    if at < |s| && 0 < Need(s[at]) && at + Need(s[at]) <= |s| {
      var need := Need(s[at]);
      if need == 2 {
        Accepts2(s, at, c);
      } else if need == 3 {
        Accepts3(s, at, c);
      } else if need == 4 {
        Accepts4(s, at, c);
      }
    }
  }

  lemma UnitAt(s: Bytes, at: nat, u: u16)
    requires at + 2 <= |s|
    ensures Ld16(s, at) == u <==> s[at] == Le16(u)[0] && s[at + 1] == Le16(u)[1]
  {}

  lemma Surrogates(hi: u16, lo: u16, c: Scalar)
    requires 0xD800 <= hi <= 0xDBFF && 0xDC00 <= lo <= 0xDFFF
    ensures c == 0x1_0000 + (hi - 0xD800) * 0x400 + (lo - 0xDC00) <==>
            c >= 0x1_0000 && hi == 0xD800 + (c - 0x1_0000) / 0x400 && lo == 0xDC00 + (c - 0x1_0000) % 0x400
  {}

  lemma Next16Iff(s: Bytes, at: nat, c: Scalar)
    ensures Next16(s, at) == Some(c) <==> StandsAt(s, at, Enc16(c))
  {
    var e := Enc16(c);
    if at + |e| <= |s| {
      Stands(s, at, e);
      if c < 0x1_0000 {
        UnitAt(s, at, c);
      } else {
        var hi, lo := 0xD800 + (c - 0x1_0000) / 0x400, 0xDC00 + (c - 0x1_0000) % 0x400;
        UnitAt(s, at, hi);
        UnitAt(s, at + 2, lo);
        if 0xD800 <= Ld16(s, at) <= 0xDBFF && 0xDC00 <= Ld16(s, at + 2) <= 0xDFFF {
          Surrogates(Ld16(s, at), Ld16(s, at + 2), c);
        }
      }
    }
  }

  lemma Utf8IsFaithful()
    ensures Faithful(Utf8())
  {
    forall s: Bytes, at: nat, c: Scalar ensures ReadsAt(Utf8(), s, at, c)
    {
      Next8Iff(s, at, c);
    }
  }

  lemma Utf16IsFaithful()
    ensures Faithful(Utf16())
  {
    forall s: Bytes, at: nat, c: Scalar ensures ReadsAt(Utf16(), s, at, c)
    {
      Next16Iff(s, at, c);
    }
  }

  /** UTF-8 to UTF-16LE and back is the identity on exactly the well-formed
      strings, in both directions. */
  lemma UtfRoundTrip(s: Bytes, t: Bytes)
    ensures Convert(Utf8(), Utf16(), s) == Some(t) <==> Convert(Utf16(), Utf8(), t) == Some(s)
    ensures WellFormed(Utf8(), s) <==> Convert(Utf8(), Utf16(), s).Some?
    ensures WellFormed(Utf16(), t) <==> Convert(Utf16(), Utf8(), t).Some?
  {
    Utf8IsFaithful();
    Utf16IsFaithful();
    RoundTrip(Utf8(), Utf16(), s, t);
    AcceptsWellFormed(Utf8(), Utf16(), s);
    AcceptsWellFormed(Utf16(), Utf8(), t);
  }

  // ---- The converters ----------------------------------------------------

  method ReadUtf8(s: Bytes, at: nat) returns (c: Option<Scalar>, adv: nat)
    ensures c == Utf8().next(s, at)
    ensures c.Some? ==> adv == |Utf8().enc(c.value)| && at + adv <= |s|
  {
    adv := 0;
    if at >= |s| {
      return None, 0;
    }
    var need := Need(s[at]);
    if need == 0 || at + need > |s| {
      return None, 0;
    }
    var cp, i := LeadBits(s[at]), 1;
    while i < need
      invariant 1 <= i <= need && Gathered(s, at, i - 1) == Some(cp)
    {
      if !IsTail(s[at + i]) {
        FirstBadTail(s, at, i, need - 1);
        return None, 0;
      }
      cp := cp * 64 + s[at + i] as int % 64;
      i := i + 1;
    }
    if !IsScalar(cp) || cp < Least(need) {
      return None, 0;
    }
    Next8Iff(s, at, cp);
    LeadAnnounces(cp);
    assert s[at + 0] == Enc8(cp)[0];
    return Some(cp), need;
  }

  method ReadUtf16(s: Bytes, at: nat) returns (c: Option<Scalar>, adv: nat)
    requires at + 2 <= |s|
    ensures c == Utf16().next(s, at)
    ensures c.Some? ==> adv == |Utf16().enc(c.value)| && at + adv <= |s|
  {
    var u := Ld16(s, at);
    if 0xD800 <= u <= 0xDBFF {
      if at + 4 > |s| {
        return None, 2;
      }
      var lo := Ld16(s, at + 2);
      if lo < 0xDC00 || lo > 0xDFFF {
        return None, 2;
      }
      return Some(0x1_0000 + (u as int - 0xD800) * 0x400 + (lo - 0xDC00)), 4;
    }
    if 0xDC00 <= u <= 0xDFFF {
      return None, 2;
    }
    return Some(u), 2;
  }

  lemma {:induction false} FirstBadTail(s: Bytes, at: nat, bad: nat, n: nat)
    requires 0 < bad <= n && at + n < |s| && Need(s[at]) > 0 && !IsTail(s[at + bad])
    ensures Gathered(s, at, n).None?
  {
    if bad < n {
      FirstBadTail(s, at, bad, n - 1);
    }
  }

  method Offer(dst: array<byte>, w: nat, e: Bytes)
    modifies dst
    ensures dst[..] == Stored(old(dst[..]), w, e)
  {
    if w + |e| <= dst.Length {
      Copy(dst, w, e);
      assert dst[..] == dst[..w + |e|] + dst[w + |e|..];
    }
  }

  /** rdp_utf8_to_utf16le: the full length or an error, and in `dst` the longest
      whole-character prefix that fits, also of a string that turns out malformed. */
  method ToUtf16(dst: array<byte>, s: Bytes) returns (len: Option<nat>)
    modifies dst
    ensures Outcome(Utf8(), Utf16(), s, len, dst[..], old(dst[..]))
  {
    var i, w := 0, 0;
    ghost var n: nat, was := 0, dst[..];
    Utf8IsFaithful();
    while i < |s|
      invariant 0 <= i <= |s| && 0 <= w
      invariant var p := After(Utf8(), Utf16(), s, was, n); p.at == i && p.w == w && p.buf == dst[..]
    {
      var c, adv := ReadUtf8(s, i);
      if c.None? {
        Finish(Utf8(), Utf16(), s, was, n);
        return None;
      }
      var e := Utf16().enc(c.value);
      Offer(dst, w, e);
      w := w + |e|;
      i := i + adv;
      n := n + 1;
    }
    Finish(Utf8(), Utf16(), s, was, n);
    return Some(w);
  }

  /** rdp_utf16le_to_utf8: as above, except that an odd length is refused before
      anything is written. */
  method ToUtf8(dst: array<byte>, s: Bytes) returns (len: Option<nat>)
    modifies dst
    ensures if |s| % 2 == 0 then Outcome(Utf16(), Utf8(), s, len, dst[..], old(dst[..]))
            else len.None? && !WellFormed(Utf16(), s) && dst[..] == old(dst[..])
  {
    if |s| % 2 != 0 {
      OddIsRefused(s);
      return None;
    }
    var i, w := 0, 0;
    ghost var n: nat, was := 0, dst[..];
    Utf16IsFaithful();
    while i + 2 <= |s|
      invariant 0 <= i <= |s| && 0 <= w
      invariant var p := After(Utf16(), Utf8(), s, was, n); p.at == i && p.w == w && p.buf == dst[..]
      decreases |s| - i
    {
      var c, adv := ReadUtf16(s, i);
      if c.None? {
        Finish(Utf16(), Utf8(), s, was, n);
        return None;
      }
      var e := Utf8().enc(c.value);
      Offer(dst, w, e);
      w := w + |e|;
      i := i + adv;
      n := n + 1;
    }
    EvenIsExhausted(s, was, n);
    Finish(Utf16(), Utf8(), s, was, n);
    return Some(w);
  }

  lemma Utf16IsEven()
    ensures EvenWidth(Utf16())
  {}

  lemma OddIsRefused(s: Bytes)
    requires |s| % 2 != 0
    ensures !WellFormed(Utf16(), s)
  {
    Utf16IsEven();
    OddIsMalformed(Utf16(), s, 0);
    Utf16IsFaithful();
    AcceptsWellFormed(Utf16(), Utf8(), s);
  }

  lemma EvenIsExhausted(s: Bytes, was: Bytes, n: nat)
    requires |s| % 2 == 0
    ensures var p := After(Utf16(), Utf8(), s, was, n); |s| - 2 < p.at <= |s| ==> p.at == |s|
  {
    Utf16IsEven();
    EvenCursorEnds(Utf16(), Utf8(), s, was, n);
  }

  // ---- The clipboard relay's buffers -------------------------------------

  /** Either form of a text is at most twice as long as the other. */
  lemma FormsAtMostTwice()
    ensures AtMostTwice(Utf8(), Utf16()) && AtMostTwice(Utf16(), Utf8())
  {}

  /** Text pasted by the session, as sent to the client: UTF-16LE and a NUL. */
  method TextForClient(s: Bytes) returns (t: Bytes)
    ensures t == TextOrNothing(Utf8(), Utf16(), s) + [0, 0]
  {
    Utf8IsFaithful();
    var buf := new byte[2 * |s|](_ => 0);
    ghost var was := buf[..];
    var got := ToUtf16(buf, s);
    if got.None? {
      AcceptsWellFormed(Utf8(), Utf16(), s);
      return [0, 0];
    }
    FormsAtMostTwice();
    NeverTruncated(Utf8(), Utf16(), s, was);
    return buf[..got.value] + [0, 0];
  }

  function WithoutTrailingNuls(s: Bytes): Bytes {
    if s != [] && s[|s| - 1] == 0 then WithoutTrailingNuls(s[..|s| - 1]) else s
  }

  method TrimNuls(s: Bytes) returns (t: Bytes)
    ensures t == WithoutTrailingNuls(s)
  {
    var got := |s|;
    assert s[..got] == s;
    while got > 0 && s[got - 1] == 0
      invariant 0 <= got <= |s| && WithoutTrailingNuls(s[..got]) == WithoutTrailingNuls(s)
    {
      assert s[..got][..got - 1] == s[..got - 1];
      got := got - 1;
    }
    return s[..got];
  }

  /** Text copied by the client, as relayed to the session: UTF-8, NULs trimmed. */
  method TextForSession(s: Bytes) returns (t: Bytes)
    ensures t == WithoutTrailingNuls(TextOrNothing(Utf16(), Utf8(), s))
  {
    Utf16IsFaithful();
    var buf := new byte[2 * |s| + 1](_ => 0);
    ghost var was := buf[..];
    var got := ToUtf8(buf, s);
    if got.None? {
      AcceptsWellFormed(Utf16(), Utf8(), s);
      assert WithoutTrailingNuls([]) == [];
      return [];
    }
    FormsAtMostTwice();
    NeverTruncated(Utf16(), Utf8(), s, was);
    assert buf[..got.value] == Convert(Utf16(), Utf8(), s).value;
    t := TrimNuls(buf[..got.value]);
  }
}
