/**
  * Texts in a character code: encoding, decoding and conversion into a buffer of
  * any size, for every code whose characters can be told apart where they stand.
  */
module CharCode {
  import opened Bytes

  /** A Unicode scalar value: a code point that is not a surrogate. */
  type Scalar = c: int | 0 <= c <= 0x10FFFF && !(0xD800 <= c <= 0xDFFF)

  /** An encoding form: a character's octets, and the character at an offset, if any. */
  datatype Form = Form(enc: Scalar -> Bytes, next: (Bytes, nat) -> Option<Scalar>)

  /** Reading finds a character exactly where its octets stand. */
  ghost predicate ReadsAt(f: Form, s: Bytes, at: nat, c: Scalar) {
    f.next(s, at) == Some(c) <==> StandsAt(s, at, f.enc(c))
  }

  ghost predicate Faithful(f: Form) {
    && (forall c: Scalar :: 1 <= |f.enc(c)| <= 4)
    && (forall s: Bytes, at: nat, c: Scalar :: ReadsAt(f, s, at, c))
  }

  // ---- Whole strings -----------------------------------------------------

  function EncAll(f: Form, cs: seq<Scalar>): Bytes {
    if cs == [] then [] else f.enc(cs[0]) + EncAll(f, cs[1..])
  }

  /** The characters read up to the end of `s` (ok) or the first malformed one. */
  datatype Decoding = Decoding(chars: seq<Scalar>, ok: bool)

  function Decode(f: Form, s: Bytes, at: nat): Decoding
    requires at <= |s|
    decreases |s| - at
  {
    if at == |s| then Decoding([], true)
    else
      var c := f.next(s, at);
      if c.None? || |f.enc(c.value)| == 0 || at + |f.enc(c.value)| > |s| then Decoding([], false)
      else
        var rest := Decode(f, s, at + |f.enc(c.value)|);
        Decoding([c.value] + rest.chars, rest.ok)
  }

  /** What the conversion from one form to the other returns. */
  function Convert(f: Form, g: Form, s: Bytes): Option<Bytes> {
    var d := Decode(f, s, 0);
    if d.ok then Some(EncAll(g, d.chars)) else None
  }

  ghost predicate WellFormed(f: Form, s: Bytes) {
    exists cs: seq<Scalar> :: s == EncAll(f, cs)
  }

  lemma DecodeCons(f: Form, s: Bytes, at: nat, c: Scalar)
    requires Faithful(f) && StandsAt(s, at, f.enc(c))
    ensures at + |f.enc(c)| <= |s|
    ensures var rest := Decode(f, s, at + |f.enc(c)|);
            Decode(f, s, at) == Decoding([c] + rest.chars, rest.ok)
  {
    assert ReadsAt(f, s, at, c);
  }

  lemma {:induction false} DecodeReadsEncoding(f: Form, s: Bytes, at: nat, cs: seq<Scalar>)
    requires Faithful(f) && at <= |s| && s[at..] == EncAll(f, cs)
    ensures Decode(f, s, at) == Decoding(cs, true)
    decreases cs
  {
    if cs != [] {
      StandsInFront(s, at, f.enc(cs[0]), EncAll(f, cs[1..]));
      DecodeCons(f, s, at, cs[0]);
      DecodeReadsEncoding(f, s, at + |f.enc(cs[0])|, cs[1..]);
    }
  }

  /** What was decoded re-encodes to the octets it was read from. */
  lemma {:induction false} DecodedIsPrefix(f: Form, s: Bytes, at: nat)
    requires Faithful(f) && at <= |s|
    ensures EncAll(f, Decode(f, s, at).chars) <= s[at..]
    ensures Decode(f, s, at).ok ==> EncAll(f, Decode(f, s, at).chars) == s[at..]
    decreases |s| - at
  {
    var c := f.next(s, at);
    if at < |s| && c.Some? {
      assert ReadsAt(f, s, at, c.value);
      var e := f.enc(c.value);
      DecodedIsPrefix(f, s, at + |e|);
      var rest := Decode(f, s, at + |e|).chars;
      assert ([c.value] + rest)[1..] == rest;
      assert s[at..] == e + s[at + |e|..];
    }
  }

  /** The converters accept exactly the well-formed strings. */
  lemma AcceptsWellFormed(f: Form, g: Form, s: Bytes)
    requires Faithful(f)
    ensures Convert(f, g, s).Some? <==> WellFormed(f, s)
  {
    assert s[0..] == s;
    if WellFormed(f, s) {
      var cs: seq<Scalar> :| s == EncAll(f, cs);
      DecodeReadsEncoding(f, s, 0, cs);
    }
    if Convert(f, g, s).Some? {
      DecodedIsPrefix(f, s, 0);
    }
  }

  /** The two conversions undo each other, in both directions and on exactly the
      strings they accept; what comes out is well formed. */
  lemma RoundTrip(f: Form, g: Form, s: Bytes, t: Bytes)
    requires Faithful(f) && Faithful(g)
    ensures Convert(f, g, s) == Some(t) <==> Convert(g, f, t) == Some(s)
    ensures Convert(f, g, s) == Some(t) <==> exists cs: seq<Scalar> :: s == EncAll(f, cs) && t == EncAll(g, cs)
  {
    assert s[0..] == s && t[0..] == t;
    if Convert(f, g, s) == Some(t) {
      DecodedIsPrefix(f, s, 0);
      DecodeReadsEncoding(g, t, 0, Decode(f, s, 0).chars);
    }
    if Convert(g, f, t) == Some(s) {
      DecodedIsPrefix(g, t, 0);
      DecodeReadsEncoding(f, s, 0, Decode(g, t, 0).chars);
    }
    if cs: seq<Scalar> :| s == EncAll(f, cs) && t == EncAll(g, cs) {
      DecodeReadsEncoding(f, s, 0, cs);
    }
  }

  // ---- Buffers -----------------------------------------------------------

  /** The characters written into `room` octets: the longest prefix that fits. */
  function Fit(g: Form, cs: seq<Scalar>, room: nat): seq<Scalar> {
    if cs == [] || |g.enc(cs[0])| > room then [] else [cs[0]] + Fit(g, cs[1..], room - |g.enc(cs[0])|)
  }

  lemma {:induction false} FitIsLongestPrefix(g: Form, cs: seq<Scalar>, room: nat, k: nat)
    requires k <= |cs|
    ensures |Fit(g, cs, room)| <= |cs| && Fit(g, cs, room) == cs[..|Fit(g, cs, room)|]
    ensures |EncAll(g, cs[..k])| <= room <==> k <= |Fit(g, cs, room)|
    decreases cs
  {
    if cs != [] {
      if k > 0 {
        assert cs[..k][1..] == cs[1..][..k - 1];
      }
      if |g.enc(cs[0])| <= room {
        FitIsLongestPrefix(g, cs[1..], room - |g.enc(cs[0])|, if k == 0 then 0 else k - 1);
      }
    }
  }

  lemma {:induction false} EncAllAppend(f: Form, cs: seq<Scalar>, c: Scalar)
    ensures EncAll(f, cs + [c]) == EncAll(f, cs) + f.enc(c)
  {
    if cs == [] {
      assert [] + [c] == [c] && [c][1..] == [];
    } else {
      assert (cs + [c])[1..] == cs[1..] + [c];
      EncAllAppend(f, cs[1..], c);
    }
  }

  lemma {:induction false} FitAppend(g: Form, cs: seq<Scalar>, c: Scalar, room: nat)
    ensures Fit(g, cs + [c], room)
         == if |EncAll(g, cs)| + |g.enc(c)| <= room then cs + [c] else Fit(g, cs, room)
    ensures |EncAll(g, cs)| <= room ==> Fit(g, cs, room) == cs
    decreases cs
  {
    if cs == [] {
      assert [] + [c] == [c] && [c][1..] == [];
    } else {
      assert (cs + [c])[1..] == cs[1..] + [c];
      if |g.enc(cs[0])| <= room {
        FitAppend(g, cs[1..], c, room - |g.enc(cs[0])|);
      }
    }
  }

  /** A buffer holding `was` after the characters `cs` were offered to it. */
  function Filled(g: Form, cs: seq<Scalar>, was: Bytes): Bytes {
    var e := EncAll(g, Fit(g, cs, |was|));
    FitFits(g, cs, |was|);
    e + was[|e|..]
  }

  /** `buf` with `e` stored at `w`, if there is room for all of it. */
  function Stored(buf: Bytes, w: nat, e: Bytes): (r: Bytes)
    ensures |r| == |buf|
  {
    if w + |e| <= |buf| then buf[..w] + e + buf[w + |e|..] else buf
  }

  lemma FitFits(g: Form, cs: seq<Scalar>, room: nat)
    ensures |EncAll(g, Fit(g, cs, room))| <= room
  {
    FitIsLongestPrefix(g, cs, room, 0);
    FitIsLongestPrefix(g, cs, room, |Fit(g, cs, room)|);
  }

  lemma OfferOne(g: Form, cs: seq<Scalar>, c: Scalar, was: Bytes)
    ensures Filled(g, cs + [c], was) == Stored(Filled(g, cs, was), |EncAll(g, cs)|, g.enc(c))
  {
    FitFits(g, cs, |was|);
    FitFits(g, cs + [c], |was|);
    FitAppend(g, cs, c, |was|);
    EncAllAppend(g, cs, c);
  }

  // ---- Conversion, one character at a time -------------------------------

  /** A conversion that has read up to `at` and advanced its output to `w`. */
  ghost predicate Underway(f: Form, g: Form, s: Bytes, at: nat, done: seq<Scalar>, w: nat, buf: Bytes, was: Bytes) {
    && at <= |s| && w == |EncAll(g, done)| && buf == Filled(g, done, was)
    && Decode(f, s, 0) == Decoding(done + Decode(f, s, at).chars, Decode(f, s, at).ok)
  }

  /** A finished conversion: what it returns and what it leaves in the buffer. */
  ghost predicate Outcome(f: Form, g: Form, s: Bytes, len: Option<nat>, buf: Bytes, was: Bytes) {
    && (len.Some? <==> WellFormed(f, s))
    && (len.Some? ==> Convert(f, g, s).Some? && len.value == |Convert(f, g, s).value|)
    && buf == Filled(g, Decode(f, s, 0).chars, was)
  }

  lemma Start(f: Form, g: Form, s: Bytes, was: Bytes)
    ensures Underway(f, g, s, 0, [], 0, was, was)
  {
    assert [] + Decode(f, s, 0).chars == Decode(f, s, 0).chars;
    assert EncAll(g, []) + was == was;
  }

  lemma AdvanceInput(f: Form, s: Bytes, at: nat, done: seq<Scalar>)
    requires Faithful(f) && at < |s| && f.next(s, at).Some?
    requires Decode(f, s, 0) == Decoding(done + Decode(f, s, at).chars, Decode(f, s, at).ok)
    ensures var c := f.next(s, at).value;
            && at + |f.enc(c)| <= |s|
            && var rest := Decode(f, s, at + |f.enc(c)|);
               Decode(f, s, 0) == Decoding((done + [c]) + rest.chars, rest.ok)
  {
    var c := f.next(s, at).value;
    assert ReadsAt(f, s, at, c);
    DecodeCons(f, s, at, c);
    var rest := Decode(f, s, at + |f.enc(c)|);
    assert done + ([c] + rest.chars) == (done + [c]) + rest.chars;
  }

  lemma Advance(f: Form, g: Form, s: Bytes, at: nat, done: seq<Scalar>, w: nat, buf: Bytes, was: Bytes)
    requires Faithful(f) && at < |s| && Underway(f, g, s, at, done, w, buf, was) && f.next(s, at).Some?
    ensures var c := f.next(s, at).value;
            Underway(f, g, s, at + |f.enc(c)|, done + [c], w + |g.enc(c)|, Stored(buf, w, g.enc(c)), was)
  {
    var c := f.next(s, at).value;
    AdvanceInput(f, s, at, done);
    OfferOne(g, done, c, was);
    EncAllAppend(g, done, c);
  }

  /** Where a conversion stands: input read, output advanced, the buffer, the characters. */
  datatype Cursor = Cursor(at: nat, w: nat, buf: Bytes, done: seq<Scalar>)

  function After(f: Form, g: Form, s: Bytes, was: Bytes, n: nat): Cursor {
    if n == 0 then Cursor(0, 0, was, [])
    else
      var p := After(f, g, s, was, n - 1);
      var c := f.next(s, p.at);
      if c.None? then p
      else
        var e := g.enc(c.value);
        Cursor(p.at + |f.enc(c.value)|, p.w + |e|, Stored(p.buf, p.w, e), p.done + [c.value])
  }

  lemma {:induction false} AfterIsUnderway(f: Form, g: Form, s: Bytes, was: Bytes, n: nat)
    requires Faithful(f)
    ensures var p := After(f, g, s, was, n); Underway(f, g, s, p.at, p.done, p.w, p.buf, was)
  {
    if n == 0 {
      Start(f, g, s, was);
    } else {
      AfterIsUnderway(f, g, s, was, n - 1);
      var p := After(f, g, s, was, n - 1);
      if f.next(s, p.at).Some? {
        assert ReadsAt(f, s, p.at, f.next(s, p.at).value);
        Advance(f, g, s, p.at, p.done, p.w, p.buf, was);
      }
    }
  }

  /** A code whose characters take two or four octets. */
  ghost predicate EvenWidth(f: Form) {
    forall c: Scalar :: |f.enc(c)| == 2 || |f.enc(c)| == 4
  }

  lemma {:induction false} EvenCursor(f: Form, g: Form, s: Bytes, was: Bytes, n: nat)
    requires EvenWidth(f)
    ensures After(f, g, s, was, n).at % 2 == 0
  {
    if n > 0 {
      EvenCursor(f, g, s, was, n - 1);
    }
  }

  lemma EvenCursorEnds(f: Form, g: Form, s: Bytes, was: Bytes, n: nat)
    requires EvenWidth(f) && |s| % 2 == 0
    ensures var p := After(f, g, s, was, n); |s| - 2 < p.at <= |s| ==> p.at == |s|
  {
    EvenCursor(f, g, s, was, n);
  }

  lemma {:induction false} OddIsMalformed(f: Form, s: Bytes, at: nat)
    requires EvenWidth(f) && at <= |s| && (|s| - at) % 2 == 1
    ensures !Decode(f, s, at).ok
    decreases |s| - at
  {
    var c := f.next(s, at);
    if c.Some? && at + |f.enc(c.value)| <= |s| {
      OddIsMalformed(f, s, at + |f.enc(c.value)|);
    }
  }

  /** A conversion ends at the end of its input or at a malformed character. */
  lemma Finish(f: Form, g: Form, s: Bytes, was: Bytes, n: nat)
    requires Faithful(f)
    ensures var p := After(f, g, s, was, n);
            p.at == |s| || f.next(s, p.at).None? ==>
              Outcome(f, g, s, if p.at == |s| then Some(p.w) else None, p.buf, was)
  {
    AfterIsUnderway(f, g, s, was, n);
    AcceptsWellFormed(f, g, s);
    var p := After(f, g, s, was, n);
    assert p.done + [] == p.done;
  }

  /** `g` needs at most twice the octets `f` needs. */
  ghost predicate AtMostTwice(f: Form, g: Form) {
    forall c: Scalar :: |g.enc(c)| <= 2 * |f.enc(c)|
  }

  lemma {:induction false} TextAtMostTwice(f: Form, g: Form, cs: seq<Scalar>)
    requires AtMostTwice(f, g)
    ensures |EncAll(g, cs)| <= 2 * |EncAll(f, cs)|
  {
    if cs != [] {
      TextAtMostTwice(f, g, cs[1..]);
    }
  }

  /** So a buffer of twice the input takes the whole conversion. */
  lemma NeverTruncated(f: Form, g: Form, s: Bytes, was: Bytes)
    requires Faithful(f) && AtMostTwice(f, g) && WellFormed(f, s) && |was| >= 2 * |s|
    ensures Convert(f, g, s).Some?
    ensures Convert(f, g, s).value <= Filled(g, Decode(f, s, 0).chars, was)
  {
    var cs := Decode(f, s, 0).chars;
    AcceptsWellFormed(f, g, s);
    DecodedIsPrefix(f, s, 0);
    TextAtMostTwice(f, g, cs);
    FitFits(g, cs, |was|);
    FitAppend(g, cs, 0, |was|);
  }

  /** The converted text, empty when the source text is malformed. */
  function TextOrNothing(f: Form, g: Form, s: Bytes): Bytes {
    if Convert(f, g, s).Some? then Convert(f, g, s).value else []
  }
}
