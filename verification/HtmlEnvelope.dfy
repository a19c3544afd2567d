/**
  * The CF_HTML clipboard envelope: a text header of byte offsets around an HTML
  * fragment, written by the daemon and stripped again.
  */
module HtmlEnvelope {
  import opened Bytes

  // ---- Decimal offsets ---------------------------------------------------

  const ZERO: byte := 0x30

  predicate IsDigit(b: byte) {
    ZERO <= b <= ZERO + 9
  }

  /** The `n` low decimal digits of `v`. */
  function Decimal(v: nat, n: nat): (r: Bytes)
    ensures |r| == n && forall i | 0 <= i < n :: IsDigit(r[i])
  {
    if n == 0 then [] else Decimal(v / 10, n - 1) + [ZERO + v % 10]
  }

  function Digits(v: nat): nat {
    if v < 10 then 1 else 1 + Digits(v / 10)
  }

  function Pow10(n: nat): nat {
    if n == 0 then 1 else 10 * Pow10(n - 1)
  }

  const WIDTH: nat := 10

  /** A number printed with at least ten digits. */
  function Padded(v: nat): Bytes {
    Decimal(v, if Digits(v) < WIDTH then WIDTH else Digits(v))
  }

  lemma {:induction false} DigitsBound(v: nat, n: nat)
    requires n > 0
    ensures Digits(v) <= n <==> v < Pow10(n)
    decreases n
  {
    if n == 1 {
      assert Pow10(1) == 10 * Pow10(0);
    } else if v >= 10 {
      DigitsBound(v / 10, n - 1);
      Times10(v, Pow10(n - 1));
    } else {
      PowAtLeast10(n);
    }
  }

  lemma Times10(v: nat, q: nat)
    ensures v / 10 < q <==> v < 10 * q
  {}

  lemma {:induction false} PowAtLeast10(n: nat)
    requires n > 0
    ensures Pow10(n) >= 10
  {
    if n > 1 {
      PowAtLeast10(n - 1);
    } else {
      assert Pow10(1) == 10 * Pow10(0);
    }
  }

  const MAX_OFFSET: nat := 0x100_0000_0000

  /** Reads decimal digits on from value `v`; `any` says whether one was seen. */
  function Number(s: Bytes, v: nat, any: bool): Option<nat> {
    if s == [] || !IsDigit(s[0]) then (if any then Some(v) else None)
    else
      var w := v * 10 + (s[0] - ZERO);
      if w > MAX_OFFSET then None else Number(s[1..], w, true)
  }

  lemma {:induction false} NumberReadsDecimal(v: nat, n: nat, rest: Bytes, any: bool)
    requires 0 < n && Digits(v) <= n && v <= MAX_OFFSET
    ensures Number(Decimal(v, n) + rest, 0, any) == Number(rest, v, true)
    decreases n
  {
    var tail := [ZERO + v % 10] + rest;
    assert Decimal(v, n) + rest == Decimal(v / 10, n - 1) + tail;
    assert tail[0] == ZERO + v % 10 && tail[1..] == rest;
    if n == 1 {
      assert Decimal(v / 10, 0) + tail == tail;
    } else {
      NumberReadsDecimal(v / 10, n - 1, tail, any);
    }
  }

  lemma {:induction false} TooLarge(v: nat, n: nat, rest: Bytes, any: bool)
    requires 0 < n && Digits(v) <= n && v > MAX_OFFSET
    ensures Number(Decimal(v, n) + rest, 0, any).None?
    decreases n
  {
    if n > 1 {
      var tail := [ZERO + v % 10] + rest;
      assert Decimal(v, n) + rest == Decimal(v / 10, n - 1) + tail;
      if v / 10 > MAX_OFFSET {
        TooLarge(v / 10, n - 1, tail, any);
      } else {
        NumberReadsDecimal(v / 10, n - 1, tail, any);
      }
    }
  }

  /** An offset written in any number of digits, up to a character that is none, is read
      exactly if it is at most 2^40. */
  lemma OffsetIsReadIff(v: nat, n: nat, rest: Bytes)
    requires 0 < n && Digits(v) <= n && (rest == [] || !IsDigit(rest[0]))
    ensures Number(Decimal(v, n) + rest, 0, false) == if v <= 1_099_511_627_776 then Some(v) else None
  {
    if v <= MAX_OFFSET {
      NumberReadsDecimal(v, n, rest, false);
    } else {
      TooLarge(v, n, rest, false);
    }
  }

  // ---- Searching ---------------------------------------------------------

  predicate StartsWith(s: Bytes, key: Bytes) {
    |key| <= |s| && s[..|key|] == key
  }

  /** Where `key` first occurs; an empty key occurs nowhere. */
  function First(s: Bytes, key: Bytes): (r: Option<nat>)
    ensures r.Some? ==> r.value + |key| <= |s|
  {
    if key == [] || |s| < |key| then None
    else if StartsWith(s, key) then Some(0)
    else
      var r := First(s[1..], key);
      if r.None? then None else Some(r.value + 1)
  }

  /** What follows the first occurrence of `key`. */
  function After(s: Bytes, key: Bytes): Option<Bytes> {
    if key == [] || |s| < |key| then None
    else if StartsWith(s, key) then Some(s[|key|..])
    else After(s[1..], key)
  }

  lemma {:induction false} AfterFirst(s: Bytes, key: Bytes)
    ensures After(s, key).Some? <==> First(s, key).Some?
    ensures First(s, key).Some? ==> After(s, key).value == s[First(s, key).value + |key|..]
  {
    if key != [] && |s| >= |key| && !StartsWith(s, key) {
      AfterFirst(s[1..], key);
    }
  }

  lemma Differs(s: Bytes, key: Bytes, m: nat)
    requires m < |s| && m < |key| && s[m] != key[m]
    ensures !StartsWith(s, key)
  {
    assert |key| <= |s| ==> s[..|key|][m] == s[m];
  }

  /** A piece without the key's first octet is skipped over. */
  lemma {:induction false} SkipPiece(piece: Bytes, rest: Bytes, key: Bytes)
    requires key != [] && key[0] !in piece
    ensures After(piece + rest, key) == After(rest, key)
  {
    if piece == [] {
      assert piece + rest == rest;
    } else {
      var s := piece + rest;
      assert s[0] == piece[0] && s[1..] == piece[1..] + rest;
      Differs(s, key, 0);
      SkipPiece(piece[1..], rest, key);
    }
  }

  /** So is one that starts like the key and then differs from it. */
  lemma SkipLookalike(piece: Bytes, rest: Bytes, key: Bytes, m: nat)
    requires m < |piece| && m < |key| && piece[m] != key[m] && key[0] !in piece[1..]
    ensures After(piece + rest, key) == After(rest, key)
  {
    var s := piece + rest;
    assert s[1..] == piece[1..] + rest;
    Differs(s, key, m);
    SkipPiece(piece[1..], rest, key);
  }

  lemma FoundInFront(key: Bytes, rest: Bytes)
    requires key != []
    ensures After(key + rest, key) == Some(rest)
  {}

  lemma Lacks(s: string, c: char)
    requires (forall i | 0 <= i < |s| :: s[i] as int < 0x100) && c !in s
    ensures c as int !in Ascii(s)
  {}

  // ---- The envelope ------------------------------------------------------

  function StartKey(): Bytes { Ascii("StartFragment:") }
  function EndKey(): Bytes { Ascii("EndFragment:") }
  function CrLf(): Bytes { Ascii("\r\n") }
  function Pre(): Bytes { Ascii("<html>\r\n<body>\r\n") }
  function StartMark(): Bytes { Ascii("<!--StartFragment-->") }
  function EndMark(): Bytes { Ascii("<!--EndFragment-->") }
  function Post(): Bytes { Ascii("\r\n</body>\r\n</html>") }

  const HEADER: nat := 105
  const START_FRAG: nat := 141
  const OVERHEAD: nat := 177

  /** The header with its four offsets, and what follows it. */
  function Envelope(startHtml: Bytes, endHtml: Bytes, startFrag: Bytes, endFrag: Bytes, body: Bytes): Bytes {
    Ascii("Version:0.9\r\n") + (Ascii("StartHTML:") + (startHtml + (CrLf() + (Ascii("EndHTML:") + (endHtml + (CrLf()
    + Fragments(startFrag, endFrag, body)))))))
  }

  function Fragments(startFrag: Bytes, endFrag: Bytes, body: Bytes): Bytes {
    StartKey() + (startFrag + (CrLf() + (EndKey() + (endFrag + (CrLf() + body)))))
  }

  function Body(html: Bytes): Bytes {
    Pre() + (StartMark() + (html + (EndMark() + Post())))
  }

  function Wrap(html: Bytes, cap: nat): Option<Bytes> {
    if OVERHEAD > cap || |html| > cap - OVERHEAD then None
    else
      var a, b, c, d := Padded(HEADER), Padded(|html| + OVERHEAD), Padded(START_FRAG), Padded(START_FRAG + |html|);
      if |Envelope(a, b, c, d, [])| != HEADER then None else Some(Envelope(a, b, c, d, Body(html)))
  }

  function OffsetAfter(p: Bytes, key: Bytes): Option<nat> {
    var at := First(p, key);
    if at.None? then None else Number(p[at.value + |key|..], 0, false)
  }

  function Unwrap(p: Bytes): Range {
    var sf, ef := OffsetAfter(p, StartKey()), OffsetAfter(p, EndKey());
    if sf.Some? && ef.Some? && sf.value <= ef.value <= |p| then Range(sf.value, ef.value - sf.value)
    else
      var sm, em := First(p, StartMark()), First(p, EndMark());
      if sm.Some? && em.Some? && sm.value + |StartMark()| <= em.value
      then Range(sm.value + |StartMark()|, em.value - sm.value - |StartMark()|)
      else Range(0, |p|)
  }

  /** Whatever the bytes, what is unwrapped lies inside them. */
  lemma UnwrapStaysInside(p: Bytes)
    ensures Unwrap(p).off + Unwrap(p).len <= |p|
  {}

  predicate Printed(d: Bytes) {
    forall i | 0 <= i < |d| :: IsDigit(d[i])
  }

  lemma StartKeyFound(a: Bytes, b: Bytes, c: Bytes, d: Bytes, body: Bytes)
    requires Printed(a) && Printed(b)
    ensures After(Envelope(a, b, c, d, body), StartKey()) == Some(c + (CrLf() + (EndKey() + (d + (CrLf() + body)))))
  {
    var key := StartKey();
    var s6 := Fragments(c, d, body);
    var s5 := CrLf() + s6;
    var s4 := b + s5;
    var s3 := Ascii("EndHTML:") + s4;
    var s2 := CrLf() + s3;
    var s1 := a + s2;
    assert key[0] == 'S' as int;
    Lacks("Version:0.9\r\n", 'S');
    SkipPiece(Ascii("Version:0.9\r\n"), Ascii("StartHTML:") + s1, key);
    StartHtmlSkipped(s1);
    SkipPiece(a, s2, key);
    Lacks("\r\n", 'S');
    SkipPiece(CrLf(), s3, key);
    Lacks("EndHTML:", 'S');
    SkipPiece(Ascii("EndHTML:"), s4, key);
    SkipPiece(b, s5, key);
    SkipPiece(CrLf(), s6, key);
    FoundInFront(key, c + (CrLf() + (EndKey() + (d + (CrLf() + body)))));
  }

  lemma StartHtmlSkipped(rest: Bytes)
    ensures After(Ascii("StartHTML:") + rest, StartKey()) == After(rest, StartKey())
  {
    var piece := Ascii("StartHTML:");
    assert piece[1..] == Ascii("tartHTML:");
    Lacks("tartHTML:", 'S');
    SkipLookalike(piece, rest, StartKey(), 5);
  }

  lemma EndHtmlSkipped(rest: Bytes)
    ensures After(Ascii("EndHTML:") + rest, EndKey()) == After(rest, EndKey())
  {
    var piece := Ascii("EndHTML:");
    assert piece[1..] == Ascii("ndHTML:");
    Lacks("ndHTML:", 'E');
    SkipLookalike(piece, rest, EndKey(), 3);
  }

  lemma EndKeyFound(a: Bytes, b: Bytes, c: Bytes, d: Bytes, body: Bytes)
    requires Printed(a) && Printed(b) && Printed(c)
    ensures After(Envelope(a, b, c, d, body), EndKey()) == Some(d + (CrLf() + body))
  {
    var key := EndKey();
    var s6 := Fragments(c, d, body);
    var s5 := CrLf() + s6;
    var s4 := b + s5;
    var s3 := Ascii("EndHTML:") + s4;
    var s2 := CrLf() + s3;
    var s1 := a + s2;
    assert key[0] == 'E' as int;
    Lacks("Version:0.9\r\n", 'E');
    SkipPiece(Ascii("Version:0.9\r\n"), Ascii("StartHTML:") + s1, key);
    Lacks("StartHTML:", 'E');
    SkipPiece(Ascii("StartHTML:"), s1, key);
    SkipPiece(a, s2, key);
    Lacks("\r\n", 'E');
    SkipPiece(CrLf(), s3, key);
    EndHtmlSkipped(s4);
    SkipPiece(b, s5, key);
    SkipPiece(CrLf(), s6, key);
    EndKeyInFragments(c, d, body);
  }

  lemma EndKeyInFragments(c: Bytes, d: Bytes, body: Bytes)
    requires Printed(c)
    ensures After(Fragments(c, d, body), EndKey()) == Some(d + (CrLf() + body))
  {
    var key := EndKey();
    var t2 := key + (d + (CrLf() + body));
    var t1 := CrLf() + t2;
    assert key[0] == 'E' as int;
    Lacks("StartFragment:", 'E');
    SkipPiece(StartKey(), c + t1, key);
    SkipPiece(c, t1, key);
    Lacks("\r\n", 'E');
    SkipPiece(CrLf(), t2, key);
    FoundInFront(key, d + (CrLf() + body));
  }

  lemma PaddedWidth(v: nat)
    ensures |Padded(v)| >= WIDTH && Printed(Padded(v))
    ensures |Padded(v)| == WIDTH <==> v < Pow10(WIDTH)
  {
    DigitsBound(v, WIDTH);
  }

  lemma {:induction false} Pow10Grows(n: nat)
    ensures Pow10(n + 1) == 10 * Pow10(n) && Pow10(n + 2) == 100 * Pow10(n)
  {}

  lemma TenDigits()
    ensures Pow10(WIDTH) == 100_0000_0000
  {
    Pow10Grows(0);
    Pow10Grows(2);
    Pow10Grows(4);
    Pow10Grows(6);
    Pow10Grows(8);
  }

  /** A fragment is wrapped exactly when the buffer takes it and its envelope, and
      the envelope's end offset has at most ten digits. */
  lemma WrapSucceedsIff(html: Bytes, cap: nat)
    ensures Wrap(html, cap).Some? <==> |html| + OVERHEAD <= cap && |html| + OVERHEAD < 100_0000_0000
    ensures Wrap(html, cap).Some? ==> |Wrap(html, cap).value| == |html| + OVERHEAD
  {
    TenDigits();
    PaddedWidth(HEADER);
    PaddedWidth(|html| + OVERHEAD);
    PaddedWidth(START_FRAG);
    PaddedWidth(START_FRAG + |html|);
  }

  /** The session's fragment plus 256 octets is always enough. */
  lemma RelayBufferSuffices(html: Bytes)
    requires |html| + OVERHEAD < 100_0000_0000
    ensures Wrap(html, |html| + 256).Some?
  {
    WrapSucceedsIff(html, |html| + 256);
  }

  lemma OffsetRead(p: Bytes, key: Bytes, v: nat, rest: Bytes)
    requires v < Pow10(WIDTH) && After(p, key) == Some(Padded(v) + (CrLf() + rest))
    ensures OffsetAfter(p, key) == Some(v)
  {
    TenDigits();
    DigitsBound(v, WIDTH);
    AfterFirst(p, key);
    NumberReadsDecimal(v, WIDTH, CrLf() + rest, false);
    assert (CrLf() + rest)[0] == CrLf()[0];
  }

  lemma EnvelopeSplit(a: Bytes, b: Bytes, c: Bytes, d: Bytes, body: Bytes)
    ensures Envelope(a, b, c, d, body) == Envelope(a, b, c, d, []) + body
  {
    assert Fragments(c, d, body) == Fragments(c, d, []) + body;
  }

  lemma Middle(e: Bytes, x: Bytes, y: Bytes, html: Bytes, z: Bytes)
    ensures var w := e + (x + (y + (html + z)));
            var off := |e| + |x| + |y|; w[off..off + |html|] == html
  {
    assert e + (x + (y + (html + z))) == (e + x + y) + html + z;
  }

  lemma OffsetsRead(a: Bytes, b: Bytes, start: nat, end: nat, body: Bytes)
    requires Printed(a) && Printed(b) && start < Pow10(WIDTH) && end < Pow10(WIDTH)
    ensures var w := Envelope(a, b, Padded(start), Padded(end), body);
            OffsetAfter(w, StartKey()) == Some(start) && OffsetAfter(w, EndKey()) == Some(end)
  {
    var c, d := Padded(start), Padded(end);
    var w := Envelope(a, b, c, d, body);
    PaddedWidth(start);
    StartKeyFound(a, b, c, d, body);
    OffsetRead(w, StartKey(), start, EndKey() + (d + (CrLf() + body)));
    EndKeyFound(a, b, c, d, body);
    OffsetRead(w, EndKey(), end, body);
  }

  lemma UnwrapByOffsets(w: Bytes, start: nat, end: nat)
    requires OffsetAfter(w, StartKey()) == Some(start) && OffsetAfter(w, EndKey()) == Some(end)
    requires start <= end <= |w|
    ensures Unwrap(w) == Range(start, end - start)
  {}

  lemma FragmentInPlace(e: Bytes, html: Bytes)
    requires |e| == HEADER
    ensures |e + Body(html)| == |html| + OVERHEAD
    ensures (e + Body(html))[START_FRAG..START_FRAG + |html|] == html
  {
    Middle(e, Pre(), StartMark(), html, EndMark() + Post());
  }

  /** Unwrapping what was wrapped gives back the fragment, whatever it holds. */
  lemma UnwrapOfWrap(html: Bytes, cap: nat)
    requires Wrap(html, cap).Some?
    ensures var w := Wrap(html, cap).value;
            var r := Unwrap(w);
            r == Range(START_FRAG, |html|) && r.off + r.len <= |w| && w[r.off..r.off + r.len] == html
  {
    var a, b, c, d := Padded(HEADER), Padded(|html| + OVERHEAD), Padded(START_FRAG), Padded(START_FRAG + |html|);
    var w := Wrap(html, cap).value;
    WrapSucceedsIff(html, cap);
    TenDigits();
    PaddedWidth(HEADER);
    PaddedWidth(|html| + OVERHEAD);
    OffsetsRead(a, b, START_FRAG, START_FRAG + |html|, Body(html));
    UnwrapByOffsets(w, START_FRAG, START_FRAG + |html|);
    EnvelopeSplit(a, b, c, d, Body(html));
    FragmentInPlace(Envelope(a, b, c, d, []), html);
  }

  // ---- The document, and other writers' envelopes --------------------------------

  lemma StartHtmlFound(a: Bytes, rest: Bytes)
    ensures After(Ascii("Version:0.9\r\n") + (Ascii("StartHTML:") + (a + rest)), Ascii("StartHTML:")) == Some(a + rest)
  {
    var key := Ascii("StartHTML:");
    assert key[0] == 'S' as int;
    Lacks("Version:0.9\r\n", 'S');
    SkipPiece(Ascii("Version:0.9\r\n"), key + (a + rest), key);
    FoundInFront(key, a + rest);
  }

  lemma EndHtmlFound(a: Bytes, b: Bytes, rest: Bytes)
    requires Printed(a)
    ensures After(Ascii("Version:0.9\r\n") + (Ascii("StartHTML:") + (a + (CrLf() + (Ascii("EndHTML:") + (b + rest))))),
                  Ascii("EndHTML:")) == Some(b + rest)
  {
    var key := Ascii("EndHTML:");
    var s3 := key + (b + rest);
    var s2 := CrLf() + s3;
    assert key[0] == 'E' as int;
    Lacks("Version:0.9\r\n", 'E');
    SkipPiece(Ascii("Version:0.9\r\n"), Ascii("StartHTML:") + (a + s2), key);
    Lacks("StartHTML:", 'E');
    SkipPiece(Ascii("StartHTML:"), a + s2, key);
    SkipPiece(a, s2, key);
    Lacks("\r\n", 'E');
    SkipPiece(CrLf(), s3, key);
    FoundInFront(key, b + rest);
  }

  lemma HtmlOffsetsRead(start: nat, end: nat, c: Bytes, d: Bytes, body: Bytes)
    requires start < Pow10(WIDTH) && end < Pow10(WIDTH)
    ensures var w := Envelope(Padded(start), Padded(end), c, d, body);
            OffsetAfter(w, Ascii("StartHTML:")) == Some(start) && OffsetAfter(w, Ascii("EndHTML:")) == Some(end)
  {
    var a, b := Padded(start), Padded(end);
    var w, tail := Envelope(a, b, c, d, body), Fragments(c, d, body);
    PaddedWidth(start);
    StartHtmlFound(a, CrLf() + (Ascii("EndHTML:") + (b + (CrLf() + tail))));
    OffsetRead(w, Ascii("StartHTML:"), start, Ascii("EndHTML:") + (b + (CrLf() + tail)));
    EndHtmlFound(a, b, CrLf() + tail);
    OffsetRead(w, Ascii("EndHTML:"), end, tail);
  }

  /** The StartHTML and EndHTML offsets delimit the document, which ends the envelope. */
  lemma HtmlOffsetsDelimit(html: Bytes, cap: nat)
    requires Wrap(html, cap).Some?
    ensures var w := Wrap(html, cap).value;
            var start, end := OffsetAfter(w, Ascii("StartHTML:")), OffsetAfter(w, Ascii("EndHTML:"));
            && start.Some? && end == Some(|w|) && start.value <= |w|
            && w[start.value..] == Pre() + (StartMark() + (html + (EndMark() + Post())))
  {
    var a, b, c, d := Padded(HEADER), Padded(|html| + OVERHEAD), Padded(START_FRAG), Padded(START_FRAG + |html|);
    WrapSucceedsIff(html, cap);
    TenDigits();
    HtmlOffsetsRead(HEADER, |html| + OVERHEAD, c, d, Body(html));
    EnvelopeSplit(a, b, c, d, Body(html));
  }

  /** The key stands nowhere before `n`. */
  ghost predicate NotBefore(s: Bytes, key: Bytes, n: nat) {
    forall i: nat | i < n :: !StandsAt(s, i, key)
  }

  lemma {:induction false} FirstIsLeast(s: Bytes, key: Bytes, i: nat)
    requires key != [] && StandsAt(s, i, key) && NotBefore(s, key, i)
    ensures First(s, key) == Some(i)
    decreases |s|
  {
    assert StandsAt(s, 0, key) <==> StartsWith(s, key) by {
      assert |key| <= |s| ==> s[0..0 + |key|] == s[..|key|];
    }
    if i > 0 {
      var t := s[1..];
      forall j: nat | j < i ensures StandsAt(t, j, key) == StandsAt(s, j + 1, key) {
        assert j + |key| <= |t| ==> t[j..j + |key|] == s[j + 1..j + 1 + |key|];
      }
      assert StandsAt(t, i - 1, key);
      FirstIsLeast(t, key, i - 1);
    }
  }

  lemma {:induction false} FirstOfNone(s: Bytes, key: Bytes)
    requires NotBefore(s, key, |s|)
    ensures First(s, key).None?
    decreases |s|
  {
    if key != [] && |s| >= |key| {
      assert !StandsAt(s, 0, key);
      assert s[0..0 + |key|] == s[..|key|];
      var t := s[1..];
      forall j: nat | j < |t| ensures !StandsAt(t, j, key) {
        assert !StandsAt(s, j + 1, key);
        assert j + |key| <= |t| ==> t[j..j + |key|] == s[j + 1..j + 1 + |key|];
      }
      FirstOfNone(t, key);
    }
  }

  lemma Marked(pre: Bytes, a: Bytes, html: Bytes, b: Bytes, post: Bytes)
    ensures var p := pre + a + html + b + post;
            StandsAt(p, |pre|, a) && StandsAt(p, |pre| + |a| + |html|, b)
  {
    var p := pre + a + html + b + post;
    assert p[|pre|..|pre| + |a|] == a;
    assert p[|pre| + |a| + |html|..|pre| + |a| + |html| + |b|] == b;
  }

  /** HTML without a StartFragment offset but with the comment markers is what stands
      between the first of each. */
  lemma MarkersDelimit(pre: Bytes, html: Bytes, post: Bytes)
    requires var p := pre + Ascii("<!--StartFragment-->") + html + Ascii("<!--EndFragment-->") + post;
             && NotBefore(p, Ascii("StartFragment:"), |p|)
             && NotBefore(p, Ascii("<!--StartFragment-->"), |pre|)
             && NotBefore(p, Ascii("<!--EndFragment-->"), |pre| + 20 + |html|)
    ensures var p := pre + Ascii("<!--StartFragment-->") + html + Ascii("<!--EndFragment-->") + post;
            Unwrap(p) == Range(|pre| + 20, |html|)
  {
    var p := pre + StartMark() + html + EndMark() + post;
    FirstOfNone(p, StartKey());
    Marked(pre, StartMark(), html, EndMark(), post);
    FirstIsLeast(p, StartMark(), |pre|);
    FirstIsLeast(p, EndMark(), |pre| + 20 + |html|);
  }

  /** Without offset and markers it is taken whole. */
  lemma PlainIsWhole(p: Bytes)
    requires NotBefore(p, Ascii("StartFragment:"), |p|) && NotBefore(p, Ascii("<!--StartFragment-->"), |p|)
    ensures Unwrap(p) == Range(0, |p|)
  {
    FirstOfNone(p, StartKey());
    FirstOfNone(p, StartMark());
  }

  // ---- The code ----------------------------------------------------------

  method FindSub(p: Bytes, key: Bytes) returns (r: Option<nat>)
    ensures r == First(p, key)
  {
    if key == [] || |p| < |key| {
      return None;
    }
    var i := 0;
    while i + |key| <= |p|
      invariant i <= |p|
      invariant First(p, key) == Shifted(First(p[i..], key), i)
    {
      assert p[i..][..|key|] == p[i..i + |key|] && p[i..][1..] == p[i + 1..];
      if p[i..i + |key|] == key {
        return Some(i);
      }
      i := i + 1;
    }
    return None;
  }

  function Shifted(r: Option<nat>, n: nat): Option<nat> {
    if r.None? then None else Some(r.value + n)
  }

  method ReadOffset(p: Bytes, key: Bytes) returns (r: Option<nat>)
    ensures r == OffsetAfter(p, key)
  {
    var at := FindSub(p, key);
    if at.None? {
      return None;
    }
    var j, v, any := at.value + |key|, 0, false;
    while j < |p| && IsDigit(p[j])
      invariant j <= |p| && 0 <= v && Number(p[j..], v, any) == OffsetAfter(p, key)
    {
      assert p[j..][1..] == p[j + 1..];
      v := v * 10 + (p[j] - ZERO);
      if v > MAX_OFFSET {
        return None;
      }
      any := true;
      j := j + 1;
    }
    return if any then Some(v) else None;
  }

  method UnwrapHtml(p: Bytes) returns (r: Range)
    ensures r == Unwrap(p)
  {
    var sf := ReadOffset(p, StartKey());
    var ef := ReadOffset(p, EndKey());
    if sf.Some? && ef.Some? && sf.value <= ef.value <= |p| {
      return Range(sf.value, ef.value - sf.value);
    }
    var sm := FindSub(p, StartMark());
    var em := FindSub(p, EndMark());
    if sm.Some? && em.Some? {
      var s := sm.value + |StartMark()|;
      if s <= em.value {
        return Range(s, em.value - s);
      }
    }
    return Range(0, |p|);
  }

  /** rdp_cliprdr_html_wrap: on failure the buffer is left alone. */
  method WrapHtml(out: array<byte>, html: Bytes) returns (n: Option<nat>)
    modifies out
    ensures n.Some? <==> Wrap(html, out.Length).Some?
    ensures n.Some? ==> n.value <= out.Length && out[..n.value] == Wrap(html, out.Length).value
    ensures n.None? ==> out[..] == old(out[..])
  {
    if OVERHEAD > out.Length || |html| > out.Length - OVERHEAD {
      return None;
    }
    WrapSucceedsIff(html, out.Length);
    var a, b, c, d := Padded(HEADER), Padded(|html| + OVERHEAD), Padded(START_FRAG), Padded(START_FRAG + |html|);
    var h := Envelope(a, b, c, d, []);
    if |h| != HEADER {
      return None;
    }
    EnvelopeSplit(a, b, c, d, Body(html));
    var len := PutFront(out, h, Pre(), StartMark());
    len := PutBack(out, len, html, EndMark(), Post());
    SixParts(h, Pre(), StartMark(), html, EndMark(), Post());
    n := Some(len);
  }

  method PutFront(out: array<byte>, a: Bytes, b: Bytes, c: Bytes) returns (n: nat)
    requires |a| + |b| + |c| <= out.Length
    modifies out
    ensures n == |a| + |b| + |c| && out[..n] == a + b + c
  {
    Copy(out, 0, a);
    assert out[..|a|] == a;
    Copy(out, |a|, b);
    Copy(out, |a| + |b|, c);
    n := |a| + |b| + |c|;
  }

  method PutBack(out: array<byte>, at: nat, a: Bytes, b: Bytes, c: Bytes) returns (n: nat)
    requires at + |a| + |b| + |c| <= out.Length
    modifies out
    ensures n == at + |a| + |b| + |c| && out[..n] == old(out[..at]) + a + b + c
  {
    Copy(out, at, a);
    Copy(out, at + |a|, b);
    Copy(out, at + |a| + |b|, c);
    n := at + |a| + |b| + |c|;
  }

  lemma SixParts(h: Bytes, a: Bytes, b: Bytes, c: Bytes, d: Bytes, e: Bytes)
    ensures h + a + b + c + d + e == h + (a + (b + (c + (d + e))))
  {}
}
