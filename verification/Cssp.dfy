/**
  * The TSRequest message of network-level authentication (section 2.2.1 of
  * MS-CSSP): its DER builder and parser.
  */
module Cssp {
  import opened Bytes
  import opened Ber

  const VERSION_TAG: byte := 0xA0
  const NEGO_TAG: byte := 0xA1
  const AUTH_TAG: byte := 0xA2
  const PUBKEY_TAG: byte := 0xA3
  const NONCE_TAG: byte := 0xA5

  // ---- Parsing -----------------------------------------------------------

  datatype Field =
    | Version(v: u32)
    | Nego(octets: Bytes)
    | Auth(octets: Bytes)
    | PubKey(octets: Bytes)
    | Nonce(octets: Bytes)
    | Other

  /** One component and the octets from which the next one is read. */
  datatype Component = Component(field: Field, rest: Bytes)

  function ReadVersion(s: Bytes): Option<Component> {
    var e := ReadTag(s, VERSION_TAG);
    if e.None? then None
    else
      var v := ReadInteger(e.value.body);
      if v.None? then None else Some(Component(Version(v.value), e.value.rest))
  }

  /** The OCTET STRING that starts an element's value. */
  function ReadTagged(s: Bytes, tag: byte): Option<Elem> {
    var e := ReadTag(s, tag);
    if e.None? then None
    else
      var o := ReadTag(e.value.body, OCTETS);
      if o.None? then None else Some(Elem(o.value.body, e.value.rest))
  }

  /** The token below that many SEQUENCE headers; the parser resumes right after
      the token's own element, so what is left at every level comes next. */
  function ReadSequences(s: Bytes, depth: nat): Option<Elem>
    decreases depth
  {
    if depth == 0 then ReadTagged(s, VERSION_TAG)
    else
      var e := ReadTag(s, SEQUENCE);
      if e.None? then None
      else
        var t := ReadSequences(e.value.body, depth - 1);
        if t.None? then None else Some(Elem(t.value.body, t.value.rest + e.value.rest))
  }

  /** negoTokens: a SEQUENCE OF SEQUENCE { [0] OCTET STRING }; the first is taken. */
  function ReadNego(s: Bytes): Option<Component> {
    var e := ReadTag(s, NEGO_TAG);
    if e.None? then None
    else
      var t := ReadSequences(e.value.body, 2);
      if t.None? then None else Some(Component(Nego(t.value.body), t.value.rest + e.value.rest))
  }

  function Named(tag: byte, octets: Bytes): Field {
    if tag == AUTH_TAG then Auth(octets) else if tag == PUBKEY_TAG then PubKey(octets) else Nonce(octets)
  }

  function ReadOctets(s: Bytes, tag: byte): Option<Component> {
    var e := ReadTagged(s, tag);
    if e.None? then None else Some(Component(Named(tag, e.value.body), e.value.rest))
  }

  function Skip(s: Bytes): Option<Component>
    requires s != []
  {
    var e := ReadTag(s, s[0]);
    if e.None? then None else Some(Component(Other, e.value.rest))
  }

  function ReadComponent(s: Bytes): Option<Component>
    requires s != []
  {
    var tag := s[0];
    if tag == VERSION_TAG then ReadVersion(s)
    else if tag == NEGO_TAG then ReadNego(s)
    else if tag == AUTH_TAG || tag == PUBKEY_TAG || tag == NONCE_TAG then ReadOctets(s, tag)
    else Skip(s)
  }

  /** What a parse fills in; an absent component leaves nothing. */
  datatype TsRequest = TsRequest(version: u32, nego: Bytes, auth: Bytes, pubKey: Bytes, nonce: Bytes)

  function Empty(): TsRequest {
    TsRequest(0, [], [], [], [])
  }

  function With(r: TsRequest, f: Field): TsRequest {
    match f
    case Version(v) => r.(version := v)
    case Nego(x) => r.(nego := x)
    case Auth(x) => r.(auth := x)
    case PubKey(x) => r.(pubKey := x)
    case Nonce(x) => r.(nonce := x)
    case Other => r
  }

  lemma {:induction false} SequencesShrink(s: Bytes, depth: nat)
    ensures var t := ReadSequences(s, depth); t.Some? ==> |t.value.rest| < |s|
    decreases depth
  {
    if depth == 0 {
      TagShrinks(s, VERSION_TAG);
    } else if ReadSequences(s, depth).Some? {
      TagShrinks(s, SEQUENCE);
      SequencesShrink(ReadTag(s, SEQUENCE).value.body, depth - 1);
    }
  }

  lemma ComponentShrinks(s: Bytes)
    requires s != []
    ensures var c := ReadComponent(s); c.Some? ==> |c.value.rest| < |s|
  {
    TagShrinks(s, s[0]);
    if s[0] == NEGO_TAG && ReadNego(s).Some? {
      SequencesShrink(ReadTag(s, NEGO_TAG).value.body, 2);
    }
  }

  function ParseFrom(s: Bytes, acc: TsRequest): Option<TsRequest>
    decreases |s|
  {
    if s == [] then Some(acc)
    else
      var c := ReadComponent(s);
      if c.None? then None
      else
        ComponentShrinks(s);
        ParseFrom(c.value.rest, With(acc, c.value.field))
  }

  /** The components run to the end of the input, not of the outer SEQUENCE. */
  function Parse(p: Bytes): Option<TsRequest> {
    var h := ReadTag(p, SEQUENCE);
    if h.None? then None else ParseFrom(h.value.body + h.value.rest, Empty())
  }

  // ---- Parsing at an offset ------------------------------------------------

  /** A component in the input: its tag, the range of its value, the version or the view
      read from it, and the offset of the next component. */
  datatype Piece = Piece(tag: byte, value: Range, version: u32, view: Range, next: nat)

  const NOTHING := Range(0, 0)

  /** A view and the offset after the element it was read from. */
  datatype Token = Token(view: Range, next: nat)

  function TaggedAt(p: Bytes, at: nat, end: nat, tag: byte): (r: Option<Token>)
    requires at <= end <= |p|
    ensures r.Some? ==> r.value.view.Inside(at + 2, r.value.next) && at < r.value.next <= end
  {
    var e := TagAt(p, at, end, tag);
    if e.None? then None
    else
      var o := TagAt(p, e.value.off, e.value.End(), OCTETS);
      if o.None? then None else Some(Token(o.value, e.value.End()))
  }

  function SequencesAt(p: Bytes, at: nat, end: nat, depth: nat): (r: Option<Token>)
    requires at <= end <= |p|
    ensures r.Some? ==> r.value.view.Inside(at + 2, r.value.next) && at < r.value.next <= end
    decreases depth
  {
    if depth == 0 then TaggedAt(p, at, end, VERSION_TAG)
    else
      var e := TagAt(p, at, end, SEQUENCE);
      if e.None? then None else SequencesAt(p, e.value.off, e.value.End(), depth - 1)
  }

  function Viewed(tag: byte): bool {
    tag == AUTH_TAG || tag == PUBKEY_TAG || tag == NONCE_TAG
  }

  function PieceAt(p: Bytes, at: nat): Option<Piece>
    requires at < |p|
  {
    var tag := p[at];
    var e := TagAt(p, at, |p|, tag);
    if e.None? then None
    else
      var v := e.value;
      if tag == VERSION_TAG then
        var n := IntegerAt(p, v.off, v.End());
        if n.None? then None else Some(Piece(tag, v, n.value, NOTHING, v.End()))
      else if tag == NEGO_TAG then
        var t := SequencesAt(p, v.off, v.End(), 2);
        if t.None? then None else Some(Piece(tag, v, 0, t.value.view, t.value.next))
      else if Viewed(tag) then
        var o := TagAt(p, v.off, v.End(), OCTETS);
        if o.None? then None else Some(Piece(tag, v, 0, o.value, v.End()))
      else Some(Piece(tag, v, 0, NOTHING, v.End()))
  }

  /** A piece read at `at`: its value lies in the input after a header, its view in its
      value after another, and the next piece starts at the end of the value or, for
      negoTokens, between the view and that end. */
  predicate Located(p: Bytes, at: nat, c: Piece) {
    && at < |p| && c.tag == p[at] && c.value.Inside(at + 2, |p|)
    && (c.tag == NEGO_TAG || Viewed(c.tag) ==> c.view.Inside(c.value.off + 2, c.next))
    && at < c.next <= c.value.End() && (c.tag != NEGO_TAG ==> c.next == c.value.End())
  }

  lemma PieceIsLocated(p: Bytes, at: nat)
    requires at < |p|
    ensures PieceAt(p, at).Some? ==> Located(p, at, PieceAt(p, at).value)
  {}

  function PiecesAt(p: Bytes, at: nat): Option<seq<Piece>>
    requires at <= |p|
    decreases |p| - at
  {
    if at == |p| then Some([])
    else
      var c := PieceAt(p, at);
      if c.None? then None
      else
        PieceIsLocated(p, at);
        var cs := PiecesAt(p, c.value.next);
        if cs.None? then None else Some([c.value] + cs.value)
  }

  /** The pieces of a request; None if the parser refuses the input. */
  function Pieces(p: Bytes): Option<seq<Piece>> {
    var h := TagAt(p, 0, |p|, SEQUENCE);
    if h.None? then None else PiecesAt(p, h.value.off)
  }

  /** Pieces that follow one another from `at` to the end of the input. */
  predicate Tiled(p: Bytes, at: nat, cs: seq<Piece>)
    decreases |cs|
  {
    if cs == [] then at == |p| else Located(p, at, cs[0]) && Tiled(p, cs[0].next, cs[1..])
  }

  lemma {:induction false} PiecesAreTiled(p: Bytes, at: nat)
    requires at <= |p|
    ensures PiecesAt(p, at).Some? ==> Tiled(p, at, PiecesAt(p, at).value)
    decreases |p| - at
  {
    if PiecesAt(p, at).Some? && at < |p| {
      PieceIsLocated(p, at);
      var c, cs := PieceAt(p, at).value, PiecesAt(p, at).value;
      assert cs[1..] == PiecesAt(p, c.next).value;
      PiecesAreTiled(p, c.next);
    }
  }

  /** What the parser fills in: the last piece of each tag, NOTHING where there is none. */
  datatype Views = Views(version: u32, nego: Range, auth: Range, pubKey: Range, nonce: Range)

  function Last(cs: seq<Piece>, tag: byte): Range {
    if cs == [] then NOTHING
    else if cs[|cs| - 1].tag == tag then cs[|cs| - 1].view
    else Last(cs[..|cs| - 1], tag)
  }

  function LastVersion(cs: seq<Piece>): u32 {
    if cs == [] then 0
    else if cs[|cs| - 1].tag == VERSION_TAG then cs[|cs| - 1].version
    else LastVersion(cs[..|cs| - 1])
  }

  function ViewsOf(cs: seq<Piece>): Views {
    Views(LastVersion(cs), Last(cs, NEGO_TAG), Last(cs, AUTH_TAG), Last(cs, PUBKEY_TAG), Last(cs, NONCE_TAG))
  }

  function Add(v: Views, c: Piece): Views {
    if c.tag == VERSION_TAG then v.(version := c.version)
    else if c.tag == NEGO_TAG then v.(nego := c.view)
    else if c.tag == AUTH_TAG then v.(auth := c.view)
    else if c.tag == PUBKEY_TAG then v.(pubKey := c.view)
    else if c.tag == NONCE_TAG then v.(nonce := c.view)
    else v
  }

  lemma LastAppend(cs: seq<Piece>, c: Piece, tag: byte)
    ensures Last(cs + [c], tag) == if c.tag == tag then c.view else Last(cs, tag)
    ensures LastVersion(cs + [c]) == if c.tag == VERSION_TAG then c.version else LastVersion(cs)
  {
    assert (cs + [c])[..|cs|] == cs;
  }

  lemma ViewsAppend(cs: seq<Piece>, c: Piece)
    ensures ViewsOf(cs + [c]) == Add(ViewsOf(cs), c)
  {
    LastAppend(cs, c, NEGO_TAG);
    LastAppend(cs, c, AUTH_TAG);
    LastAppend(cs, c, PUBKEY_TAG);
    LastAppend(cs, c, NONCE_TAG);
  }

  // ---- Where each view lies ------------------------------------------------

  /** A piece with that tag whose view it is, inside its value, inside the input. */
  ghost predicate InPiece(p: Bytes, cs: seq<Piece>, tag: byte, view: Range) {
    exists i | 0 <= i < |cs| ::
      && cs[i].tag == tag && cs[i].view == view
      && view.Inside(cs[i].value.off + 2, cs[i].value.End()) && cs[i].value.Inside(2, |p|)
      && forall k | i < k < |cs| :: cs[k].tag != tag
  }

  lemma {:induction false} TiledPiece(p: Bytes, at: nat, cs: seq<Piece>, i: nat)
    requires Tiled(p, at, cs) && i < |cs|
    ensures exists from: nat :: at <= from && Located(p, from, cs[i])
    decreases cs
  {
    if i == 0 {
      assert at <= at && Located(p, at, cs[i]);
    } else {
      TiledPiece(p, cs[0].next, cs[1..], i - 1);
      var from: nat :| cs[0].next <= from && Located(p, from, cs[1..][i - 1]);
      assert at <= from && Located(p, from, cs[i]);
    }
  }

  lemma {:induction false} LastIsAPiece(cs: seq<Piece>, tag: byte) returns (i: nat)
    requires exists k | 0 <= k < |cs| :: cs[k].tag == tag
    ensures i < |cs| && cs[i].tag == tag && Last(cs, tag) == cs[i].view && forall k | i < k < |cs| :: cs[k].tag != tag
  {
    i := |cs| - 1;
    if cs[i].tag != tag {
      var short := cs[..i];
      var k: nat :| k < |cs| && cs[k].tag == tag;
      assert short[k].tag == tag;
      i := LastIsAPiece(short, tag);
      assert forall k | i < k < |short| :: cs[k] == short[k];
    }
  }

  lemma {:induction false} LastOfNone(cs: seq<Piece>, tag: byte)
    requires forall k | 0 <= k < |cs| :: cs[k].tag != tag
    ensures Last(cs, tag) == NOTHING
  {
    if cs != [] {
      LastOfNone(cs[..|cs| - 1], tag);
    }
  }

  lemma LastIsInPiece(p: Bytes, at: nat, cs: seq<Piece>, tag: byte)
    requires Tiled(p, at, cs) && (tag == NEGO_TAG || Viewed(tag))
    ensures if exists k | 0 <= k < |cs| :: cs[k].tag == tag then InPiece(p, cs, tag, Last(cs, tag))
            else Last(cs, tag) == NOTHING
  {
    if exists k | 0 <= k < |cs| :: cs[k].tag == tag {
      var i := LastIsAPiece(cs, tag);
      TiledPiece(p, at, cs, i);
    } else {
      LastOfNone(cs, tag);
    }
  }

  /** On any input the parser accepts: its components follow one another from the outer
      header to the end of the input, and each view it returns is the one read from the
      last component with the view's tag, inside that component's value and the input;
      without such a component it returns nothing. */
  lemma ParseStaysInside(p: Bytes, tag: byte)
    requires Pieces(p).Some? && (tag == NEGO_TAG || Viewed(tag))
    ensures TagAt(p, 0, |p|, SEQUENCE).Some? && Tiled(p, TagAt(p, 0, |p|, SEQUENCE).value.off, Pieces(p).value)
    ensures var cs := Pieces(p).value;
            if exists k | 0 <= k < |cs| :: cs[k].tag == tag then InPiece(p, cs, tag, Last(cs, tag))
            else Last(cs, tag) == NOTHING
  {
    var h := TagAt(p, 0, |p|, SEQUENCE).value;
    PiecesAreTiled(p, h.off);
    LastIsInPiece(p, h.off, Pieces(p).value, tag);
  }

  // ---- The two ways of parsing agree ---------------------------------------

  /** A token read from the octets up to `end` and one read at an offset are the same. */
  ghost predicate SameToken(p: Bytes, end: nat, t: Option<Elem>, r: Option<Token>) {
    && (t.Some? <==> r.Some?)
    && (r.Some? ==>
          && r.value.view.Inside(0, |p|) && r.value.next <= end <= |p|
          && t.value == Elem(Slice(p, r.value.view), p[r.value.next..end]))
  }

  lemma TaggedAtReads(p: Bytes, at: nat, end: nat, tag: byte)
    requires at <= end <= |p|
    ensures SameToken(p, end, ReadTagged(p[at..end], tag), TaggedAt(p, at, end, tag))
  {
    TagAtReads(p, at, end, tag);
    var e := TagAt(p, at, end, tag);
    if e.Some? {
      TagAtReads(p, e.value.off, e.value.End(), OCTETS);
    }
  }

  lemma Adjacent(p: Bytes, a: nat, b: nat, c: nat)
    requires a <= b <= c <= |p|
    ensures p[a..b] + p[b..c] == p[a..c]
  {}

  /** The same token, followed by what is left outside the element it was read in. */
  lemma SameTokenOutside(p: Bytes, mid: nat, end: nat, t: Option<Elem>, r: Option<Token>)
    requires SameToken(p, mid, t, r) && mid <= end <= |p|
    ensures SameToken(p, end, if t.None? then None else Some(Elem(t.value.body, t.value.rest + p[mid..end])), r)
  {
    if r.Some? {
      Adjacent(p, r.value.next, mid, end);
    }
  }

  lemma {:induction false} SequencesAtRead(p: Bytes, at: nat, end: nat, depth: nat)
    requires at <= end <= |p|
    ensures SameToken(p, end, ReadSequences(p[at..end], depth), SequencesAt(p, at, end, depth))
    decreases depth
  {
    if depth == 0 {
      TaggedAtReads(p, at, end, VERSION_TAG);
    } else {
      TagAtReads(p, at, end, SEQUENCE);
      var e := TagAt(p, at, end, SEQUENCE);
      if e.Some? {
        var off, mid := e.value.off, e.value.End();
        SequencesAtRead(p, off, mid, depth - 1);
        SameTokenOutside(p, mid, end, ReadSequences(p[off..mid], depth - 1), SequencesAt(p, off, mid, depth - 1));
      }
    }
  }

  function FieldOf(p: Bytes, c: Piece): Field
    requires c.view.Inside(0, |p|)
  {
    if c.tag == VERSION_TAG then Version(c.version)
    else if c.tag == NEGO_TAG then Nego(Slice(p, c.view))
    else if Viewed(c.tag) then Named(c.tag, Slice(p, c.view))
    else Other
  }

  /** What is left of the input at an offset. */
  function From(p: Bytes, at: nat): Bytes
    requires at <= |p|
  {
    p[at..|p|]
  }

  ghost predicate Agree(p: Bytes, read: Option<Component>, piece: Option<Piece>) {
    && (read.Some? <==> piece.Some?)
    && (piece.Some? ==>
          && piece.value.view.Inside(0, |p|) && piece.value.next <= |p|
          && read.value == Component(FieldOf(p, piece.value), From(p, piece.value.next)))
  }

  lemma NegoAtReads(p: Bytes, at: nat)
    requires at < |p| && p[at] == NEGO_TAG
    ensures Agree(p, ReadNego(From(p, at)), PieceAt(p, at))
  {
    TagAtReads(p, at, |p|, NEGO_TAG);
    var e := TagAt(p, at, |p|, NEGO_TAG);
    if e.Some? {
      var off, mid := e.value.off, e.value.End();
      SequencesAtRead(p, off, mid, 2);
      SameTokenOutside(p, mid, |p|, ReadSequences(p[off..mid], 2), SequencesAt(p, off, mid, 2));
    }
  }

  lemma VersionAtReads(p: Bytes, at: nat)
    requires at < |p| && p[at] == VERSION_TAG
    ensures Agree(p, ReadVersion(From(p, at)), PieceAt(p, at))
  {
    TagAtReads(p, at, |p|, VERSION_TAG);
    var e := TagAt(p, at, |p|, VERSION_TAG);
    if e.Some? {
      IntegerAtReads(p, e.value.off, e.value.End());
    }
  }

  lemma OctetsAtRead(p: Bytes, at: nat)
    requires at < |p| && Viewed(p[at])
    ensures Agree(p, ReadOctets(From(p, at), p[at]), PieceAt(p, at))
  {
    TaggedAtReads(p, at, |p|, p[at]);
  }

  lemma SkipAtReads(p: Bytes, at: nat)
    requires at < |p| && !Viewed(p[at]) && p[at] != VERSION_TAG && p[at] != NEGO_TAG
    ensures Agree(p, Skip(From(p, at)), PieceAt(p, at))
  {
    TagAtReads(p, at, |p|, p[at]);
  }

  /** The component read at an offset is the one read from what is left there. */
  lemma ComponentReadsInside(p: Bytes, at: nat)
    requires at < |p|
    ensures Agree(p, ReadComponent(From(p, at)), PieceAt(p, at))
    ensures PieceAt(p, at).Some? ==> Located(p, at, PieceAt(p, at).value)
  {
    PieceIsLocated(p, at);
    if p[at] == VERSION_TAG {
      VersionAtReads(p, at);
    } else if p[at] == NEGO_TAG {
      NegoAtReads(p, at);
    } else if Viewed(p[at]) {
      OctetsAtRead(p, at);
    } else {
      SkipAtReads(p, at);
    }
  }

  predicate ViewsInside(p: Bytes, v: Views) {
    v.nego.Inside(0, |p|) && v.auth.Inside(0, |p|) && v.pubKey.Inside(0, |p|) && v.nonce.Inside(0, |p|)
  }

  /** The octets the views show. */
  function Contents(p: Bytes, v: Views): TsRequest
    requires ViewsInside(p, v)
  {
    TsRequest(v.version, Slice(p, v.nego), Slice(p, v.auth), Slice(p, v.pubKey), Slice(p, v.nonce))
  }

  lemma AddIsWith(p: Bytes, v: Views, c: Piece)
    requires ViewsInside(p, v) && c.view.Inside(0, |p|)
    ensures ViewsInside(p, Add(v, c)) && Contents(p, Add(v, c)) == With(Contents(p, v), FieldOf(p, c))
  {}

  lemma ParseStep(p: Bytes, at: nat, acc: TsRequest)
    requires at < |p|
    ensures var c := PieceAt(p, at);
            && (c.None? ==> ParseFrom(From(p, at), acc).None?)
            && (c.Some? ==>
                  && Located(p, at, c.value) && c.value.view.Inside(0, |p|)
                  && ParseFrom(From(p, at), acc) == ParseFrom(From(p, c.value.next), With(acc, FieldOf(p, c.value))))
  {
    ComponentReadsInside(p, at);
  }

  /** Pieces added one after the other. */
  function Added(v: Views, cs: seq<Piece>): Views
    decreases |cs|
  {
    if cs == [] then v else Added(Add(v, cs[0]), cs[1..])
  }

  lemma {:induction false} AddedAreLast(done: seq<Piece>, cs: seq<Piece>)
    ensures Added(ViewsOf(done), cs) == ViewsOf(done + cs)
    decreases |cs|
  {
    if cs == [] {
      assert done + cs == done;
    } else {
      ViewsAppend(done, cs[0]);
      AddedAreLast(done + [cs[0]], cs[1..]);
      assert done + [cs[0]] + cs[1..] == done + cs;
    }
  }

  /** A parse result is what the views show once the pieces are added. */
  ghost predicate Shown(p: Bytes, r: Option<TsRequest>, v: Views, cs: Option<seq<Piece>>) {
    if cs.None? then r.None?
    else ViewsInside(p, Added(v, cs.value)) && r == Some(Contents(p, Added(v, cs.value)))
  }

  lemma ShownFrom(p: Bytes, r: Option<TsRequest>, v: Views, c: Piece, more: Option<seq<Piece>>)
    requires Shown(p, r, Add(v, c), more)
    ensures Shown(p, r, v, if more.None? then None else Some([c] + more.value))
  {
    if more.Some? {
      assert ([c] + more.value)[1..] == more.value;
    }
  }

  lemma {:induction false} PiecesAgree(p: Bytes, at: nat, v: Views)
    requires at <= |p| && ViewsInside(p, v)
    ensures Shown(p, ParseFrom(From(p, at), Contents(p, v)), v, PiecesAt(p, at))
    decreases |p| - at
  {
    if at < |p| {
      ParseStep(p, at, Contents(p, v));
      var c := PieceAt(p, at);
      if c.Some? {
        AddIsWith(p, v, c.value);
        PiecesAgree(p, c.value.next, Add(v, c.value));
        ShownFrom(p, ParseFrom(From(p, at), Contents(p, v)), v, c.value, PiecesAt(p, c.value.next));
      }
    }
  }

  lemma HeaderAgrees(p: Bytes)
    ensures var h := TagAt(p, 0, |p|, SEQUENCE);
            Parse(p) == if h.None? then None else ParseFrom(From(p, h.value.off), Empty())
  {
    TagAtReads(p, 0, |p|, SEQUENCE);
    assert p[0..|p|] == p;
    var h := TagAt(p, 0, |p|, SEQUENCE);
    if h.Some? {
      Adjacent(p, h.value.off, h.value.End(), |p|);
    }
  }

  lemma NothingShown(p: Bytes, v: Views)
    requires v == Views(0, NOTHING, NOTHING, NOTHING, NOTHING)
    ensures ViewsInside(p, v) && Contents(p, v) == Empty()
  {}

  lemma AddedAlone(v: Views, cs: seq<Piece>)
    requires v == Views(0, NOTHING, NOTHING, NOTHING, NOTHING)
    ensures Added(v, cs) == ViewsOf(cs)
  {
    AddedAreLast([], cs);
    assert [] + cs == cs;
  }

  /** The views show exactly what parsing on the octets that are left gives. */
  lemma ViewsShowTheRequest(p: Bytes)
    ensures Parse(p).Some? <==> Pieces(p).Some?
    ensures Pieces(p).Some? ==>
              var v := ViewsOf(Pieces(p).value); ViewsInside(p, v) && Parse(p) == Some(Contents(p, v))
  {
    HeaderAgrees(p);
    var h := TagAt(p, 0, |p|, SEQUENCE);
    if h.Some? {
      var v := Views(0, NOTHING, NOTHING, NOTHING, NOTHING);
      NothingShown(p, v);
      PiecesAgree(p, h.value.off, v);
      if Pieces(p).Some? {
        AddedAlone(v, Pieces(p).value);
      }
    }
  }

  // ---- The parser's loop ---------------------------------------------------

  method ReadTaggedAt(p: Bytes, at: nat, end: nat, tag: byte) returns (r: Option<Token>)
    requires at <= end <= |p|
    ensures r == TaggedAt(p, at, end, tag)
  {
    var e := ReadTagAt(p, at, end, tag);
    if e.None? {
      return None;
    }
    var o := ReadTagAt(p, e.value.off, e.value.End(), OCTETS);
    if o.None? {
      return None;
    }
    return Some(Token(o.value, e.value.End()));
  }

  method ReadNegoAt(p: Bytes, at: nat, end: nat) returns (r: Option<Token>)
    requires at <= end <= |p|
    ensures r == SequencesAt(p, at, end, 2)
  {
    var outer := ReadTagAt(p, at, end, SEQUENCE);
    if outer.None? {
      return None;
    }
    var inner := ReadTagAt(p, outer.value.off, outer.value.End(), SEQUENCE);
    if inner.None? {
      return None;
    }
    r := ReadTaggedAt(p, inner.value.off, inner.value.End(), VERSION_TAG);
  }

  method ReadPieceAt(p: Bytes, at: nat) returns (r: Option<Piece>)
    requires at < |p|
    ensures r == PieceAt(p, at)
  {
    var tag := p[at];
    var e := ReadTagAt(p, at, |p|, tag);
    if e.None? {
      return None;
    }
    var v := e.value;
    if tag == VERSION_TAG {
      var n := ReadIntegerAt(p, v.off, v.End());
      return if n.None? then None else Some(Piece(tag, v, n.value, NOTHING, v.End()));
    }
    if tag == NEGO_TAG {
      var t := ReadNegoAt(p, v.off, v.End());
      return if t.None? then None else Some(Piece(tag, v, 0, t.value.view, t.value.next));
    }
    if Viewed(tag) {
      var o := ReadTagAt(p, v.off, v.End(), OCTETS);
      return if o.None? then None else Some(Piece(tag, v, 0, o.value, v.End()));
    }
    return Some(Piece(tag, v, 0, NOTHING, v.End()));
  }

  /** The pieces read so far and those still to come. */
  ghost function Continued(done: seq<Piece>, more: Option<seq<Piece>>): Option<seq<Piece>> {
    if more.None? then None else Some(done + more.value)
  }

  lemma PiecesContinue(p: Bytes, off: nat, done: seq<Piece>)
    requires off < |p| && PieceAt(p, off).Some?
    ensures var c := PieceAt(p, off).value;
            c.next <= |p| && Continued(done, PiecesAt(p, off)) == Continued(done + [c], PiecesAt(p, c.next))
  {
    PieceIsLocated(p, off);
    var c := PieceAt(p, off).value;
    var cs := PiecesAt(p, c.next);
    if cs.Some? {
      assert done + ([c] + cs.value) == done + [c] + cs.value;
    }
  }

  method ParseRequest(p: Bytes) returns (r: Option<Views>)
    ensures r == if Pieces(p).Some? then Some(ViewsOf(Pieces(p).value)) else None
  {
    var h := ReadTagAt(p, 0, |p|, SEQUENCE);
    if h.None? {
      return None;
    }
    var off, out := h.value.off, Views(0, NOTHING, NOTHING, NOTHING, NOTHING);
    ghost var done: seq<Piece> := [];
    assert PiecesAt(p, off).Some? ==> [] + PiecesAt(p, off).value == PiecesAt(p, off).value;
    while off < |p|
      invariant off <= |p| && out == ViewsOf(done)
      invariant Pieces(p) == Continued(done, PiecesAt(p, off))
    {
      var c := ReadPieceAt(p, off);
      if c.None? {
        return None;
      }
      PieceIsLocated(p, off);
      PiecesContinue(p, off, done);
      ViewsAppend(done, c.value);
      out := Add(out, c.value);
      off := c.value.next;
      done := done + [c.value];
    }
    assert done + [] == done;
    return Some(out);
  }

  // ---- Building ----------------------------------------------------------

  /** The components of a request; an empty octet string is not sent. */
  datatype Request = Request(version: u32, nego: Bytes, auth: Bytes, pubKey: Bytes)

  const INNER_BUFFER: nat := 4096
  const BODY_BUFFER: nat := 8192

  function NegoSequence(token: Bytes): Bytes {
    Tlv(SEQUENCE, Tlv(SEQUENCE, Tlv(VERSION_TAG, Tlv(OCTETS, token))))
  }

  function VersionPart(v: u32): Bytes {
    Tlv(VERSION_TAG, Integer(v))
  }

  function NegoPart(token: Bytes): Bytes {
    if token == [] then [] else Tlv(NEGO_TAG, NegoSequence(token))
  }

  function OctetsPart(tag: byte, value: Bytes): Bytes {
    if value == [] then [] else Tlv(tag, Tlv(OCTETS, value))
  }

  function Body(r: Request): Bytes {
    VersionPart(r.version) + (NegoPart(r.nego) + (OctetsPart(AUTH_TAG, r.auth) + (OctetsPart(PUBKEY_TAG, r.pubKey) + [])))
  }

  /** The fixed buffers the builder assembles the body in are large enough. */
  predicate BuffersTake(r: Request) {
    && (r.nego == [] || |NegoSequence(r.nego)| <= INNER_BUFFER)
    && (r.auth == [] || |Tlv(OCTETS, r.auth)| <= INNER_BUFFER)
    && (r.pubKey == [] || |Tlv(OCTETS, r.pubKey)| <= INNER_BUFFER)
    && |Body(r)| <= BODY_BUFFER
  }

  function Build(r: Request, cap: nat): Option<Bytes> {
    if !BuffersTake(r) || |Tlv(SEQUENCE, Body(r))| > cap then None else Some(Tlv(SEQUENCE, Body(r)))
  }

  // ---- Parsing what was built --------------------------------------------

  lemma VersionReadsBack(v: u32, rest: Bytes, acc: TsRequest)
    ensures ParseFrom(VersionPart(v) + rest, acc) == ParseFrom(rest, acc.(version := v))
  {
    var i := Integer(v);
    TlvReadsBack(VERSION_TAG, i, rest);
    IntegerReadsBack(v, []);
    assert i + [] == i;
    assert ReadComponent(VersionPart(v) + rest) == Some(Component(Version(v), rest));
  }

  lemma TaggedReadsBack(tag: byte, value: Bytes, rest: Bytes)
    requires |Tlv(OCTETS, value)| < U32
    ensures ReadTagged(Tlv(tag, Tlv(OCTETS, value)) + rest, tag) == Some(Elem(value, rest))
  {
    var inner := Tlv(OCTETS, value);
    TlvReadsBack(tag, inner, rest);
    TlvReadsBack(OCTETS, value, []);
    assert inner + [] == inner;
  }

  lemma OctetsReadBack(tag: byte, value: Bytes, rest: Bytes, acc: TsRequest)
    requires tag == AUTH_TAG || tag == PUBKEY_TAG
    requires |Tlv(OCTETS, value)| < U32 && (value == [] ==> With(acc, Named(tag, [])) == acc)
    ensures ParseFrom(OctetsPart(tag, value) + rest, acc) == ParseFrom(rest, With(acc, Named(tag, value)))
  {
    if value == [] {
      assert OctetsPart(tag, value) + rest == rest;
    } else {
      TaggedReadsBack(tag, value, rest);
      assert ReadComponent(OctetsPart(tag, value) + rest) == Some(Component(Named(tag, value), rest));
    }
  }

  lemma SequenceSteps(s: Bytes, x: Bytes, depth: nat, token: Bytes)
    requires ReadTag(s, SEQUENCE) == Some(Elem(x, [])) && ReadSequences(x, depth) == Some(Elem(token, []))
    ensures ReadSequences(s, depth + 1) == Some(Elem(token, []))
  {
    var none: Bytes := [];
    assert none + none == none;
  }

  /** One SEQUENCE header is stepped over. */
  lemma SequenceReadsBack(x: Bytes, depth: nat, token: Bytes)
    requires |x| < U32 && ReadSequences(x, depth) == Some(Elem(token, []))
    ensures ReadSequences(Tlv(SEQUENCE, x), depth + 1) == Some(Elem(token, []))
  {
    assert ReadTag(Tlv(SEQUENCE, x), SEQUENCE) == Some(Elem(x, [])) by {
      TlvReadsBack(SEQUENCE, x, []);
      assert Tlv(SEQUENCE, x) + [] == Tlv(SEQUENCE, x);
    }
    SequenceSteps(Tlv(SEQUENCE, x), x, depth, token);
  }

  lemma NegoSequenceReadsBack(token: Bytes)
    requires |NegoSequence(token)| < U32
    ensures ReadSequences(NegoSequence(token), 2) == Some(Elem(token, []))
  {
    var d := Tlv(VERSION_TAG, Tlv(OCTETS, token));
    TaggedReadsBack(VERSION_TAG, token, []);
    assert d + [] == d;
    SequenceReadsBack(d, 0, token);
    SequenceReadsBack(Tlv(SEQUENCE, d), 1, token);
  }

  lemma ParseNext(s: Bytes, c: Component, acc: TsRequest)
    requires s != [] && ReadComponent(s) == Some(c)
    ensures ParseFrom(s, acc) == ParseFrom(c.rest, With(acc, c.field))
  {}

  lemma NegoSteps(s: Bytes, t: Bytes, token: Bytes, rest: Bytes)
    requires ReadTag(s, NEGO_TAG) == Some(Elem(t, rest)) && ReadSequences(t, 2) == Some(Elem(token, []))
    ensures ReadNego(s) == Some(Component(Nego(token), rest))
  {
    assert [] + rest == rest;
  }

  lemma NegoReadsBack(token: Bytes, rest: Bytes, acc: TsRequest)
    requires |NegoSequence(token)| < U32 && (token == [] ==> acc.nego == [])
    ensures ParseFrom(NegoPart(token) + rest, acc) == ParseFrom(rest, acc.(nego := token))
  {
    if token == [] {
      assert NegoPart(token) + rest == rest;
    } else {
      NegoSequenceReadsBack(token);
      TlvReadsBack(NEGO_TAG, NegoSequence(token), rest);
      NegoSteps(NegoPart(token) + rest, NegoSequence(token), token, rest);
      ParseNext(NegoPart(token) + rest, Component(Nego(token), rest), acc);
    }
  }

  lemma PubKeyReadsBack(pubKey: Bytes, acc: TsRequest)
    requires acc.pubKey == [] && |Tlv(OCTETS, pubKey)| < U32
    ensures ParseFrom(OctetsPart(PUBKEY_TAG, pubKey) + [], acc) == Some(acc.(pubKey := pubKey))
  {
    OctetsReadBack(PUBKEY_TAG, pubKey, [], acc);
  }

  lemma AuthReadsBack(auth: Bytes, rest: Bytes, acc: TsRequest)
    requires acc.auth == [] && |Tlv(OCTETS, auth)| < U32
    ensures ParseFrom(OctetsPart(AUTH_TAG, auth) + rest, acc) == ParseFrom(rest, acc.(auth := auth))
  {
    OctetsReadBack(AUTH_TAG, auth, rest, acc);
  }

  lemma TailReadsBack(auth: Bytes, pubKey: Bytes, acc: TsRequest)
    requires acc.auth == [] && acc.pubKey == [] && |Tlv(OCTETS, auth)| < U32 && |Tlv(OCTETS, pubKey)| < U32
    ensures ParseFrom(OctetsPart(AUTH_TAG, auth) + (OctetsPart(PUBKEY_TAG, pubKey) + []), acc)
         == Some(acc.(auth := auth, pubKey := pubKey))
  {
    AuthReadsBack(auth, OctetsPart(PUBKEY_TAG, pubKey) + [], acc);
    PubKeyReadsBack(pubKey, acc.(auth := auth));
  }

  lemma BodyReadsBack(r: Request)
    requires |NegoSequence(r.nego)| < U32 && |Tlv(OCTETS, r.auth)| < U32 && |Tlv(OCTETS, r.pubKey)| < U32
    ensures ParseFrom(Body(r), Empty()) == Some(TsRequest(r.version, r.nego, r.auth, r.pubKey, []))
  {
    var tail := OctetsPart(AUTH_TAG, r.auth) + (OctetsPart(PUBKEY_TAG, r.pubKey) + []);
    var acc := Empty().(version := r.version);
    VersionReadsBack(r.version, NegoPart(r.nego) + tail, Empty());
    NegoReadsBack(r.nego, tail, acc);
    TailReadsBack(r.auth, r.pubKey, acc.(nego := r.nego));
  }

  lemma EmptyIsShort()
    ensures |NegoSequence([])| < U32 && |Tlv(OCTETS, [])| < U32
  {}

  lemma BuffersAreSmall(r: Request)
    requires BuffersTake(r)
    ensures |NegoSequence(r.nego)| < U32 && |Tlv(OCTETS, r.auth)| < U32 && |Tlv(OCTETS, r.pubKey)| < U32
    ensures |Body(r)| < U32
  {
    EmptyIsShort();
  }

  lemma WholeReadsBack(b: Bytes)
    requires |b| < U32
    ensures Parse(Tlv(SEQUENCE, b)) == ParseFrom(b, Empty())
  {
    TlvReadsBack(SEQUENCE, b, []);
    assert Tlv(SEQUENCE, b) + [] == Tlv(SEQUENCE, b) && b + [] == b;
  }

  /** Whatever is built parses back to the same version, token, authInfo and
      pubKeyAuth. */
  lemma BuildParses(r: Request, cap: nat)
    requires Build(r, cap).Some?
    ensures Parse(Build(r, cap).value) == Some(TsRequest(r.version, r.nego, r.auth, r.pubKey, []))
  {
    BuffersAreSmall(r);
    BodyReadsBack(r);
    WholeReadsBack(Body(r));
  }

  /** And the views the parser returns on it show those octets. */
  lemma BuildParsesToViews(r: Request, cap: nat)
    requires Build(r, cap).Some?
    ensures var p := Build(r, cap).value;
            && Pieces(p).Some? && ViewsInside(p, ViewsOf(Pieces(p).value))
            && Contents(p, ViewsOf(Pieces(p).value)) == TsRequest(r.version, r.nego, r.auth, r.pubKey, [])
  {
    BuildParses(r, cap);
    ViewsShowTheRequest(Build(r, cap).value);
  }

  // ---- Any peer's message ----------------------------------------------------------

  /** A component by its tag (section 2.2.1 of MS-CSSP), or one the parser does not know. */
  datatype Part = VersionIs(v: u32) | Holds(tag: byte, octets: Bytes) | Foreign(tag: byte, value: Bytes)

  function PartOctets(c: Part): Bytes {
    match c
    case VersionIs(v) => Tlv(0xA0, Tlv(0x02, BeBytes(v, IntegerOctets(v))))
    case Holds(tag, x) =>
      if tag == 0xA1 then Tlv(0xA1, Tlv(0x30, Tlv(0x30, Tlv(0xA0, Tlv(0x04, x))))) else Tlv(tag, Tlv(0x04, x))
    case Foreign(tag, value) => Tlv(tag, value)
  }

  predicate PartOk(c: Part) {
    match c
    case VersionIs(_) => true
    case Holds(tag, x) => tag in {0xA1, 0xA2, 0xA3, 0xA5} && |PartOctets(c)| < U32
    case Foreign(tag, value) => tag !in {0xA0, 0xA1, 0xA2, 0xA3, 0xA5} && |value| < U32
  }

  predicate PartsOk(cs: seq<Part>) {
    forall i | 0 <= i < |cs| :: PartOk(cs[i])
  }

  function PartsOctets(cs: seq<Part>): Bytes {
    if cs == [] then [] else PartOctets(cs[0]) + PartsOctets(cs[1..])
  }

  /** A request with one more component: a repeated one replaces the earlier. */
  function Set(r: TsRequest, c: Part): TsRequest {
    match c
    case VersionIs(v) => r.(version := v)
    case Foreign(_, _) => r
    case Holds(tag, x) =>
      match tag
      case 0xA1 => r.(nego := x)
      case 0xA2 => r.(auth := x)
      case 0xA3 => r.(pubKey := x)
      case 0xA5 => r.(nonce := x)
      case _ => r
  }

  function SetAll(r: TsRequest, cs: seq<Part>): TsRequest
    decreases |cs|
  {
    if cs == [] then r else SetAll(Set(r, cs[0]), cs[1..])
  }

  lemma TlvStarts(tag: byte, x: Bytes, rest: Bytes)
    ensures (Tlv(tag, x) + rest)[0] == tag
  {}

  lemma HoldsNext(s: Bytes, tag: byte, x: Bytes, rest: Bytes, acc: TsRequest)
    requires s != [] && s[0] == tag && tag in {0xA2, 0xA3, 0xA5} && ReadTagged(s, tag) == Some(Elem(x, rest))
    ensures ParseFrom(s, acc) == ParseFrom(rest, Set(acc, Holds(tag, x)))
  {
    ParseNext(s, Component(Named(tag, x), rest), acc);
  }

  lemma ForeignNext(s: Bytes, tag: byte, value: Bytes, rest: Bytes, acc: TsRequest)
    requires s != [] && s[0] == tag && tag !in {0xA0, 0xA1, 0xA2, 0xA3, 0xA5}
             && ReadTag(s, tag) == Some(Elem(value, rest))
    ensures ParseFrom(s, acc) == ParseFrom(rest, acc)
  {
    ParseNext(s, Component(Other, rest), acc);
  }

  lemma HoldsReadsBack(tag: byte, x: Bytes, rest: Bytes, acc: TsRequest)
    requires tag in {0xA2, 0xA3, 0xA5} && |Tlv(0x04, x)| < U32
    ensures ParseFrom(Tlv(tag, Tlv(0x04, x)) + rest, acc) == ParseFrom(rest, Set(acc, Holds(tag, x)))
  {
    TlvStarts(tag, Tlv(0x04, x), rest);
    TaggedReadsBack(tag, x, rest);
    HoldsNext(Tlv(tag, Tlv(0x04, x)) + rest, tag, x, rest, acc);
  }

  lemma TokenReadsBack(x: Bytes, rest: Bytes, acc: TsRequest)
    requires |NegoSequence(x)| < U32
    ensures ParseFrom(Tlv(0xA1, NegoSequence(x)) + rest, acc) == ParseFrom(rest, acc.(nego := x))
  {
    var s := Tlv(0xA1, NegoSequence(x)) + rest;
    TlvStarts(0xA1, NegoSequence(x), rest);
    NegoSequenceReadsBack(x);
    TlvReadsBack(0xA1, NegoSequence(x), rest);
    NegoSteps(s, NegoSequence(x), x, rest);
    ParseNext(s, Component(Nego(x), rest), acc);
  }

  lemma ForeignIsSkipped(tag: byte, value: Bytes, rest: Bytes, acc: TsRequest)
    requires tag !in {0xA0, 0xA1, 0xA2, 0xA3, 0xA5} && |value| < U32
    ensures ParseFrom(Tlv(tag, value) + rest, acc) == ParseFrom(rest, acc)
  {
    TlvStarts(tag, value, rest);
    TlvReadsBack(tag, value, rest);
    ForeignNext(Tlv(tag, value) + rest, tag, value, rest, acc);
  }

  lemma PartReadsBack(c: Part, rest: Bytes, acc: TsRequest)
    requires PartOk(c)
    ensures ParseFrom(PartOctets(c) + rest, acc) == ParseFrom(rest, Set(acc, c))
  {
    match c
    case VersionIs(v) => VersionReadsBack(v, rest, acc);
    case Foreign(tag, value) => ForeignIsSkipped(tag, value, rest, acc);
    case Holds(tag, x) =>
      if tag == 0xA1 {
        TlvIsLonger(0xA1, NegoSequence(x));
        TokenReadsBack(x, rest, acc);
      } else {
        TlvIsLonger(tag, Tlv(0x04, x));
        HoldsReadsBack(tag, x, rest, acc);
      }
  }

  lemma {:induction false} PartsReadBack(cs: seq<Part>, acc: TsRequest)
    requires PartsOk(cs)
    ensures ParseFrom(PartsOctets(cs), acc) == Some(SetAll(acc, cs))
    decreases |cs|
  {
    if cs != [] {
      PartReadsBack(cs[0], PartsOctets(cs[1..]), acc);
      PartsReadBack(cs[1..], Set(acc, cs[0]));
    }
  }

  /** A message of any components in any order, known or not, parses to the last of each
      tag: version, token, authInfo, pubKeyAuth and nonce. */
  lemma AnyMessageParses(cs: seq<Part>)
    requires PartsOk(cs) && |PartsOctets(cs)| < U32
    ensures Parse(Tlv(0x30, PartsOctets(cs))) == Some(SetAll(TsRequest(0, [], [], [], []), cs))
  {
    WholeReadsBack(PartsOctets(cs));
    PartsReadBack(cs, Empty());
  }

  // ---- The builder, through its fixed buffers ------------------------------

  lemma TlvIsLonger(tag: byte, x: Bytes)
    ensures |Tlv(tag, x)| > |x|
  {}

  method WrapToken(token: Bytes) returns (r: Option<Bytes>)
    ensures r == if |NegoSequence(token)| <= INNER_BUFFER then Some(NegoSequence(token)) else None
  {
    var a := Tlv(OCTETS, token);
    var b := Tlv(VERSION_TAG, a);
    var c := Tlv(SEQUENCE, b);
    TlvIsLonger(VERSION_TAG, a);
    TlvIsLonger(SEQUENCE, b);
    TlvIsLonger(SEQUENCE, c);
    var octet := WriteAlone(OCTETS, token, INNER_BUFFER);
    if octet.None? {
      return None;
    }
    var blob := WriteAlone(VERSION_TAG, octet.value, INNER_BUFFER);
    if blob.None? {
      return None;
    }
    var inner := WriteAlone(SEQUENCE, blob.value, INNER_BUFFER);
    if inner.None? {
      return None;
    }
    r := WriteAlone(SEQUENCE, inner.value, INNER_BUFFER);
  }

  /** An element written into a buffer of its own. */
  method WriteAlone(tag: byte, value: Bytes, cap: nat) returns (r: Option<Bytes>)
    ensures r == if |Tlv(tag, value)| <= cap then Some(Tlv(tag, value)) else None
  {
    var b := new Buf(cap);
    var ok := b.WriteElement(tag, value);
    if !ok {
      return None;
    }
    assert [] + Tlv(tag, value) == Tlv(tag, value);
    return Some(b.data);
  }

  /** Appends an optional octet-string component to the body. */
  method PutOctets(body: Buf, tag: byte, value: Bytes) returns (ok: bool)
    requires body.Valid()
    modifies body
    ensures body.Valid()
    ensures ok == ((value == [] || |Tlv(OCTETS, value)| <= INNER_BUFFER)
                   && |old(body.data)| + |OctetsPart(tag, value)| <= body.cap)
    ensures ok ==> body.data == old(body.data) + OctetsPart(tag, value)
  {
    if value == [] {
      return true;
    }
    var oct := WriteAlone(OCTETS, value, INNER_BUFFER);
    if oct.None? {
      return false;
    }
    ok := body.WriteElement(tag, oct.value);
  }

  method PutNego(body: Buf, token: Bytes) returns (ok: bool)
    requires body.Valid()
    modifies body
    ensures body.Valid()
    ensures ok == ((token == [] || |NegoSequence(token)| <= INNER_BUFFER)
                   && |old(body.data)| + |NegoPart(token)| <= body.cap)
    ensures ok ==> body.data == old(body.data) + NegoPart(token)
  {
    if token == [] {
      return true;
    }
    var t := WrapToken(token);
    if t.None? {
      return false;
    }
    var outer := WriteAlone(NEGO_TAG, t.value, BODY_BUFFER);
    NegoOuterFits(t.value);
    ok := body.Put(outer.value);
  }

  lemma NegoOuterFits(x: Bytes)
    requires |x| <= INNER_BUFFER
    ensures |Tlv(NEGO_TAG, x)| <= BODY_BUFFER
  {}

  lemma VersionFits(v: u32)
    ensures |Integer(v)| <= 8 && |VersionPart(v)| <= BODY_BUFFER
  {}

  lemma FourParts(a: Bytes, b: Bytes, c: Bytes, d: Bytes)
    ensures ((a + b) + c) + d == a + (b + (c + (d + [])))
  {}

  method BuildRequest(r: Request, cap: nat) returns (out: Option<Bytes>)
    ensures out == Build(r, cap)
  {
    var version := new Buf(8);
    var ok := version.WriteInteger(r.version);
    VersionFits(r.version);
    assert version.data == Integer(r.version);
    var body := new Buf(BODY_BUFFER);
    ok := body.WriteElement(VERSION_TAG, version.data);
    assert body.data == VersionPart(r.version);
    FourParts(VersionPart(r.version), NegoPart(r.nego), OctetsPart(AUTH_TAG, r.auth), OctetsPart(PUBKEY_TAG, r.pubKey));
    ok := PutNego(body, r.nego);
    if !ok {
      return None;
    }
    ok := PutOctets(body, AUTH_TAG, r.auth);
    if !ok {
      return None;
    }
    ok := PutOctets(body, PUBKEY_TAG, r.pubKey);
    if !ok {
      return None;
    }
    assert body.data == Body(r);
    out := WriteAlone(SEQUENCE, body.data, cap);
  }
}
