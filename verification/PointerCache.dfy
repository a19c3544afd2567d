/**
  * The cursor path: scaling a cursor to what one packet carries, the server's table
  * of the pointer cache a client keeps, and which cursor the client then shows.
  */
module PointerCache {
  import opened Bytes
  import opened FastPath

  const MAX_SLOTS: nat := 32
  const MAX_DIM: nat := 60
  const MAX_PIXELS: nat := 0x10_0000

  type Pixel = u32

  /** A cursor: hotspot, size and pixel rows, all of which are hashed. */
  datatype Cursor = Cursor(hotX: u16, hotY: u16, w: u16, h: u16, rows: seq<seq<Pixel>>)

  predicate Rectangle(c: Cursor) {
    |c.rows| == c.h && forall i | 0 <= i < |c.rows| :: |c.rows[i]| == c.w
  }

  /** A cursor message whose geometry is accepted; others are drained and ignored. */
  predicate Accepted(c: Cursor) {
    Rectangle(c) && c.w > 0 && c.h > 0 && c.w as int * c.h <= MAX_PIXELS
  }

  // ---- Scaling -----------------------------------------------------------

  function MaxDim(large: bool): nat {
    if large then MAX_DIM else 32
  }

  datatype Size = Size(w: nat, h: nat)

  function Scaled(a: nat, max: nat, d: nat): nat
    requires d > 0
  {
    a * max / d
  }

  /** The size a cursor is shrunk to so that both sides fit `max`. */
  function Fitted(w: nat, h: nat, max: nat): Size
    requires max > 0
  {
    var h1 := if w > max then Scaled(h, max, w) else h;
    var w1 := if w > max then max else w;
    var w2 := if h1 > max then Scaled(w1, max, h1) else w1;
    var h2 := if h1 > max then max else h1;
    Size(if w2 == 0 then 1 else w2, if h2 == 0 then 1 else h2)
  }

  lemma AtLeast(x: nat, d: nat, q: nat)
    requires d > 0 && x / d >= q
    ensures x >= q * d
  {
    Product(q, d, x / d, d);
  }

  lemma DivBound(x: nat, d: nat, q: nat)
    requires d > 0 && x <= q * d
    ensures x / d <= q
  {
    if x / d > q {
      AtLeast(x, d, q + 1);
    }
  }

  lemma Shrinks(a: nat, max: nat, d: nat)
    requires 0 < d && max <= d
    ensures Scaled(a, max, d) <= a
  {
    Product(a, max, a, d);
    DivBound(a * max, d, a);
  }

  lemma StaysBelow(a: nat, max: nat, d: nat)
    requires a < d
    ensures max > 0 ==> Scaled(a, max, d) < max
    ensures Scaled(a, max, d) <= max
  {
    Product(a, max, d, max);
    DivBound(a * max, d, max);
    if max > 0 && Scaled(a, max, d) == max {
      AtLeast(a * max, d, max);
      assert a * max < d * max by {
        Product(a + 1, max, d, max);
      }
    }
  }

  lemma FittedFits(w: nat, h: nat, max: nat)
    requires max > 0 && w > 0 && h > 0
    ensures var s := Fitted(w, h, max); 0 < s.w <= max && 0 < s.h <= max && s.w <= w && s.h <= h
    ensures w <= max && h <= max ==> Fitted(w, h, max) == Size(w, h)
  {
    var h1 := if w > max then Scaled(h, max, w) else h;
    var w1 := if w > max then max else w;
    if w > max {
      Shrinks(h, max, w);
    }
    if h1 > max {
      Shrinks(w1, max, h1);
    }
  }

  /** A coordinate of the small picture, in the large one. */
  function Source(i: nat, small: nat, large: nat): nat
    requires i < small
  {
    i * large / small
  }

  lemma SourceIsInside(i: nat, small: nat, large: nat)
    requires i < small && large > 0
    ensures Source(i, small, large) < large
  {
    StaysBelow(i, large, small);
  }

  function Row(src: seq<Pixel>, w: nat): seq<Pixel>
    requires src != []
  {
    seq(w, x requires 0 <= x < w => SourceIsInside(x, w, |src|); src[Source(x, w, |src|)])
  }

  /** A hotspot scaled with its side and kept inside it. */
  function Spot(hot: u16, small: nat, large: nat): nat
    requires 0 < small && 0 < large
  {
    var s := hot * small / large;
    if s >= small then small - 1 else s
  }

  /** The nearest-neighbour copy that fits `max`. */
  function Shrunk(c: Cursor, max: nat): Cursor
    requires Rectangle(c) && c.w > 0 && c.h > 0 && 0 < max <= MAX_DIM
  {
    var s := Fitted(c.w, c.h, max);
    FittedFits(c.w, c.h, max);
    Cursor(Spot(c.hotX, s.w, c.w), Spot(c.hotY, s.h, c.h), s.w, s.h,
           seq(s.h, y requires 0 <= y < s.h => SourceIsInside(y, s.h, c.h); Row(c.rows[Source(y, s.h, c.h)], s.w)))
  }

  method ShrinkRow(src: seq<Pixel>, w: nat) returns (row: seq<Pixel>)
    requires src != []
    ensures row == Row(src, w)
  {
    row := [];
    var x := 0;
    while x < w
      invariant 0 <= x <= w && row == Row(src, w)[..x]
    {
      SourceIsInside(x, w, |src|);
      row := row + [src[Source(x, w, |src|)]];
      x := x + 1;
    }
  }

  /** The scaling loops. */
  method Shrink(c: Cursor, max: nat) returns (r: Cursor)
    requires Rectangle(c) && c.w > 0 && c.h > 0 && 0 < max <= MAX_DIM
    ensures r == Shrunk(c, max)
  {
    var s := Fitted(c.w, c.h, max);
    FittedFits(c.w, c.h, max);
    var rows, y := [], 0;
    while y < s.h
      invariant 0 <= y <= s.h && rows == Shrunk(c, max).rows[..y]
    {
      SourceIsInside(y, s.h, c.h);
      var row := ShrinkRow(c.rows[Source(y, s.h, c.h)], s.w);
      rows := rows + [row];
      y := y + 1;
    }
    r := Cursor(Spot(c.hotX, s.w, c.w), Spot(c.hotY, s.h, c.h), s.w, s.h, rows);
  }

  /** The cursor that is hashed and sent. */
  function Prepared(c: Cursor, max: nat): Cursor
    requires Rectangle(c) && c.w > 0 && c.h > 0 && 0 < max <= MAX_DIM
  {
    if c.w > max || c.h > max then Shrunk(c, max) else c
  }

  /** A cursor goes out as it is exactly if its sides are at most 32, or at most 60 for a
      client with large pointers. */
  lemma UnchangedIff(c: Cursor, large: bool)
    requires Rectangle(c) && c.w > 0 && c.h > 0
    ensures Prepared(c, MaxDim(large)) == c <==>
              (c.w <= 32 && c.h <= 32) || (large && c.w <= 60 && c.h <= 60)
  {
    FittedFits(c.w, c.h, MaxDim(large));
  }

  // ---- Shrinking what was enlarged ---------------------------------------------------

  /** Each pixel of a cursor as a block of `k` by `k`. */
  function EnlargedRow(row: seq<Pixel>, k: nat): (r: seq<Pixel>)
    requires k > 0
    ensures |r| == |row| * k
  {
    seq(|row| * k, x requires 0 <= x < |row| * k => BlockIsInside(x, |row|, k); row[x / k])
  }

  lemma BlockIsInside(x: nat, n: nat, k: nat)
    requires k > 0 && x < n * k
    ensures x / k < n
  {
    if x / k >= n {
      AtLeast(x, k, n);
    }
  }

  function Enlarged(c: Cursor, k: nat): Cursor
    requires Rectangle(c) && k > 0 && c.w as int * k < 0x1_0000 && c.h as int * k < 0x1_0000 && InBounds(c)
  {
    BlockOfSpot(c.hotX, c.w, k);
    BlockOfSpot(c.hotY, c.h, k);
    Cursor(c.hotX as int * k, c.hotY as int * k, c.w as int * k, c.h as int * k,
           seq(c.h as int * k, y requires 0 <= y < c.h as int * k =>
                 BlockIsInside(y, c.h, k); EnlargedRow(c.rows[y / k], k)))
  }

  lemma BlockOfSpot(hot: nat, side: nat, k: nat)
    requires hot < side && side * k < 0x1_0000
    ensures hot * k < 0x1_0000
  {
    Product(hot, k, side, k);
  }

  lemma DivMod(x: nat, d: nat)
    requires d > 0
    ensures x == (x / d) * d + x % d && 0 <= x % d < d
  {}

  lemma OneMore(q: nat, d: nat)
    ensures (q + 1) * d == q * d + d
  {}

  lemma LessThan(x: nat, d: nat, q: nat)
    requires d > 0 && x / d < q
    ensures x < q * d
  {
    DivMod(x, d);
    OneMore(x / d, d);
    Product(x / d + 1, d, q, d);
  }

  lemma NotBelow(x: nat, d: nat, q: nat)
    requires d > 0 && q * d <= x
    ensures q <= x / d
  {
    if x / d < q {
      LessThan(x, d, q);
    }
  }

  lemma Quotient(x: nat, d: nat, q: nat)
    requires d > 0 && q * d <= x < q * d + d
    ensures x / d == q
  {
    NotBelow(x, d, q);
    OneMore(q, d);
    if x / d > q {
      AtLeast(x, d, q + 1);
    }
  }

  lemma Cancel(a: nat, k: nat)
    requires k > 0
    ensures a * k / k == a
  {
    Quotient(a * k, k, a);
  }

  lemma Regroup(q: nat, b: nat, r: nat, k: nat)
    ensures (q * b + r) * k == q * (b * k) + r * k
  {}

  lemma CancelBoth(a: nat, b: nat, k: nat)
    requires b > 0 && k > 0
    ensures b * k > 0 && (a * k) / (b * k) == a / b
  {
    var q, r := a / b, a % b;
    DivMod(a, b);
    Regroup(q, b, r, k);
    OneMore(r, k);
    Product(r + 1, k, b, k);
    Product(1, 1, b, k);
    Quotient(a * k, b * k, q);
  }

  lemma SquareLess(max: nat)
    requires max > 0
    ensures (max + 1) * (max - 1) == max * max - 1
  {}

  /** Scaling a side by max / d twice comes back, while the side is below max. */
  lemma TwiceBack(w: nat, max: nat)
    requires 0 < w < max
    ensures max * max / w > max && max * max / (max * max / w) == w
  {
    var m := max * max;
    SquareLess(max);
    Product(max + 1, w, max + 1, max - 1);
    NotBelow(m, w, max + 1);
    var q := m / w;
    DivMod(m, w);
    Quotient(m, q, w);
  }

  lemma FittedOfEnlarged(w: nat, h: nat, k: nat, max: nat)
    requires 0 < w <= max && 0 < h <= max && (w == max || h == max) && k >= 2
    ensures Fitted(w * k, h * k, max) == Size(w, h)
  {
    Product(max, 2, max, k);
    if w == max {
      assert h * k * max == h * (max * k);
      Cancel(h, max * k);
    } else {
      assert h == max && max * k > max;
      if w * k > max {
        assert h * k * max == (max * max) * k;
        CancelBoth(max * max, w, k);
        TwiceBack(w, max);
      } else {
        assert w * k * max == w * (max * k);
        Cancel(w, max * k);
      }
    }
  }

  lemma SourceOfBlock(i: nat, n: nat, k: nat)
    requires i < n && k > 0
    ensures Source(i, n, n * k) == i * k && i * k < n * k && i * k / k == i
  {
    assert i * (n * k) == (i * k) * n;
    Cancel(i * k, n);
    Cancel(i, k);
    Product(i + 1, k, n, k);
    assert (i + 1) * k == i * k + k;
  }

  lemma RowOfEnlarged(row: seq<Pixel>, k: nat)
    requires k > 0 && row != []
    ensures EnlargedRow(row, k) != [] && Row(EnlargedRow(row, k), |row|) == row
  {
    var big := EnlargedRow(row, k);
    Product(1, 1, |row|, k);
    forall x | 0 <= x < |row| ensures Row(big, |row|)[x] == row[x] {
      SourceOfBlock(x, |row|, k);
      assert Source(x, |row|, |big|) == x * k;
      assert big[x * k] == row[x * k / k];
    }
  }

  lemma SpotOfEnlarged(hot: u16, side: nat, k: nat)
    requires hot < side && k > 0 && side * k < 0x1_0000 && hot as int * k < 0x1_0000
    ensures Spot(hot as int * k, side, side * k) == hot
  {
    assert (hot as int * k) * side == hot as int * (side * k);
    Cancel(hot, side * k);
  }

  lemma EnlargedIsRectangle(c: Cursor, k: nat)
    requires Rectangle(c) && k > 0 && c.w as int * k < 0x1_0000 && c.h as int * k < 0x1_0000 && InBounds(c)
    ensures Rectangle(Enlarged(c, k))
  {
    var big := Enlarged(c, k);
    forall y | 0 <= y < |big.rows| ensures |big.rows[y]| == big.w {
      BlockIsInside(y, c.h, k);
      assert big.rows[y] == EnlargedRow(c.rows[y / k], k);
    }
  }

  /** Any cursor that fills the limit, enlarged any number of times, shrinks back to itself:
      pixels, sides and hotspot. */
  lemma EnlargedShrinksBack(c: Cursor, k: nat, max: nat)
    requires Rectangle(c) && InBounds(c) && k >= 2 && c.w as int * k < 0x1_0000 && c.h as int * k < 0x1_0000
    requires 0 < max <= MAX_DIM && c.w <= max && c.h <= max && (c.w == max || c.h == max)
    ensures Rectangle(Enlarged(c, k)) && Enlarged(c, k).w > 0 && Enlarged(c, k).h > 0
    ensures Prepared(Enlarged(c, k), max) == c
  {
    var big := Enlarged(c, k);
    EnlargedIsRectangle(c, k);
    Product(1, 1, c.w, k);
    Product(1, 1, c.h, k);
    FittedOfEnlarged(c.w, c.h, k, max);
    SpotOfEnlarged(c.hotX, c.w, k);
    SpotOfEnlarged(c.hotY, c.h, k);
    var small := Shrunk(big, max);
    forall y | 0 <= y < c.h ensures small.rows[y] == c.rows[y] {
      SourceOfBlock(y, c.h, k);
      assert big.rows[y * k] == EnlargedRow(c.rows[y * k / k], k);
      RowOfEnlarged(c.rows[y], k);
    }
    assert small.rows == c.rows;
    Product(max, 2, max, k);
  }

  // ---- The packet --------------------------------------------------------

  function XorLen(w: nat, h: nat): nat { w * 4 * h }
  function AndLen(w: nat, h: nat): nat { (w + 15) / 16 * 2 * h }

  /** The mask has a bit for each pixel, its rows padded to whole 16-bit words. */
  lemma MaskRowsAreWords(w: nat, h: nat, row: nat)
    requires row % 2 == 0 && w <= 8 * row < w + 16
    ensures AndLen(w, h) == row * h
  {
    assert (w + 15) / 16 * 2 == row;
  }

  /** The New Pointer update of such a cursor can be built. */
  predicate Buildable(c: Cursor) {
    && c.w > 0 && c.h > 0 && XorLen(c.w, c.h) <= 0xFFFF && AndLen(c.w, c.h) <= 0xFFFF
    && PacketLen(16 + XorLen(c.w, c.h) + AndLen(c.w, c.h)) <= MAX_PACKET
  }

  predicate InBounds(c: Cursor) {
    c.hotX < c.w && c.hotY < c.h
  }

  /** The cursor a New Pointer update carries: the builder moves the hotspot into it. */
  function Clamped(c: Cursor): Cursor {
    c.(hotX := if c.hotX >= c.w && c.w > 0 then c.w - 1 else c.hotX,
       hotY := if c.hotY >= c.h && c.h > 0 then c.h - 1 else c.hotY)
  }

  /** To the nearest point of the cursor. */
  lemma ClampedIsNearest(c: Cursor, x: nat, y: nat)
    requires x < c.w && y < c.h
    ensures InBounds(Clamped(c))
    ensures Apart(c.hotX, Clamped(c).hotX) <= Apart(c.hotX, x) && Apart(c.hotY, Clamped(c).hotY) <= Apart(c.hotY, y)
  {}

  function Apart(a: nat, b: nat): nat {
    if a < b then b - a else a - b
  }

  /** So the client gets the cursor that was hashed exactly if its hotspot is inside. */
  lemma ClampKeepsIff(c: Cursor)
    requires c.w > 0 && c.h > 0
    ensures Clamped(c) == c <==> InBounds(c)
  {}

  lemma SmallCursorsAreBuildable(c: Cursor)
    requires 0 < c.w <= MAX_DIM && 0 < c.h <= MAX_DIM
    ensures Buildable(c)
  {
    Product(c.w as int * 4, c.h, 240, MAX_DIM);
    Product((c.w as int + 15) / 16 * 2, c.h, 8, MAX_DIM);
  }

  /** Every accepted cursor is prepared into one that can be built; a scaled one has
      its hotspot inside. */
  lemma PreparedIsBuildable(c: Cursor, max: nat)
    requires Accepted(c) && 0 < max <= MAX_DIM
    ensures var p := Prepared(c, max);
            && Buildable(p) && Rectangle(p) && p.w <= max && p.h <= max
            && (InBounds(p) <==> InBounds(c) || c.w > max || c.h > max)
  {
    FittedFits(c.w, c.h, max);
    SmallCursorsAreBuildable(Prepared(c, max));
  }

  // ---- The two sides -----------------------------------------------------

  /** What goes out: a cursor for a slot, as the packet carries it, or a slot to recall. */
  datatype Message = New(slot: nat, cursor: Cursor) | Cached(slot: nat)

  /** The server's table: the hash of what each slot was last given. */
  datatype Server = Server(color: bool, n: nat, next: nat, table: seq<Option<u64>>)

  function Start(clientSize: nat, color: bool): Server {
    var n := if !color then 0 else Min(clientSize, MAX_SLOTS);
    Server(color, n, 0, seq(MAX_SLOTS, _ => None))
  }

  /** At most 32 slots, and none for a client without colour pointers. */
  lemma SlotsByNumber(clientSize: nat, color: bool)
    ensures Start(clientSize, color).n == if color then Min(clientSize, 32) else 0
  {}

  predicate ServerOk(s: Server) {
    |s.table| == MAX_SLOTS && s.n <= MAX_SLOTS && (s.n == 0 || s.next < s.n)
  }

  /** The first of the first `n` slots that holds this hash, from `i` on. */
  function Hit(table: seq<Option<u64>>, n: nat, h: u64, i: nat): (r: Option<nat>)
    requires n <= |table|
    ensures r.Some? ==> i <= r.value < n && table[r.value] == Some(h)
    ensures r.None? ==> forall k | i <= k < n :: table[k] != Some(h)
    decreases n - i
  {
    if i >= n then None else if table[i] == Some(h) then Some(i) else Hit(table, n, h, i + 1)
  }

  datatype Step = Step(server: Server, sent: Option<Message>)

  function Update(s: Server, c: Cursor, h: u64): Step
    requires ServerOk(s)
  {
    if !s.color then Step(s, None)
    else if s.n == 0 then Step(s, if Buildable(c) then Some(New(0, Clamped(c))) else None)
    else
      var hit := Hit(s.table, s.n, h, 0);
      if hit.Some? then Step(s, Some(Cached(hit.value)))
      else if !Buildable(c) then Step(s, None)
      else Step(s.(next := (s.next + 1) % s.n, table := s.table[s.next := Some(h)]), Some(New(s.next, Clamped(c))))
  }

  /** What the client keeps in each slot, and which cursor it shows. */
  datatype Client = Client(slots: map<nat, Cursor>, shown: Option<Cursor>)

  function Receive(k: Client, m: Option<Message>): Client {
    if m.None? then k
    else if m.value.New? then Client(k.slots[m.value.slot := m.value.cursor], Some(m.value.cursor))
    else if m.value.slot in k.slots then k.(shown := Some(k.slots[m.value.slot]))
    else k
  }

  datatype System = System(server: Server, client: Client)

  function Turn(y: System, c: Cursor, hash: Cursor -> u64): System
    requires ServerOk(y.server)
  {
    var t := Update(y.server, c, hash(c));
    System(t.server, Receive(y.client, t.sent))
  }

  // ---- The invariant -----------------------------------------------------

  /** `held` is a cursor seen with this hash, as a packet carries it. */
  ghost predicate Carries(held: Cursor, h: u64, hash: Cursor -> u64, seen: set<Cursor>) {
    exists c | c in seen :: hash(c) == h && held == Clamped(c)
  }

  /** Every valid slot has the hash of the cursor whose packet filled it. */
  ghost predicate Synced(y: System, hash: Cursor -> u64, seen: set<Cursor>) {
    && ServerOk(y.server)
    && forall i | 0 <= i < y.server.n :: y.server.table[i].Some? ==>
         i in y.client.slots && Carries(y.client.slots[i], y.server.table[i].value, hash, seen)
  }

  lemma StartIsSynced(clientSize: nat, color: bool, k: Client, hash: Cursor -> u64)
    ensures Synced(System(Start(clientSize, color), k), hash, {})
  {}

  lemma CarriesMore(held: Cursor, h: u64, hash: Cursor -> u64, seen: set<Cursor>, c: Cursor)
    requires Carries(held, h, hash, seen)
    ensures Carries(held, h, hash, seen + {c})
  {
    var d :| d in seen && hash(d) == h && held == Clamped(d);
    assert d in seen + {c};
  }

  /** Filling the victim slot keeps the tables in step. */
  lemma StoreKeepsSynced(y: System, c: Cursor, hash: Cursor -> u64, seen: set<Cursor>)
    requires Synced(y, hash, seen) && y.server.n > 0
    ensures var at := y.server.next;
            Synced(System(y.server.(next := (at + 1) % y.server.n, table := y.server.table[at := Some(hash(c))]),
                          Receive(y.client, Some(New(at, Clamped(c))))), hash, seen + {c})
  {
    var at := y.server.next;
    var table, slots := y.server.table[at := Some(hash(c))], y.client.slots[at := Clamped(c)];
    assert c in seen + {c};
    forall i | 0 <= i < y.server.n && table[i].Some?
      ensures i in slots && Carries(slots[i], table[i].value, hash, seen + {c})
    {
      if i != at {
        CarriesMore(y.client.slots[i], y.server.table[i].value, hash, seen, c);
      }
    }
  }

  lemma SyncedMore(y: System, hash: Cursor -> u64, seen: set<Cursor>, c: Cursor)
    requires Synced(y, hash, seen)
    ensures Synced(y, hash, seen + {c})
  {
    forall i | 0 <= i < y.server.n && y.server.table[i].Some?
      ensures Carries(y.client.slots[i], y.server.table[i].value, hash, seen + {c})
    {
      CarriesMore(y.client.slots[i], y.server.table[i].value, hash, seen, c);
    }
  }

  /** A turn keeps the tables in step, and the client then shows a cursor seen with the
      current hash, unless there was neither a slot nor a packet for it. */
  lemma TurnKeepsSynced(y: System, c: Cursor, hash: Cursor -> u64, seen: set<Cursor>)
    requires Synced(y, hash, seen)
    ensures Synced(Turn(y, c, hash), hash, seen + {c})
    ensures var held := Hit(y.server.table, y.server.n, hash(c), 0).Some?;
            var k := Turn(y, c, hash).client;
            if y.server.color && (held || Buildable(c))
            then k.shown.Some? && Carries(k.shown.value, hash(c), hash, seen + {c})
            else k == y.client
  {
    assert c in seen + {c};
    assert Carries(Clamped(c), hash(c), hash, seen + {c});
    SyncedMore(y, hash, seen, c);
    if y.server.n > 0 {
      StoreKeepsSynced(y, c, hash, seen);
    }
  }

  function Run(y: System, cs: seq<Cursor>, hash: Cursor -> u64): System
    requires ServerOk(y.server)
    decreases cs
  {
    if cs == [] then y else Run(Turn(y, cs[0], hash), cs[1..], hash)
  }

  lemma {:induction false} RunKeepsSynced(y: System, cs: seq<Cursor>, hash: Cursor -> u64, seen: set<Cursor>)
    requires Synced(y, hash, seen)
    ensures Synced(Run(y, cs, hash), hash, seen + set x | x in cs)
    ensures Run(y, cs, hash).server.color == y.server.color
    decreases cs
  {
    if cs != [] {
      TurnKeepsSynced(y, cs[0], hash, seen);
      RunKeepsSynced(Turn(y, cs[0], hash), cs[1..], hash, seen + {cs[0]});
      assert (seen + {cs[0]}) + (set x | x in cs[1..]) == seen + set x | x in cs by {
        assert cs == [cs[0]] + cs[1..];
      }
    } else {
      assert seen + (set x | x in cs) == seen;
    }
  }

  lemma {:induction false} RunAppend(y: System, cs: seq<Cursor>, c: Cursor, hash: Cursor -> u64)
    requires ServerOk(y.server)
    ensures ServerOk(Run(y, cs, hash).server)
    ensures Run(y, cs + [c], hash) == Turn(Run(y, cs, hash), c, hash)
    decreases cs
  {
    if cs == [] {
      assert [] + [c] == [c] && [c][1..] == [];
    } else {
      assert (cs + [c])[1..] == cs[1..] + [c];
      RunAppend(Turn(y, cs[0], hash), cs[1..], c, hash);
    }
  }

  // ---- How long a cursor is kept -----------------------------------------------

  /** The hash a turn stores: that of a cursor sent anew. */
  function Stored(y: System, c: Cursor, hash: Cursor -> u64): seq<u64>
    requires ServerOk(y.server)
  {
    var m := Update(y.server, c, hash(c)).sent;
    if m.Some? && m.value.New? then [hash(c)] else []
  }

  function AllStored(y: System, cs: seq<Cursor>, hash: Cursor -> u64): seq<u64>
    requires ServerOk(y.server)
    decreases cs
  {
    if cs == [] then [] else Stored(y, cs[0], hash) + AllStored(Turn(y, cs[0], hash), cs[1..], hash)
  }

  /** The last `n` of a log. */
  function LastOf(log: seq<u64>, n: nat): seq<u64> {
    if |log| <= n then log else log[|log| - n..]
  }

  /** Where slot `i` was last filled from: slots before the victim are the newest. */
  function FilledFrom(log: seq<u64>, n: nat, next: nat, i: nat): int {
    if i < next then |log| - next + i else |log| - n + i - next
  }

  predicate Holds(s: Server, log: seq<u64>, i: nat)
    requires i < s.n <= |s.table|
  {
    var j := FilledFrom(log, s.n, s.next, i);
    s.table[i] == if 0 <= j < |log| then Some(log[j]) else None
  }

  predicate Recent(s: Server, log: seq<u64>) {
    && ServerOk(s) && s.n > 0 && s.next <= |log| && (|log| < s.n ==> s.next == |log|)
    && forall i | 0 <= i < s.n :: Holds(s, log, i)
  }

  /** The victim slot moves on by one, round the table. */
  lemma NextVictim(next: nat, n: nat)
    requires next < n
    ensures (next + 1) % n == if next + 1 == n then 0 else next + 1
  {}

  lemma StoreKeepsHolds(s: Server, t: Server, log: seq<u64>, h: u64, i: nat)
    requires ServerOk(s) && i < s.n && Holds(s, log, i)
    requires t == s.(next := if s.next + 1 == s.n then 0 else s.next + 1, table := s.table[s.next := Some(h)])
    ensures Holds(t, log + [h], i)
  {
    var j := FilledFrom(log, s.n, s.next, i);
    assert FilledFrom(log + [h], t.n, t.next, i) == if i == s.next then |log| else j;
  }

  lemma StoreKeepsRecent(s: Server, log: seq<u64>, h: u64)
    requires Recent(s, log)
    ensures Recent(s.(next := (s.next + 1) % s.n, table := s.table[s.next := Some(h)]), log + [h])
  {
    NextVictim(s.next, s.n);
    var t := s.(next := (s.next + 1) % s.n, table := s.table[s.next := Some(h)]);
    forall i | 0 <= i < s.n ensures Holds(t, log + [h], i) {
      StoreKeepsHolds(s, t, log, h, i);
    }
  }

  lemma TurnKeepsRecent(y: System, c: Cursor, hash: Cursor -> u64, log: seq<u64>)
    requires Recent(y.server, log)
    ensures Recent(Turn(y, c, hash).server, log + Stored(y, c, hash))
  {
    var m := Update(y.server, c, hash(c)).sent;
    if m.Some? && m.value.New? {
      StoreKeepsRecent(y.server, log, hash(c));
    } else {
      assert log + [] == log;
    }
  }

  lemma {:induction false} RunKeepsRecent(y: System, cs: seq<Cursor>, hash: Cursor -> u64, log: seq<u64>)
    requires Recent(y.server, log)
    ensures Recent(Run(y, cs, hash).server, log + AllStored(y, cs, hash))
    ensures Run(y, cs, hash).server.n == y.server.n && Run(y, cs, hash).server.color == y.server.color
    decreases cs
  {
    if cs == [] {
      assert log + [] == log;
    } else {
      var now, later := Stored(y, cs[0], hash), AllStored(Turn(y, cs[0], hash), cs[1..], hash);
      TurnKeepsRecent(y, cs[0], hash, log);
      RunKeepsRecent(Turn(y, cs[0], hash), cs[1..], hash, log + now);
      assert log + now + later == log + (now + later);
    }
  }

  lemma RecentHitIff(s: Server, log: seq<u64>, h: u64)
    requires Recent(s, log)
    ensures Hit(s.table, s.n, h, 0).Some? <==> h in LastOf(log, s.n)
  {
    var last := LastOf(log, s.n);
    if h in last {
      var j :| 0 <= j < |last| && last[j] == h;
      var at := |log| - |last| + j;
      var i := if at >= |log| - s.next then at - (|log| - s.next) else at - (|log| - s.n) + s.next;
      assert FilledFrom(log, s.n, s.next, i) == at && Holds(s, log, i);
    }
    if Hit(s.table, s.n, h, 0).Some? {
      var i := Hit(s.table, s.n, h, 0).value;
      var j := FilledFrom(log, s.n, s.next, i);
      assert Holds(s, log, i);
      assert last[j - (|log| - |last|)] == h;
    }
  }

  /** In every run a cursor is recalled from the client's cache exactly if its hash is among
      those of the last as many cursors sent anew as there are slots. */
  lemma RecalledIff(clientSize: nat, k: Client, cs: seq<Cursor>, c: Cursor, hash: Cursor -> u64)
    requires clientSize > 0
    ensures ServerOk(Run(System(Start(clientSize, true), k), cs, hash).server)
    ensures var y := System(Start(clientSize, true), k);
            var m := Update(Run(y, cs, hash).server, c, hash(c)).sent;
            (m.Some? && m.value.Cached?) <==> hash(c) in LastOf(AllStored(y, cs, hash), Min(clientSize, 32))
  {
    var y := System(Start(clientSize, true), k);
    RunKeepsRecent(y, cs, hash, []);
    var log := AllStored(y, cs, hash);
    assert [] + log == log;
    RecentHitIff(Run(y, cs, hash).server, log, hash(c));
  }

  // ---- The session's cursors -------------------------------------------------

  /** What becomes of a run of cursor messages. */
  function Prepare(cs: seq<Cursor>, max: nat): seq<Cursor>
    requires 0 < max <= MAX_DIM
  {
    if cs == [] then []
    else Prepare(cs[..|cs| - 1], max)
         + if Accepted(cs[|cs| - 1]) then [Prepared(cs[|cs| - 1], max)] else []
  }

  /** The hash tells the cursors of a run apart. */
  ghost predicate CollisionFree(hash: Cursor -> u64, seen: set<Cursor>) {
    forall a, b | a in seen && b in seen :: hash(a) == hash(b) ==> a == b
  }

  /** After every cursor the session sends in every run, the victim index is in range,
      the tables agree, and the client shows a cursor seen with the current hash. When
      the hash is collision-free on the run it is the current cursor as its packet carries
      it, which is the cursor itself exactly if its hotspot lies inside. */
  lemma ClientShowsCurrentCursor(clientSize: nat, large: bool, k: Client, cs: seq<Cursor>, c: Cursor,
                                 hash: Cursor -> u64)
    requires Accepted(c)
    ensures ServerOk(Start(clientSize, true))
    ensures var max := MaxDim(large);
            var run := Prepare(cs + [c], max);
            var y := Run(System(Start(clientSize, true), k), run, hash);
            var p, seen := Prepared(c, max), set x | x in run;
            && Synced(y, hash, seen)
            && y.client.shown.Some? && Carries(y.client.shown.value, hash(p), hash, seen)
            && (CollisionFree(hash, seen) ==>
                  && y.client.shown.value == Clamped(p)
                  && (y.client.shown.value == p <==> InBounds(c) || c.w > max || c.h > max))
  {
    var max := MaxDim(large);
    var y0, before, p := System(Start(clientSize, true), k), Prepare(cs, max), Prepared(c, max);
    var seen := set x | x in before;
    assert (cs + [c])[..|cs|] == cs;
    PreparedIsBuildable(c, max);
    ClampKeepsIff(p);
    StartIsSynced(clientSize, true, k, hash);
    RunKeepsSynced(y0, before, hash, {});
    assert {} + seen == seen;
    TurnKeepsSynced(Run(y0, before, hash), p, hash, seen);
    RunAppend(y0, before, p, hash);
    assert (set x | x in before + [p]) == seen + {p};
    var y := Run(y0, before + [p], hash);
    if CollisionFree(hash, seen + {p}) {
      var d :| d in seen + {p} && hash(d) == hash(p) && y.client.shown.value == Clamped(d);
      assert d == p;
    }
  }

  /** A one-pixel cursor whose hotspot lies outside it: the client shows another one. */
  lemma HotspotOutsideIsMoved(clientSize: nat, large: bool, k: Client, hash: Cursor -> u64)
    ensures ServerOk(Start(clientSize, true))
    ensures var c := Cursor(5, 0, 1, 1, [[0]]);
            var y := Run(System(Start(clientSize, true), k), Prepare([c], MaxDim(large)), hash);
            Accepted(c) && y.client.shown == Some(Cursor(0, 0, 1, 1, [[0]])) && y.client.shown.value != c
  {
    var c := Cursor(5, 0, 1, 1, [[0]]);
    ClientShowsCurrentCursor(clientSize, large, k, [], c, hash);
    assert [] + [c] == [c];
    assert [c][..0] == [];
    assert Prepare([c], MaxDim(large)) == [] + [c] == [c];
    var y := Run(System(Start(clientSize, true), k), [c], hash);
    var d :| d in (set x | x in [c]) && y.client.shown.value == Clamped(d);
    assert d == c;
  }

  /** A slot's entry is the hash of what the client holds there exactly if the cursor's
      hotspot lies inside, unless the hash fails to tell the two apart. */
  lemma SlotHashIff(hash: Cursor -> u64, c: Cursor)
    requires c.w > 0 && c.h > 0 && CollisionFree(hash, {c, Clamped(c)})
    ensures hash(Clamped(c)) == hash(c) <==> InBounds(c)
  {
    ClampKeepsIff(c);
    assert c in {c, Clamped(c)} && Clamped(c) in {c, Clamped(c)};
  }

  // ---- The table in place --------------------------------------------------

  class Table {
    const color: bool
    const n: nat
    const hashes: array<u64>
    const valid: array<bool>
    var next: nat

    ghost predicate Valid()
      reads this, hashes, valid
    {
      && hashes.Length == valid.Length == MAX_SLOTS && n <= MAX_SLOTS && (n == 0 || next < n)
    }

    ghost function Abs(): (s: Server)
      requires Valid()
      reads this, hashes, valid
      ensures ServerOk(s)
    {
      Server(color, n, next,
             seq(MAX_SLOTS, i requires 0 <= i < MAX_SLOTS reads this, hashes, valid requires Valid() =>
                 if valid[i] then Some(hashes[i]) else None))
    }

    constructor (clientSize: nat, c: bool)
      ensures Valid() && fresh(hashes) && fresh(valid) && Abs() == Start(clientSize, c)
    {
      color := c;
      n := if !c then 0 else Min(clientSize, MAX_SLOTS);
      hashes := new u64[MAX_SLOTS](_ => 0);
      valid := new bool[MAX_SLOTS](_ => false);
      next := 0;
    }

    method Find(h: u64) returns (r: Option<nat>)
      requires Valid()
      ensures r == Hit(Abs().table, n, h, 0)
    {
      var i := 0;
      ghost var t := Abs().table;
      while i < n
        invariant 0 <= i <= n && Hit(t, n, h, i) == Hit(t, n, h, 0)
      {
        if valid[i] && hashes[i] == h {
          return Some(i);
        }
        i := i + 1;
      }
      return None;
    }

    method Show(c: Cursor, h: u64) returns (sent: Option<Message>)
      requires Valid()
      modifies this, hashes, valid
      ensures Valid() && Step(Abs(), sent) == Update(old(Abs()), c, h)
    {
      if !color {
        return None;
      }
      if n == 0 {
        return if Buildable(c) then Some(New(0, Clamped(c))) else None;
      }
      var hit := Find(h);
      if hit.Some? {
        return Some(Cached(hit.value));
      }
      if !Buildable(c) {
        return None;
      }
      var slot := next;
      ghost var was := Abs().table;
      hashes[slot], valid[slot] := h, true;
      next := (slot + 1) % n;
      assert Abs().table == was[slot := Some(h)];
      return Some(New(slot, Clamped(c)));
    }
  }
}
