/**
  * The bitmap path: a frame cut into 64x64 tiles, each tile's update body sent as one
  * fast-path packet or as a chain of fragments.
  */
module Tiler {
  import opened Bytes
  import opened FastPath

  const TILE: nat := 64
  const U16: int := 0x1_0000

  datatype Pixel = Pixel(b: byte, g: byte, r: byte)

  type Rows = seq<seq<Pixel>>

  predicate Rectangle(rows: Rows, w: nat, h: nat) {
    |rows| == h && forall i | 0 <= i < h :: |rows[i]| == w
  }

  /** A tile at a desktop position, with its pixels. */
  datatype Tile = Tile(x: nat, y: nat, w: nat, h: nat, rows: Rows)

  predicate TileOk(t: Tile) {
    t.x < U16 && t.y < U16 && 0 < t.w <= TILE && 0 < t.h <= TILE && Rectangle(t.rows, t.w, t.h)
  }

  /** The last column or row of a destination, as its 16-bit field carries it. */
  function Last16(start: nat, size: nat): int {
    (start + size - 1) % U16
  }

  /** A client draws a tile from its first to its last column and row, inclusive. */
  predicate Covers(t: Tile, px: int, py: int) {
    t.x <= px <= Last16(t.x, t.w) && t.y <= py <= Last16(t.y, t.h)
  }

  /** A frame and where it goes on the desktop; its pixels lie row after row. */
  datatype Frame = Frame(x: u16, y: u16, w: u16, h: u16, pixels: seq<Pixel>)

  /** Where a row of a `w`-wide buffer starts: `row * w`, by steps of `w`. */
  function RowStart(w: nat, row: nat): nat {
    if row == 0 then 0 else RowStart(w, row - 1) + w
  }

  lemma {:induction false} RowStartIsProduct(w: nat, row: nat)
    ensures RowStart(w, row) == row * w
  {
    if row > 0 {
      RowStartIsProduct(w, row - 1);
    }
  }

  predicate Filled(f: Frame) {
    |f.pixels| == RowStart(f.w, f.h)
  }

  /** The frame is empty or ends on the 65536-wide desktop. */
  predicate Fits(f: Frame) {
    f.w == 0 || f.h == 0 || (f.x + f.w <= U16 && f.y + f.h <= U16)
  }

  predicate Inside(f: Frame, px: int, py: int) {
    f.x <= px < f.x + f.w && f.y <= py < f.y + f.h
  }

  lemma {:induction false} RowIsInside(w: nat, h: nat, row: nat)
    requires row < h
    ensures RowStart(w, row) + w <= RowStart(w, h)
    decreases h
  {
    if row < h - 1 {
      RowIsInside(w, h - 1, row);
    }
  }

  /** `n` pixels of a row of the frame. */
  function RowOf(f: Frame, row: nat, x: nat, n: nat): (r: seq<Pixel>)
    requires Filled(f) && row < f.h && x + n <= f.w
    ensures |r| == n
  {
    RowIsInside(f.w, f.h, row);
    var at := RowStart(f.w, row) + x;
    f.pixels[at..at + n]
  }

  function PixelAt(f: Frame, x: nat, row: nat): Pixel
    requires Filled(f) && row < f.h && x < f.w
  {
    RowIsInside(f.w, f.h, row);
    f.pixels[RowStart(f.w, row) + x]
  }

  lemma RowPixel(f: Frame, row: nat, x: nat, n: nat, i: nat)
    requires Filled(f) && row < f.h && x + n <= f.w && i < n
    ensures RowOf(f, row, x, n)[i] == PixelAt(f, x + i, row)
  {
    RowIsInside(f.w, f.h, row);
  }

  // ---- The tiles -----------------------------------------------------------

  function Side(at: nat, size: nat): nat
    requires at <= size
  {
    if at + TILE > size then size - at else TILE
  }

  function TileRows(f: Frame, x: nat, y: nat, w: nat, h: nat): (rows: Rows)
    requires Filled(f) && x + w <= f.w && y + h <= f.h
    ensures Rectangle(rows, w, h)
  {
    var rows := seq(h, r requires 0 <= r < h => RowOf(f, y + r, x, w));
    assert forall i | 0 <= i < h :: rows[i] == RowOf(f, y + i, x, w);
    rows
  }

  /** The tile at an offset inside the frame; the position is a 16-bit sum. */
  function TileAt(f: Frame, x: nat, y: nat): (t: Tile)
    requires Filled(f) && x < f.w && y < f.h
    ensures TileOk(t)
  {
    var tw, th := Side(x, f.w), Side(y, f.h);
    Tile((f.x + x) as int % U16, (f.y + y) as int % U16, tw, th, TileRows(f, x, y, tw, th))
  }

  function RowTiles(f: Frame, x: nat, y: nat): seq<Tile>
    requires Filled(f) && y < f.h
    decreases f.w - x
  {
    if x >= f.w then [] else [TileAt(f, x, y)] + RowTiles(f, x + TILE, y)
  }

  function TilesFrom(f: Frame, y: nat): seq<Tile>
    requires Filled(f)
    decreases f.h - y
  {
    if y >= f.h then [] else RowTiles(f, 0, y) + TilesFrom(f, y + TILE)
  }

  function Tiles(f: Frame): seq<Tile>
    requires Filled(f)
  {
    TilesFrom(f, 0)
  }

  // ---- Replaying them --------------------------------------------------------

  lemma CoveredIsInTile(start: nat, size: nat, p: int)
    requires start < U16 && 0 < size <= TILE && start <= p <= Last16(start, size)
    ensures p < start + size && p < U16
  {}

  function PixelIn(t: Tile, px: int, py: int): Pixel
    requires TileOk(t) && Covers(t, px, py)
  {
    CoveredIsInTile(t.x, t.w, px);
    CoveredIsInTile(t.y, t.h, py);
    t.rows[py - t.y][px - t.x]
  }

  ghost predicate WellMade(ts: seq<Tile>) {
    forall i | 0 <= i < |ts| :: TileOk(ts[i])
  }

  /** One desktop pixel, `base` before, after the tiles are drawn in order. */
  function After(base: Pixel, ts: seq<Tile>, px: int, py: int): Pixel
    requires WellMade(ts)
    decreases ts
  {
    if ts == [] then base
    else After(if Covers(ts[0], px, py) then PixelIn(ts[0], px, py) else base, ts[1..], px, py)
  }

  /** How many of the tiles cover a pixel. */
  function Coverage(ts: seq<Tile>, px: int, py: int): nat {
    if ts == [] then 0 else (if Covers(ts[0], px, py) then 1 else 0) + Coverage(ts[1..], px, py)
  }

  lemma {:induction false} AfterAppend(base: Pixel, a: seq<Tile>, b: seq<Tile>, px: int, py: int)
    requires WellMade(a) && WellMade(b)
    ensures WellMade(a + b)
    ensures After(base, a + b, px, py) == After(After(base, a, px, py), b, px, py)
    ensures Coverage(a + b, px, py) == Coverage(a, px, py) + Coverage(b, px, py)
    decreases a
  {
    if a == [] {
      assert a + b == b;
    } else {
      assert (a + b)[1..] == a[1..] + b;
      AfterAppend(if Covers(a[0], px, py) then PixelIn(a[0], px, py) else base, a[1..], b, px, py);
    }
  }

  /** A list of tiles paints one region of the frame: each of its pixels once and with
      the frame's value, no other pixel at all. */
  ghost predicate PaintsPixel(f: Frame, ts: seq<Tile>, x0: int, y0: int, x1: int, y1: int, px: int, py: int, base: Pixel)
    requires WellMade(ts) && Filled(f) && 0 <= x0 && x1 <= f.w && 0 <= y0 && y1 <= f.h
  {
    var inside := f.x + x0 <= px < f.x + x1 && f.y + y0 <= py < f.y + y1;
    && Coverage(ts, px, py) == (if inside then 1 else 0)
    && After(base, ts, px, py) == if inside then PixelAt(f, px - f.x, py - f.y) else base
  }

  /** On one axis, a side that ends on the desktop is covered where it lies. */
  lemma SideIsCovered(origin: u16, at: nat, size: u16, p: int)
    requires at < size && origin + size <= U16
    ensures var start := (origin + at) as int % U16;
            start <= p <= Last16(start, Side(at, size)) <==> origin + at <= p < origin + at + Side(at, size)
  {}

  lemma TilePixel(f: Frame, x: nat, y: nat, px: int, py: int)
    requires Filled(f) && x < f.w && y < f.h && f.x + f.w <= U16 && f.y + f.h <= U16
    requires Covers(TileAt(f, x, y), px, py)
    ensures Inside(f, px, py) && PixelIn(TileAt(f, x, y), px, py) == PixelAt(f, px - f.x, py - f.y)
  {
    var t := TileAt(f, x, y);
    SideIsCovered(f.x, x, f.w, px);
    SideIsCovered(f.y, y, f.h, py);
    assert t.x == f.x + x && t.y == f.y + y;
    assert t.rows[py - t.y] == RowOf(f, y + (py - t.y), x, t.w);
    RowPixel(f, py - f.y, x, t.w, px - t.x);
  }

  lemma TilePaints(f: Frame, x: nat, y: nat, px: int, py: int, base: Pixel)
    requires Filled(f) && Fits(f) && x < f.w && y < f.h
    ensures WellMade([TileAt(f, x, y)])
    ensures PaintsPixel(f, [TileAt(f, x, y)], x, y, x + Side(x, f.w), y + Side(y, f.h), px, py, base)
  {
    var t := TileAt(f, x, y);
    var ts := [t];
    SideIsCovered(f.x, x, f.w, px);
    SideIsCovered(f.y, y, f.h, py);
    assert ts[1..] == [];
    assert Coverage(ts, px, py) == if Covers(t, px, py) then 1 else 0;
    if Covers(t, px, py) {
      TilePixel(f, x, y, px, py);
    }
  }

  lemma {:induction false} RowPaints(f: Frame, x: nat, y: nat, px: int, py: int, base: Pixel)
    requires Filled(f) && Fits(f) && x <= f.w && y < f.h
    ensures WellMade(RowTiles(f, x, y))
    ensures PaintsPixel(f, RowTiles(f, x, y), x, y, f.w, y + Side(y, f.h), px, py, base)
    decreases f.w - x
  {
    if x < f.w {
      var t := [TileAt(f, x, y)];
      TilePaints(f, x, y, px, py, base);
      var mid := After(base, t, px, py);
      if x + TILE >= f.w {
        assert RowTiles(f, x, y) == t;
      } else {
        RowPaints(f, x + TILE, y, px, py, mid);
        AfterAppend(base, t, RowTiles(f, x + TILE, y), px, py);
      }
    }
  }

  lemma {:induction false} BandsPaint(f: Frame, y: nat, px: int, py: int, base: Pixel)
    requires Filled(f) && Fits(f) && y <= f.h
    ensures WellMade(TilesFrom(f, y))
    ensures PaintsPixel(f, TilesFrom(f, y), 0, y, f.w, f.h, px, py, base)
    decreases f.h - y
  {
    if y < f.h {
      var row := RowTiles(f, 0, y);
      RowPaints(f, 0, y, px, py, base);
      var mid := After(base, row, px, py);
      if y + TILE >= f.h {
        assert TilesFrom(f, y) == row + [] == row;
      } else {
        BandsPaint(f, y + TILE, px, py, mid);
        AfterAppend(base, row, TilesFrom(f, y + TILE), px, py);
      }
    }
  }

  lemma TilesPaintTheFrame(f: Frame, px: int, py: int, base: Pixel)
    requires Filled(f) && Fits(f)
    ensures WellMade(Tiles(f))
    ensures Coverage(Tiles(f), px, py) == if Inside(f, px, py) then 1 else 0
    ensures After(base, Tiles(f), px, py) == if Inside(f, px, py) then PixelAt(f, px - f.x, py - f.y) else base
  {
    BandsPaint(f, 0, px, py, base);
  }

  // ---- Frames past the edge --------------------------------------------------

  lemma {:induction false} RowIsWellMade(f: Frame, x: nat, y: nat)
    requires Filled(f) && y < f.h
    ensures WellMade(RowTiles(f, x, y))
    decreases f.w - x
  {
    if x < f.w {
      RowIsWellMade(f, x + TILE, y);
    }
  }

  lemma {:induction false} TilesAreWellMade(f: Frame, y: nat)
    requires Filled(f)
    ensures WellMade(TilesFrom(f, y))
    decreases f.h - y
  {
    if y < f.h {
      RowIsWellMade(f, 0, y);
      TilesAreWellMade(f, y + TILE);
    }
  }

  /** Whether the tile at an offset covers a coordinate, on one axis. */
  predicate Hits(origin: u16, at: nat, size: u16, p: int)
    requires at < size
  {
    var start := (origin + at) as int % U16;
    start <= p <= Last16(start, Side(at, size))
  }

  ghost predicate Missed(f: Frame, px: int, py: int) {
    forall x: nat, y: nat | x < f.w && y < f.h && x % TILE == 0 && y % TILE == 0 ::
      !(Hits(f.x, x, f.w, px) && Hits(f.y, y, f.h, py))
  }

  lemma {:induction false} RowMisses(f: Frame, x: nat, y: nat, px: int, py: int)
    requires Filled(f) && Missed(f, px, py) && y < f.h && x % TILE == 0 && y % TILE == 0
    ensures Coverage(RowTiles(f, x, y), px, py) == 0
    decreases f.w - x
  {
    if x < f.w {
      assert !(Hits(f.x, x, f.w, px) && Hits(f.y, y, f.h, py));
      RowMisses(f, x + TILE, y, px, py);
    }
  }

  lemma {:induction false} BandsMiss(f: Frame, y: nat, px: int, py: int, base: Pixel)
    requires Filled(f) && Missed(f, px, py) && y % TILE == 0
    ensures Coverage(TilesFrom(f, y), px, py) == 0
    decreases f.h - y
  {
    if y < f.h {
      RowMisses(f, 0, y, px, py);
      BandsMiss(f, y + TILE, px, py, base);
      RowIsWellMade(f, 0, y);
      TilesAreWellMade(f, y + TILE);
      AfterAppend(base, RowTiles(f, 0, y), TilesFrom(f, y + TILE), px, py);
    }
  }

  lemma NextOffset(x: nat, at: nat)
    requires x < at && x % TILE == at % TILE == 0
    ensures x + TILE <= at && (x + TILE) % TILE == 0
  {}

  lemma {:induction false} RowHits(f: Frame, x: nat, y: nat, at: nat, px: int, py: int)
    requires Filled(f) && y < f.h && x <= at < f.w && x % TILE == at % TILE == 0
    requires Hits(f.x, at, f.w, px) && Hits(f.y, y, f.h, py)
    ensures Coverage(RowTiles(f, x, y), px, py) > 0
    decreases f.w - x
  {
    if x < at {
      NextOffset(x, at);
      RowHits(f, x + TILE, y, at, px, py);
    }
  }

  lemma {:induction false} BandsHit(f: Frame, y: nat, x: nat, at: nat, px: int, py: int, base: Pixel)
    requires Filled(f) && x < f.w && y <= at < f.h && x % TILE == y % TILE == at % TILE == 0
    requires Hits(f.x, x, f.w, px) && Hits(f.y, at, f.h, py)
    ensures Coverage(TilesFrom(f, y), px, py) > 0
    decreases f.h - y
  {
    if y < at {
      NextOffset(y, at);
      BandsHit(f, y + TILE, x, at, px, py, base);
    } else {
      RowHits(f, 0, y, x, px, py);
    }
    RowIsWellMade(f, 0, y);
    TilesAreWellMade(f, y + TILE);
    AfterAppend(base, RowTiles(f, 0, y), TilesFrom(f, y + TILE), px, py);
  }

  /** A pixel no tile covers keeps its value; one that some tile covers ends with the
      same value whatever it was. */
  lemma {:induction false} CoverageDecides(ts: seq<Tile>, px: int, py: int, a: Pixel, b: Pixel)
    requires WellMade(ts)
    ensures Coverage(ts, px, py) == 0 ==> After(a, ts, px, py) == a
    ensures Coverage(ts, px, py) > 0 ==> After(a, ts, px, py) == After(b, ts, px, py)
    decreases ts
  {
    if ts != [] {
      var c := Covers(ts[0], px, py);
      CoverageDecides(ts[1..], px, py, if c then PixelIn(ts[0], px, py) else a, if c then PixelIn(ts[0], px, py) else b);
    }
  }

  /** The offset of the tile the desktop's edge falls in. */
  function EdgeTile(origin: u16): nat {
    (U16 - origin) / TILE * TILE
  }

  /** The edge cuts a tile: no tile covers that tile's first coordinate. */
  lemma CutTileIsMissed(origin: u16, size: u16, at: nat)
    requires origin + size > U16 && (U16 - origin) % TILE != 0 && at < size && at % TILE == 0
    ensures EdgeTile(origin) < size && origin + EdgeTile(origin) < U16
    ensures !Hits(origin, at, size, origin + EdgeTile(origin))
  {
    var e := EdgeTile(origin);
    assert e < U16 - origin < e + TILE;
    if at < e {
      assert at + TILE <= e;
    } else if at > e {
      assert at >= e + TILE;
    }
  }

  /** The edge falls between tiles: the next tile wraps to coordinate zero. */
  lemma WholeTileWraps(origin: u16, size: u16)
    requires origin + size > U16 && (U16 - origin) % TILE == 0
    ensures var e := EdgeTile(origin); origin > 0 && e < size && e % TILE == 0 && Hits(origin, e, size, 0)
  {}

  lemma FirstTileHits(origin: u16, size: u16)
    requires size > 0 && (origin + size > U16 ==> (U16 - origin) % TILE == 0)
    ensures Hits(origin, 0, size, origin)
  {}

  /** Whatever was there before, the tiles leave a pixel as the frame asks. */
  ghost predicate Drawn(f: Frame, ts: seq<Tile>, px: int, py: int)
    requires Filled(f) && WellMade(ts)
  {
    forall base: Pixel ::
      After(base, ts, px, py) == if Inside(f, px, py) then PixelAt(f, px - f.x, py - f.y) else base
  }

  /** They do so on the whole desktop. */
  ghost predicate Shown(f: Frame, ts: seq<Tile>)
    requires Filled(f)
  {
    WellMade(ts) && forall px, py | 0 <= px < U16 && 0 <= py < U16 :: Drawn(f, ts, px, py)
  }

  const BLACK := Pixel(0, 0, 0)
  const WHITE := Pixel(255, 255, 255)

  lemma MissedIsNotDrawn(f: Frame, px: int, py: int)
    requires Filled(f) && Missed(f, px, py) && Inside(f, px, py)
    ensures WellMade(Tiles(f)) && !Drawn(f, Tiles(f), px, py)
  {
    TilesAreWellMade(f, 0);
    BandsMiss(f, 0, px, py, BLACK);
    CoverageDecides(Tiles(f), px, py, BLACK, WHITE);
    CoverageDecides(Tiles(f), px, py, WHITE, BLACK);
  }

  lemma HitIsNotDrawn(f: Frame, x: nat, y: nat, px: int, py: int)
    requires Filled(f) && x < f.w && y < f.h && x % TILE == y % TILE == 0 && !Inside(f, px, py)
    requires Hits(f.x, x, f.w, px) && Hits(f.y, y, f.h, py)
    ensures WellMade(Tiles(f)) && !Drawn(f, Tiles(f), px, py)
  {
    TilesAreWellMade(f, 0);
    BandsHit(f, 0, x, y, px, py, BLACK);
    CoverageDecides(Tiles(f), px, py, BLACK, WHITE);
  }

  /** Past an edge, some desktop pixel is wrong: one of the frame that no tile draws, or
      one beside the frame that a wrapped tile draws over. */
  lemma WrongPixel(f: Frame) returns (px: int, py: int)
    requires Filled(f) && !Fits(f)
    ensures 0 <= px < U16 && 0 <= py < U16 && WellMade(Tiles(f)) && !Drawn(f, Tiles(f), px, py)
  {
    if f.x + f.w > U16 && (U16 - f.x) % TILE != 0 {
      px, py := f.x + EdgeTile(f.x), f.y;
      forall at: nat | at < f.w && at % TILE == 0 ensures !Hits(f.x, at, f.w, px) {
        CutTileIsMissed(f.x, f.w, at);
      }
      CutTileIsMissed(f.x, f.w, 0);
      MissedIsNotDrawn(f, px, py);
    } else if f.y + f.h > U16 && (U16 - f.y) % TILE != 0 {
      px, py := f.x, f.y + EdgeTile(f.y);
      forall at: nat | at < f.h && at % TILE == 0 ensures !Hits(f.y, at, f.h, py) {
        CutTileIsMissed(f.y, f.h, at);
      }
      CutTileIsMissed(f.y, f.h, 0);
      MissedIsNotDrawn(f, px, py);
    } else if f.x + f.w > U16 {
      px, py := 0, f.y;
      WholeTileWraps(f.x, f.w);
      FirstTileHits(f.y, f.h);
      HitIsNotDrawn(f, EdgeTile(f.x), 0, px, py);
    } else {
      px, py := f.x, 0;
      WholeTileWraps(f.y, f.h);
      FirstTileHits(f.x, f.w);
      HitIsNotDrawn(f, 0, EdgeTile(f.y), px, py);
    }
  }

  lemma TilesShowIff(f: Frame)
    requires Filled(f)
    ensures Shown(f, Tiles(f)) <==> Fits(f)
  {
    TilesAreWellMade(f, 0);
    if Fits(f) {
      forall px, py | 0 <= px < U16 && 0 <= py < U16 ensures Drawn(f, Tiles(f), px, py) {
        forall base: Pixel
          ensures After(base, Tiles(f), px, py) == if Inside(f, px, py) then PixelAt(f, px - f.x, py - f.y) else base
        {
          TilesPaintTheFrame(f, px, py, base);
        }
      }
    } else {
      var px, py := WrongPixel(f);
    }
  }

  // ---- The 16-bit counters ---------------------------------------------------

  /** The loop counter after `n` steps. */
  function Counter(n: nat): nat {
    if n == 0 then 0 else (Counter(n - 1) + TILE) % U16
  }

  lemma {:induction false} CounterStays(n: nat)
    ensures Counter(n) <= U16 - TILE && Counter(n) % TILE == 0
  {
    if n > 0 {
      CounterStays(n - 1);
    }
  }

  lemma {:induction false} CounterReaches(n: nat)
    requires n * TILE < U16
    ensures Counter(n) == n * TILE
  {
    if n > 0 {
      CounterReaches(n - 1);
    }
  }

  const LAST: nat := 65472

  /** A tiling loop ends exactly for sides up to 65472: beyond, its counter wraps to
      zero before it passes the side. */
  lemma TilingEndsIff(side: u16)
    ensures (exists n: nat :: Counter(n) >= side) <==> side <= LAST
  {
    if side <= LAST {
      CounterReaches(LAST / TILE);
    } else {
      forall n: nat ensures Counter(n) < side {
        CounterStays(n);
      }
    }
  }

  // ---- What the loops send -----------------------------------------------------

  /** The two 16-bit counters and the tiles sent so far. */
  datatype Loops = Loops(x: nat, y: nat, sent: seq<Tile>)

  predicate Ended(f: Frame, l: Loops) {
    l.y >= f.h
  }

  /** One tile, or the end of a band. */
  function Iterate(f: Frame, l: Loops): Loops
    requires Filled(f)
  {
    if Ended(f, l) then l
    else if l.x < f.w then Loops((l.x + TILE) % U16, l.y, l.sent + [TileAt(f, l.x, l.y)])
    else Loops(0, (l.y + TILE) % U16, l.sent)
  }

  function Iterated(f: Frame, l: Loops, n: nat): Loops
    requires Filled(f)
    decreases n
  {
    if n == 0 then l else Iterated(f, Iterate(f, l), n - 1)
  }

  /** The loops after `n` iterations. */
  function Sending(f: Frame, n: nat): Loops
    requires Filled(f)
  {
    Iterated(f, Loops(0, 0, []), n)
  }

  /** Both sides can be passed by a 16-bit counter, or there is no row at all. */
  predicate Ends(f: Frame) {
    f.h == 0 || (f.w <= LAST && f.h <= LAST)
  }

  lemma {:induction false} IteratedPlus(f: Frame, l: Loops, n: nat, m: nat)
    requires Filled(f)
    ensures Iterated(f, l, n + m) == Iterated(f, Iterated(f, l, n), m)
    decreases n
  {
    if n > 0 {
      IteratedPlus(f, Iterate(f, l), n - 1, m);
    }
  }

  lemma {:induction false} EndedStays(f: Frame, l: Loops, n: nat)
    requires Filled(f) && Ended(f, l)
    ensures Iterated(f, l, n) == l
  {
    if n > 0 {
      EndedStays(f, l, n - 1);
    }
  }

  lemma {:induction false} RowIterates(f: Frame, l: Loops) returns (n: nat, x: nat)
    requires Filled(f) && l.y < f.h && f.w <= LAST
    ensures x >= f.w && Iterated(f, l, n) == Loops(x, l.y, l.sent + RowTiles(f, l.x, l.y))
    decreases f.w - l.x
  {
    if l.x >= f.w {
      n, x := 0, l.x;
      assert l.sent + [] == l.sent;
    } else {
      var t, rest := TileAt(f, l.x, l.y), RowTiles(f, l.x + TILE, l.y);
      n, x := RowIterates(f, Iterate(f, l));
      n := n + 1;
      assert l.sent + [t] + rest == l.sent + ([t] + rest);
    }
  }

  lemma {:induction false} BandsIterate(f: Frame, l: Loops) returns (n: nat)
    requires Filled(f) && l.x == 0 && f.w <= LAST && f.h <= LAST
    ensures Ended(f, Iterated(f, l, n)) && Iterated(f, l, n).sent == l.sent + TilesFrom(f, l.y)
    decreases f.h - l.y
  {
    if l.y >= f.h {
      n := 0;
      assert l.sent + [] == l.sent;
    } else {
      var row, rest := RowTiles(f, 0, l.y), TilesFrom(f, l.y + TILE);
      var a, x := RowIterates(f, l);
      var next := Loops(0, l.y + TILE, l.sent + row);
      assert Iterate(f, Loops(x, l.y, l.sent + row)) == next;
      var b := BandsIterate(f, next);
      n := a + (1 + b);
      IteratedPlus(f, l, a, 1 + b);
      assert l.sent + row + rest == l.sent + (row + rest);
    }
  }

  /** Where the counters can be: on the grid, at most at 65472, and at the first band
      for ever if a row is too wide. */
  predicate OnGrid(f: Frame, l: Loops) {
    l.x % TILE == l.y % TILE == 0 && l.x <= LAST && l.y <= LAST && (f.w > LAST && f.h > 0 ==> l.y == 0)
  }

  lemma CounterOnGrid(c: nat)
    requires c % TILE == 0 && c <= LAST
    ensures (c + TILE) % U16 % TILE == 0 && (c + TILE) % U16 <= LAST
  {}

  lemma {:induction false} CountersStayOnGrid(f: Frame, l: Loops, n: nat)
    requires Filled(f) && OnGrid(f, l)
    ensures OnGrid(f, Iterated(f, l, n))
    decreases n
  {
    if n > 0 {
      CounterOnGrid(l.x);
      CounterOnGrid(l.y);
      CountersStayOnGrid(f, Iterate(f, l), n - 1);
    }
  }

  /** The loops end exactly for frames without rows and for sides up to 65472. */
  lemma LoopsEndIff(f: Frame)
    requires Filled(f)
    ensures (exists n :: Ended(f, Sending(f, n))) <==> Ends(f)
  {
    if f.h == 0 {
      assert Ended(f, Sending(f, 0));
    } else if Ends(f) {
      var n := BandsIterate(f, Loops(0, 0, []));
      assert Ended(f, Sending(f, n));
    } else {
      forall n ensures !Ended(f, Sending(f, n)) {
        CountersStayOnGrid(f, Loops(0, 0, []), n);
      }
    }
  }

  lemma EndsOnce(f: Frame, n: nat, m: nat)
    requires Filled(f) && Ended(f, Sending(f, n)) && Ended(f, Sending(f, m))
    ensures Sending(f, n) == Sending(f, m)
  {
    var start := Loops(0, 0, []);
    if n <= m {
      IteratedPlus(f, start, n, m - n);
      EndedStays(f, Sending(f, n), m - n);
    } else {
      IteratedPlus(f, start, m, n - m);
      EndedStays(f, Sending(f, m), n - m);
    }
  }

  /** When they end, they have sent the frame's tiles. */
  lemma EndedSendsTiles(f: Frame, n: nat)
    requires Filled(f) && Ended(f, Sending(f, n))
    ensures Ends(f) && Sending(f, n).sent == Tiles(f)
  {
    LoopsEndIff(f);
    var start := Loops(0, 0, []);
    if f.h == 0 {
      EndedStays(f, start, n);
    } else {
      var m := BandsIterate(f, start);
      EndsOnce(f, n, m);
      assert [] + TilesFrom(f, 0) == TilesFrom(f, 0);
    }
  }

  /** When the loops end on a frame that fits, every pixel inside it is in exactly one
      tile sent, no pixel outside in any; and on any canvas, replaying them draws it. */
  lemma TilesDrawTheFrame(f: Frame, n: nat, px: int, py: int, base: Pixel)
    requires Filled(f) && Fits(f) && Ended(f, Sending(f, n))
    ensures var ts := Sending(f, n).sent;
            && WellMade(ts) && Coverage(ts, px, py) == (if Inside(f, px, py) then 1 else 0)
            && After(base, ts, px, py) == if Inside(f, px, py) then PixelAt(f, px - f.x, py - f.y) else base
  {
    EndedSendsTiles(f, n);
    TilesPaintTheFrame(f, px, py, base);
  }

  /** The loops end with every pixel of the desktop as the frame asks exactly if both
      counters can pass their sides and the frame is empty or ends on the desktop. */
  lemma FrameIsDrawnIff(f: Frame)
    requires Filled(f)
    ensures (exists n :: Ended(f, Sending(f, n)) && Shown(f, Sending(f, n).sent)) <==> Fits(f) && Ends(f)
  {
    LoopsEndIff(f);
    TilesShowIff(f);
    if Fits(f) && Ends(f) {
      var n: nat :| Ended(f, Sending(f, n));
      EndedSendsTiles(f, n);
    }
    forall n | Ended(f, Sending(f, n)) ensures Sending(f, n).sent == Tiles(f) {
      EndedSendsTiles(f, n);
    }
  }

  // ---- Loops that do not end -----------------------------------------------------

  /** A pixel inside the frame is as it was or as the frame asks; others are as they were. */
  ghost predicate Harmless(f: Frame, ts: seq<Tile>, px: int, py: int, base: Pixel)
    requires Filled(f)
  {
    && WellMade(ts)
    && (After(base, ts, px, py) == base
        || (Inside(f, px, py) && After(base, ts, px, py) == PixelAt(f, px - f.x, py - f.y)))
  }

  lemma TileIsHarmless(f: Frame, ts: seq<Tile>, x: nat, y: nat, px: int, py: int, base: Pixel)
    requires Filled(f) && Fits(f) && x < f.w && y < f.h && Harmless(f, ts, px, py, base)
    ensures Harmless(f, ts + [TileAt(f, x, y)], px, py, base)
  {
    var was := After(base, ts, px, py);
    TilePaints(f, x, y, px, py, was);
    AfterAppend(base, ts, [TileAt(f, x, y)], px, py);
  }

  lemma {:induction false} IterationsAreHarmless(f: Frame, l: Loops, n: nat, px: int, py: int, base: Pixel)
    requires Filled(f) && Fits(f) && Harmless(f, l.sent, px, py, base)
    ensures Harmless(f, Iterated(f, l, n).sent, px, py, base)
    decreases n
  {
    if n > 0 {
      if !Ended(f, l) && l.x < f.w {
        TileIsHarmless(f, l.sent, l.x, l.y, px, py, base);
      }
      IterationsAreHarmless(f, Iterate(f, l), n - 1, px, py, base);
    }
  }

  /** Whether or not the loops end, no iteration on a frame that fits draws a wrong pixel. */
  lemma NoPixelIsEverWrong(f: Frame, n: nat, px: int, py: int, base: Pixel)
    requires Filled(f) && Fits(f)
    ensures Harmless(f, Sending(f, n).sent, px, py, base)
  {
    IterationsAreHarmless(f, Loops(0, 0, []), n, px, py, base);
  }

  lemma FirstBandTileMisses(f: Frame, x: nat, px: int, py: int)
    requires Filled(f) && x < f.w && 0 < f.h && py >= f.y + TILE
    ensures !Covers(TileAt(f, x, 0), px, py)
  {}

  lemma {:induction false} IterationsMiss(f: Frame, l: Loops, n: nat, px: int, py: int, base: Pixel)
    requires Filled(f) && f.w > LAST && f.h > 0 && py >= f.y + TILE
    requires OnGrid(f, l) && WellMade(l.sent) && Coverage(l.sent, px, py) == 0
    ensures Coverage(Iterated(f, l, n).sent, px, py) == 0
    decreases n
  {
    if n > 0 {
      var t := TileAt(f, l.x, 0);
      FirstBandTileMisses(f, l.x, px, py);
      assert [t][1..] == [] && Coverage([t], px, py) == 0;
      AfterAppend(base, l.sent, [t], px, py);
      CountersStayOnGrid(f, l, 1);
      assert Iterated(f, l, 1) == Iterate(f, l);
      IterationsMiss(f, Iterate(f, l), n - 1, px, py, base);
    }
  }

  /** A row too wide for the counter is sent for ever: no iteration reaches the frame's
      65th row. */
  lemma WideFrameNeverLeavesFirstBand(f: Frame, n: nat, px: int, py: int)
    requires Filled(f) && f.w > LAST && f.h > 0 && py >= f.y + TILE
    ensures !Ended(f, Sending(f, n)) && Coverage(Sending(f, n).sent, px, py) == 0
  {
    CountersStayOnGrid(f, Loops(0, 0, []), n);
    IterationsMiss(f, Loops(0, 0, []), n, px, py, BLACK);
  }

  /** A 65535x65 frame at the origin fits the desktop, but row 64 is never sent. */
  lemma WideFrameIsNotDrawn(pixels: seq<Pixel>, n: nat)
    requires Filled(Frame(0, 0, 65535, 65, pixels))
    ensures var f := Frame(0, 0, 65535, 65, pixels);
            && Fits(f) && Inside(f, 0, 64)
            && !Ended(f, Sending(f, n)) && Coverage(Sending(f, n).sent, 0, 64) == 0
  {
    WideFrameNeverLeavesFirstBand(Frame(0, 0, 65535, 65, pixels), n, 0, 64);
  }

  /** A 128-pixel row at column 65500: when the loops end, its first visible pixel was not
      drawn and column 28 was drawn over. */
  lemma EdgeFrameIsNotDrawn(row: seq<Pixel>) returns (n: nat)
    requires |row| == 128
    ensures var f := Frame(65500, 0, 128, 1, row);
            && Filled(f) && Ended(f, Sending(f, n))
            && Coverage(Sending(f, n).sent, 65500, 0) == 0 && Coverage(Sending(f, n).sent, 28, 0) > 0
  {
    var f := Frame(65500, 0, 128, 1, row);
    assert Missed(f, 65500, 0) by {
      forall at: nat | at < f.w && at % TILE == 0 ensures !Hits(f.x, at, f.w, 65500) {
        CutTileIsMissed(f.x, f.w, at);
      }
    }
    BandsMiss(f, 0, 65500, 0, BLACK);
    BandsHit(f, 0, 64, 0, 28, 0, BLACK);
    LoopsEndIff(f);
    n :| Ended(f, Sending(f, n));
    EndedSendsTiles(f, n);
  }

  // ---- Fragments ---------------------------------------------------------------

  datatype Flag = Single | Last | First | Next

  datatype Packet = Packet(flag: Flag, slice: Bytes)

  const MIN_TARGET: nat := 512
  const MAX_TARGET: nat := 0x3F80

  /** The largest slice for a packet limit. */
  function SliceMax(target: nat): nat
    requires target >= MIN_TARGET
  {
    Min(target - 6, 0xFFFF)
  }

  function Fragments(body: Bytes, max: nat, first: bool): seq<Packet>
    requires max > 0
    decreases |body|
  {
    if body == [] then []
    else if |body| <= max then [Packet(if first then Single else Last, body)]
    else [Packet(if first then First else Next, body[..max])] + Fragments(body[max..], max, false)
  }

  function Payload(ps: seq<Packet>): Bytes {
    if ps == [] then [] else ps[0].slice + Payload(ps[1..])
  }

  ghost predicate Within(ps: seq<Packet>, max: nat) {
    forall i | 0 <= i < |ps| :: 0 < |ps[i].slice| <= max
  }

  /** A chain after its first packet: NEXT* LAST. */
  predicate Tail(ps: seq<Packet>) {
    ps != [] && if |ps| == 1 then ps[0].flag == Last else ps[0].flag == Next && Tail(ps[1..])
  }

  /** A whole chain: SINGLE, or FIRST NEXT* LAST. */
  predicate Chain(ps: seq<Packet>) {
    ps != [] && if |ps| == 1 then ps[0].flag == Single else ps[0].flag == First && Tail(ps[1..])
  }

  lemma WithinCons(p: Packet, rest: seq<Packet>, max: nat)
    requires 0 < |p.slice| <= max && Within(rest, max)
    ensures Within([p] + rest, max)
  {}

  lemma {:induction false} FragmentsCarryBody(body: Bytes, max: nat, first: bool)
    requires max > 0 && body != []
    ensures var ps := Fragments(body, max, first);
            Payload(ps) == body && Within(ps, max) && if first then Chain(ps) else Tail(ps)
    decreases |body|
  {
    if |body| <= max {
      var p := Packet(if first then Single else Last, body);
      assert [p][1..] == [] && body + [] == body;
    } else {
      var p, rest := Packet(if first then First else Next, body[..max]), Fragments(body[max..], max, false);
      FragmentsCarryBody(body[max..], max, false);
      assert ([p] + rest)[1..] == rest;
      assert body[..max] + body[max..] == body;
      WithinCons(p, rest, max);
    }
  }

  /** How one tile's update body goes out. */
  function TilePackets(body: Bytes, target: nat): seq<Packet>
    requires target >= MIN_TARGET
  {
    if |body| + 6 <= target then [Packet(Single, body)] else Fragments(body, SliceMax(target), true)
  }

  /** For every body and packet limit: the slices make up the body, the flags form a
      chain, and every packet is within the limit. */
  lemma TilePacketsCarryBody(body: Bytes, target: nat)
    requires body != [] && MIN_TARGET <= target <= MAX_TARGET
    ensures var ps := TilePackets(body, target);
            && Payload(ps) == body && Chain(ps)
            && forall i | 0 <= i < |ps| :: 0 < |ps[i].slice| && PacketLen(|ps[i].slice|) <= target <= MAX_PACKET
  {
    FragmentsCarryBody(body, SliceMax(target), true);
    if |body| + 6 <= target {
      assert [Packet(Single, body)][1..] == [];
    }
  }

  lemma {:induction false} FragmentsFill(body: Bytes, max: nat, first: bool)
    requires max > 0 && body != []
    ensures var ps := Fragments(body, max, first);
            |ps| > 0 && forall i | 0 <= i < |ps| - 1 :: |ps[i].slice| == max
    decreases |body|
  {
    if |body| > max {
      FragmentsFill(body[max..], max, false);
    }
  }

  /** No packet could be saved: every fragment but the last is as long as the limit allows,
      which is six octets less than a packet. */
  lemma FragmentsAreFull(body: Bytes, target: nat)
    requires body != [] && MIN_TARGET <= target <= MAX_TARGET
    ensures var ps := TilePackets(body, target);
            |ps| > 0 && forall i | 0 <= i < |ps| - 1 :: |ps[i].slice| == target - 6
  {
    FragmentsFill(body, SliceMax(target), true);
  }

  /** A client putting fragments together. */
  function Reassembled(ps: seq<Packet>, acc: Bytes): seq<Bytes>
    decreases ps
  {
    if ps == [] then []
    else
      match ps[0].flag
      case Single => [ps[0].slice] + Reassembled(ps[1..], [])
      case First => Reassembled(ps[1..], ps[0].slice)
      case Next => Reassembled(ps[1..], acc + ps[0].slice)
      case Last => [acc + ps[0].slice] + Reassembled(ps[1..], [])
  }

  lemma {:induction false} TailReassembles(ps: seq<Packet>, rest: seq<Packet>, acc: Bytes)
    requires Tail(ps)
    ensures Reassembled(ps + rest, acc) == [acc + Payload(ps)] + Reassembled(rest, [])
    decreases ps
  {
    assert (ps + rest)[1..] == ps[1..] + rest;
    if |ps| == 1 {
      assert ps[1..] == [] && [] + rest == rest;
      assert Payload(ps) == ps[0].slice + [] == ps[0].slice;
    } else {
      TailReassembles(ps[1..], rest, acc + ps[0].slice);
      Assoc(acc, ps[0].slice, Payload(ps[1..]));
    }
  }

  lemma ChainReassembles(ps: seq<Packet>, rest: seq<Packet>)
    requires Chain(ps)
    ensures Reassembled(ps + rest, []) == [Payload(ps)] + Reassembled(rest, [])
  {
    assert (ps + rest)[1..] == ps[1..] + rest;
    if |ps| == 1 {
      assert ps[1..] == [] && [] + rest == rest;
      assert Payload(ps) == ps[0].slice + [] == ps[0].slice;
    } else {
      TailReassembles(ps[1..], rest, ps[0].slice);
    }
  }

  // ---- The whole frame ---------------------------------------------------------

  /** The packets of a list of tiles, for an encoder of update bodies. */
  function Packets(ts: seq<Tile>, encode: Tile -> Bytes, target: nat): seq<Packet>
    requires target >= MIN_TARGET
  {
    if ts == [] then [] else TilePackets(encode(ts[0]), target) + Packets(ts[1..], encode, target)
  }

  function Bodies(ts: seq<Tile>, encode: Tile -> Bytes): seq<Bytes> {
    if ts == [] then [] else [encode(ts[0])] + Bodies(ts[1..], encode)
  }

  /** The client gets back every tile's body, in order. */
  lemma {:induction false} ClientGetsEveryTile(ts: seq<Tile>, encode: Tile -> Bytes, target: nat)
    requires MIN_TARGET <= target <= MAX_TARGET && forall i | 0 <= i < |ts| :: encode(ts[i]) != []
    ensures Reassembled(Packets(ts, encode, target), []) == Bodies(ts, encode)
  {
    if ts != [] {
      TilePacketsCarryBody(encode(ts[0]), target);
      ChainReassembles(TilePackets(encode(ts[0]), target), Packets(ts[1..], encode, target));
      ClientGetsEveryTile(ts[1..], encode, target);
    }
  }

  lemma {:induction false} PacketsAppend(a: seq<Tile>, b: seq<Tile>, encode: Tile -> Bytes, target: nat)
    requires target >= MIN_TARGET
    ensures Packets(a + b, encode, target) == Packets(a, encode, target) + Packets(b, encode, target)
  {
    if a == [] {
      assert a + b == b;
    } else {
      assert (a + b)[1..] == a[1..] + b;
      PacketsAppend(a[1..], b, encode, target);
    }
  }

  function Decoded(bodies: seq<Bytes>, decode: Bytes -> Tile): seq<Tile> {
    if bodies == [] then [] else [decode(bodies[0])] + Decoded(bodies[1..], decode)
  }

  ghost predicate Codec(encode: Tile -> Bytes, decode: Bytes -> Tile) {
    forall t: Tile | TileOk(t) :: encode(t) != [] && decode(encode(t)) == t
  }

  lemma {:induction false} BodiesDecode(ts: seq<Tile>, encode: Tile -> Bytes, decode: Bytes -> Tile)
    requires WellMade(ts) && Codec(encode, decode)
    ensures Decoded(Bodies(ts, encode), decode) == ts
  {
    if ts != [] {
      BodiesDecode(ts[1..], encode, decode);
    }
  }

  /** For every tile codec and packet limit: when the loops end on a frame that fits, the
      packets, reassembled, decoded and drawn in order on any canvas, show the frame. */
  lemma PacketsDrawTheFrame(f: Frame, n: nat, encode: Tile -> Bytes, decode: Bytes -> Tile, target: nat,
                            px: int, py: int, base: Pixel)
    requires Filled(f) && Fits(f) && Ended(f, Sending(f, n))
    requires Codec(encode, decode) && MIN_TARGET <= target <= MAX_TARGET
    ensures var ts := Decoded(Reassembled(Packets(Sending(f, n).sent, encode, target), []), decode);
            && WellMade(ts)
            && After(base, ts, px, py) == if Inside(f, px, py) then PixelAt(f, px - f.x, py - f.y) else base
  {
    var ts := Sending(f, n).sent;
    TilesDrawTheFrame(f, n, px, py, base);
    ClientGetsEveryTile(ts, encode, target);
    BodiesDecode(ts, encode, decode);
  }

  // ---- The octets --------------------------------------------------------------------

  function Code(flag: Flag): nat {
    match flag
    case Single => 0
    case Last => 1
    case First => 2
    case Next => 3
  }

  /** A packet as a bitmap update. */
  function AsUpdate(p: Packet): FastUpdate {
    FastUpdate(1, Code(p.flag), p.slice)
  }

  function AsUpdates(ps: seq<Packet>): seq<FastUpdate> {
    if ps == [] then [] else [AsUpdate(ps[0])] + AsUpdates(ps[1..])
  }

  function FlagOf(code: nat): Flag {
    if code == 0 then Single else if code == 1 then Last else if code == 2 then First else Next
  }

  function AsPackets(us: seq<FastUpdate>): seq<Packet> {
    if us == [] then [] else [Packet(FlagOf(us[0].fragment), us[0].body)] + AsPackets(us[1..])
  }

  ghost predicate Sized(ps: seq<Packet>) {
    forall i | 0 <= i < |ps| :: PacketLen(|ps[i].slice|) <= MAX_PACKET
  }

  lemma {:induction false} PacketsAsUpdates(ps: seq<Packet>)
    requires Sized(ps)
    ensures AllOk(AsUpdates(ps)) && AsPackets(AsUpdates(ps)) == ps
  {
    if ps != [] {
      PacketsAsUpdates(ps[1..]);
      assert AsUpdates(ps)[1..] == AsUpdates(ps[1..]);
    }
  }

  lemma {:induction false} PacketsAreSized(ts: seq<Tile>, encode: Tile -> Bytes, target: nat)
    requires MIN_TARGET <= target <= MAX_TARGET && forall i | 0 <= i < |ts| :: encode(ts[i]) != []
    ensures Sized(Packets(ts, encode, target))
  {
    if ts != [] {
      TilePacketsCarryBody(encode(ts[0]), target);
      PacketsAreSized(ts[1..], encode, target);
    }
  }

  /** The tiles a client decodes from the octets of its stream. */
  function FromStream(s: Bytes, decode: Bytes -> Tile): seq<Tile> {
    Decoded(Reassembled(AsPackets(Arrived(s)), []), decode)
  }

  /** End to end: when the loops end on a frame that fits, the octets they send, cut into
      packets, read, reassembled, decoded and drawn on any canvas, show the frame. */
  lemma StreamDrawsTheFrame(f: Frame, n: nat, encode: Tile -> Bytes, decode: Bytes -> Tile, target: nat,
                            px: int, py: int, base: Pixel)
    requires Filled(f) && Fits(f) && Ended(f, Sending(f, n))
    requires Codec(encode, decode) && MIN_TARGET <= target <= MAX_TARGET
    ensures var ps := Packets(Sending(f, n).sent, encode, target);
            && AllOk(AsUpdates(ps))
            && var ts := FromStream(Stream(AsUpdates(ps)), decode);
               && WellMade(ts)
               && After(base, ts, px, py) == if Inside(f, px, py) then PixelAt(f, px - f.x, py - f.y) else base
  {
    var ts := Sending(f, n).sent;
    var ps := Packets(ts, encode, target);
    TilesDrawTheFrame(f, n, px, py, base);
    PacketsAreSized(ts, encode, target);
    PacketsAsUpdates(ps);
    StreamReadsBack(AsUpdates(ps));
    PacketsDrawTheFrame(f, n, encode, decode, target, px, py, base);
  }

  // ---- The loops -----------------------------------------------------------------

  method CopyRow(f: Frame, row: nat, x: nat, n: nat) returns (r: seq<Pixel>)
    requires Filled(f) && row < f.h && x + n <= f.w
    ensures r == RowOf(f, row, x, n)
  {
    RowIsInside(f.w, f.h, row);
    RowStartIsProduct(f.w, row);
    var at := row * f.w as int + x;
    r := f.pixels[at..at + n];
  }

  /** The copy of a tile's rows out of the frame. */
  method CopyTile(f: Frame, x: nat, y: nat) returns (t: Tile)
    requires Filled(f) && x < f.w && y < f.h
    ensures t == TileAt(f, x, y)
  {
    var tw, th := Side(x, f.w), Side(y, f.h);
    var rows, row := [], 0;
    while row < th
      invariant 0 <= row <= th && rows == TileRows(f, x, y, tw, th)[..row]
    {
      var r := CopyRow(f, y + row, x, tw);
      rows := rows + [r];
      row := row + 1;
    }
    t := Tile((f.x + x) as int % U16, (f.y + y) as int % U16, tw, th, rows);
  }

  lemma NextFragment(body: Bytes, off: nat, slice: nat, max: nat, first: bool)
    requires off < |body| && max > 0 && slice == Min(|body| - off, max)
    ensures var flag := if off + slice >= |body| then (if first then Single else Last) else (if first then First else Next);
            Fragments(body[off..], max, first)
            == [Packet(flag, body[off..off + slice])] + Fragments(body[off + slice..], max, false)
  {
    var s := body[off..];
    assert s[slice..] == body[off + slice..] && s[..slice] == body[off..off + slice];
    if |s| <= max {
      assert body[off + slice..] == [] && s == body[off..off + slice];
    }
  }

  method SendFragments(body: Bytes, target: nat) returns (sent: seq<Packet>)
    requires target >= MIN_TARGET
    ensures sent == Fragments(body, SliceMax(target), true)
  {
    sent := [];
    var max := SliceMax(target);
    var off, first := 0, true;
    while off < |body|
      invariant 0 <= off <= |body| && (first <==> off == 0)
      invariant sent + Fragments(body[off..], max, first) == Fragments(body, max, true)
    {
      var slice := if |body| - off > max then max else |body| - off;
      var flag := if off + slice >= |body| then (if first then Single else Last) else (if first then First else Next);
      var p := Packet(flag, body[off..off + slice]);
      NextFragment(body, off, slice, max, first);
      ghost var rest := Fragments(body[off + slice..], max, false);
      assert sent + ([p] + rest) == (sent + [p]) + rest;
      sent := sent + [p];
      off := off + slice;
      first := false;
    }
  }

  method PushTile(t: Tile, encode: Tile -> Bytes, target: nat) returns (sent: seq<Packet>)
    requires target >= MIN_TARGET
    ensures sent == TilePackets(encode(t), target)
  {
    var body := encode(t);
    if |body| + 6 <= target {
      return [Packet(Single, body)];
    }
    sent := SendFragments(body, target);
  }

  lemma PacketsCons(sent: seq<Packet>, t: Tile, rest: seq<Tile>, encode: Tile -> Bytes, target: nat)
    requires target >= MIN_TARGET
    ensures sent + Packets([t] + rest, encode, target)
         == (sent + TilePackets(encode(t), target)) + Packets(rest, encode, target)
  {
    assert ([t] + rest)[1..] == rest;
    var ps, tail := TilePackets(encode(t), target), Packets(rest, encode, target);
    assert sent + (ps + tail) == (sent + ps) + tail;
  }

  lemma PacketsTile(f: Frame, x: nat, y: nat, sent: seq<Packet>, encode: Tile -> Bytes, target: nat)
    requires Filled(f) && x < f.w && y < f.h && target >= MIN_TARGET
    ensures sent + Packets(RowTiles(f, x, y), encode, target)
         == (sent + TilePackets(encode(TileAt(f, x, y)), target)) + Packets(RowTiles(f, x + TILE, y), encode, target)
  {
    PacketsCons(sent, TileAt(f, x, y), RowTiles(f, x + TILE, y), encode, target);
  }

  /** The 16-bit loop increment. */
  method NextOffset16(x: nat) returns (next: nat)
    requires x < U16
    ensures next < U16 && (x + TILE < U16 ==> next == x + TILE)
  {
    next := (x + TILE) % U16;
  }

  method PushRow(f: Frame, y: nat, encode: Tile -> Bytes, target: nat) returns (sent: seq<Packet>)
    requires Filled(f) && y < f.h && f.w <= LAST && target >= MIN_TARGET
    ensures sent == Packets(RowTiles(f, 0, y), encode, target)
  {
    sent := [];
    var x := 0;
    ghost var n: nat := 0;
    ghost var goal := Packets(RowTiles(f, 0, y), encode, target);
    while x < f.w
      invariant x == TILE * n < U16
      invariant sent + Packets(RowTiles(f, x, y), encode, target) == goal
      decreases f.w - x
    {
      var t := CopyTile(f, x, y);
      var ps := PushTile(t, encode, target);
      PacketsTile(f, x, y, sent, encode, target);
      sent, n := sent + ps, n + 1;
      x := NextOffset16(x);
    }
  }

  lemma PacketsBand(f: Frame, y: nat, sent: seq<Packet>, encode: Tile -> Bytes, target: nat)
    requires Filled(f) && y < f.h && target >= MIN_TARGET
    ensures sent + Packets(TilesFrom(f, y), encode, target)
         == (sent + Packets(RowTiles(f, 0, y), encode, target)) + Packets(TilesFrom(f, y + TILE), encode, target)
  {
    var row, rest := RowTiles(f, 0, y), TilesFrom(f, y + TILE);
    PacketsAppend(row, rest, encode, target);
    var a, b := Packets(row, encode, target), Packets(rest, encode, target);
    assert sent + (a + b) == (sent + a) + b;
  }

  method PushFrame(f: Frame, encode: Tile -> Bytes, target: nat) returns (sent: seq<Packet>)
    requires Filled(f) && target >= MIN_TARGET && Ends(f)
    ensures sent == Packets(Tiles(f), encode, target)
    ensures exists n :: Ended(f, Sending(f, n)) && sent == Packets(Sending(f, n).sent, encode, target)
  {
    sent := [];
    var y := 0;
    ghost var n: nat := 0;
    ghost var goal := Packets(Tiles(f), encode, target);
    while y < f.h
      invariant y == TILE * n < U16
      invariant sent + Packets(TilesFrom(f, y), encode, target) == goal
      decreases f.h - y
    {
      var ps := PushRow(f, y, encode, target);
      PacketsBand(f, y, sent, encode, target);
      sent, n := sent + ps, n + 1;
      y := NextOffset16(y);
    }
    LoopsEndIff(f);
    ghost var k: nat :| Ended(f, Sending(f, k));
    EndedSendsTiles(f, k);
  }
}
