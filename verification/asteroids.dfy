/** Asteroids and the asteroid-field manager: `Asteroid` and `AsteroidManager`
    in main.py:211-366. The engine nodes become plain positions; the random
    draws an asteroid makes at birth come from a stream of `Draw`s. */
module Asteroids {
  import opened Vectors
  import opened Wrappers
  import opened Seqs

  /** A closed integer extent `lo..hi` of the field on one axis. */
  datatype Span = Span(lo: int, hi: int)

  /** Breadth, depth and height bounds of the field, set by `initialize`. */
  const FieldExpanse: Triple<Span> := Triple(Span(-10, 10), Span(0, 28), Span(-15, 15))
  /** Maximum jitter of an asteroid around its grid point, per axis. */
  const DeviationFactor := 5
  const TransMag: real := 1.0
  const SpinMag: real := 0.1
  const LensOffset := 4

  /** A succession interval: the grid spacing on one axis, a positive integer. */
  type Step = k: int | k > 0 witness 1

  /** A draw of `random()`: a real in [0, 1). */
  type Unit = r: real | 0.0 <= r < 1.0 witness 0.0

  /** A draw of `choice([-1, 1])`. */
  type Sign = s: int | s == -1 || s == 1 witness 1

  /** The two asteroid models; both use radial scale .66 for the collision sphere. */
  datatype ModelKind = Asteroid2 | Asteroid3

  /** Every random value one spawned asteroid draws. */
  datatype Draw = Draw(
    model: ModelKind,
    jitter: Triple<Unit>,
    sign: Triple<Sign>,
    drift: Triple<Unit>,
    spin: Triple<Unit>)

  /** The source of random draws: the asteroid spawned n-th takes draw n. */
  type Rng = nat -> Draw

  datatype Asteroid = Asteroid(pos: Vec3, transSpeed: Vec3, rotSpeed: Vec3, model: ModelKind)

  /** A positive magnitude times a draw in [0, 1) stays in [0, magnitude). */
  lemma ScaledBelow(mag: real, u: Unit)
    requires mag > 0.0
    ensures 0.0 <= mag * u < mag
  {
    assert mag * (1.0 - u) > 0.0;
  }

  /** One jittered coordinate, `c + mag*random()*choice([-1,1])`. */
  function Jitter(c: real, mag: real, u: Unit, s: Sign): (r: real)
    ensures mag > 0.0 ==> Abs(r - c) < mag
    ensures mag == 0.0 ==> r == c
  {
    var offset := mag * u;
    // offset * choice([-1, 1]), with the sign applied by case
    var signed := if s == 1 then offset else -offset;
    if mag > 0.0 then
      ScaledBelow(mag, u);
      assert 0.0 <= offset < mag;
      assert Abs(signed) < mag;
      c + signed
    else c + signed
  }

  /** One scaled draw, `mag*random()`. */
  function Scaled(mag: real, u: Unit): (r: real)
    ensures mag > 0.0 ==> 0.0 <= r < mag
  {
    if mag > 0.0 then ScaledBelow(mag, u); mag * u
    else mag * u
  }

  /** The `Asteroid` constructor: a position jittered strictly within
      `deviationMag` of `base` on every axis, drift in [0, transMag) and spin in
      [0, spinMag) on every axis. */
  function NewAsteroid(base: Vec3, deviationMag: real, transMag: real, spinMag: real, d: Draw): (r: Asteroid)
    ensures forall i: Axis :: deviationMag > 0.0 ==> Abs(r.pos.At(i) - base.At(i)) < deviationMag
    ensures deviationMag == 0.0 ==> r.pos == base
    ensures forall i: Axis :: transMag > 0.0 ==> 0.0 <= r.transSpeed.At(i) < transMag
    ensures forall i: Axis :: spinMag > 0.0 ==> 0.0 <= r.rotSpeed.At(i) < spinMag
    ensures r.model == d.model
  {
    Asteroid(
      Triple(
        Jitter(base.x, deviationMag, d.jitter.x, d.sign.x),
        Jitter(base.y, deviationMag, d.jitter.y, d.sign.y),
        Jitter(base.z, deviationMag, d.jitter.z, d.sign.z)),
      Triple(Scaled(transMag, d.drift.x), Scaled(transMag, d.drift.y), Scaled(transMag, d.drift.z)),
      Triple(Scaled(spinMag, d.spin.x), Scaled(spinMag, d.spin.y), Scaled(spinMag, d.spin.z)),
      d.model)
  }

  /** `Asteroid.move`: translate by drift plus the avatar's speed, times dt. */
  function MoveAsteroid(a: Asteroid, avatarSpeed: Vec3, dt: real): (r: Asteroid)
    ensures forall i: Axis :: r.pos.At(i) == a.pos.At(i) + (a.transSpeed.At(i) + avatarSpeed.At(i)) * dt
    ensures r.transSpeed == a.transSpeed && r.rotSpeed == a.rotSpeed && r.model == a.model
  {
    a.(pos := Triple(
      a.pos.x + (a.transSpeed.x + avatarSpeed.x) * dt,
      a.pos.y + (a.transSpeed.y + avatarSpeed.y) * dt,
      a.pos.z + (a.transSpeed.z + avatarSpeed.z) * dt))
  }

  /** Two moves at the same avatar speed make one move over the summed time
      (in exact arithmetic; rounded floats need not agree). */
  lemma MoveComposes(a: Asteroid, v: Vec3, dt1: real, dt2: real)
    ensures MoveAsteroid(MoveAsteroid(a, v, dt1), v, dt2) == MoveAsteroid(a, v, dt1 + dt2)
  {
    var m1 := MoveAsteroid(MoveAsteroid(a, v, dt1), v, dt2);
    var m2 := MoveAsteroid(a, v, dt1 + dt2);
    assert m1.pos.x == m2.pos.x;
    assert m1.pos.y == m2.pos.y;
    assert m1.pos.z == m2.pos.z;
  }

  function MoveAll(s: seq<Asteroid>, avatarSpeed: Vec3, dt: real): (r: seq<Asteroid>)
    ensures |r| == |s|
    ensures forall k | 0 <= k < |s| :: r[k] == MoveAsteroid(s[k], avatarSpeed, dt)
  {
    seq(|s|, k requires 0 <= k < |s| => MoveAsteroid(s[k], avatarSpeed, dt))
  }

  /** The manager's state: the per-axis succession interval and the live asteroids. */
  datatype Manager = Manager(interval: Triple<Step>, asteroids: seq<Asteroid>)

  /** Python's `range(start, stop, step)` for a positive step. */
  function Range(start: int, stop: int, step: Step): seq<int>
    decreases stop - start
  {
    if start >= stop then [] else [start] + Range(start + step, stop, step)
  }

  /** `range` yields `start, start+step, ...` while below `stop`, and stops at the
      first value that reaches it. */
  lemma {:induction false} RangeShape(start: int, stop: int, step: Step)
    ensures var r := Range(start, stop, step);
      && (|r| == 0 <==> start >= stop)
      && (forall j | 0 <= j < |r| :: r[j] == start + j * step && r[j] < stop)
      && (|r| > 0 ==> r[|r| - 1] + step >= stop)
    decreases stop - start
  {
    if start < stop {
      var r := Range(start, stop, step);
      var rest := Range(start + step, stop, step);
      RangeShape(start + step, stop, step);
      assert r == [start] + rest;
      forall j | 0 < j < |r| ensures r[j] == start + j * step {
        assert r[j] == rest[j - 1] == start + step + (j - 1) * step;
      }
    }
  }

  function ColAxis(axis: Axis): Axis { (axis + 1) % 3 }
  function RowAxis(axis: Axis): Axis { (axis + 2) % 3 }

  /** The grid coordinates on axis `i`: from the field's low bound up to and
      including the first value at or beyond its high bound. */
  function GridLine(interval: Triple<Step>, i: Axis): seq<int> {
    Range(FieldExpanse.At(i).lo, FieldExpanse.At(i).hi + interval.At(i), interval.At(i))
  }

  function Cols(interval: Triple<Step>, axis: Axis): seq<int> { GridLine(interval, ColAxis(axis)) }
  function Rows(interval: Triple<Step>, axis: Axis): seq<int> { GridLine(interval, RowAxis(axis)) }

  /** Asteroids one succession on `axis` spawns. */
  function SuccessionSize(interval: Triple<Step>, axis: Axis): nat {
    |Cols(interval, axis)| * |Rows(interval, axis)|
  }

  /** A grid line starts at the low bound, steps by the interval, and its last
      value is at or beyond the high bound but less than one interval past it. */
  lemma GridLineShape(interval: Triple<Step>, i: Axis)
    ensures var g := GridLine(interval, i); var lo := FieldExpanse.At(i).lo; var hi := FieldExpanse.At(i).hi;
      && |g| > 0 && g[0] == lo
      && (forall j | 0 <= j < |g| :: g[j] == lo + j * interval.At(i) && lo <= g[j] < hi + interval.At(i))
      && hi <= g[|g| - 1] < hi + interval.At(i)
  {
    var g := GridLine(interval, i);
    RangeShape(FieldExpanse.At(i).lo, FieldExpanse.At(i).hi + interval.At(i), interval.At(i));
    forall j | 0 <= j < |g| ensures FieldExpanse.At(i).lo <= g[j] {
      assert j * interval.At(i) >= 0;
    }
  }

  lemma SuccessionNonEmpty(interval: Triple<Step>, axis: Axis)
    ensures SuccessionSize(interval, axis) > 0
  {
    GridLineShape(interval, ColAxis(axis));
    GridLineShape(interval, RowAxis(axis));
  }

  /** The grid point of a succession: `distance` on the spawn axis, the column
      coordinate on the next axis and the row coordinate on the one after. */
  function BasePoint(axis: Axis, distance: real, col: int, row: int): (r: Vec3)
    ensures r.At(axis) == distance
    ensures r.At(ColAxis(axis)) == col as real
    ensures r.At(RowAxis(axis)) == row as real
  {
    Zero.With(axis, distance).With(ColAxis(axis), col as real).With(RowAxis(axis), row as real)
  }

  /** An asteroid as `genSuccession` spawns it around a grid point. */
  function Spawn(base: Vec3, d: Draw): Asteroid {
    NewAsteroid(base, DeviationFactor as real, TransMag, SpinMag, d)
  }

  /** A coordinate within jitter reach of the grid line on axis `i`. */
  predicate WithinGrid(interval: Triple<Step>, i: Axis, c: real) {
    (FieldExpanse.At(i).lo - DeviationFactor) as real < c < (FieldExpanse.At(i).hi + interval.At(i) + DeviationFactor) as real
  }

  /** The asteroid lies in the slab a succession at `distance` on `axis` fills. */
  predicate InSlab(interval: Triple<Step>, axis: Axis, distance: real, a: Asteroid) {
    && Abs(a.pos.At(axis) - distance) < DeviationFactor as real
    && WithinGrid(interval, ColAxis(axis), a.pos.At(ColAxis(axis)))
    && WithinGrid(interval, RowAxis(axis), a.pos.At(RowAxis(axis)))
  }

  lemma SpawnInSlab(interval: Triple<Step>, axis: Axis, distance: real, ci: int, ri: int, d: Draw)
    requires 0 <= ci < |Cols(interval, axis)| && 0 <= ri < |Rows(interval, axis)|
    ensures InSlab(interval, axis, distance,
                   Spawn(BasePoint(axis, distance, Cols(interval, axis)[ci], Rows(interval, axis)[ri]), d))
  {
    GridLineShape(interval, ColAxis(axis));
    GridLineShape(interval, RowAxis(axis));
  }

  /** The flat position of grid cell (ci, ri) in a succession, columns outermost. */
  function CellIndex(ci: int, ri: int, cols: nat, rows: nat): (k: nat)
    requires 0 <= ci < cols && 0 <= ri < rows
    ensures k < cols * rows
  {
    assert (ci + 1) * rows <= cols * rows;
    ci * rows + ri
  }

  /** The asteroid `genSuccession` spawns for grid cell (ci, ri) when the
      succession's first draw is `seed`. */
  function Cell(interval: Triple<Step>, axis: Axis, distance: real, rng: Rng, seed: nat, ci: nat, ri: nat): (a: Asteroid)
    requires ci < |Cols(interval, axis)| && ri < |Rows(interval, axis)|
    ensures InSlab(interval, axis, distance, a)
  {
    var k := CellIndex(ci, ri, |Cols(interval, axis)|, |Rows(interval, axis)|);
    SpawnInSlab(interval, axis, distance, ci, ri, rng(seed + k));
    Spawn(BasePoint(axis, distance, Cols(interval, axis)[ci], Rows(interval, axis)[ri]), rng(seed + k))
  }

  /** The first `rows` asteroids of column `ci` of a succession, in row order. */
  function Column(interval: Triple<Step>, axis: Axis, distance: real, rng: Rng, seed: nat, ci: nat, rows: nat)
    : (col: seq<Asteroid>)
    requires ci < |Cols(interval, axis)| && rows <= |Rows(interval, axis)|
    ensures |col| == rows
  {
    if rows == 0 then []
    else Column(interval, axis, distance, rng, seed, ci, rows - 1) + [Cell(interval, axis, distance, rng, seed, ci, rows - 1)]
  }

  /** Row ri of a column is the asteroid its grid cell spawns. */
  lemma {:induction false} ColumnCell(interval: Triple<Step>, axis: Axis, distance: real, rng: Rng, seed: nat,
                                      ci: nat, rows: nat, ri: nat)
    requires ci < |Cols(interval, axis)| && rows <= |Rows(interval, axis)| && ri < rows
    ensures Column(interval, axis, distance, rng, seed, ci, rows)[ri] == Cell(interval, axis, distance, rng, seed, ci, ri)
  {
    if ri < rows - 1 {
      ColumnCell(interval, axis, distance, rng, seed, ci, rows - 1, ri);
    }
  }

  /** The first `c` columns of a succession, columns outermost. */
  function Columns(interval: Triple<Step>, axis: Axis, distance: real, rng: Rng, seed: nat, c: nat): (s: seq<Asteroid>)
    requires c <= |Cols(interval, axis)|
    ensures |s| == c * |Rows(interval, axis)|
  {
    if c == 0 then []
    else
      MulStep(c - 1, |Rows(interval, axis)|);
      Columns(interval, axis, distance, rng, seed, c - 1)
        + Column(interval, axis, distance, rng, seed, c - 1, |Rows(interval, axis)|)
  }

  /** Everything `genSuccession` spawns on `axis` at `distance` when its first
      draw is `seed`. */
  function Succession(interval: Triple<Step>, axis: Axis, distance: real, rng: Rng, seed: nat): (s: seq<Asteroid>)
    ensures |s| == SuccessionSize(interval, axis)
  {
    Columns(interval, axis, distance, rng, seed, |Cols(interval, axis)|)
  }

  /** Cell (ci, ri) of the first `c` columns sits at its flat index. */
  predicate ColumnsCellAt(interval: Triple<Step>, axis: Axis, distance: real, rng: Rng, seed: nat, c: nat, ci: nat, ri: nat)
    requires c <= |Cols(interval, axis)| && ci < c && ri < |Rows(interval, axis)|
  {
    var k := CellIndex(ci, ri, |Cols(interval, axis)|, |Rows(interval, axis)|);
    && k < |Columns(interval, axis, distance, rng, seed, c)|
    && Columns(interval, axis, distance, rng, seed, c)[k] == Cell(interval, axis, distance, rng, seed, ci, ri)
  }

  /** The cells of the last of `c` columns come after the first c - 1 columns. */
  lemma ColumnsCellLast(interval: Triple<Step>, axis: Axis, distance: real, rng: Rng, seed: nat, c: nat, ri: nat)
    requires 0 < c <= |Cols(interval, axis)| && ri < |Rows(interval, axis)|
    ensures ColumnsCellAt(interval, axis, distance, rng, seed, c, c - 1, ri)
  {
    var front := Columns(interval, axis, distance, rng, seed, c - 1);
    var col := Column(interval, axis, distance, rng, seed, c - 1, |Rows(interval, axis)|);
    assert Columns(interval, axis, distance, rng, seed, c) == front + col;
    ColumnCell(interval, axis, distance, rng, seed, c - 1, |Rows(interval, axis)|, ri);
    AppendRight(front, col, ri);
    var k := CellIndex(c - 1, ri, |Cols(interval, axis)|, |Rows(interval, axis)|);
    assert k == |front| + ri;
    assert k < |Columns(interval, axis, distance, rng, seed, c)|;
    assert Columns(interval, axis, distance, rng, seed, c)[k] == col[ri];
    assert col[ri] == Cell(interval, axis, distance, rng, seed, c - 1, ri);
  }

  /** A cell of an earlier column keeps its place when one more column follows. */
  lemma ColumnsCellFront(interval: Triple<Step>, axis: Axis, distance: real, rng: Rng, seed: nat,
                         c: nat, ci: nat, ri: nat)
    requires 0 < c <= |Cols(interval, axis)| && ci < c - 1 && ri < |Rows(interval, axis)|
    requires ColumnsCellAt(interval, axis, distance, rng, seed, c - 1, ci, ri)
    ensures ColumnsCellAt(interval, axis, distance, rng, seed, c, ci, ri)
  {
    var front := Columns(interval, axis, distance, rng, seed, c - 1);
    var col := Column(interval, axis, distance, rng, seed, c - 1, |Rows(interval, axis)|);
    assert Columns(interval, axis, distance, rng, seed, c) == front + col;
    AppendLeft(front, col, CellIndex(ci, ri, |Cols(interval, axis)|, |Rows(interval, axis)|));
  }

  lemma {:induction false} ColumnsCell(interval: Triple<Step>, axis: Axis, distance: real, rng: Rng, seed: nat,
                                       c: nat, ci: nat, ri: nat)
    requires c <= |Cols(interval, axis)| && ci < c && ri < |Rows(interval, axis)|
    ensures ColumnsCellAt(interval, axis, distance, rng, seed, c, ci, ri)
  {
    if ci == c - 1 {
      ColumnsCellLast(interval, axis, distance, rng, seed, c, ri);
    } else {
      ColumnsCell(interval, axis, distance, rng, seed, c - 1, ci, ri);
      ColumnsCellFront(interval, axis, distance, rng, seed, c, ci, ri);
    }
  }

  /** Every asteroid of a succession is the one its grid cell spawns, at the
      cell's flat index, and lies in the succession's slab. */
  lemma SuccessionCell(interval: Triple<Step>, axis: Axis, distance: real, rng: Rng, seed: nat, ci: nat, ri: nat)
    requires ci < |Cols(interval, axis)| && ri < |Rows(interval, axis)|
    ensures var k := CellIndex(ci, ri, |Cols(interval, axis)|, |Rows(interval, axis)|);
      && k < |Succession(interval, axis, distance, rng, seed)|
      && Succession(interval, axis, distance, rng, seed)[k] == Cell(interval, axis, distance, rng, seed, ci, ri)
      && InSlab(interval, axis, distance, Succession(interval, axis, distance, rng, seed)[k])
  {
    ColumnsCell(interval, axis, distance, rng, seed, |Cols(interval, axis)|, ci, ri);
  }

  /** One more pass of the outer loop of `genSuccession` appends one more column. */
  lemma ColumnsStep(base: seq<Asteroid>, out: seq<Asteroid>, col: seq<Asteroid>, interval: Triple<Step>, axis: Axis,
                    distance: real, rng: Rng, seed: nat, c: nat)
    requires c < |Cols(interval, axis)|
    requires out == base + Columns(interval, axis, distance, rng, seed, c)
    requires col == out + Column(interval, axis, distance, rng, seed, c, |Rows(interval, axis)|)
    ensures col == base + Columns(interval, axis, distance, rng, seed, c + 1)
    ensures |out| <= |col| && col[..|out|] == out
  {
    var front := Columns(interval, axis, distance, rng, seed, c);
    var next := Column(interval, axis, distance, rng, seed, c, |Rows(interval, axis)|);
    assert Columns(interval, axis, distance, rng, seed, c + 1) == front + next;
    AppendAssoc(base, front, next);
    AppendParts(col, out, next);
  }

  /** The inner loop of `genSuccession`: one column's asteroids, one per row. */
  method GenColumn(out: seq<Asteroid>, interval: Triple<Step>, axis: Axis, distance: real,
                   rng: Rng, seed: nat, ci: nat)
    returns (r: seq<Asteroid>)
    requires ci < |Cols(interval, axis)|
    ensures r == out + Column(interval, axis, distance, rng, seed, ci, |Rows(interval, axis)|)
    ensures |r| == |out| + |Rows(interval, axis)| && r[..|out|] == out
    ensures forall ri | 0 <= ri < |Rows(interval, axis)| ::
      r[|out| + ri] == Cell(interval, axis, distance, rng, seed, ci, ri)
    ensures AllInSlab(interval, axis, distance, r, |out|)
  {
    var rows := Rows(interval, axis);
    r := out;
    var w := 0;
    while w < |rows|
      invariant 0 <= w <= |rows|
      invariant r == out + Column(interval, axis, distance, rng, seed, ci, w)
      invariant AllInSlab(interval, axis, distance, r, |out|)
    {
      var a := Cell(interval, axis, distance, rng, seed, ci, w);
      AppendAssoc(out, Column(interval, axis, distance, rng, seed, ci, w), [a]);
      r := r + [a];
      w := w + 1;
    }
    var col := Column(interval, axis, distance, rng, seed, ci, |rows|);
    AppendParts(r, out, col);
    forall ri | 0 <= ri < |rows|
      ensures r[|out| + ri] == Cell(interval, axis, distance, rng, seed, ci, ri)
    {
      ColumnCell(interval, axis, distance, rng, seed, ci, |rows|, ri);
      AppendRight(out, col, ri);
    }
  }

  /** Every asteroid of `s` from index `from` on lies in the slab at `distance`. */
  predicate AllInSlab(interval: Triple<Step>, axis: Axis, distance: real, s: seq<Asteroid>, from: nat) {
    forall k | from <= k < |s| :: InSlab(interval, axis, distance, s[k])
  }

  lemma SlabPrefix(interval: Triple<Step>, axis: Axis, distance: real, from: nat,
                    before: seq<Asteroid>, after: seq<Asteroid>)
    requires |before| <= |after| && after[..|before|] == before
    requires AllInSlab(interval, axis, distance, before, from)
    requires AllInSlab(interval, axis, distance, after, |before|)
    ensures AllInSlab(interval, axis, distance, after, from)
  {
    forall k | from <= k < |before| ensures InSlab(interval, axis, distance, after[k]) {
      assert after[k] == after[..|before|][k];
    }
  }

  /** `genSuccession`: for every column and, inside it, every row of the grid on
      the two axes orthogonal to `axis`, append one asteroid spawned around the
      grid point at `distance` on `axis`, taking draws in that order. */
  method GenSuccession(m: Manager, axis: Axis, distance: real, rng: Rng, seed: nat)
    returns (r: Manager, next: nat)
    ensures r.interval == m.interval
    ensures |r.asteroids| == |m.asteroids| + SuccessionSize(m.interval, axis)
    ensures r.asteroids[..|m.asteroids|] == m.asteroids
    ensures next == seed + SuccessionSize(m.interval, axis)
    ensures r.asteroids == m.asteroids + Succession(m.interval, axis, distance, rng, seed)
    ensures forall ci, ri | 0 <= ci < |Cols(m.interval, axis)| && 0 <= ri < |Rows(m.interval, axis)| ::
      var k := |m.asteroids| + CellIndex(ci, ri, |Cols(m.interval, axis)|, |Rows(m.interval, axis)|);
      k < |r.asteroids| && r.asteroids[k] == Cell(m.interval, axis, distance, rng, seed, ci, ri)
    ensures AllInSlab(m.interval, axis, distance, r.asteroids, |m.asteroids|)
  {
    var out := GenColumns(m.asteroids, m.interval, axis, distance, rng, seed);
    AppendParts(out, m.asteroids, Succession(m.interval, axis, distance, rng, seed));
    next := seed + SuccessionSize(m.interval, axis);
    r := Manager(m.interval, out);
    SuccessionCells(m.asteroids, r.asteroids, m.interval, axis, distance, rng, seed);
  }

  /** The outer loop of `genSuccession`: one column after another. */
  method GenColumns(live: seq<Asteroid>, interval: Triple<Step>, axis: Axis, distance: real, rng: Rng, seed: nat)
    returns (out: seq<Asteroid>)
    ensures out == live + Succession(interval, axis, distance, rng, seed)
    ensures AllInSlab(interval, axis, distance, out, |live|)
  {
    var C := |Cols(interval, axis)|;
    out := live;
    var c := 0;
    while c < C
      invariant 0 <= c <= C
      invariant out == live + Columns(interval, axis, distance, rng, seed, c)
      invariant AllInSlab(interval, axis, distance, out, |live|)
    {
      var col := GenColumn(out, interval, axis, distance, rng, seed, c);
      ColumnsStep(live, out, col, interval, axis, distance, rng, seed, c);
      SlabPrefix(interval, axis, distance, |live|, out, col);
      out := col;
      c := c + 1;
    }
  }

  /** A succession appended after `base` has each cell at its flat index. */
  lemma SuccessionCells(base: seq<Asteroid>, out: seq<Asteroid>, interval: Triple<Step>, axis: Axis,
                        distance: real, rng: Rng, seed: nat)
    requires out == base + Succession(interval, axis, distance, rng, seed)
    ensures forall ci, ri | 0 <= ci < |Cols(interval, axis)| && 0 <= ri < |Rows(interval, axis)| ::
      var k := |base| + CellIndex(ci, ri, |Cols(interval, axis)|, |Rows(interval, axis)|);
      k < |out| && out[k] == Cell(interval, axis, distance, rng, seed, ci, ri)
  {
    var succ := Succession(interval, axis, distance, rng, seed);
    forall ci, ri | 0 <= ci < |Cols(interval, axis)| && 0 <= ri < |Rows(interval, axis)|
      ensures var k := |base| + CellIndex(ci, ri, |Cols(interval, axis)|, |Rows(interval, axis)|);
        k < |out| && out[k] == Cell(interval, axis, distance, rng, seed, ci, ri)
    {
      SuccessionCell(interval, axis, distance, rng, seed, ci, ri);
      AppendRight(base, succ, CellIndex(ci, ri, |Cols(interval, axis)|, |Rows(interval, axis)|));
    }
  }

  lemma MulStep(a: int, b: int)
    ensures (a + 1) * b == a * b + b
  {
  }

  lemma MulAtLeast(a: nat, b: nat)
    requires a >= 1
    ensures a * b >= b
  {
  }

  /** The spawn points of `initialize`'s first `calls` successions: all at
      the depth bound. */
  function Depths(calls: nat): (d: seq<real>) {
    seq(calls, _ => FieldExpanse.y.hi as real)
  }

  /** One pass of the `initialize` loop: a succession on Y at the depth bound,
      drawing right after the successions already made from `seed0`. */
  method AddDepthSuccession(m: Manager, rng: Rng, seed0: nat, seed: nat, calls: nat) returns (r: Manager, next: nat)
    requires |m.asteroids| == calls * SuccessionSize(m.interval, 1)
    requires AllInSlab(m.interval, 1, FieldExpanse.y.hi as real, m.asteroids, 0)
    requires m.asteroids == Blocks(m.interval, 1, Depths(calls), rng, seed0)
    requires seed == After(m.interval, 1, Depths(calls), seed0)
    ensures r.interval == m.interval
    ensures |r.asteroids| == (calls + 1) * SuccessionSize(m.interval, 1)
    ensures next == seed + SuccessionSize(m.interval, 1)
    ensures AllInSlab(m.interval, 1, FieldExpanse.y.hi as real, r.asteroids, 0)
    ensures r.asteroids == Blocks(m.interval, 1, Depths(calls + 1), rng, seed0)
    ensures next == After(m.interval, 1, Depths(calls + 1), seed0)
  {
    var depth := FieldExpanse.y.hi as real;
    r, next := GenSuccession(m, 1, depth, rng, seed);
    SlabPrefix(m.interval, 1, depth, 0, m.asteroids, r.asteroids);
    MulStep(calls, SuccessionSize(m.interval, 1));
    assert Depths(calls + 1) == Depths(calls) + [depth];
    assert m.asteroids == [] + Blocks(m.interval, 1, Depths(calls), rng, seed0);
    BlocksStep([], m.asteroids, r.asteroids, m.interval, 1, Depths(calls), depth, rng, seed0, seed);
    assert r.asteroids == Blocks(m.interval, 1, Depths(calls + 1), rng, seed0);
  }

  /** `initialize` with the succession interval given directly: it calls
      `genSuccession` on Y at the depth bound 28 while a counter stepping by
      the interval stays below the height bound 15, so ceil(15 / interval)
      times, all at the same depth. */
  method Initialize(interval: Step, rng: Rng, seed: nat) returns (m: Manager, next: nat, calls: nat)
    ensures m.interval == Triple(interval, interval, interval)
    ensures calls > 0
    ensures (calls - 1) * interval < FieldExpanse.z.hi <= calls * interval
    ensures |m.asteroids| == calls * SuccessionSize(m.interval, 1)
    ensures |m.asteroids| > 0
    ensures next == seed + |m.asteroids|
    ensures AllInSlab(m.interval, 1, FieldExpanse.y.hi as real, m.asteroids, 0)
    ensures m.asteroids == Blocks(m.interval, 1, Depths(calls), rng, seed)
  {
    var depth := FieldExpanse.y.hi as real;
    var intervals := Triple(interval, interval, interval);
    var size := SuccessionSize(intervals, 1);
    m := Manager(intervals, []);
    next := seed;
    calls := 0;
    var distance := 0;
    while distance < FieldExpanse.z.hi
      invariant distance == calls * interval
      invariant calls > 0 ==> (calls - 1) * interval < FieldExpanse.z.hi
      invariant m.interval == intervals
      invariant |m.asteroids| == calls * size
      invariant next == seed + |m.asteroids|
      invariant AllInSlab(intervals, 1, depth, m.asteroids, 0)
      invariant m.asteroids == Blocks(intervals, 1, Depths(calls), rng, seed)
      invariant next == After(intervals, 1, Depths(calls), seed)
    {
      m, next := AddDepthSuccession(m, rng, seed, next, calls);
      MulStep(calls, interval);
      distance := distance + interval;
      calls := calls + 1;
    }
    SuccessionNonEmpty(intervals, 1);
    MulAtLeast(calls, size);
  }

  /** `inView`: an asteroid is culled when it is beyond the breadth bounds by
      more than the buffer, behind the camera's lens, or below the height
      bound by more than the buffer. The last test of the source repeats the
      one before it, so nothing bounds depth or height from above: an
      asteroid is in view exactly when it lies within the buffered breadth,
      in front of the lens, and above the buffered low height. */
  predicate InView(interval: Triple<Step>, a: Asteroid, camDist: real): (r: bool)
    ensures r <==> (var buffer := (interval.x + DeviationFactor + 1) as real;
      && FieldExpanse.x.lo as real - buffer <= a.pos.x <= FieldExpanse.x.hi as real + buffer
      && a.pos.y >= -camDist + LensOffset as real
      && a.pos.z >= FieldExpanse.z.lo as real - buffer)
  {
    var buffer := (interval.x + DeviationFactor + 1) as real;
    !(|| a.pos.x < FieldExpanse.x.lo as real - buffer
      || a.pos.x > FieldExpanse.x.hi as real + buffer
      || a.pos.y < -camDist + LensOffset as real
      || a.pos.z < FieldExpanse.z.lo as real - buffer
      || a.pos.z < FieldExpanse.z.lo as real - buffer)
  }

  /** Moving an asteroid deeper or higher, or pulling the camera further back,
      never culls it. */
  lemma InViewHasNoUpperBounds(interval: Triple<Step>, a: Asteroid, camDist: real, dy: real, dz: real, camDist': real)
    requires InView(interval, a, camDist)
    requires dy >= 0.0 && dz >= 0.0 && camDist' >= camDist
    ensures InView(interval, a.(pos := Triple(a.pos.x, a.pos.y + dy, a.pos.z + dz)), camDist')
  {
  }

  /** An asteroid spawned around a grid point and never moved is in view when
      the grid point, widened by the jitter, is inside the culling box. */
  lemma SpawnedInView(interval: Triple<Step>, base: Vec3, d: Draw, camDist: real)
    requires var buffer := (interval.x + DeviationFactor + 1) as real;
      && FieldExpanse.x.lo as real - buffer <= base.x - DeviationFactor as real
      && base.x + DeviationFactor as real <= FieldExpanse.x.hi as real + buffer
      && -camDist + LensOffset as real <= base.y - DeviationFactor as real
      && FieldExpanse.z.lo as real - buffer <= base.z - DeviationFactor as real
    ensures InView(interval, Spawn(base, d), camDist)
  {
    var a := Spawn(base, d);
    assert Abs(a.pos.At(0) - base.At(0)) < DeviationFactor as real;
    assert Abs(a.pos.At(1) - base.At(1)) < DeviationFactor as real;
    assert Abs(a.pos.At(2) - base.At(2)) < DeviationFactor as real;
  }

  /** Every asteroid of a depth-axis succession at `distance` is in view once
      the camera sees back to the slab's near face. */
  lemma DepthSlabInView(interval: Triple<Step>, distance: real, a: Asteroid, camDist: real)
    requires InSlab(interval, 1, distance, a)
    requires -camDist + LensOffset as real <= distance - DeviationFactor as real
    ensures InView(interval, a, camDist)
  {
    assert ColAxis(1) == 2 && RowAxis(1) == 0;
  }

  /** The field `initialize` builds is entirely in view for any camera
      distance of at least -19, the follow distance of 20 included. */
  lemma InitialFieldInView(interval: Step, s: seq<Asteroid>, camDist: real)
    requires AllInSlab(Triple(interval, interval, interval), 1, FieldExpanse.y.hi as real, s, 0)
    requires camDist >= -19.0
    ensures forall k | 0 <= k < |s| :: InView(Triple(interval, interval, interval), s[k], camDist)
  {
    forall k | 0 <= k < |s| ensures InView(Triple(interval, interval, interval), s[k], camDist) {
      DepthSlabInView(Triple(interval, interval, interval), FieldExpanse.y.hi as real, s[k], camDist);
    }
  }

  /** The culling test as a function value, for `filter`. */
  function Visible(interval: Triple<Step>, camDist: real): Asteroid -> bool {
    a => InView(interval, a, camDist)
  }

  /** The asteroids the first step of `maintainAsteroidField` keeps. */
  function Survivors(m: Manager, camDist: real): seq<Asteroid> {
    Filter(Visible(m.interval, camDist), m.asteroids)
  }

  /** The survivors are exactly the in-view asteroids, each as often as before
      and in their original order. */
  lemma SurvivorsAreInView(m: Manager, camDist: real, front: seq<Asteroid>, back: seq<Asteroid>)
    ensures forall k | 0 <= k < |Survivors(m, camDist)| :: InView(m.interval, Survivors(m, camDist)[k], camDist)
    ensures forall a :: multiset(Survivors(m, camDist))[a] == (if InView(m.interval, a, camDist) then multiset(m.asteroids)[a] else 0)
    ensures m.asteroids == front + back ==>
      Survivors(m, camDist) == Filter(Visible(m.interval, camDist), front) + Filter(Visible(m.interval, camDist), back)
  {
    FilterSound(Visible(m.interval, camDist), m.asteroids);
    FilterCounts(Visible(m.interval, camDist), m.asteroids);
    FilterAppend(Visible(m.interval, camDist), front, back);
  }

  /** The least coordinate on axis `i`, as `min` with a coordinate key gives it. */
  function MinCoord(s: seq<Asteroid>, i: Axis): (r: real)
    requires |s| > 0
    ensures exists k | 0 <= k < |s| :: s[k].pos.At(i) == r
    ensures forall k | 0 <= k < |s| :: r <= s[k].pos.At(i)
    decreases |s|
  {
    if |s| == 1 then s[0].pos.At(i)
    else
      var rest := MinCoord(s[1..], i);
      if s[0].pos.At(i) <= rest then s[0].pos.At(i)
      else
        assert forall k | 1 <= k < |s| :: s[k] == s[1..][k - 1];
        rest
  }

  /** The greatest coordinate on axis `i`, as `max` with a coordinate key gives it. */
  function MaxCoord(s: seq<Asteroid>, i: Axis): (r: real)
    requires |s| > 0
    ensures exists k | 0 <= k < |s| :: s[k].pos.At(i) == r
    ensures forall k | 0 <= k < |s| :: s[k].pos.At(i) <= r
    decreases |s|
  {
    if |s| == 1 then s[0].pos.At(i)
    else
      var rest := MaxCoord(s[1..], i);
      if s[0].pos.At(i) >= rest then s[0].pos.At(i)
      else
        assert forall k | 1 <= k < |s| :: s[k] == s[1..][k - 1];
        rest
  }

  /** The field bound to fill toward on axis `i`: the low one while the avatar
      speed on that axis is positive, the high one otherwise. */
  function SpawnBound(i: Axis, avatarSpeed: Vec3): int {
    if avatarSpeed.At(i) > 0.0 then FieldExpanse.At(i).lo else FieldExpanse.At(i).hi
  }

  /** Where spawning on axis `i` starts: the extreme coordinate of the live
      field on the bound's side. On Y only the farthest asteroid is recorded,
      so Y always starts from the greatest depth. */
  function StartPoint(s: seq<Asteroid>, i: Axis, bound: int): real
    requires |s| > 0
  {
    if i == 1 then MaxCoord(s, 1)
    else if bound < 0 then MinCoord(s, i)
    else MaxCoord(s, i)
  }

  /** `bound/abs(bound)` in integer division: the sign of the bound. */
  function SpawnDirection(bound: int): (r: int)
    requires bound != 0
    ensures bound > 0 ==> r == 1
    ensures bound < 0 ==> r == -1
  {
    bound / IntAbs(bound)
  }

  function Last(start: real, points: seq<real>): real {
    if |points| == 0 then start else points[|points| - 1]
  }

  /** Each point is one interval step (`delta`) beyond the previous one, the
      first one step beyond `start`. */
  predicate Chain(start: real, delta: real, points: seq<real>) {
    forall j | 0 <= j < |points| :: points[j] == (if j == 0 then start else points[j - 1]) + delta
  }

  /** Each point was stepped to from a point strictly inside the bound's magnitude. */
  predicate SteppedFromInside(delta: real, bound: nat, points: seq<real>) {
    forall j | 0 <= j < |points| :: Abs(points[j] - delta) < bound as real
  }

  /** The spawn points of one axis: a chain of steps, each taken from inside
      the bound, ending at or beyond the bound's magnitude. */
  predicate SteppedTo(start: real, delta: real, bound: nat, points: seq<real>) {
    && Chain(start, delta, points)
    && SteppedFromInside(delta, bound, points)
    && Abs(Last(start, points)) >= bound as real
  }

  lemma ChainAt(start: real, delta: real, points: seq<real>, j: int)
    requires Chain(start, delta, points)
    requires 0 <= j < |points|
    ensures points[j] == (if j == 0 then start else points[j - 1]) + delta
  {
  }

  /** Partway through one axis's spawn loop: the points so far form a chain
      taken from inside the bound, and `sp` is the latest of them. */
  predicate Walk(start: real, delta: real, bound: nat, points: seq<real>, sp: real) {
    && sp == Last(start, points)
    && Chain(start, delta, points)
    && SteppedFromInside(delta, bound, points)
  }

  /** One more step from inside the bound keeps the walk going. */
  lemma ChainExtend(start: real, delta: real, bound: nat, points: seq<real>, sp: real, next: real)
    requires Walk(start, delta, bound, points, sp)
    requires Abs(sp) < bound as real && next == sp + delta
    ensures Walk(start, delta, bound, points + [next], next)
  {
    var p := points + [next];
    forall j | 0 <= j < |p|
      ensures p[j] == (if j == 0 then start else p[j - 1]) + delta
    {
      if j < |points| {
        assert p[j] == points[j];
        ChainAt(start, delta, points, j);
        if j > 0 { assert p[j - 1] == points[j - 1]; }
      } else if j > 0 {
        assert p[j - 1] == points[|points| - 1] == Last(start, points);
      }
    }
    assert Chain(start, delta, p);
    forall j | 0 <= j < |p| ensures Abs(p[j] - delta) < bound as real {
      if j < |points| { assert p[j] == points[j]; }
    }
  }

  /** The number of asteroids `n` successions hold, counted one succession
      at a time (`SpawnedIsProduct` gives it in closed form). */
  function Spawned(interval: Triple<Step>, axis: Axis, n: nat): nat {
    if n == 0 then 0 else Spawned(interval, axis, n - 1) + SuccessionSize(interval, axis)
  }

  lemma {:induction false} SpawnedIsProduct(interval: Triple<Step>, axis: Axis, n: nat)
    ensures Spawned(interval, axis, n) == n * SuccessionSize(interval, axis)
  {
    if n > 0 {
      SpawnedIsProduct(interval, axis, n - 1);
      MulStep(n - 1, SuccessionSize(interval, axis));
    }
  }

  /** The draw index just past the blocks at `points`. */
  function After(interval: Triple<Step>, axis: Axis, points: seq<real>, seed: nat): nat {
    seed + Spawned(interval, axis, |points|)
  }

  /** The successions at `points`, in order, each taking its draws right
      after the previous one's. */
  function Blocks(interval: Triple<Step>, axis: Axis, points: seq<real>, rng: Rng, seed: nat): (s: seq<Asteroid>)
    ensures |s| == Spawned(interval, axis, |points|)
    decreases |points|
  {
    if |points| == 0 then []
    else
      Blocks(interval, axis, points[..|points| - 1], rng, seed)
        + Succession(interval, axis, points[|points| - 1], rng, After(interval, axis, points[..|points| - 1], seed))
  }

  /** Cell (ci, ri) of block j sits just past the first j blocks, and is the
      asteroid that cell spawns with the draws that follow those blocks. */
  predicate BlockCellAt(interval: Triple<Step>, axis: Axis, points: seq<real>, rng: Rng, seed: nat,
                        j: nat, ci: nat, ri: nat)
    requires j < |points| && ci < |Cols(interval, axis)| && ri < |Rows(interval, axis)|
  {
    var k := Spawned(interval, axis, j) + CellIndex(ci, ri, |Cols(interval, axis)|, |Rows(interval, axis)|);
    var b := Blocks(interval, axis, points, rng, seed);
    && k < |b|
    && b[k] == Cell(interval, axis, points[j], rng, After(interval, axis, points[..j], seed), ci, ri)
    && InSlab(interval, axis, points[j], b[k])
  }

  /** The last block is the succession at the last point. */
  lemma BlocksCellLast(interval: Triple<Step>, axis: Axis, points: seq<real>, rng: Rng, seed: nat, ci: nat, ri: nat)
    requires |points| > 0 && ci < |Cols(interval, axis)| && ri < |Rows(interval, axis)|
    ensures BlockCellAt(interval, axis, points, rng, seed, |points| - 1, ci, ri)
  {
    var at := After(interval, axis, points[..|points| - 1], seed);
    var front := Blocks(interval, axis, points[..|points| - 1], rng, seed);
    var succ := Succession(interval, axis, points[|points| - 1], rng, at);
    assert Blocks(interval, axis, points, rng, seed) == front + succ;
    SuccessionCell(interval, axis, points[|points| - 1], rng, at, ci, ri);
    AppendRight(front, succ, CellIndex(ci, ri, |Cols(interval, axis)|, |Rows(interval, axis)|));
  }

  /** A cell of an earlier block keeps its place when one more block follows. */
  lemma BlocksCellFront(interval: Triple<Step>, axis: Axis, points: seq<real>, rng: Rng, seed: nat,
                        j: nat, ci: nat, ri: nat)
    requires j + 1 < |points| && ci < |Cols(interval, axis)| && ri < |Rows(interval, axis)|
    requires BlockCellAt(interval, axis, points[..|points| - 1], rng, seed, j, ci, ri)
    ensures BlockCellAt(interval, axis, points, rng, seed, j, ci, ri)
  {
    var front := Blocks(interval, axis, points[..|points| - 1], rng, seed);
    var succ := Succession(interval, axis, points[|points| - 1], rng, After(interval, axis, points[..|points| - 1], seed));
    assert Blocks(interval, axis, points, rng, seed) == front + succ;
    assert points[..|points| - 1][j] == points[j];
    assert points[..|points| - 1][..j] == points[..j];
    AppendLeft(front, succ, Spawned(interval, axis, j) + CellIndex(ci, ri, |Cols(interval, axis)|, |Rows(interval, axis)|));
  }

  /** Block j of `Blocks` is the succession at `points[j]`: it starts after
      the first j blocks, j·size asteroids in, and draws from where they stop,
      j·size draws after `seed`; every cell of it is the asteroid that cell
      spawns, and lies in the slab at `points[j]`. */
  lemma {:induction false} BlocksCell(interval: Triple<Step>, axis: Axis, points: seq<real>, rng: Rng, seed: nat,
                                      j: nat, ci: nat, ri: nat)
    requires j < |points| && ci < |Cols(interval, axis)| && ri < |Rows(interval, axis)|
    ensures BlockCellAt(interval, axis, points, rng, seed, j, ci, ri)
    ensures Spawned(interval, axis, j) == j * SuccessionSize(interval, axis)
    ensures After(interval, axis, points[..j], seed) == seed + j * SuccessionSize(interval, axis)
    decreases |points|
  {
    SpawnedIsProduct(interval, axis, j);
    if j == |points| - 1 {
      BlocksCellLast(interval, axis, points, rng, seed, ci, ri);
    } else {
      BlocksCell(interval, axis, points[..|points| - 1], rng, seed, j, ci, ri);
      BlocksCellFront(interval, axis, points, rng, seed, j, ci, ri);
    }
  }

  /** One more succession after the blocks is the block of one more point. */
  lemma BlocksAppend(interval: Triple<Step>, axis: Axis, points: seq<real>, sp: real, rng: Rng, seed: nat)
    ensures Blocks(interval, axis, points + [sp], rng, seed)
      == Blocks(interval, axis, points, rng, seed)
         + Succession(interval, axis, sp, rng, After(interval, axis, points, seed))
  {
    var p := points + [sp];
    assert p[..|p| - 1] == points;
    assert p[|p| - 1] == sp;
  }

  /** One more pass of the spawn loop appends the succession of one more point. */
  lemma BlocksStep(live: seq<Asteroid>, prev: seq<Asteroid>, r: seq<Asteroid>, interval: Triple<Step>, axis: Axis,
                   points: seq<real>, sp: real, rng: Rng, seed: nat, at: nat)
    requires at == After(interval, axis, points, seed)
    requires prev == live + Blocks(interval, axis, points, rng, seed)
    requires r == prev + Succession(interval, axis, sp, rng, at)
    ensures r == live + Blocks(interval, axis, points + [sp], rng, seed)
  {
    BlocksAppend(interval, axis, points, sp, rng, seed);
    AppendAssoc(live, Blocks(interval, axis, points, rng, seed), Succession(interval, axis, sp, rng, at));
  }

  lemma AppendLeft<T>(a: seq<T>, b: seq<T>, k: nat)
    requires k < |a|
    ensures (a + b)[k] == a[k]
  {
  }

  lemma AppendRight<T>(a: seq<T>, b: seq<T>, k: nat)
    requires k < |b|
    ensures |a| + k < |a + b| && (a + b)[|a| + k] == b[k]
  {
  }

  lemma AppendParts<T>(r: seq<T>, a: seq<T>, b: seq<T>)
    requires r == a + b
    ensures |r| == |a| + |b| && r[..|a|] == a
  {
  }

  /** The asteroid lies in the slab of one of the points. */
  predicate InSomeSlab(interval: Triple<Step>, axis: Axis, points: seq<real>, a: Asteroid) {
    exists j | 0 <= j < |points| :: InSlab(interval, axis, points[j], a)
  }

  /** Every asteroid from index `from` on lies in the slab of one of the points. */
  predicate SlabsCover(interval: Triple<Step>, axis: Axis, s: seq<Asteroid>, from: nat, points: seq<real>) {
    forall k | from <= k < |s| :: InSomeSlab(interval, axis, points, s[k])
  }

  lemma SlabsExtend(interval: Triple<Step>, axis: Axis, from: nat, prev: seq<Asteroid>, cur: seq<Asteroid>,
                    points: seq<real>, sp: real)
    requires from <= |prev| <= |cur| && cur[..|prev|] == prev
    requires SlabsCover(interval, axis, prev, from, points)
    requires AllInSlab(interval, axis, sp, cur, |prev|)
    ensures SlabsCover(interval, axis, cur, from, points + [sp])
  {
    var p := points + [sp];
    forall k | from <= k < |cur|
      ensures InSomeSlab(interval, axis, p, cur[k])
    {
      if k < |prev| {
        assert cur[k] == cur[..|prev|][k] == prev[k];
        assert InSomeSlab(interval, axis, points, prev[k]);
        var j :| 0 <= j < |points| && InSlab(interval, axis, points[j], prev[k]);
        assert p[j] == points[j];
        assert InSlab(interval, axis, p[j], cur[k]);
      } else {
        assert p[|p| - 1] == sp;
        assert InSlab(interval, axis, p[|p| - 1], cur[k]);
      }
    }
    assert SlabsCover(interval, axis, cur, from, p);
  }

  /** The spawn loop of one axis: step from `start` toward the sign of `bound`
      by the interval, spawning a succession at each point, until the point's
      magnitude reaches the bound's. What it appends is the succession at
      each point in turn (`BlocksCell` takes it apart cell by cell). */
  method SpawnToward(interval: Triple<Step>, live: seq<Asteroid>, axis: Axis, start: real, bound: int,
                     rng: Rng, seed: nat)
    returns (r: seq<Asteroid>, next: nat, points: seq<real>)
    requires bound != 0
    ensures SteppedTo(start, (SpawnDirection(bound) * interval.At(axis)) as real, IntAbs(bound), points)
    ensures |r| == |live| + |points| * SuccessionSize(interval, axis)
    ensures r[..|live|] == live
    ensures next == After(interval, axis, points, seed)
    ensures r == live + Blocks(interval, axis, points, rng, seed)
    ensures SlabsCover(interval, axis, r, |live|, points)
  {
    var delta := (SpawnDirection(bound) * interval.At(axis)) as real;
    r := live;
    points := [];
    var sp := start;
    while Abs(sp) < IntAbs(bound) as real
      invariant Walk(start, delta, IntAbs(bound), points, sp)
      invariant r == live + Blocks(interval, axis, points, rng, seed)
      invariant |live| <= |r| && SlabsCover(interval, axis, r, |live|, points)
      decreases if bound > 0 then (bound as real - sp).Floor else (sp - bound as real).Floor
    {
      var next := sp + delta;
      ChainExtend(start, delta, IntAbs(bound), points, sp, next);
      var at := After(interval, axis, points, seed);
      var cur, _ := GenSuccession(Manager(interval, r), axis, next, rng, at);
      BlocksStep(live, r, cur.asteroids, interval, axis, points, next, rng, seed, at);
      SlabsExtend(interval, axis, |live|, r, cur.asteroids, points, next);
      r := cur.asteroids;
      points := points + [next];
      sp := next;
    }
    AppendParts(r, live, Blocks(interval, axis, points, rng, seed));
    SpawnedIsProduct(interval, axis, |points|);
    next := After(interval, axis, points, seed);
  }

  datatype FieldError =
    | EmptyField       // `min`/`max` over an empty asteroid list
    | ZeroSpawnBound   // `bound/abs(bound)` with a zero bound

  /** The spawn points recorded for axis `i` step from the live field's edge
      on the bound's side to the bound the avatar's speed selects. */
  predicate AxisSpawned(live: seq<Asteroid>, interval: Triple<Step>, avatarSpeed: Vec3, i: Axis, points: seq<real>)
    requires |live| > 0
  {
    var bound := SpawnBound(i, avatarSpeed);
    && bound != 0
    && SteppedTo(StartPoint(live, i, bound), (SpawnDirection(bound) * interval.At(i)) as real, IntAbs(bound), points)
  }

  /** The number of asteroids the successions at `spawned` add. */
  function SpawnedCount(interval: Triple<Step>, spawned: Triple<seq<real>>): nat {
    |spawned.x| * SuccessionSize(interval, 0) + |spawned.y| * SuccessionSize(interval, 1)
      + |spawned.z| * SuccessionSize(interval, 2)
  }

  lemma AppendAssoc<T>(a: seq<T>, b: seq<T>, c: seq<T>)
    ensures a + b + c == a + (b + c)
  {
  }

  /** What the three spawn loops append: the X successions, then the Y ones,
      then the Z ones, each block at its spawn points, with the draws taken in
      that same order from `seed`. */
  function SpawnedField(interval: Triple<Step>, px: seq<real>, py: seq<real>, pz: seq<real>, rng: Rng, seed: nat)
    : (s: seq<Asteroid>)
    ensures |s| == Spawned(interval, 0, |px|) + Spawned(interval, 1, |py|) + Spawned(interval, 2, |pz|)
  {
    var seedY := After(interval, 0, px, seed);
    var seedZ := After(interval, 1, py, seedY);
    Blocks(interval, 0, px, rng, seed) + Blocks(interval, 1, py, rng, seedY) + Blocks(interval, 2, pz, rng, seedZ)
  }

  /** The spawned field split at the seeds where the Y and Z draws start. */
  lemma SpawnedFieldSplit(interval: Triple<Step>, px: seq<real>, py: seq<real>, pz: seq<real>, rng: Rng,
                          seed: nat, seedY: nat, seedZ: nat)
    requires seedY == After(interval, 0, px, seed)
    requires seedZ == After(interval, 1, py, seedY)
    ensures SpawnedField(interval, px, py, pz, rng, seed)
         == Blocks(interval, 0, px, rng, seed) + Blocks(interval, 1, py, rng, seedY) + Blocks(interval, 2, pz, rng, seedZ)
  {
  }

  /** The three spawn loops, run one after another from the live field `s`,
      leave the live field in front followed by the spawned field. */
  lemma SpawnedFieldLayout(s: seq<Asteroid>, afterX: seq<Asteroid>, afterY: seq<Asteroid>, afterZ: seq<Asteroid>,
                           interval: Triple<Step>, px: seq<real>, py: seq<real>, pz: seq<real>, rng: Rng,
                           seed: nat, seedY: nat, seedZ: nat)
    requires seedY == After(interval, 0, px, seed)
    requires seedZ == After(interval, 1, py, seedY)
    requires afterX == s + Blocks(interval, 0, px, rng, seed)
    requires afterY == afterX + Blocks(interval, 1, py, rng, seedY)
    requires afterZ == afterY + Blocks(interval, 2, pz, rng, seedZ)
    ensures afterZ == s + SpawnedField(interval, px, py, pz, rng, seed)
    ensures |afterZ| == |s| + SpawnedCount(interval, Triple(px, py, pz))
    ensures afterZ[..|s|] == s
    ensures After(interval, 2, pz, seedZ) == seed + SpawnedCount(interval, Triple(px, py, pz))
  {
    SpawnedIsProduct(interval, 0, |px|);
    SpawnedIsProduct(interval, 1, |py|);
    SpawnedIsProduct(interval, 2, |pz|);
    var xs := Blocks(interval, 0, px, rng, seed);
    var ys := Blocks(interval, 1, py, rng, seedY);
    var zs := Blocks(interval, 2, pz, rng, seedZ);
    SpawnedFieldSplit(interval, px, py, pz, rng, seed, seedY, seedZ);
    AppendAssoc(s, xs, ys);
    AppendAssoc(s, xs + ys, zs);
    AppendParts(afterZ, s, xs + ys + zs);
  }

  /** Where an axis's blocks start in the spawned field: after the X blocks
      for Y, after the X and Y blocks for Z. Its draws start as far after the
      first draw. */
  function AxisStart(interval: Triple<Step>, spawned: Triple<seq<real>>, axis: Axis): nat {
    if axis == 0 then 0
    else if axis == 1 then Spawned(interval, 0, |spawned.x|)
    else Spawned(interval, 0, |spawned.x|) + Spawned(interval, 1, |spawned.y|)
  }

  /** Where an axis's draws start: after the X blocks' draws for Y, after
      the X and Y blocks' draws for Z. */
  function AxisSeed(interval: Triple<Step>, spawned: Triple<seq<real>>, axis: Axis, seed: nat): (r: nat)
    ensures r == seed + AxisStart(interval, spawned, axis)
  {
    if axis == 0 then seed
    else if axis == 1 then After(interval, 0, spawned.x, seed)
    else After(interval, 1, spawned.y, After(interval, 0, spawned.x, seed))
  }

  /** An asteroid of the blocks, seen through whatever surrounds them. */
  lemma BlockInField(front: seq<Asteroid>, back: seq<Asteroid>, interval: Triple<Step>,
                     axis: Axis, points: seq<real>, rng: Rng, at: nat, i: nat)
    requires i < Spawned(interval, axis, |points|)
    ensures var b := Blocks(interval, axis, points, rng, at);
      var field := front + (b + back);
      && |front| + i < |field|
      && field[|front| + i] == b[i]
  {
    var b := Blocks(interval, axis, points, rng, at);
    AppendLeft(b, back, i);
    AppendRight(front, b + back, i);
  }

  /** The i-th asteroid of the blocks spawned on `axis` sits i past the moved
      survivors and the earlier axes' blocks; those blocks drew from the seed
      where the earlier axes' draws end. */
  predicate FieldBlockAt(moved: seq<Asteroid>, interval: Triple<Step>, spawned: Triple<seq<real>>, rng: Rng,
                         seed: nat, axis: Axis, i: nat)
    requires i < Spawned(interval, axis, |spawned.At(axis)|)
  {
    var field := moved + SpawnedField(interval, spawned.x, spawned.y, spawned.z, rng, seed);
    var b := Blocks(interval, axis, spawned.At(axis), rng, AxisSeed(interval, spawned, axis, seed));
    var k := |moved| + AxisStart(interval, spawned, axis) + i;
    && k < |field|
    && field[k] == b[i]
  }

  lemma FieldBlockX(moved: seq<Asteroid>, interval: Triple<Step>, spawned: Triple<seq<real>>, rng: Rng,
                    seed: nat, i: nat)
    requires i < Spawned(interval, 0, |spawned.x|)
    ensures FieldBlockAt(moved, interval, spawned, rng, seed, 0, i)
  {
    var seedY := After(interval, 0, spawned.x, seed);
    var seedZ := After(interval, 1, spawned.y, seedY);
    SpawnedFieldSplit(interval, spawned.x, spawned.y, spawned.z, rng, seed, seedY, seedZ);
    var xs := Blocks(interval, 0, spawned.x, rng, seed);
    var ys := Blocks(interval, 1, spawned.y, rng, seedY);
    var zs := Blocks(interval, 2, spawned.z, rng, seedZ);
    AppendAssoc(xs, ys, zs);
    BlockInField(moved, ys + zs, interval, 0, spawned.x, rng, seed, i);
  }

  lemma FieldBlockY(moved: seq<Asteroid>, interval: Triple<Step>, spawned: Triple<seq<real>>, rng: Rng,
                    seed: nat, i: nat)
    requires i < Spawned(interval, 1, |spawned.y|)
    ensures FieldBlockAt(moved, interval, spawned, rng, seed, 1, i)
  {
    var seedY := After(interval, 0, spawned.x, seed);
    var seedZ := After(interval, 1, spawned.y, seedY);
    SpawnedFieldSplit(interval, spawned.x, spawned.y, spawned.z, rng, seed, seedY, seedZ);
    var xs := Blocks(interval, 0, spawned.x, rng, seed);
    var ys := Blocks(interval, 1, spawned.y, rng, seedY);
    var zs := Blocks(interval, 2, spawned.z, rng, seedZ);
    AppendAssoc(moved, xs, ys + zs);
    AppendAssoc(xs, ys, zs);
    BlockInField(moved + xs, zs, interval, 1, spawned.y, rng, seedY, i);
  }

  lemma FieldBlockZ(moved: seq<Asteroid>, interval: Triple<Step>, spawned: Triple<seq<real>>, rng: Rng,
                    seed: nat, i: nat)
    requires i < Spawned(interval, 2, |spawned.z|)
    ensures FieldBlockAt(moved, interval, spawned, rng, seed, 2, i)
  {
    var seedY := After(interval, 0, spawned.x, seed);
    var seedZ := After(interval, 1, spawned.y, seedY);
    SpawnedFieldSplit(interval, spawned.x, spawned.y, spawned.z, rng, seed, seedY, seedZ);
    var xs := Blocks(interval, 0, spawned.x, rng, seed);
    var ys := Blocks(interval, 1, spawned.y, rng, seedY);
    var zs := Blocks(interval, 2, spawned.z, rng, seedZ);
    AppendAssoc(moved, xs + ys, zs);
    AppendAssoc(moved, xs, ys);
    assert zs + [] == zs;
    BlockInField(moved + xs + ys, [], interval, 2, spawned.z, rng, seedZ, i);
  }

  /** The maintained field read axis by axis: past the moved survivors come
      the X blocks, then the Y blocks, then the Z blocks, each axis's blocks
      drawing where the earlier axes' draws end. With `BlocksCell` this pins
      down every spawned asteroid: the cell it comes from, its spawn point and
      its draw. */
  lemma SpawnedFieldBlocks(moved: seq<Asteroid>, interval: Triple<Step>, spawned: Triple<seq<real>>, rng: Rng,
                           seed: nat, axis: Axis, i: nat)
    requires i < Spawned(interval, axis, |spawned.At(axis)|)
    ensures FieldBlockAt(moved, interval, spawned, rng, seed, axis, i)
    ensures AxisSeed(interval, spawned, axis, seed) == seed + AxisStart(interval, spawned, axis)
  {
    if axis == 0 {
      FieldBlockX(moved, interval, spawned, rng, seed, i);
    } else if axis == 1 {
      FieldBlockY(moved, interval, spawned, rng, seed, i);
    } else {
      FieldBlockZ(moved, interval, spawned, rng, seed, i);
    }
  }

  /** The second half of `maintainAsteroidField`: the spawn loops on X, Y and
      Z in turn, over a non-empty live field and with no zero bound. */
  method SpawnAllAxes(live: Manager, avatarSpeed: Vec3, rng: Rng, seed: nat)
    returns (r: Manager, next: nat, spawned: Triple<seq<real>>)
    requires |live.asteroids| > 0
    requires avatarSpeed.y <= 0.0
    ensures r.interval == live.interval
    ensures |r.asteroids| == |live.asteroids| + SpawnedCount(live.interval, spawned)
    ensures next == seed + SpawnedCount(live.interval, spawned)
    ensures r.asteroids[..|live.asteroids|] == live.asteroids
    ensures AxisSpawned(live.asteroids, live.interval, avatarSpeed, 0, spawned.x)
    ensures AxisSpawned(live.asteroids, live.interval, avatarSpeed, 1, spawned.y)
    ensures AxisSpawned(live.asteroids, live.interval, avatarSpeed, 2, spawned.z)
    ensures r.asteroids == live.asteroids + SpawnedField(live.interval, spawned.x, spawned.y, spawned.z, rng, seed)
  {
    var s := live.asteroids;
    var iv := live.interval;
    var boundX := SpawnBound(0, avatarSpeed);
    var boundY := SpawnBound(1, avatarSpeed);
    var boundZ := SpawnBound(2, avatarSpeed);
    assert boundX != 0 && boundY != 0 && boundZ != 0;
    var startX, startY, startZ := StartPoint(s, 0, boundX), StartPoint(s, 1, boundY), StartPoint(s, 2, boundZ);
    var afterX, afterY, afterZ, px, py, pz;
    afterX, next, px := SpawnToward(iv, s, 0, startX, boundX, rng, seed);
    var seedY := next;
    afterY, next, py := SpawnToward(iv, afterX, 1, startY, boundY, rng, seedY);
    var seedZ := next;
    afterZ, next, pz := SpawnToward(iv, afterY, 2, startZ, boundZ, rng, seedZ);
    SpawnedFieldLayout(s, afterX, afterY, afterZ, iv, px, py, pz, rng, seed, seedY, seedZ);
    spawned := Triple(px, py, pz);
    r := Manager(iv, afterZ);
  }

  /** `maintainAsteroidField`: keep the in-view asteroids, move them, then on
      X, Y and Z in turn spawn successions from the live field's edge toward
      the bound the avatar's speed selects. The avatar position argument of
      the source is unused and omitted. */
  method MaintainAsteroidField(m: Manager, avatarSpeed: Vec3, camDist: real, dt: real, rng: Rng, seed: nat)
    returns (r: Result<Manager, FieldError>, next: nat, spawned: Triple<seq<real>>)
    ensures r == Failure(EmptyField) <==> |Survivors(m, camDist)| == 0
    ensures r == Failure(ZeroSpawnBound) <==> |Survivors(m, camDist)| > 0 && avatarSpeed.y > 0.0
    ensures r.Success? ==>
      var moved := MoveAll(Survivors(m, camDist), avatarSpeed, dt);
      && r.value.interval == m.interval
      && |moved| > 0
      && |r.value.asteroids| == |moved| + SpawnedCount(m.interval, spawned)
      && next == seed + SpawnedCount(m.interval, spawned)
      && r.value.asteroids[..|moved|] == moved
      && AxisSpawned(moved, m.interval, avatarSpeed, 0, spawned.x)
      && AxisSpawned(moved, m.interval, avatarSpeed, 1, spawned.y)
      && AxisSpawned(moved, m.interval, avatarSpeed, 2, spawned.z)
      && r.value.asteroids == moved + SpawnedField(m.interval, spawned.x, spawned.y, spawned.z, rng, seed)
  {
    var moved := MoveAll(Survivors(m, camDist), avatarSpeed, dt);
    spawned := Triple([], [], []);
    next := seed;
    if |moved| == 0 {
      r := Failure(EmptyField);
      return;
    }
    if SpawnBound(0, avatarSpeed) == 0 || SpawnBound(1, avatarSpeed) == 0 || SpawnBound(2, avatarSpeed) == 0 {
      r := Failure(ZeroSpawnBound);
      return;
    }
    var cur;
    cur, next, spawned := SpawnAllAxes(Manager(m.interval, moved), avatarSpeed, rng, seed);
    r := Success(cur);
  }
}
