/** The rectangle a trust boundary gets when the client leaves its geometry out. */
module Geometry {
  import opened Wrappers
  import opened DfdGraph

  const BOUNDARY_PADDING := 20.0
  const BOUNDARY_NODE_WIDTH := 180.0
  const BOUNDARY_NODE_HEIGHT := 64.0
  const DEFAULT_BOUNDARY_WIDTH := 280.0
  const DEFAULT_BOUNDARY_HEIGHT := 180.0

  datatype Point = Point(x: real, y: real)

  /** Geometry as the client sends it: each coordinate may be omitted. */
  datatype PartialRect = PartialRect(x: Option<real>, y: Option<real>, width: Option<real>, height: Option<real>)

  const NO_RECT := PartialRect(None, None, None, None)

  function Min(s: seq<real>): (m: real)
    requires s != []
    ensures m in s && forall v <- s :: m <= v
  {
    if |s| == 1 then s[0]
    else
      var rest := Min(s[1..]);
      assert s == [s[0]] + s[1..];
      if s[0] <= rest then s[0] else rest
  }

  function Max(s: seq<real>): (m: real)
    requires s != []
    ensures m in s && forall v <- s :: v <= m
  {
    if |s| == 1 then s[0]
    else
      var rest := Max(s[1..]);
      assert s == [s[0]] + s[1..];
      if rest <= s[0] then s[0] else rest
  }

  function Lefts(ps: seq<Point>): seq<real> { seq(|ps|, i requires 0 <= i < |ps| => ps[i].x) }
  function Tops(ps: seq<Point>): seq<real> { seq(|ps|, i requires 0 <= i < |ps| => ps[i].y) }
  function Rights(ps: seq<Point>): seq<real> { seq(|ps|, i requires 0 <= i < |ps| => ps[i].x + BOUNDARY_NODE_WIDTH) }
  function Bottoms(ps: seq<Point>): seq<real> {
    seq(|ps|, i requires 0 <= i < |ps| => ps[i].y + BOUNDARY_NODE_HEIGHT)
  }

  function DeriveGeometry(ps: seq<Point>): Option<Rect> {
    if ps == [] then None
    else
      var minX, minY := Min(Lefts(ps)), Min(Tops(ps));
      var maxX, maxY := Max(Rights(ps)), Max(Bottoms(ps));
      Some(Rect(minX - BOUNDARY_PADDING, minY - BOUNDARY_PADDING,
                maxX - minX + BOUNDARY_PADDING * 2.0, maxY - minY + BOUNDARY_PADDING * 2.0))
  }

  function ResolveGeometry(given: PartialRect, ps: seq<Point>): Rect {
    var derived := match DeriveGeometry(ps)
                   case Some(r) => r
                   case None => Rect(0.0, 0.0, DEFAULT_BOUNDARY_WIDTH, DEFAULT_BOUNDARY_HEIGHT);
    Rect(if given.x.Some? then given.x.value else derived.x,
         if given.y.Some? then given.y.value else derived.y,
         if given.width.Some? then given.width.value else derived.width,
         if given.height.Some? then given.height.value else derived.height)
  }

  /** What the client gave is kept. */
  ghost predicate KeepsGiven(r: Rect, given: PartialRect) {
    && (given.x.Some? ==> r.x == given.x.value) && (given.y.Some? ==> r.y == given.y.value)
    && (given.width.Some? ==> r.width == given.width.value) && (given.height.Some? ==> r.height == given.height.value)
  }

  /** A given coordinate is stored as given, each of the others as if none had been given. */
  lemma GivenCoordinatesStay(given: PartialRect, ps: seq<Point>)
    ensures var r, free := ResolveGeometry(given, ps), ResolveGeometry(NO_RECT, ps);
            && KeepsGiven(r, given)
            && (given.x == None ==> r.x == free.x) && (given.y == None ==> r.y == free.y)
            && (given.width == None ==> r.width == free.width) && (given.height == None ==> r.height == free.height)
  {}

  /** Without members the omitted ones are those of a 280x180 rectangle at the origin. */
  lemma EmptyBoundaryGeometry()
    ensures ResolveGeometry(NO_RECT, []) == Rect(0.0, 0.0, 280.0, 180.0)
  {}

  /** The 180x64 box drawn at `p` lies inside `r` with at least 20 to spare on every side. */
  predicate HoldsBox(r: Rect, p: Point) {
    && r.x + 20.0 <= p.x && p.x + 180.0 + 20.0 <= r.x + r.width
    && r.y + 20.0 <= p.y && p.y + 64.0 + 20.0 <= r.y + r.height
  }

  predicate Within(inner: Rect, outer: Rect) {
    && outer.x <= inner.x && inner.x + inner.width <= outer.x + outer.width
    && outer.y <= inner.y && inner.y + inner.height <= outer.y + outer.height
  }

  /** Omitted geometry around at least one member: the smallest rectangle that holds every box. */
  lemma OmittedGeometryIsTight(ps: seq<Point>, other: Rect)
    requires ps != []
    ensures forall p <- ps :: HoldsBox(ResolveGeometry(NO_RECT, ps), p)
    ensures (forall p <- ps :: HoldsBox(other, p)) ==> Within(ResolveGeometry(NO_RECT, ps), other)
  {
    forall p <- ps ensures HoldsBox(ResolveGeometry(NO_RECT, ps), p) {
      var i :| 0 <= i < |ps| && ps[i] == p;
      assert Lefts(ps)[i] in Lefts(ps) && Tops(ps)[i] in Tops(ps);
      assert Rights(ps)[i] in Rights(ps) && Bottoms(ps)[i] in Bottoms(ps);
    }
    if forall p <- ps :: HoldsBox(other, p) {
      var l :| 0 <= l < |ps| && Lefts(ps)[l] == Min(Lefts(ps));
      var t :| 0 <= t < |ps| && Tops(ps)[t] == Min(Tops(ps));
      var r :| 0 <= r < |ps| && Rights(ps)[r] == Max(Rights(ps));
      var b :| 0 <= b < |ps| && Bottoms(ps)[b] == Max(Bottoms(ps));
      assert HoldsBox(other, ps[l]) && HoldsBox(other, ps[t]) && HoldsBox(other, ps[r]) && HoldsBox(other, ps[b]);
    }
  }
}
