/** `thor::ConcaveShape`: a polygon given by its points, drawn as the triangles of a triangulation
    plus an outline made of one circle and one line per boundary edge. Triangles and outline are
    cached and recomputed lazily, when `Render` finds the matching dirty flag set. The
    triangulation algorithm itself is external: the model takes it as a function from points to
    triangles and boundary edges. */
module Concave {
  import opened VectorAlgebra

  /** `ConcaveShape::Point`: a vertex with its fill and outline colours (colours are opaque). */
  datatype Point = Point(position: Vector2, fillColor: nat, outlineColor: nat)

  /** The triangulation's `Triangle<Point>` and `Edge<Point>`. */
  datatype Triangle = Triangle(a: Point, b: Point, c: Point)
  datatype Edge = Edge(first: Point, second: Point)

  /** What `TriangulatePolygon` hands back: the triangles (to the triangle generator) and the
      boundary edges (to the edge inserter). */
  datatype Triangulation = Triangulation(triangles: seq<Triangle>, edges: seq<Edge>)

  /** One `sf::Shape` vertex: position and colour. */
  datatype ShapeVertex = ShapeVertex(position: Vector2, color: nat)

  /** The `sf::Shape`s the class builds: a filled polygon, the circle `sf::Shape::Circle` and the
      gradient line `ColoredLine` (whose corner positions need a unit vector and are not computed
      here), or a shape adapted from outside. */
  datatype Shape =
    | Polygon(vertices: seq<ShapeVertex>)
    | Circle(center: Vector2, radius: real, color: nat)
    | ColoredLine(start: Vector2, end: Vector2, startColor: nat, endColor: nat, thickness: real)
    | Adapted(id: nat)

  /** The triangle generator's assignment: a polygon of the triangle's three corners, each with
      its fill colour. */
  function TriangleShape(t: Triangle): (s: Shape)
    ensures s.Polygon? && |s.vertices| == 3
  {
    Polygon([ShapeVertex(t.a.position, t.a.fillColor), ShapeVertex(t.b.position, t.b.fillColor),
             ShapeVertex(t.c.position, t.c.fillColor)])
  }

  /** One polygon per triangle, in the order the triangulation produces them. */
  function TriangleShapes(ts: seq<Triangle>): (r: seq<Shape>)
    ensures |r| == |ts|
    ensures forall i :: 0 <= i < |ts| ==> r[i] == TriangleShape(ts[i])
  {
    if ts == [] then [] else TriangleShapes(ts[..|ts| - 1]) + [TriangleShape(ts[|ts| - 1])]
  }

  /** The two outline shapes of one edge: a circle of radius thickness/2 at the first point, and a
      line to the second point of half-thickness thickness/2, coloured by the points' outline
      colours. */
  function EdgeOutline(e: Edge, thickness: real): seq<Shape>
  {
    [Circle(e.first.position, thickness / 2.0, e.first.outlineColor),
     ColoredLine(e.first.position, e.second.position, e.first.outlineColor, e.second.outlineColor, thickness / 2.0)]
  }

  /** The outline of the given edges: two shapes per edge, in edge order. */
  function Outline(edges: seq<Edge>, thickness: real): (r: seq<Shape>)
    ensures |r| == 2 * |edges|
    ensures forall i :: 0 <= i < |edges| ==> r[2 * i..2 * i + 2] == EdgeOutline(edges[i], thickness)
  {
    if edges == [] then []
    else
      var front := Outline(edges[..|edges| - 1], thickness);
      assert forall i :: 0 <= i < |edges| - 1 ==> edges[..|edges| - 1][i] == edges[i];
      front + EdgeOutline(edges[|edges| - 1], thickness)
  }

  /** `FormOutline` as written: nothing for thickness zero, otherwise the new outline appended to
      whatever `mEdgeShapes` held before. */
  function OutlineAsWritten(previous: seq<Shape>, edges: seq<Edge>, thickness: real): (r: seq<Shape>)
    ensures |r| == |previous| + |IntendedOutline(edges, thickness)|
    ensures thickness == 0.0 ==> r == previous
    ensures thickness != 0.0 ==> r[..|previous|] == previous && r[|previous|..] == Outline(edges, thickness)
  {
    if thickness == 0.0 then previous else previous + Outline(edges, thickness)
  }

  /** The outline `FormOutline` is meant to leave: empty for thickness zero ("no outline is
      visible"), otherwise the outline of the current edges and nothing else. */
  function IntendedOutline(edges: seq<Edge>, thickness: real): (r: seq<Shape>)
    ensures |r| == 0 <==> thickness == 0.0 || edges == []
    ensures thickness != 0.0 ==> |r| == 2 * |edges|
  {
    if thickness == 0.0 then [] else Outline(edges, thickness)
  }

  /** The as-written outline keeps shapes from an earlier outline: after an outline was formed with
      one thickness, forming it again with another thickness (or setting the thickness to zero)
      does not give the intended outline whenever there is an edge. */
  lemma StaleOutline(edges: seq<Edge>, before: real, after: real)
    requires edges != [] && before != 0.0
    ensures OutlineAsWritten(IntendedOutline(edges, before), edges, after) != IntendedOutline(edges, after)
  {
    var r := OutlineAsWritten(IntendedOutline(edges, before), edges, after);
    if after == 0.0 {
      assert |r| == 2 * |edges|;
    } else {
      assert |r| == 4 * |edges|;
    }
  }

  /** Where `mEdgeShapes` starts empty, the as-written outline is the intended one. */
  lemma OutlineAsWrittenFromEmpty(edges: seq<Edge>, thickness: real)
    ensures OutlineAsWritten([], edges, thickness) == IntendedOutline(edges, thickness)
  {
  }

  /** The state of a `ConcaveShape` whose dirty flags are honest. A triangle update implies an
      edge update, because new edges need a new outline. For a shape that is drawn (two points or
      more), a clear triangle flag means the cached triangles and edges are those of the current
      points, and a clear edge flag means the cached outline is that of the current edges and
      thickness. */
  ghost predicate CacheHonest(triangulate: seq<Point> -> Triangulation, points: seq<Point>, outlineThickness: real,
                              edges: seq<Edge>, triangleShapes: seq<Shape>, edgeShapes: seq<Shape>,
                              needsTriangleUpdate: bool, needsEdgeUpdate: bool)
  {
    (needsTriangleUpdate ==> needsEdgeUpdate) &&
    (|points| > 1 && !needsTriangleUpdate ==>
      triangleShapes == TriangleShapes(triangulate(points).triangles) && edges == triangulate(points).edges) &&
    (|points| > 1 && !needsEdgeUpdate ==> edgeShapes == IntendedOutline(edges, outlineThickness))
  }

  class ConcaveShape {
    /** The external `TriangulatePolygon`, the same for every shape. */
    const triangulate: seq<Point> -> Triangulation

    /** `mPoints`. */
    var points: seq<Point>
    /** `mOutlineThickness`. */
    var outlineThickness: real
    /** `mEdges`, the boundary edges of the last triangulation. */
    var edges: seq<Edge>
    /** `mTriangleShapes`. */
    var triangleShapes: seq<Shape>
    /** `mEdgeShapes`. */
    var edgeShapes: seq<Shape>
    /** `mNeedsTriangleUpdate`. */
    var needsTriangleUpdate: bool
    /** `mNeedsEdgeUpdate`. */
    var needsEdgeUpdate: bool

    /** The dirty flags are honest (see `CacheHonest`). */
    ghost predicate Valid()
      reads this
    {
      CacheHonest(triangulate, points, outlineThickness, edges, triangleShapes, edgeShapes,
                  needsTriangleUpdate, needsEdgeUpdate)
    }

    /** `ConcaveShape()`: no points, thickness zero, nothing cached, no flag set. */
    constructor (triangulate: seq<Point> -> Triangulation)
      ensures Valid() && this.triangulate == triangulate
      ensures points == [] && outlineThickness == 0.0 && edges == [] && triangleShapes == [] && edgeShapes == []
      ensures !needsTriangleUpdate && !needsEdgeUpdate
    {
      this.triangulate := triangulate;
      points, outlineThickness, edges := [], 0.0, [];
      triangleShapes, edgeShapes := [], [];
      needsTriangleUpdate, needsEdgeUpdate := false, false;
    }

    /** `ConcaveShape(shape)`: the adapted shape as the only triangle shape until the first update,
        its thickness, and its points added one by one. */
    constructor FromShape(triangulate: seq<Point> -> Triangulation, shape: Shape, shapePoints: seq<Point>, thickness: real)
      ensures Valid() && this.triangulate == triangulate
      ensures points == shapePoints && outlineThickness == thickness
      ensures triangleShapes == [shape] && edges == [] && edgeShapes == []
      ensures needsTriangleUpdate && needsEdgeUpdate
    {
      this.triangulate := triangulate;
      points, outlineThickness, edges := [], thickness, [];
      triangleShapes, edgeShapes := [shape], [];
      needsTriangleUpdate, needsEdgeUpdate := true, true;
      new;
      var i := 0;
      while i < |shapePoints|
        invariant i <= |shapePoints| && points == shapePoints[..i]
        invariant Valid() && needsTriangleUpdate && needsEdgeUpdate
        invariant outlineThickness == thickness && triangleShapes == [shape] && edges == [] && edgeShapes == []
      {
        AddPoint(shapePoints[i]);
        assert shapePoints[..i + 1] == shapePoints[..i] + [shapePoints[i]];
        i := i + 1;
      }
      assert shapePoints[..i] == shapePoints;
    }

    /** `AddPoint(position, color, outlineColor)`: appends the point and marks triangles and
        outline for recomputation. */
    method AddPoint(p: Point)
      requires Valid()
      modifies this
      ensures Valid() && points == old(points) + [p]
      ensures needsTriangleUpdate && needsEdgeUpdate
      ensures outlineThickness == old(outlineThickness) && edges == old(edges)
      ensures triangleShapes == old(triangleShapes) && edgeShapes == old(edgeShapes)
    {
      points := points + [p];
      needsTriangleUpdate := true;
      needsEdgeUpdate := true;
    }

    /** `SetOutlineThickness(outlineThickness)`: a thickness that is not negative; marks only the
        outline for recomputation. */
    method SetOutlineThickness(thickness: real)
      requires Valid() && thickness >= 0.0
      modifies this
      ensures Valid() && outlineThickness == thickness
      ensures needsEdgeUpdate && needsTriangleUpdate == old(needsTriangleUpdate)
      ensures points == old(points) && edges == old(edges)
      ensures triangleShapes == old(triangleShapes) && edgeShapes == old(edgeShapes)
    {
      outlineThickness := thickness;
      needsEdgeUpdate := true;
    }

    /** `GetOutlineThickness()`: the last thickness set. */
    function GetOutlineThickness(): (t: real)
      reads this
      ensures t == outlineThickness
    {
      outlineThickness
    }

    /** `Swap(other)`: exchanges all seven members. */
    method Swap(other: ConcaveShape)
      requires Valid() && other.Valid() && other.triangulate == triangulate
      modifies this, other
      ensures Valid() && other.Valid()
      ensures points == old(other.points) && other.points == old(points)
      ensures outlineThickness == old(other.outlineThickness) && other.outlineThickness == old(outlineThickness)
      ensures edges == old(other.edges) && other.edges == old(edges)
      ensures triangleShapes == old(other.triangleShapes) && other.triangleShapes == old(triangleShapes)
      ensures edgeShapes == old(other.edgeShapes) && other.edgeShapes == old(edgeShapes)
      ensures needsTriangleUpdate == old(other.needsTriangleUpdate) && other.needsTriangleUpdate == old(needsTriangleUpdate)
      ensures needsEdgeUpdate == old(other.needsEdgeUpdate) && other.needsEdgeUpdate == old(needsEdgeUpdate)
    {
      if other == this {
        return;
      }
      var p, t, e, ts, es, nt, ne := other.points, other.outlineThickness, other.edges,
        other.triangleShapes, other.edgeShapes, other.needsTriangleUpdate, other.needsEdgeUpdate;
      other.points, other.outlineThickness, other.edges := points, outlineThickness, edges;
      other.triangleShapes, other.edgeShapes := triangleShapes, edgeShapes;
      other.needsTriangleUpdate, other.needsEdgeUpdate := needsTriangleUpdate, needsEdgeUpdate;
      points, outlineThickness, edges, triangleShapes, edgeShapes := p, t, e, ts, es;
      needsTriangleUpdate, needsEdgeUpdate := nt, ne;
    }

    /** `Decompose()`: clears the edges; the triangle generator clears the triangle shapes and
        receives one triangle after the other, the edge inserter appends the boundary edges. */
    method Decompose()
      modifies this
      ensures triangleShapes == TriangleShapes(triangulate(points).triangles)
      ensures edges == triangulate(points).edges
      ensures points == old(points) && outlineThickness == old(outlineThickness) && edgeShapes == old(edgeShapes)
      ensures needsTriangleUpdate == old(needsTriangleUpdate) && needsEdgeUpdate == old(needsEdgeUpdate)
    {
      edges := [];
      triangleShapes := [];
      var result := triangulate(points);
      var i := 0;
      while i < |result.triangles|
        invariant i <= |result.triangles|
        invariant triangleShapes == TriangleShapes(result.triangles[..i]) && edges == []
        invariant points == old(points) && outlineThickness == old(outlineThickness) && edgeShapes == old(edgeShapes)
        invariant needsTriangleUpdate == old(needsTriangleUpdate) && needsEdgeUpdate == old(needsEdgeUpdate)
      {
        assert result.triangles[..i + 1][..i] == result.triangles[..i];
        triangleShapes := triangleShapes + [TriangleShape(result.triangles[i])];
        i := i + 1;
      }
      assert result.triangles[..i] == result.triangles;
      edges := edges + result.edges;
    }

    /** `FormOutline()` as written: for thickness zero it returns at once, otherwise it appends a
        circle and a line per edge to `mEdgeShapes`, which it never clears. */
    method FormOutlineAsWritten()
      modifies this
      ensures edgeShapes == OutlineAsWritten(old(edgeShapes), edges, outlineThickness)
      ensures points == old(points) && outlineThickness == old(outlineThickness) && edges == old(edges)
      ensures triangleShapes == old(triangleShapes)
      ensures needsTriangleUpdate == old(needsTriangleUpdate) && needsEdgeUpdate == old(needsEdgeUpdate)
    {
      if outlineThickness == 0.0 {
        return;
      }
      AppendOutline();
    }

    /** `FormOutline()` with `mEdgeShapes` cleared first: the outline of the current edges, and
        none for thickness zero. */
    method FormOutline()
      modifies this
      ensures edgeShapes == IntendedOutline(edges, outlineThickness)
      ensures points == old(points) && outlineThickness == old(outlineThickness) && edges == old(edges)
      ensures triangleShapes == old(triangleShapes)
      ensures needsTriangleUpdate == old(needsTriangleUpdate) && needsEdgeUpdate == old(needsEdgeUpdate)
    {
      edgeShapes := [];
      if outlineThickness == 0.0 {
        return;
      }
      AppendOutline();
    }

    /** The loop over the edges that both versions of `FormOutline` share. */
    method AppendOutline()
      modifies this
      ensures edgeShapes == old(edgeShapes) + Outline(edges, outlineThickness)
      ensures points == old(points) && outlineThickness == old(outlineThickness) && edges == old(edges)
      ensures triangleShapes == old(triangleShapes)
      ensures needsTriangleUpdate == old(needsTriangleUpdate) && needsEdgeUpdate == old(needsEdgeUpdate)
    {
      var i := 0;
      while i < |edges|
        invariant i <= |edges|
        invariant edgeShapes == old(edgeShapes) + Outline(edges[..i], outlineThickness)
        invariant points == old(points) && outlineThickness == old(outlineThickness) && edges == old(edges)
        invariant triangleShapes == old(triangleShapes)
        invariant needsTriangleUpdate == old(needsTriangleUpdate) && needsEdgeUpdate == old(needsEdgeUpdate)
      {
        var first, second := edges[i].first, edges[i].second;
        assert edges[..i + 1][..i] == edges[..i];
        edgeShapes := edgeShapes + [Circle(first.position, outlineThickness / 2.0, first.outlineColor)];
        edgeShapes := edgeShapes + [ColoredLine(first.position, second.position, first.outlineColor, second.outlineColor, outlineThickness / 2.0)];
        i := i + 1;
      }
      assert edges[..i] == edges;
    }

    /** `Render(target, renderer)`, returning the shapes it draws. A shape with fewer than two
        points draws nothing and touches nothing. Otherwise the triangles are recomputed if their
        flag is set and the outline if its flag is set; both flags are cleared, and the shapes
        drawn are then exactly the triangles and the outline of the current points and thickness. */
    method Render() returns (drawn: seq<Shape>)
      requires Valid()
      modifies this
      ensures Valid()
      ensures |old(points)| <= 1 ==> (drawn == [] &&
        edges == old(edges) && triangleShapes == old(triangleShapes) && edgeShapes == old(edgeShapes) &&
        needsTriangleUpdate == old(needsTriangleUpdate) && needsEdgeUpdate == old(needsEdgeUpdate))
      ensures |old(points)| > 1 ==> !needsTriangleUpdate && !needsEdgeUpdate
      ensures |old(points)| > 1 ==>
        drawn == TriangleShapes(triangulate(points).triangles) +
                 IntendedOutline(triangulate(points).edges, outlineThickness)
      ensures |old(points)| > 1 && !old(needsTriangleUpdate) ==> triangleShapes == old(triangleShapes) && edges == old(edges)
      ensures |old(points)| > 1 && !old(needsEdgeUpdate) ==> edgeShapes == old(edgeShapes)
      ensures points == old(points) && outlineThickness == old(outlineThickness)
    {
      if |points| <= 1 {
        return [];
      }
      if needsEdgeUpdate || needsTriangleUpdate {
        if needsTriangleUpdate {
          Decompose();
        }
        if needsEdgeUpdate {
          FormOutline();
        }
        needsEdgeUpdate := false;
        needsTriangleUpdate := false;
      }
      drawn := triangleShapes + edgeShapes;
    }
  }
}
