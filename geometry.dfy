/** Box-edge arithmetic of the alignment pass: the distance and the overlap
    between two bounding boxes, each a relative position plus four border
    margins. Coordinates are modelled as exact reals. */
module Geometry {

  /** The part of a BoundingBox the alignment pass reads and writes:
      RelativePosition (relX, relY) and the four border margins. */
  datatype Box = Box(relX: real, relY: real,
                     marginLeft: real, marginRight: real,
                     marginTop: real, marginBottom: real)

  /** The four border margins alone, as a bounding-box recomputation yields them. */
  datatype Margins = Margins(left: real, right: real, top: real, bottom: real)

  datatype Point = Point(x: real, y: real)

  function LeftBorder(b: Box): real { b.relX + b.marginLeft }
  function RightBorder(b: Box): real { b.relX + b.marginRight }
  function TopBorder(b: Box): real { b.relY + b.marginTop }
  function BottomBorder(b: Box): real { b.relY + b.marginBottom }

  /** A box at the same relative position with new border margins. */
  function WithMargins(b: Box, m: Margins): (r: Box)
    ensures r.relX == b.relX && r.relY == b.relY
    ensures LeftBorder(r) == b.relX + m.left && RightBorder(r) == b.relX + m.right
    ensures TopBorder(r) == b.relY + m.top && BottomBorder(r) == b.relY + m.bottom
  {
    b.(marginLeft := m.left, marginRight := m.right, marginTop := m.top, marginBottom := m.bottom)
  }

  /** getDistance: the gap from a's right and bottom borders to b's left and
      top borders. Moving a's trailing border by the result reaches b's
      leading border; a negative component means the boxes overlap there. */
  function Distance(a: Box, b: Box): (d: Point)
    ensures RightBorder(a) + d.x == LeftBorder(b)
    ensures BottomBorder(a) + d.y == TopBorder(b)
    ensures d.x < 0.0 <==> LeftBorder(b) < RightBorder(a)
    ensures d.y < 0.0 <==> TopBorder(b) < BottomBorder(a)
  {
    var rightBorderA := a.relX + a.marginRight;
    var leftBorderB := b.relX + b.marginLeft;
    var bottomBorderA := a.relY + a.marginBottom;
    var topBorderB := b.relY + b.marginTop;
    Point(leftBorderB - rightBorderA, topBorderB - bottomBorderA)
  }

  /** getOverlap: how far a's right and bottom borders reach past b's left
      and top borders; componentwise the negation of Distance(a, b). */
  function Overlap(a: Box, b: Box): (o: Point)
    ensures o.x == -Distance(a, b).x && o.y == -Distance(a, b).y
    ensures o.x > 0.0 <==> RightBorder(a) > LeftBorder(b)
    ensures o.y > 0.0 <==> BottomBorder(a) > TopBorder(b)
  {
    Point((a.relX + a.marginRight) - (b.relX + b.marginLeft),
          (a.relY + a.marginBottom) - (b.relY + b.marginTop))
  }
}
