/** The graphical expressions of one staff line as the alignment pass sees
    them, the engraving rules it reads, and the foreign operations it calls. */
module Expressions {
  import opened Geometry

  datatype Option<+T> = None | Some(value: T)

  /** Side of the staff an expression is placed on. Only equality of
      placements is ever tested. */
  datatype Placement = Above | Below

  /** The run-time class of a graphical expression, as far as the pass tests it. */
  datatype Kind =
    | VexFlowContinuous(isVerbal: bool)    // VexFlowContinuousDynamicExpression: can shift and squeeze
    | GraphicalContinuous(isVerbal: bool)  // another GraphicalContinuousDynamicExpression
    | OtherExpression                      // instantaneous dynamics, unknown expressions, ...

  /** A non-verbal continuous dynamic (a wedge), the kind whose presence
      makes a group eligible for alignment. */
  predicate IsWedge(k: Kind)
  {
    (k.VexFlowContinuous? || k.GraphicalContinuous?) && !k.isVerbal
  }

  /** Only VexFlow continuous dynamics are shifted through shiftYPosition and
      have a squeeze operation. */
  predicate CanSqueeze(k: Kind)
  {
    k.VexFlowContinuous?
  }

  /** One entry of the staff line's AbstractExpressions list. `hasSource` is
      false when the entry or its SourceExpression is undefined. */
  datatype Expression = Expression(placement: Option<Placement>, hasSource: bool,
                                   kind: Kind, box: Box)

  /** DynamicExpressionMaxDistance and DynamicExpressionSpacer of the engraving rules. */
  datatype EngravingRules = EngravingRules(maxDistance: real, spacer: real)

  /** Operations of other classes that the pass calls and whose internals are
      not part of this model:
      - centerY: BoundingBox.Center.y;
      - shiftY: shiftYPosition(dy) followed by calcPsi() on a VexFlow continuous dynamic;
      - squeeze: squeeze(delta) on a VexFlow continuous dynamic;
      - boundingBox: the border margins calculateBoundingBox() recomputes.
      shiftY and squeeze are given the expression's index on the staff line
      as well as its current box, so that each dynamic may react according
      to its own attributes (its wedge type, its lines, ...), which the pass
      never changes. */
  datatype Collaborators = Collaborators(
    centerY: Box -> real,
    shiftY: (nat, Box, real) -> Box,
    squeeze: (nat, Box, real) -> Box,
    boundingBox: Box -> Margins)

  /** Which neighbour's overlap a squeeze request was computed from. */
  datatype Neighbour = Next | Prev

  /** A call the pass makes into a VexFlow continuous dynamic, naming the
      expression by its index on the staff line. */
  datatype Request =
    | ShiftY(expr: nat, dy: real)
    | Squeeze(expr: nat, delta: real, against: Neighbour)

  /** Two staff lines that differ at most in the boxes of their expressions. */
  predicate OnlyBoxesDiffer(a: seq<Expression>, b: seq<Expression>)
  {
    && |a| == |b|
    && forall i :: 0 <= i < |a| ==>
         a[i].placement == b[i].placement && a[i].hasSource == b[i].hasSource && a[i].kind == b[i].kind
  }
}
