/** The AlignmentManager class: alignDynamicExpressions works in place on
    the staff line's expressions, held in an array, and returns the calls it
    made into VexFlow continuous dynamics. Each loop of the pass is a method
    proved equal to the function of the Grouping or Alignment module that
    specifies it. */
module Manager {
  import opened Geometry
  import opened Expressions
  import opened Grouping
  import opened Alignment

  /** The grouping loop and the final push of the open accumulator. */
  method FindGroups(line: array<Expression>, maxDistance: real) returns (groups: seq<seq<nat>>)
    ensures groups == Groups(line[..], maxDistance)
  {
    groups := [];
    var tmpList: seq<nat> := [];
    var aeIdx := 0;
    while aeIdx < line.Length - 1
      invariant aeIdx <= PairCount(line[..])
      invariant Scan(groups, tmpList) == ScanPairs(line[..], maxDistance, aeIdx)
    {
      var current := line[aeIdx];
      var next := line[aeIdx + 1];
      if !current.hasSource || !next.hasSource {
        aeIdx := aeIdx + 1;
        continue;
      }
      if current.placement == next.placement {
        var dist := Distance(current.box, next.box);
        if dist.x < maxDistance {
          if aeIdx !in tmpList {
            tmpList := tmpList + [aeIdx];
          }
          tmpList := tmpList + [aeIdx + 1];
        } else {
          groups := groups + [tmpList];
          tmpList := [];
        }
      }
      aeIdx := aeIdx + 1;
    }
    groups := groups + [tmpList];
  }

  /** The flag loop: does the group hold a non-verbal continuous dynamic? */
  method HasWedges(line: array<Expression>, group: seq<nat>) returns (hasWedges: bool)
    requires ValidGroup(group, line.Length)
    ensures hasWedges == GroupHasWedge(line[..], group)
  {
    hasWedges := false;
    var j := 0;
    while j < |group|
      invariant j <= |group|
      invariant forall m :: 0 <= m < j ==> !IsWedge(line[group[m]].kind)
    {
      var ae := line[group[j]];
      if (ae.kind.VexFlowContinuous? || ae.kind.GraphicalContinuous?) && !ae.kind.isVerbal {
        hasWedges := true;
        break;
      }
      j := j + 1;
    }
  }

  /** Moves expression x of the line by -centerOffset, appending to
      `requests` the call it makes into a VexFlow continuous dynamic. */
  method ShiftMember(line: array<Expression>, x: nat, centerOffset: real, vf: Collaborators,
                     requests: seq<Request>) returns (issued: seq<Request>)
    requires x < line.Length
    modifies line
    ensures Layout(line[..], issued) == Shifted(Layout(old(line[..]), requests), x, centerOffset, vf)
  {
    var e := line[x];
    if e.kind.VexFlowContinuous? {
      line[x] := e.(box := vf.shiftY(x, e.box, -centerOffset));
      issued := requests + [ShiftY(x, -centerOffset)];
    } else {
      var moved := e.box.(relY := e.box.relY - centerOffset * 0.8);
      line[x] := e.(box := WithMargins(moved, vf.boundingBox(moved)));
      issued := requests;
    }
  }

  /** Squeezes expression x by the negated overlap with expression nxt plus the spacer. */
  method SqueezeRight(line: array<Expression>, x: nat, nxt: nat, rules: EngravingRules, vf: Collaborators,
                      requests: seq<Request>) returns (issued: seq<Request>)
    requires x < line.Length && nxt < line.Length
    modifies line
    ensures Layout(line[..], issued) == SqueezeToNext(Layout(old(line[..]), requests), x, nxt, rules, vf)
  {
    var overlapRight := Overlap(line[x].box, line[nxt].box);
    var delta := -(overlapRight.x + rules.spacer);
    line[x] := line[x].(box := vf.squeeze(x, line[x].box, delta));
    issued := requests + [Squeeze(x, delta, Next)];
  }

  /** Squeezes expression x by the overlap of expression prev with it plus the spacer. */
  method SqueezeLeft(line: array<Expression>, prev: nat, x: nat, rules: EngravingRules, vf: Collaborators,
                     requests: seq<Request>) returns (issued: seq<Request>)
    requires x < line.Length && prev < line.Length
    modifies line
    ensures Layout(line[..], issued) == SqueezeToPrev(Layout(old(line[..]), requests), prev, x, rules, vf)
  {
    var overlapLeft := Overlap(line[prev].box, line[x].box);
    var delta := overlapLeft.x + rules.spacer;
    line[x] := line[x].(box := vf.squeeze(x, line[x].box, delta));
    issued := requests + [Squeeze(x, delta, Prev)];
  }

  /** The body of the member loop for member k of the group. */
  method AlignMember(line: array<Expression>, group: seq<nat>, k: nat, centerYs: seq<real>, yIdeal: real,
                     rules: EngravingRules, vf: Collaborators, requests: seq<Request>) returns (issued: seq<Request>)
    requires ValidGroup(group, line.Length) && k < |group| == |centerYs|
    modifies line
    ensures Layout(line[..], issued)
            == MemberStep(Layout(old(line[..]), requests), group, k, centerYs, yIdeal, rules, vf)
  {
    var x := group[k];
    var centerOffset := centerYs[k] - yIdeal;
    issued := ShiftMember(line, x, centerOffset, vf, requests);
    ghost var shifted := Layout(line[..], issued);
    if CanSqueeze(line[x].kind) {
      if k < |group| - 1 {
        issued := SqueezeRight(line, x, group[k + 1], rules, vf, issued);
      }
      if k > 0 {
        issued := SqueezeLeft(line, group[k - 1], x, rules, vf, issued);
      }
      assert Layout(line[..], issued) == Squeezes(shifted, group, k, rules, vf);
    }
  }

  /** Aligns one group that holds a wedge: captures the centres, takes
      their maximum and runs the member loop. Returns the group's requests. */
  method AlignGroup(line: array<Expression>, group: seq<nat>, rules: EngravingRules, vf: Collaborators)
    returns (requests: seq<Request>)
    requires ValidGroup(group, line.Length)
    modifies line
    ensures Layout(line[..], requests) == AlignedGroup(old(line[..]), group, rules, vf)
  {
    requests := [];
    if |group| > 0 {
      var centerYs := CenterYs(line[..], group, vf);
      var yIdeal := MaxOf(centerYs);
      ghost var start := Layout(line[..], []);
      var exprIdx := 0;
      while exprIdx < |group|
        invariant exprIdx <= |group|
        invariant Layout(line[..], requests) == AlignMembers(start, group, centerYs, yIdeal, rules, vf, exprIdx)
      {
        requests := AlignMember(line, group, exprIdx, centerYs, yIdeal, rules, vf, requests);
        AlignMembersStep(start, group, centerYs, yIdeal, rules, vf, exprIdx + 1);
        exprIdx := exprIdx + 1;
      }
    }
  }

  /** Aligns all groups of the line in order, skipping those without a wedge. */
  method AlignAllGroups(line: array<Expression>, groups: seq<seq<nat>>, rules: EngravingRules, vf: Collaborators)
    returns (requests: seq<Request>)
    requires forall g :: 0 <= g < |groups| ==> ValidGroup(groups[g], line.Length)
    modifies line
    ensures Layout(line[..], requests) == AlignGroups(Layout(old(line[..]), []), groups, PassOf(rules, vf), |groups|)
  {
    requests := [];
    ghost var start := Layout(line[..], []);
    var g := 0;
    while g < |groups|
      invariant g <= |groups|
      invariant Layout(line[..], requests) == AlignGroups(start, groups, PassOf(rules, vf), g)
    {
      var aes := groups[g];
      var hasWedges := HasWedges(line, aes);
      if hasWedges {
        var issued := AlignGroup(line, aes, rules, vf);
        requests := requests + issued;
      } else {
        assert requests + [] == requests;
      }
      g := g + 1;
    }
  }

  /** The alignment manager of one staff line. The engraving rules the
      source reads through the staff line's music system are given to the
      constructor. */
  class AlignmentManager {
    const parentStaffline: array<Expression>
    const rules: EngravingRules

    constructor(staffline: array<Expression>, rules: EngravingRules)
      ensures parentStaffline == staffline && this.rules == rules
    {
      parentStaffline := staffline;
      this.rules := rules;
    }

    /** Groups close expressions of the staff line, then aligns every group
        holding a wedge, in place; returns the calls made into VexFlow
        continuous dynamics, in order. */
    method AlignDynamicExpressions(vf: Collaborators) returns (requests: seq<Request>)
      modifies parentStaffline
      ensures Layout(parentStaffline[..], requests) == Aligned(old(parentStaffline[..]), rules, vf)
    {
      var groups := FindGroups(parentStaffline, rules.maxDistance);
      GroupsIndexLine(parentStaffline[..], rules.maxDistance);
      requests := AlignAllGroups(parentStaffline, groups, rules, vf);
    }
  }
}
