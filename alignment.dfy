/** The second and third passes of alignDynamicExpressions, as functions of
    the staff line: every group holding a wedge is snapped vertically to the
    lowest centre among its members, and each VexFlow continuous dynamic in
    it asks for a horizontal squeeze against its right and left neighbours.
    The calls into VexFlow continuous dynamics are recorded as Requests. */
module Alignment {
  import opened Geometry
  import opened Expressions
  import opened Grouping

  /** The staff line's expressions and the requests issued so far. */
  datatype Layout = Layout(line: seq<Expression>, requests: seq<Request>)

  /** The group holds a non-verbal continuous dynamic. */
  predicate GroupHasWedge(line: seq<Expression>, group: seq<nat>)
    requires ValidGroup(group, |line|)
  {
    exists j :: 0 <= j < |group| && IsWedge(line[group[j]].kind)
  }

  /** Centre y of every member, in group order, read before anything moves. */
  function CenterYs(line: seq<Expression>, group: seq<nat>, vf: Collaborators): (cs: seq<real>)
    requires ValidGroup(group, |line|)
    ensures |cs| == |group|
  {
    seq(|group|, j requires 0 <= j < |group| => vf.centerY(line[group[j]].box))
  }

  /** Math.max of a non-empty list. */
  function MaxOf(s: seq<real>): (m: real)
    requires |s| > 0
    ensures m in s
    ensures forall j :: 0 <= j < |s| ==> s[j] <= m
  {
    if |s| == 1 then s[0]
    else
      var rest := MaxOf(s[1..]);
      assert forall j :: 1 <= j < |s| ==> s[j] == s[1..][j - 1];
      if s[0] >= rest then s[0] else rest
  }

  /** The requests of rs that name expression x, in order. */
  function RequestsFor(rs: seq<Request>, x: nat): (r: seq<Request>)
    ensures forall j :: 0 <= j < |r| ==> r[j].expr == x
    ensures |r| <= |rs|
  {
    if |rs| == 0 then []
    else RequestsFor(rs[..|rs| - 1], x) + (if rs[|rs| - 1].expr == x then [rs[|rs| - 1]] else [])
  }

  /** `after` differs from `before` only in the boxes of the expressions in
      `touched`, and extends its requests by requests naming only those. */
  ghost predicate Touches(before: Layout, after: Layout, touched: seq<nat>)
  {
    && OnlyBoxesDiffer(before.line, after.line)
    && (forall i :: 0 <= i < |before.line| && i !in touched ==> after.line[i] == before.line[i])
    && before.requests <= after.requests
    && (forall j :: |before.requests| <= j < |after.requests| ==> after.requests[j].expr in touched)
  }

  // ---------------------------------------------------------------------
  // One member of an aligned group

  /** Moves expression idx by -centerOffset: a VexFlow continuous dynamic
      through shiftYPosition and calcPsi, anything else by shifting its
      relative y by 0.8 of that and recomputing its bounding box. */
  function Shifted(st: Layout, idx: nat, centerOffset: real, vf: Collaborators): (r: Layout)
    requires idx < |st.line|
    ensures |r.line| == |st.line|
  {
    var e := st.line[idx];
    if e.kind.VexFlowContinuous? then
      Layout(st.line[idx := e.(box := vf.shiftY(idx, e.box, -centerOffset))],
             st.requests + [ShiftY(idx, -centerOffset)])
    else
      var moved := e.box.(relY := e.box.relY - centerOffset * 0.8);
      Layout(st.line[idx := e.(box := WithMargins(moved, vf.boundingBox(moved)))], st.requests)
  }

  /** Squeezes expression idx by -(overlap with expression nxt + spacer). */
  function SqueezeToNext(st: Layout, idx: nat, nxt: nat, rules: EngravingRules, vf: Collaborators): (r: Layout)
    requires idx < |st.line| && nxt < |st.line|
    ensures |r.line| == |st.line|
  {
    var e := st.line[idx];
    var delta := -(Overlap(e.box, st.line[nxt].box).x + rules.spacer);
    Layout(st.line[idx := e.(box := vf.squeeze(idx, e.box, delta))], st.requests + [Squeeze(idx, delta, Next)])
  }

  /** Squeezes expression idx by the overlap of expression prev with it plus spacer. */
  function SqueezeToPrev(st: Layout, prev: nat, idx: nat, rules: EngravingRules, vf: Collaborators): (r: Layout)
    requires idx < |st.line| && prev < |st.line|
    ensures |r.line| == |st.line|
  {
    var e := st.line[idx];
    var delta := Overlap(st.line[prev].box, e.box).x + rules.spacer;
    Layout(st.line[idx := e.(box := vf.squeeze(idx, e.box, delta))], st.requests + [Squeeze(idx, delta, Prev)])
  }

  /** Squeezes member k against the next member, if any, and then against
      the previous one, if any, each measured on the boxes as they are at
      that moment. */
  function Squeezes(st: Layout, group: seq<nat>, k: nat, rules: EngravingRules, vf: Collaborators): (r: Layout)
    requires ValidGroup(group, |st.line|) && k < |group|
    ensures |r.line| == |st.line|
  {
    var idx := group[k];
    var right := if k < |group| - 1 then SqueezeToNext(st, idx, group[k + 1], rules, vf) else st;
    if k > 0 then SqueezeToPrev(right, group[k - 1], idx, rules, vf) else right
  }

  /** Iteration k of the member loop: shift member k, then squeeze it if it
      can be squeezed. */
  function MemberStep(st: Layout, group: seq<nat>, k: nat, centerYs: seq<real>, yIdeal: real,
                      rules: EngravingRules, vf: Collaborators): (r: Layout)
    requires ValidGroup(group, |st.line|) && k < |group| == |centerYs|
    ensures |r.line| == |st.line|
  {
    var shifted := Shifted(st, group[k], centerYs[k] - yIdeal, vf);
    if CanSqueeze(st.line[group[k]].kind) then Squeezes(shifted, group, k, rules, vf) else shifted
  }

  /** The member loop after its first k iterations. */
  function AlignMembers(st: Layout, group: seq<nat>, centerYs: seq<real>, yIdeal: real,
                        rules: EngravingRules, vf: Collaborators, k: nat): (r: Layout)
    requires ValidGroup(group, |st.line|) && k <= |group| == |centerYs|
    ensures |r.line| == |st.line|
  {
    if k == 0 then st
    else MemberStep(AlignMembers(st, group, centerYs, yIdeal, rules, vf, k - 1),
                    group, k - 1, centerYs, yIdeal, rules, vf)
  }

  // ---------------------------------------------------------------------
  // Groups and the staff line

  /** A group with a wedge: capture the centres, take their maximum, run the
      member loop. The second component lists only this group's requests. */
  function AlignedGroup(line: seq<Expression>, group: seq<nat>, rules: EngravingRules, vf: Collaborators): (r: Layout)
    requires ValidGroup(group, |line|)
    ensures |r.line| == |line|
  {
    if |group| == 0 then Layout(line, [])
    else
      var centerYs := CenterYs(line, group, vf);
      AlignMembers(Layout(line, []), group, centerYs, MaxOf(centerYs), rules, vf, |group|)
  }

  /** One iteration of the loop over groups: groups without a wedge are skipped. */
  function GroupPass(line: seq<Expression>, group: seq<nat>, rules: EngravingRules, vf: Collaborators): (r: Layout)
    requires ValidGroup(group, |line|)
    ensures |r.line| == |line|
  {
    if GroupHasWedge(line, group) then AlignedGroup(line, group, rules, vf) else Layout(line, [])
  }

  /** A group pass as the loop over groups runs it: a function of the line
      the earlier groups left and of the group. */
  type PassFn = (seq<Expression>, seq<nat>) -> Layout

  /** GroupPass as a PassFn. The groups of a staff line always index it
      (GroupsIndexLine), so the loop never takes the second branch. */
  function PassOf(rules: EngravingRules, vf: Collaborators): PassFn
  {
    (l: seq<Expression>, group: seq<nat>) =>
      if ValidGroup(group, |l|) then GroupPass(l, group, rules, vf) else Layout(l, [])
  }

  /** The pass keeps the length of the line. */
  ghost predicate KeepsLength(pass: PassFn)
  {
    forall l, group {:trigger pass(l, group)} :: |pass(l, group).line| == |l|
  }

  /** The pass leaves every expression outside its group alone and issues
      no request naming one. */
  ghost predicate LocalPass(pass: PassFn)
  {
    && (forall l, group, x: nat {:trigger pass(l, group).line[x]} ::
          ValidGroup(group, |l|) && x < |l| && x < |pass(l, group).line| && x !in group ==>
          pass(l, group).line[x] == l[x])
    && (forall l, group, x: nat {:trigger RequestsFor(pass(l, group).requests, x)} ::
          ValidGroup(group, |l|) && x !in group ==> RequestsFor(pass(l, group).requests, x) == [])
  }

  /** The pass changes nothing but boxes. */
  ghost predicate KeepsKinds(pass: PassFn)
  {
    forall l, group {:trigger pass(l, group)} :: ValidGroup(group, |l|) ==> OnlyBoxesDiffer(l, pass(l, group).line)
  }

  /** The loop over groups after its first g iterations: each runs `pass` on
      the line the previous ones left, and appends the requests it issued. */
  function AlignGroups(st: Layout, groups: seq<seq<nat>>, pass: PassFn, g: nat): (r: Layout)
    requires g <= |groups| && KeepsLength(pass)
    ensures |r.line| == |st.line|
  {
    if g == 0 then st
    else
      var prev := AlignGroups(st, groups, pass, g - 1);
      var p := pass(prev.line, groups[g - 1]);
      Layout(p.line, prev.requests + p.requests)
  }

  /** alignDynamicExpressions: the staff line after all three passes, with
      every request issued, in order. */
  function Aligned(line: seq<Expression>, rules: EngravingRules, vf: Collaborators): (r: Layout)
    ensures |r.line| == |line|
  {
    var groups := Groups(line, rules.maxDistance);
    PassOfLocal(rules, vf);
    AlignGroups(Layout(line, []), groups, PassOf(rules, vf), |groups|)
  }

  // ---------------------------------------------------------------------
  // Frames

  lemma TouchesTrans(a: Layout, b: Layout, c: Layout, t: seq<nat>, u: seq<nat>)
    requires Touches(a, b, t) && Touches(b, c, u)
    ensures Touches(a, c, t + u)
  {
    forall j | |a.requests| <= j < |c.requests|
      ensures c.requests[j].expr in t + u
    {
      if j < |b.requests| {
        assert c.requests[j] == b.requests[j];
      }
    }
  }

  lemma TouchesSnoc(a: Layout, b: Layout, c: Layout, group: seq<nat>, lo: nat, hi: nat)
    requires lo < hi <= |group|
    requires Touches(a, b, group[lo..hi - 1]) && Touches(b, c, [group[hi - 1]])
    ensures Touches(a, c, group[lo..hi])
  {
    TouchesTrans(a, b, c, group[lo..hi - 1], [group[hi - 1]]);
    assert group[lo..hi - 1] + [group[hi - 1]] == group[lo..hi];
  }

  lemma TouchesWeaken(a: Layout, b: Layout, t: seq<nat>, u: seq<nat>)
    requires Touches(a, b, t)
    requires forall x :: x in t ==> x in u
    ensures Touches(a, b, u)
  {
  }

  lemma StepsTouch(st: Layout, idx: nat, other: nat, centerOffset: real, rules: EngravingRules, vf: Collaborators)
    requires idx < |st.line| && other < |st.line|
    ensures Touches(st, Shifted(st, idx, centerOffset, vf), [idx])
    ensures Touches(st, SqueezeToNext(st, idx, other, rules, vf), [idx])
    ensures Touches(st, SqueezeToPrev(st, other, idx, rules, vf), [idx])
  {
  }

  lemma SqueezesTouch(st: Layout, group: seq<nat>, k: nat, rules: EngravingRules, vf: Collaborators)
    requires ValidGroup(group, |st.line|) && k < |group|
    ensures Touches(st, Squeezes(st, group, k, rules, vf), [group[k]])
  {
    var idx := group[k];
    var right := if k < |group| - 1 then SqueezeToNext(st, idx, group[k + 1], rules, vf) else st;
    if k < |group| - 1 {
      StepsTouch(st, idx, group[k + 1], 0.0, rules, vf);
    }
    if k > 0 {
      var left := SqueezeToPrev(right, group[k - 1], idx, rules, vf);
      StepsTouch(right, idx, group[k - 1], 0.0, rules, vf);
      TouchesTrans(st, right, left, [idx], [idx]);
      TouchesWeaken(st, left, [idx, idx], [idx]);
    }
  }

  lemma MemberStepTouches(st: Layout, group: seq<nat>, k: nat, centerYs: seq<real>, yIdeal: real,
                          rules: EngravingRules, vf: Collaborators)
    requires ValidGroup(group, |st.line|) && k < |group| == |centerYs|
    ensures Touches(st, MemberStep(st, group, k, centerYs, yIdeal, rules, vf), [group[k]])
  {
    var idx := group[k];
    var shifted := Shifted(st, idx, centerYs[k] - yIdeal, vf);
    StepsTouch(st, idx, idx, centerYs[k] - yIdeal, rules, vf);
    if CanSqueeze(st.line[idx].kind) {
      var squeezed := Squeezes(shifted, group, k, rules, vf);
      SqueezesTouch(shifted, group, k, rules, vf);
      TouchesTrans(st, shifted, squeezed, [idx], [idx]);
      TouchesWeaken(st, squeezed, [idx, idx], [idx]);
    }
  }

  /** Iterations lo .. hi - 1 of the member loop change only members lo .. hi - 1. */
  lemma {:induction false} MembersFrame(st: Layout, group: seq<nat>, centerYs: seq<real>, yIdeal: real,
                                        rules: EngravingRules, vf: Collaborators, lo: nat, hi: nat)
    requires ValidGroup(group, |st.line|) && lo <= hi <= |group| == |centerYs|
    ensures Touches(AlignMembers(st, group, centerYs, yIdeal, rules, vf, lo),
                    AlignMembers(st, group, centerYs, yIdeal, rules, vf, hi), group[lo..hi])
  {
    if hi > lo {
      var a := AlignMembers(st, group, centerYs, yIdeal, rules, vf, lo);
      var b := AlignMembers(st, group, centerYs, yIdeal, rules, vf, hi - 1);
      var c := AlignMembers(st, group, centerYs, yIdeal, rules, vf, hi);
      assert Touches(a, b, group[lo..hi - 1]) by {
        MembersFrame(st, group, centerYs, yIdeal, rules, vf, lo, hi - 1);
      }
      assert Touches(b, c, [group[hi - 1]]) by {
        MemberStepTouches(b, group, hi - 1, centerYs, yIdeal, rules, vf);
      }
      TouchesSnoc(a, b, c, group, lo, hi);
    }
  }

  lemma GroupPassTouches(line: seq<Expression>, group: seq<nat>, rules: EngravingRules, vf: Collaborators)
    requires ValidGroup(group, |line|)
    ensures Touches(Layout(line, []), GroupPass(line, group, rules, vf), group)
  {
    if GroupHasWedge(line, group) && |group| > 0 {
      var cs := CenterYs(line, group, vf);
      MembersFrame(Layout(line, []), group, cs, MaxOf(cs), rules, vf, 0, |group|);
      assert group[0..|group|] == group;
    }
  }

  // ---------------------------------------------------------------------
  // Requests

  lemma {:induction false} RequestsForAppend(a: seq<Request>, b: seq<Request>, x: nat)
    ensures RequestsFor(a + b, x) == RequestsFor(a, x) + RequestsFor(b, x)
    decreases |b|
  {
    if |b| == 0 {
      assert a + b == a;
    } else {
      var c := b[..|b| - 1];
      assert (a + b)[..|a + b| - 1] == a + c;
      assert (a + b)[|a + b| - 1] == b[|b| - 1];
      RequestsForAppend(a, c, x);
    }
  }

  lemma {:induction false} RequestsForNone(rs: seq<Request>, x: nat)
    requires forall j :: 0 <= j < |rs| ==> rs[j].expr != x
    ensures RequestsFor(rs, x) == []
    decreases |rs|
  {
    if |rs| > 0 {
      RequestsForNone(rs[..|rs| - 1], x);
    }
  }

  /** The requests added from `before` to `after` do not name an untouched expression. */
  lemma UntouchedRequests(before: Layout, after: Layout, t: seq<nat>, x: nat)
    requires Touches(before, after, t) && x !in t
    ensures RequestsFor(after.requests, x) == RequestsFor(before.requests, x)
  {
    var rest := after.requests[|before.requests|..];
    assert after.requests == before.requests + rest;
    forall j | 0 <= j < |rest| ensures rest[j].expr != x {
      assert rest[j] == after.requests[|before.requests| + j];
    }
    RequestsForNone(rest, x);
    RequestsForAppend(before.requests, rest, x);
  }

  /** The requests added from `before` to `after` all name x. */
  lemma OwnRequests(before: Layout, after: Layout, x: nat)
    requires Touches(before, after, [x])
    ensures RequestsFor(after.requests, x) == RequestsFor(before.requests, x) + after.requests[|before.requests|..]
  {
    var rest := after.requests[|before.requests|..];
    assert after.requests == before.requests + rest;
    forall j | 0 <= j < |rest| ensures rest[j].expr == x {
      assert rest[j] == after.requests[|before.requests| + j];
    }
    RequestsForAll(rest, x);
    RequestsForAppend(before.requests, rest, x);
  }

  // ---------------------------------------------------------------------
  // Properties of one group

  lemma OutsideSlice(group: seq<nat>, lo: nat, hi: nat, m: nat)
    requires Increasing(group) && lo <= hi <= |group| && m < |group| && (m < lo || hi <= m)
    ensures group[m] !in group[lo..hi]
  {
    forall j | 0 <= j < hi - lo
      ensures group[lo..hi][j] != group[m]
    {
      assert group[lo..hi][j] == group[lo + j];
    }
  }

  /** Members before k do not move member k's box nor the next member's. */
  lemma EntryBoxes(line: seq<Expression>, group: seq<nat>, rules: EngravingRules, vf: Collaborators, k: nat)
    requires ValidGroup(group, |line|) && k < |group|
    ensures var cs := CenterYs(line, group, vf);
      var before := AlignMembers(Layout(line, []), group, cs, MaxOf(cs), rules, vf, k);
      && before.line[group[k]] == line[group[k]]
      && (k + 1 < |group| ==> before.line[group[k + 1]] == line[group[k + 1]])
  {
    var cs := CenterYs(line, group, vf);
    MembersFrame(Layout(line, []), group, cs, MaxOf(cs), rules, vf, 0, k);
    OutsideSlice(group, 0, k, k);
    if k + 1 < |group| {
      OutsideSlice(group, 0, k, k + 1);
    }
  }

  /** Three consecutive stretches of the member loop, the middle one being
      member k's own iteration: what member k ends with and which requests
      name it. */
  lemma StretchLines(st: Layout, before: Layout, after: Layout, pass: Layout, group: seq<nat>, k: nat)
    requires Increasing(group) && k < |group| && group[k] < |st.line|
    requires Touches(before, after, group[k..k + 1])
    requires Touches(after, pass, group[k + 1..|group|])
    requires |before.line| == |st.line|
    ensures pass.line[group[k]] == after.line[group[k]]
    ensures k > 0 ==> pass.line[group[k - 1]] == before.line[group[k - 1]]
  {
    OutsideSlice(group, k + 1, |group|, k);
    if k > 0 {
      OutsideSlice(group, k + 1, |group|, k - 1);
      OutsideSlice(group, k, k + 1, k - 1);
    }
  }

  lemma StretchRequests(st: Layout, before: Layout, after: Layout, pass: Layout, group: seq<nat>, k: nat)
    requires Increasing(group) && k < |group| && st.requests == []
    requires Touches(st, before, group[0..k])
    requires Touches(before, after, group[k..k + 1])
    requires Touches(after, pass, group[k + 1..|group|])
    ensures |before.requests| <= |after.requests|
    ensures RequestsFor(pass.requests, group[k]) == after.requests[|before.requests|..]
  {
    var x := group[k];
    assert group[k..k + 1] == [x];
    assert RequestsFor(before.requests, x) == [] by {
      OutsideSlice(group, 0, k, k);
      UntouchedRequests(st, before, group[0..k], x);
    }
    OwnRequests(before, after, x);
    assert RequestsFor(pass.requests, x) == RequestsFor(after.requests, x) by {
      OutsideSlice(group, k + 1, |group|, k);
      UntouchedRequests(after, pass, group[k + 1..|group|], x);
    }
  }

  /** Members after k leave member k as it was after its own iteration, and
      this group's requests naming member k are exactly those of its own iteration. */
  lemma OwnIteration(line: seq<Expression>, group: seq<nat>, rules: EngravingRules, vf: Collaborators, k: nat)
    requires ValidGroup(group, |line|) && GroupHasWedge(line, group) && k < |group|
    ensures var cs := CenterYs(line, group, vf);
      var before := AlignMembers(Layout(line, []), group, cs, MaxOf(cs), rules, vf, k);
      var after := AlignMembers(Layout(line, []), group, cs, MaxOf(cs), rules, vf, k + 1);
      var pass := GroupPass(line, group, rules, vf);
      && |before.requests| <= |after.requests|
      && pass.line[group[k]] == after.line[group[k]]
      && (k > 0 ==> pass.line[group[k - 1]] == before.line[group[k - 1]])
      && RequestsFor(pass.requests, group[k]) == after.requests[|before.requests|..]
  {
    var n := |group|;
    var cs := CenterYs(line, group, vf);
    var st := Layout(line, []);
    var before := AlignMembers(st, group, cs, MaxOf(cs), rules, vf, k);
    var after := AlignMembers(st, group, cs, MaxOf(cs), rules, vf, k + 1);
    var pass := AlignMembers(st, group, cs, MaxOf(cs), rules, vf, n);
    assert GroupPass(line, group, rules, vf) == pass;
    assert Touches(st, before, group[0..k]) by {
      MembersFrame(st, group, cs, MaxOf(cs), rules, vf, 0, k);
    }
    assert Touches(before, after, group[k..k + 1]) by {
      MembersFrame(st, group, cs, MaxOf(cs), rules, vf, k, k + 1);
    }
    assert Touches(after, pass, group[k + 1..n]) by {
      MembersFrame(st, group, cs, MaxOf(cs), rules, vf, k + 1, n);
    }
    StretchLines(st, before, after, pass, group, k);
    StretchRequests(st, before, after, pass, group, k);
  }

  lemma {:induction false} RequestsForAll(rs: seq<Request>, x: nat)
    requires forall j :: 0 <= j < |rs| ==> rs[j].expr == x
    ensures RequestsFor(rs, x) == rs
    decreases |rs|
  {
    if |rs| > 0 {
      RequestsForAll(rs[..|rs| - 1], x);
    }
  }

  /** Iteration k on a member that is not a VexFlow continuous dynamic. */
  lemma LabelStep(st: Layout, group: seq<nat>, k: nat, centerYs: seq<real>, yIdeal: real,
                  rules: EngravingRules, vf: Collaborators)
    requires ValidGroup(group, |st.line|) && k < |group| == |centerYs|
    requires !st.line[group[k]].kind.VexFlowContinuous?
    ensures var r := MemberStep(st, group, k, centerYs, yIdeal, rules, vf);
      var b := st.line[group[k]].box;
      var moved := b.(relY := b.relY + 0.8 * (yIdeal - centerYs[k]));
      && r.requests == st.requests
      && r.line[group[k]] == st.line[group[k]].(box := WithMargins(moved, vf.boundingBox(moved)))
  {
    var b := st.line[group[k]].box;
    assert b.relY - (centerYs[k] - yIdeal) * 0.8 == b.relY + 0.8 * (yIdeal - centerYs[k]);
  }

  /** Iteration k on a VexFlow continuous dynamic whose own box is `own`,
      whose next member's box is `nextBox` and whose previous member's box
      is `prevBox` when it starts. */
  lemma WedgeStep(st: Layout, group: seq<nat>, k: nat, centerYs: seq<real>, yIdeal: real,
                  rules: EngravingRules, vf: Collaborators, own: Box, nextBox: Box, prevBox: Box)
    requires ValidGroup(group, |st.line|) && k < |group| == |centerYs|
    requires st.line[group[k]].kind.VexFlowContinuous?
    requires st.line[group[k]].box == own
    requires k < |group| - 1 ==> st.line[group[k + 1]].box == nextBox
    requires k > 0 ==> st.line[group[k - 1]].box == prevBox
    ensures var n := |group|;
      var x := group[k];
      var r := MemberStep(st, group, k, centerYs, yIdeal, rules, vf);
      var shifted := vf.shiftY(x, own, yIdeal - centerYs[k]);
      var rightDelta := if k < n - 1 then -(Overlap(shifted, nextBox).x + rules.spacer) else 0.0;
      var squeezed := if k < n - 1 then vf.squeeze(x, shifted, rightDelta) else shifted;
      var leftDelta := if k > 0 then Overlap(prevBox, squeezed).x + rules.spacer else 0.0;
      && r.requests == st.requests + ([ShiftY(x, yIdeal - centerYs[k])]
                       + (if k < n - 1 then [Squeeze(x, rightDelta, Next)] else [])
                       + (if k > 0 then [Squeeze(x, leftDelta, Prev)] else []))
      && r.line[x].box == (if k > 0 then vf.squeeze(x, squeezed, leftDelta) else squeezed)
  {
    assert -(centerYs[k] - yIdeal) == yIdeal - centerYs[k];
    if k > 0 {
      assert group[k - 1] < group[k];
    }
  }

  /** In `pass`, the group's result, member k has its relative y moved by
      0.8 of yIdeal - cs[k] and its bounding box recomputed there, and no
      request names it. */
  predicate LabelAligned(line: seq<Expression>, pass: Layout, group: seq<nat>, k: nat,
                         cs: seq<real>, yIdeal: real, vf: Collaborators)
    requires ValidGroup(group, |line|) && k < |group| == |cs| && |pass.line| == |line|
  {
    var b := line[group[k]].box;
    var moved := b.(relY := b.relY + 0.8 * (yIdeal - cs[k]));
    && pass.line[group[k]] == line[group[k]].(box := WithMargins(moved, vf.boundingBox(moved)))
    && pass.line[group[k]].box.relY == b.relY + 0.8 * (yIdeal - cs[k])
    && RequestsFor(pass.requests, group[k]) == []
  }

  /** A member of an aligned group that is not a VexFlow continuous dynamic
      is lowered by 0.8 of its distance to the maximum centre, which is
      never negative, and is never asked to shift or squeeze. */
  lemma AlignedLabel(line: seq<Expression>, group: seq<nat>, rules: EngravingRules, vf: Collaborators, k: nat)
    requires ValidGroup(group, |line|) && GroupHasWedge(line, group) && k < |group|
    requires !line[group[k]].kind.VexFlowContinuous?
    ensures var cs := CenterYs(line, group, vf);
      && cs[k] <= MaxOf(cs)
      && LabelAligned(line, GroupPass(line, group, rules, vf), group, k, cs, MaxOf(cs), vf)
  {
    var cs := CenterYs(line, group, vf);
    var before, after := MemberIteration(line, group, rules, vf, k);
    LabelOutcome(line, before, after, GroupPass(line, group, rules, vf), group, k, cs, MaxOf(cs), rules, vf);
  }

  /** AlignedLabel for a member loop given by its states before and after
      member k's iteration and at its end. */
  lemma LabelOutcome(line: seq<Expression>, before: Layout, after: Layout, pass: Layout, group: seq<nat>, k: nat,
                     cs: seq<real>, yIdeal: real, rules: EngravingRules, vf: Collaborators)
    requires ValidGroup(group, |line|) && k < |group| == |cs|
    requires |before.line| == |line| && |pass.line| == |line|
    requires !line[group[k]].kind.VexFlowContinuous?
    requires after == MemberStep(before, group, k, cs, yIdeal, rules, vf)
    requires before.line[group[k]] == line[group[k]]
    requires pass.line[group[k]] == after.line[group[k]]
    requires RequestsFor(pass.requests, group[k]) == after.requests[|before.requests|..]
    ensures LabelAligned(line, pass, group, k, cs, yIdeal, vf)
  {
    LabelStep(before, group, k, cs, yIdeal, rules, vf);
    assert after.requests[|before.requests|..] == [];
  }

  /** In `pass`, the group's result, member k was shifted by yIdeal - cs[k];
      then, if it has a next member, squeezed by -(its overlap with the next
      member + spacer), measured after its own shift; then, if it has a
      previous member, squeezed by the previous member's overlap with it +
      spacer, measured after its own right squeeze and against the previous
      member's final box. These are the only requests naming it, in this order. */
  predicate WedgeAligned(line: seq<Expression>, pass: Layout, group: seq<nat>, k: nat,
                         cs: seq<real>, yIdeal: real, rules: EngravingRules, vf: Collaborators)
    requires ValidGroup(group, |line|) && k < |group| == |cs| && |pass.line| == |line|
  {
      var n := |group|;
      var x := group[k];
      var shifted := vf.shiftY(x, line[x].box, yIdeal - cs[k]);
      var rightDelta := if k < n - 1 then -(Overlap(shifted, line[group[k + 1]].box).x + rules.spacer) else 0.0;
      var squeezed := if k < n - 1 then vf.squeeze(x, shifted, rightDelta) else shifted;
      var leftDelta := if k > 0 then Overlap(pass.line[group[k - 1]].box, squeezed).x + rules.spacer else 0.0;
      && RequestsFor(pass.requests, x)
         == [ShiftY(x, yIdeal - cs[k])]
            + (if k < n - 1 then [Squeeze(x, rightDelta, Next)] else [])
            + (if k > 0 then [Squeeze(x, leftDelta, Prev)] else [])
      && pass.line[x].box == (if k > 0 then vf.squeeze(x, squeezed, leftDelta) else squeezed)
  }

  /** A VexFlow continuous dynamic of an aligned group is shifted up to the
      maximum centre and then squeezed against its neighbours, as WedgeAligned
      spells out. */
  lemma AlignedWedge(line: seq<Expression>, group: seq<nat>, rules: EngravingRules, vf: Collaborators, k: nat)
    requires ValidGroup(group, |line|) && GroupHasWedge(line, group) && k < |group|
    requires line[group[k]].kind.VexFlowContinuous?
    ensures var cs := CenterYs(line, group, vf);
      && cs[k] <= MaxOf(cs)
      && WedgeAligned(line, GroupPass(line, group, rules, vf), group, k, cs, MaxOf(cs), rules, vf)
  {
    var cs := CenterYs(line, group, vf);
    var before, after := MemberIteration(line, group, rules, vf, k);
    WedgeOutcome(line, before, after, GroupPass(line, group, rules, vf), group, k, cs, MaxOf(cs), rules, vf);
  }

  /** The states of the member loop of an aligned group just before and just
      after member k's own iteration, related to the group's input and result. */
  lemma MemberIteration(line: seq<Expression>, group: seq<nat>, rules: EngravingRules, vf: Collaborators, k: nat)
      returns (before: Layout, after: Layout)
    requires ValidGroup(group, |line|) && GroupHasWedge(line, group) && k < |group|
    ensures var cs := CenterYs(line, group, vf);
      var pass := GroupPass(line, group, rules, vf);
      && |before.line| == |line| && |pass.line| == |line|
      && after == MemberStep(before, group, k, cs, MaxOf(cs), rules, vf)
      && before.line[group[k]] == line[group[k]]
      && (k + 1 < |group| ==> before.line[group[k + 1]] == line[group[k + 1]])
      && |before.requests| <= |after.requests|
      && pass.line[group[k]] == after.line[group[k]]
      && (k > 0 ==> pass.line[group[k - 1]] == before.line[group[k - 1]])
      && RequestsFor(pass.requests, group[k]) == after.requests[|before.requests|..]
  {
    var cs := CenterYs(line, group, vf);
    before := AlignMembers(Layout(line, []), group, cs, MaxOf(cs), rules, vf, k);
    after := AlignMembers(Layout(line, []), group, cs, MaxOf(cs), rules, vf, k + 1);
    EntryBoxes(line, group, rules, vf, k);
    OwnIteration(line, group, rules, vf, k);
  }

  /** AlignedWedge for a member loop given by its states before and after
      member k's iteration and at its end. */
  lemma WedgeOutcome(line: seq<Expression>, before: Layout, after: Layout, pass: Layout, group: seq<nat>, k: nat,
                     cs: seq<real>, yIdeal: real, rules: EngravingRules, vf: Collaborators)
    requires ValidGroup(group, |line|) && k < |group| == |cs|
    requires |before.line| == |line| && |pass.line| == |line|
    requires line[group[k]].kind.VexFlowContinuous?
    requires after == MemberStep(before, group, k, cs, yIdeal, rules, vf)
    requires before.line[group[k]] == line[group[k]]
    requires k + 1 < |group| ==> before.line[group[k + 1]] == line[group[k + 1]]
    requires |before.requests| <= |after.requests|
    requires pass.line[group[k]] == after.line[group[k]]
    requires k > 0 ==> pass.line[group[k - 1]] == before.line[group[k - 1]]
    requires RequestsFor(pass.requests, group[k]) == after.requests[|before.requests|..]
    ensures WedgeAligned(line, pass, group, k, cs, yIdeal, rules, vf)
  {
    var n := |group|;
    var x := group[k];
    var nextBox := if k < n - 1 then line[group[k + 1]].box else line[x].box;
    var prevBox := if k > 0 then pass.line[group[k - 1]].box else line[x].box;
    WedgeStep(before, group, k, cs, yIdeal, rules, vf, line[x].box, nextBox, prevBox);
    var shifted := vf.shiftY(x, line[x].box, yIdeal - cs[k]);
    var rightDelta := if k < n - 1 then -(Overlap(shifted, nextBox).x + rules.spacer) else 0.0;
    var squeezed := if k < n - 1 then vf.squeeze(x, shifted, rightDelta) else shifted;
    var leftDelta := if k > 0 then Overlap(prevBox, squeezed).x + rules.spacer else 0.0;
    var issued := [ShiftY(x, yIdeal - cs[k])]
                  + (if k < n - 1 then [Squeeze(x, rightDelta, Next)] else [])
                  + (if k > 0 then [Squeeze(x, leftDelta, Prev)] else []);
    assert after.requests == before.requests + issued;
    assert after.requests[|before.requests|..] == issued;
  }

  // ---------------------------------------------------------------------
  // Locality: a group's pass depends only on its own members

  ghost predicate AgreeOn(a: Layout, b: Layout, group: seq<nat>)
  {
    && |a.line| == |b.line|
    && (forall j :: 0 <= j < |group| && group[j] < |a.line| ==> a.line[group[j]] == b.line[group[j]])
    && a.requests == b.requests
  }

  /** Giving a member the same new box and appending the same requests on
      both sides keeps two agreeing layouts in agreement. */
  lemma AgreeOnUpdate(a1: Layout, a2: Layout, group: seq<nat>, idx: nat, b: Box, rs: seq<Request>)
    requires AgreeOn(a1, a2, group) && idx in group && idx < |a1.line|
    ensures AgreeOn(Layout(a1.line[idx := a1.line[idx].(box := b)], a1.requests + rs),
                    Layout(a2.line[idx := a2.line[idx].(box := b)], a2.requests + rs), group)
  {
  }

  lemma ShiftedLocal(s1: Layout, s2: Layout, group: seq<nat>, idx: nat, off: real, vf: Collaborators)
    requires AgreeOn(s1, s2, group) && idx in group && idx < |s1.line|
    ensures AgreeOn(Shifted(s1, idx, off, vf), Shifted(s2, idx, off, vf), group)
  {
    var e := s1.line[idx];
    assert s2.line[idx] == e;
    if e.kind.VexFlowContinuous? {
      AgreeOnUpdate(s1, s2, group, idx, vf.shiftY(idx, e.box, -off), [ShiftY(idx, -off)]);
    } else {
      var moved := e.box.(relY := e.box.relY - off * 0.8);
      AgreeOnUpdate(s1, s2, group, idx, WithMargins(moved, vf.boundingBox(moved)), []);
      assert s1.requests + [] == s1.requests && s2.requests + [] == s2.requests;
    }
  }

  lemma SqueezeLocal(s1: Layout, s2: Layout, group: seq<nat>, idx: nat, other: nat, rules: EngravingRules, vf: Collaborators)
    requires AgreeOn(s1, s2, group) && idx in group && other in group && idx < |s1.line| && other < |s1.line|
    ensures AgreeOn(SqueezeToNext(s1, idx, other, rules, vf), SqueezeToNext(s2, idx, other, rules, vf), group)
    ensures AgreeOn(SqueezeToPrev(s1, other, idx, rules, vf), SqueezeToPrev(s2, other, idx, rules, vf), group)
  {
    var e := s1.line[idx];
    assert s2.line[idx] == e && s1.line[other] == s2.line[other];
    var toNext := -(Overlap(e.box, s1.line[other].box).x + rules.spacer);
    AgreeOnUpdate(s1, s2, group, idx, vf.squeeze(idx, e.box, toNext), [Squeeze(idx, toNext, Next)]);
    var toPrev := Overlap(s1.line[other].box, e.box).x + rules.spacer;
    AgreeOnUpdate(s1, s2, group, idx, vf.squeeze(idx, e.box, toPrev), [Squeeze(idx, toPrev, Prev)]);
  }

  lemma SqueezesLocal(s1: Layout, s2: Layout, group: seq<nat>, k: nat, rules: EngravingRules, vf: Collaborators)
    requires ValidGroup(group, |s1.line|) && k < |group|
    requires AgreeOn(s1, s2, group)
    ensures AgreeOn(Squeezes(s1, group, k, rules, vf), Squeezes(s2, group, k, rules, vf), group)
  {
    var n := |group|;
    var idx := group[k];
    assert idx in group;
    var r1 := if k < n - 1 then SqueezeToNext(s1, idx, group[k + 1], rules, vf) else s1;
    var r2 := if k < n - 1 then SqueezeToNext(s2, idx, group[k + 1], rules, vf) else s2;
    if k < n - 1 {
      assert group[k + 1] in group;
      SqueezeLocal(s1, s2, group, idx, group[k + 1], rules, vf);
    }
    if k > 0 {
      assert group[k - 1] in group;
      SqueezeLocal(r1, r2, group, idx, group[k - 1], rules, vf);
    }
  }

  lemma MemberStepLocal(s1: Layout, s2: Layout, r1: Layout, r2: Layout, group: seq<nat>, k: nat,
                        centerYs: seq<real>, yIdeal: real, rules: EngravingRules, vf: Collaborators)
    requires ValidGroup(group, |s1.line|) && k < |group| == |centerYs|
    requires AgreeOn(s1, s2, group)
    requires r1 == MemberStep(s1, group, k, centerYs, yIdeal, rules, vf)
    requires r2 == MemberStep(s2, group, k, centerYs, yIdeal, rules, vf)
    ensures AgreeOn(r1, r2, group)
  {
    var idx := group[k];
    assert idx in group && s1.line[idx] == s2.line[idx];
    ShiftedLocal(s1, s2, group, idx, centerYs[k] - yIdeal, vf);
    if CanSqueeze(s1.line[idx].kind) {
      SqueezesLocal(Shifted(s1, idx, centerYs[k] - yIdeal, vf), Shifted(s2, idx, centerYs[k] - yIdeal, vf),
                    group, k, rules, vf);
    }
  }

  lemma AlignMembersStep(st: Layout, group: seq<nat>, centerYs: seq<real>, yIdeal: real,
                         rules: EngravingRules, vf: Collaborators, k: nat)
    requires ValidGroup(group, |st.line|) && 0 < k <= |group| == |centerYs|
    ensures AlignMembers(st, group, centerYs, yIdeal, rules, vf, k)
            == MemberStep(AlignMembers(st, group, centerYs, yIdeal, rules, vf, k - 1), group, k - 1, centerYs, yIdeal, rules, vf)
  {
  }

  /** Iteration k - 1 of the member loop keeps two agreeing runs in agreement. */
  lemma MembersLocalStep(s1: Layout, s2: Layout, group: seq<nat>, centerYs: seq<real>, yIdeal: real,
                         rules: EngravingRules, vf: Collaborators, k: nat)
    requires ValidGroup(group, |s1.line|) && 0 < k <= |group| == |centerYs| && |s2.line| == |s1.line|
    requires AgreeOn(AlignMembers(s1, group, centerYs, yIdeal, rules, vf, k - 1),
                     AlignMembers(s2, group, centerYs, yIdeal, rules, vf, k - 1), group)
    ensures AgreeOn(AlignMembers(s1, group, centerYs, yIdeal, rules, vf, k),
                    AlignMembers(s2, group, centerYs, yIdeal, rules, vf, k), group)
  {
    AlignMembersStep(s1, group, centerYs, yIdeal, rules, vf, k);
    AlignMembersStep(s2, group, centerYs, yIdeal, rules, vf, k);
    MemberStepLocal(AlignMembers(s1, group, centerYs, yIdeal, rules, vf, k - 1),
                    AlignMembers(s2, group, centerYs, yIdeal, rules, vf, k - 1),
                    AlignMembers(s1, group, centerYs, yIdeal, rules, vf, k),
                    AlignMembers(s2, group, centerYs, yIdeal, rules, vf, k), group, k - 1, centerYs, yIdeal, rules, vf);
  }

  lemma {:induction false} MembersLocal(s1: Layout, s2: Layout, group: seq<nat>, centerYs: seq<real>, yIdeal: real,
                                        rules: EngravingRules, vf: Collaborators, k: nat)
    requires ValidGroup(group, |s1.line|) && k <= |group| == |centerYs|
    requires AgreeOn(s1, s2, group)
    ensures AgreeOn(AlignMembers(s1, group, centerYs, yIdeal, rules, vf, k),
                    AlignMembers(s2, group, centerYs, yIdeal, rules, vf, k), group)
  {
    if k > 0 {
      MembersLocal(s1, s2, group, centerYs, yIdeal, rules, vf, k - 1);
      MembersLocalStep(s1, s2, group, centerYs, yIdeal, rules, vf, k);
    }
  }

  /** Two staff lines that agree on a group's members give the same pass on them. */
  lemma GroupPassLocal(l1: seq<Expression>, l2: seq<Expression>, group: seq<nat>, rules: EngravingRules, vf: Collaborators)
    requires ValidGroup(group, |l1|)
    requires AgreeOn(Layout(l1, []), Layout(l2, []), group)
    ensures AgreeOn(GroupPass(l1, group, rules, vf), GroupPass(l2, group, rules, vf), group)
  {
    assert CenterYs(l1, group, vf) == CenterYs(l2, group, vf);
    assert GroupHasWedge(l1, group) == GroupHasWedge(l2, group) by {
      assert forall j :: 0 <= j < |group| ==> l1[group[j]].kind == l2[group[j]].kind;
    }
    if |group| > 0 {
      var cs := CenterYs(l1, group, vf);
      MembersLocal(Layout(l1, []), Layout(l2, []), group, cs, MaxOf(cs), rules, vf, |group|);
    }
  }

  // ---------------------------------------------------------------------
  // The whole staff line

  /** PassOf keeps the line's length, is local to its group and changes nothing but boxes. */
  lemma PassOfLocal(rules: EngravingRules, vf: Collaborators)
    ensures KeepsLength(PassOf(rules, vf)) && LocalPass(PassOf(rules, vf)) && KeepsKinds(PassOf(rules, vf))
  {
    var pass := PassOf(rules, vf);
    forall l, group | ValidGroup(group, |l|)
      ensures OnlyBoxesDiffer(l, pass(l, group).line)
      ensures |pass(l, group).line| == |l|
      ensures forall x: nat :: x < |l| && x !in group ==> pass(l, group).line[x] == l[x]
      ensures forall x: nat :: x !in group ==> RequestsFor(pass(l, group).requests, x) == []
    {
      GroupPassTouches(l, group, rules, vf);
      forall x: nat | x !in group
        ensures RequestsFor(pass(l, group).requests, x) == []
      {
        UntouchedRequests(Layout(l, []), pass(l, group), group, x);
      }
    }
  }

  /** No index belongs to two different groups. */
  ghost predicate Disjoint(groups: seq<seq<nat>>)
  {
    forall g, h, x :: 0 <= g < |groups| && 0 <= h < |groups| && g != h && x in groups[g] ==> x !in groups[h]
  }

  /** What holds of the loop over groups when it starts on st. */
  ghost predicate LoopReady(st: Layout, groups: seq<seq<nat>>, pass: PassFn)
  {
    && KeepsLength(pass)
    && LocalPass(pass)
    && forall h :: 0 <= h < |groups| ==> ValidGroup(groups[h], |st.line|)
  }

  /** Appending one group's pass: what it reports for expression x is
      appended to what came before. */
  lemma JoinPass(prev: Layout, pass: Layout, r: Layout, x: nat)
    requires r == Layout(pass.line, prev.requests + pass.requests) && x < |pass.line|
    ensures r.line[x] == pass.line[x]
    ensures RequestsFor(r.requests, x) == RequestsFor(prev.requests, x) + RequestsFor(pass.requests, x)
  {
    RequestsForAppend(prev.requests, pass.requests, x);
  }

  /** Appending the pass of a group that does not hold x leaves x alone. */
  lemma JoinUntouched(prev: Layout, pass: Layout, r: Layout, x: nat)
    requires x < |prev.line| && x < |pass.line|
    requires pass.line[x] == prev.line[x] && RequestsFor(pass.requests, x) == []
    requires r == Layout(pass.line, prev.requests + pass.requests)
    ensures r.line[x] == prev.line[x]
    ensures RequestsFor(r.requests, x) == RequestsFor(prev.requests, x)
  {
    JoinPass(prev, pass, r, x);
  }

  /** Iteration g - 1 of the loop over groups, on a group that does not hold x. */
  lemma StepUntouched(st: Layout, groups: seq<seq<nat>>, pass: PassFn, g: nat, x: nat)
    requires 0 < g <= |groups| && LoopReady(st, groups, pass)
    requires x < |st.line| && x !in groups[g - 1]
    ensures AlignGroups(st, groups, pass, g).line[x] == AlignGroups(st, groups, pass, g - 1).line[x]
    ensures RequestsFor(AlignGroups(st, groups, pass, g).requests, x)
            == RequestsFor(AlignGroups(st, groups, pass, g - 1).requests, x)
  {
    var prev := AlignGroups(st, groups, pass, g - 1);
    assert ValidGroup(groups[g - 1], |prev.line|);
    JoinUntouched(prev, pass(prev.line, groups[g - 1]), AlignGroups(st, groups, pass, g), x);
  }

  /** Iteration h of the loop over groups, seen from expression x. */
  lemma StepOwn(st: Layout, groups: seq<seq<nat>>, pass: PassFn, h: nat, x: nat)
    requires h < |groups| && KeepsLength(pass)
    requires x < |st.line|
    ensures var prev := AlignGroups(st, groups, pass, h);
      var p := pass(prev.line, groups[h]);
      && AlignGroups(st, groups, pass, h + 1).line[x] == p.line[x]
      && RequestsFor(AlignGroups(st, groups, pass, h + 1).requests, x)
         == RequestsFor(prev.requests, x) + RequestsFor(p.requests, x)
  {
    var prev := AlignGroups(st, groups, pass, h);
    JoinPass(prev, pass(prev.line, groups[h]), AlignGroups(st, groups, pass, h + 1), x);
  }

  /** Iterations lo .. g - 1 of the loop over groups, on groups that do not
      hold x, leave expression x and its requests alone. */
  lemma {:induction false} AlignGroupsUntouched(st: Layout, groups: seq<seq<nat>>, pass: PassFn,
                                                lo: nat, g: nat, x: nat)
    requires lo <= g <= |groups| && LoopReady(st, groups, pass)
    requires x < |st.line| && forall h :: lo <= h < g ==> x !in groups[h]
    ensures var r := AlignGroups(st, groups, pass, g);
      && r.line[x] == AlignGroups(st, groups, pass, lo).line[x]
      && RequestsFor(r.requests, x) == RequestsFor(AlignGroups(st, groups, pass, lo).requests, x)
    decreases g - lo
  {
    if lo < g {
      AlignGroupsUntouched(st, groups, pass, lo, g - 1, x);
      StepUntouched(st, groups, pass, g, x);
    }
  }

  /** Expression x stands in r as pass left it, and r's requests for x are
      those of st followed by those pass issued. */
  ghost predicate Settled(r: Layout, pass: Layout, st: Layout, x: nat)
    requires x < |r.line| && x < |pass.line|
  {
    && r.line[x] == pass.line[x]
    && RequestsFor(r.requests, x) == RequestsFor(st.requests, x) + RequestsFor(pass.requests, x)
  }

  /** Expression x of group h ends as group h's pass, run on the line the
      earlier groups left, made it, with the requests that pass issued for it. */
  lemma AlignGroupsMember(st: Layout, groups: seq<seq<nat>>, pass: PassFn, h: nat, x: nat)
    requires h < |groups| && LoopReady(st, groups, pass)
    requires x < |st.line| && forall i :: 0 <= i < |groups| && i != h ==> x !in groups[i]
    ensures var p := pass(AlignGroups(st, groups, pass, h).line, groups[h]);
      var r := AlignGroups(st, groups, pass, |groups|);
      && x < |p.line|
      && Settled(r, p, st, x)
  {
    AlignGroupsUntouched(st, groups, pass, 0, h, x);
    StepOwn(st, groups, pass, h, x);
    AlignGroupsUntouched(st, groups, pass, h + 1, |groups|, x);
  }

  /** The line the earlier groups left agrees with the input on group h. */
  lemma EarlierGroupsAgree(st: Layout, groups: seq<seq<nat>>, pass: PassFn, h: nat)
    requires h < |groups| && LoopReady(st, groups, pass)
    requires Disjoint(groups)
    ensures AgreeOn(Layout(AlignGroups(st, groups, pass, h).line, []), Layout(st.line, []), groups[h])
  {
    var r := AlignGroups(st, groups, pass, h);
    forall j | 0 <= j < |groups[h]|
      ensures r.line[groups[h][j]] == st.line[groups[h][j]]
    {
      var x := groups[h][j];
      assert x in groups[h];
      AlignGroupsUntouched(st, groups, pass, 0, h, x);
    }
  }

  /** The loop over groups changes nothing but boxes. */
  lemma {:induction false} AlignGroupsShape(st: Layout, groups: seq<seq<nat>>, pass: PassFn, g: nat)
    requires g <= |groups| && LoopReady(st, groups, pass) && KeepsKinds(pass)
    ensures OnlyBoxesDiffer(st.line, AlignGroups(st, groups, pass, g).line)
  {
    if g > 0 {
      AlignGroupsShape(st, groups, pass, g - 1);
      var prev := AlignGroups(st, groups, pass, g - 1);
      assert ValidGroup(groups[g - 1], |prev.line|);
      assert OnlyBoxesDiffer(prev.line, pass(prev.line, groups[g - 1]).line);
    }
  }

  /** The groups of a staff line are disjoint and index it. */
  lemma GroupsDisjoint(line: seq<Expression>, maxDistance: real)
    ensures var gs := Groups(line, maxDistance);
      && Disjoint(gs)
      && forall g :: 0 <= g < |gs| ==> ValidGroup(gs[g], |line|)
  {
    var gs := Groups(line, maxDistance);
    GroupsIndexLine(line, maxDistance);
    forall g, h, x | 0 <= g < |gs| && 0 <= h < |gs| && g != h && x in gs[g]
      ensures x !in gs[h]
    {
      if g < h {
        assert forall b :: b in gs[h] ==> x < b;
      } else {
        assert forall a :: a in gs[h] ==> a < x;
      }
    }
  }

  /** The loop over the groups of a staff line is ready to run. */
  lemma LineReady(line: seq<Expression>, rules: EngravingRules, vf: Collaborators)
    ensures LoopReady(Layout(line, []), Groups(line, rules.maxDistance), PassOf(rules, vf))
    ensures KeepsKinds(PassOf(rules, vf)) && Disjoint(Groups(line, rules.maxDistance))
  {
    GroupsDisjoint(line, rules.maxDistance);
    PassOfLocal(rules, vf);
  }

  /** alignDynamicExpressions changes expression x of group g exactly as that
      group's own pass on the input line does, and issues for it exactly the
      requests that pass issues for it. */
  lemma AlignedMember(line: seq<Expression>, rules: EngravingRules, vf: Collaborators, g: nat, x: nat)
    requires g < |Groups(line, rules.maxDistance)|
    requires x in Groups(line, rules.maxDistance)[g]
    ensures var gs := Groups(line, rules.maxDistance);
      && ValidGroup(gs[g], |line|)
      && x < |line|
      && Aligned(line, rules, vf).line[x] == GroupPass(line, gs[g], rules, vf).line[x]
      && RequestsFor(Aligned(line, rules, vf).requests, x) == RequestsFor(GroupPass(line, gs[g], rules, vf).requests, x)
  {
    var gs := Groups(line, rules.maxDistance);
    LineReady(line, rules, vf);
    var st := Layout(line, []);
    var early := AlignGroups(st, gs, PassOf(rules, vf), g).line;
    assert forall i :: 0 <= i < |gs| && i != g ==> x !in gs[i];
    AlignGroupsMember(st, gs, PassOf(rules, vf), g, x);
    EarlierGroupsAgree(st, gs, PassOf(rules, vf), g);
    GroupPassLocal(early, line, gs[g], rules, vf);
    var j :| 0 <= j < |gs[g]| && gs[g][j] == x;
  }

  /** An expression in no group keeps its box and is never asked to shift or squeeze. */
  lemma AlignedUngrouped(line: seq<Expression>, rules: EngravingRules, vf: Collaborators, x: nat)
    requires x < |line|
    requires forall g :: 0 <= g < |Groups(line, rules.maxDistance)| ==> x !in Groups(line, rules.maxDistance)[g]
    ensures Aligned(line, rules, vf).line[x] == line[x]
    ensures RequestsFor(Aligned(line, rules, vf).requests, x) == []
  {
    var gs := Groups(line, rules.maxDistance);
    LineReady(line, rules, vf);
    AlignGroupsUntouched(Layout(line, []), gs, PassOf(rules, vf), 0, |gs|, x);
  }

  /** Only boxes change: the placement, source and kind of every expression survive. */
  lemma AlignedOnlyMovesBoxes(line: seq<Expression>, rules: EngravingRules, vf: Collaborators)
    ensures OnlyBoxesDiffer(line, Aligned(line, rules, vf).line)
  {
    var gs := Groups(line, rules.maxDistance);
    LineReady(line, rules, vf);
    AlignGroupsShape(Layout(line, []), gs, PassOf(rules, vf), |gs|);
  }

  /** A member whose centre is already the maximum is not moved vertically:
      a wedge is asked to shift by zero, anything else keeps its relative y. */
  lemma AlignedAtMaximum(line: seq<Expression>, group: seq<nat>, rules: EngravingRules, vf: Collaborators, k: nat)
    requires ValidGroup(group, |line|) && GroupHasWedge(line, group) && k < |group|
    requires CenterYs(line, group, vf)[k] == MaxOf(CenterYs(line, group, vf))
    ensures var pass := GroupPass(line, group, rules, vf);
      var x := group[k];
      && (line[x].kind.VexFlowContinuous? ==>
            |RequestsFor(pass.requests, x)| > 0 && RequestsFor(pass.requests, x)[0] == ShiftY(x, 0.0))
      && (!line[x].kind.VexFlowContinuous? ==> pass.line[x].box.relY == line[x].box.relY)
  {
    if line[group[k]].kind.VexFlowContinuous? {
      AlignedWedge(line, group, rules, vf, k);
    } else {
      AlignedLabel(line, group, rules, vf, k);
    }
  }

  /** WedgeAligned reads only member k, its previous member and the requests naming member k. */
  lemma WedgeTransfer(line: seq<Expression>, p1: Layout, p2: Layout, group: seq<nat>, k: nat,
                      cs: seq<real>, yIdeal: real, rules: EngravingRules, vf: Collaborators)
    requires ValidGroup(group, |line|) && k < |group| == |cs| && |p1.line| == |line| && |p2.line| == |line|
    requires WedgeAligned(line, p1, group, k, cs, yIdeal, rules, vf)
    requires p2.line[group[k]] == p1.line[group[k]]
    requires k > 0 ==> p2.line[group[k - 1]] == p1.line[group[k - 1]]
    requires RequestsFor(p2.requests, group[k]) == RequestsFor(p1.requests, group[k])
    ensures WedgeAligned(line, p2, group, k, cs, yIdeal, rules, vf)
  {
  }

  /** LabelAligned reads only member k and the requests naming it. */
  lemma LabelTransfer(line: seq<Expression>, p1: Layout, p2: Layout, group: seq<nat>, k: nat,
                      cs: seq<real>, yIdeal: real, vf: Collaborators)
    requires ValidGroup(group, |line|) && k < |group| == |cs| && |p1.line| == |line| && |p2.line| == |line|
    requires LabelAligned(line, p1, group, k, cs, yIdeal, vf)
    requires p2.line[group[k]] == p1.line[group[k]]
    requires RequestsFor(p2.requests, group[k]) == RequestsFor(p1.requests, group[k])
    ensures LabelAligned(line, p2, group, k, cs, yIdeal, vf)
  {
  }

  /** On the whole staff line, a VexFlow continuous dynamic of a group with
      a wedge ends as AlignedWedge describes for its group. */
  lemma AlignedLineWedge(line: seq<Expression>, rules: EngravingRules, vf: Collaborators, g: nat, k: nat)
    requires g < |Groups(line, rules.maxDistance)| && k < |Groups(line, rules.maxDistance)[g]|
    requires ValidGroup(Groups(line, rules.maxDistance)[g], |line|)
    requires GroupHasWedge(line, Groups(line, rules.maxDistance)[g])
    requires line[Groups(line, rules.maxDistance)[g][k]].kind.VexFlowContinuous?
    ensures var group := Groups(line, rules.maxDistance)[g];
      var cs := CenterYs(line, group, vf);
      && cs[k] <= MaxOf(cs)
      && |Aligned(line, rules, vf).line| == |line|
      && WedgeAligned(line, Aligned(line, rules, vf), group, k, cs, MaxOf(cs), rules, vf)
  {
    var group := Groups(line, rules.maxDistance)[g];
    var cs := CenterYs(line, group, vf);
    assert group[k] in group;
    AlignedMember(line, rules, vf, g, group[k]);
    if k > 0 {
      assert group[k - 1] in group;
      AlignedMember(line, rules, vf, g, group[k - 1]);
    }
    AlignedWedge(line, group, rules, vf, k);
    WedgeTransfer(line, GroupPass(line, group, rules, vf), Aligned(line, rules, vf), group, k, cs, MaxOf(cs), rules, vf);
  }

  /** On the whole staff line, any other member of a group with a wedge ends
      as AlignedLabel describes for its group. */
  lemma AlignedLineLabel(line: seq<Expression>, rules: EngravingRules, vf: Collaborators, g: nat, k: nat)
    requires g < |Groups(line, rules.maxDistance)| && k < |Groups(line, rules.maxDistance)[g]|
    requires ValidGroup(Groups(line, rules.maxDistance)[g], |line|)
    requires GroupHasWedge(line, Groups(line, rules.maxDistance)[g])
    requires !line[Groups(line, rules.maxDistance)[g][k]].kind.VexFlowContinuous?
    ensures var group := Groups(line, rules.maxDistance)[g];
      var cs := CenterYs(line, group, vf);
      && cs[k] <= MaxOf(cs)
      && |Aligned(line, rules, vf).line| == |line|
      && LabelAligned(line, Aligned(line, rules, vf), group, k, cs, MaxOf(cs), vf)
  {
    var group := Groups(line, rules.maxDistance)[g];
    var cs := CenterYs(line, group, vf);
    assert group[k] in group;
    AlignedMember(line, rules, vf, g, group[k]);
    AlignedLabel(line, group, rules, vf, k);
    LabelTransfer(line, GroupPass(line, group, rules, vf), Aligned(line, rules, vf), group, k, cs, MaxOf(cs), vf);
  }

  /** A group without a wedge is skipped: none of its members moves and no
      request names any of them. */
  lemma AlignedWithoutWedge(line: seq<Expression>, rules: EngravingRules, vf: Collaborators, g: nat, x: nat)
    requires g < |Groups(line, rules.maxDistance)| && x in Groups(line, rules.maxDistance)[g]
    requires ValidGroup(Groups(line, rules.maxDistance)[g], |line|)
    requires !GroupHasWedge(line, Groups(line, rules.maxDistance)[g])
    ensures x < |line| && Aligned(line, rules, vf).line[x] == line[x]
    ensures RequestsFor(Aligned(line, rules, vf).requests, x) == []
  {
    AlignedMember(line, rules, vf, g, x);
    RequestsForNone([], x);
  }

  /** A staff line of at most one expression is left as it is and no request is issued. */
  lemma AlignedShortLine(line: seq<Expression>, rules: EngravingRules, vf: Collaborators)
    requires |line| <= 1
    ensures Aligned(line, rules, vf) == Layout(line, [])
  {
    ShortLineSingleEmptyGroup(line, rules.maxDistance);
    var gs := Groups(line, rules.maxDistance);
    PassOfLocal(rules, vf);
    assert !GroupHasWedge(line, gs[0]);
    assert AlignGroups(Layout(line, []), gs, PassOf(rules, vf), 1) == Layout(line, [] + []);
  }
}
