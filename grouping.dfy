/** The first pass of alignDynamicExpressions: a left-to-right scan over the
    adjacent pairs of a staff line's expressions that collects close marks
    into an open accumulator and emits it as a group when an eligible,
    same-placement pair is too far apart. Groups are sequences of indices
    into the staff line. */
module Grouping {
  import opened Geometry
  import opened Expressions

  /** Number of adjacent pairs the scan visits (the loop runs while the index
      is below length - 1). */
  function PairCount(line: seq<Expression>): nat
  {
    if |line| == 0 then 0 else |line| - 1
  }

  /** Both marks of pair i have a source expression. */
  predicate Eligible(line: seq<Expression>, i: nat)
    requires i + 1 < |line|
  {
    line[i].hasSource && line[i + 1].hasSource
  }

  predicate SamePlacement(line: seq<Expression>, i: nat)
    requires i + 1 < |line|
  {
    line[i].placement == line[i + 1].placement
  }

  /** Pair i joins the open accumulator. */
  predicate IsClose(line: seq<Expression>, maxDistance: real, i: nat)
    requires i + 1 < |line|
  {
    Eligible(line, i) && SamePlacement(line, i) && Distance(line[i].box, line[i + 1].box).x < maxDistance
  }

  /** Pair i closes the open accumulator. */
  predicate IsFar(line: seq<Expression>, maxDistance: real, i: nat)
    requires i + 1 < |line|
  {
    Eligible(line, i) && SamePlacement(line, i) && Distance(line[i].box, line[i + 1].box).x >= maxDistance
  }

  /** State of the scan: the emitted groups and the open accumulator (tmpList). */
  datatype Scan = Scan(groups: seq<seq<nat>>, open: seq<nat>)

  /** One iteration of the grouping loop, on pair (i, i + 1). */
  function Step(line: seq<Expression>, maxDistance: real, i: nat, s: Scan): (r: Scan)
    requires i + 1 < |line|
    ensures IsClose(line, maxDistance, i) ==>
      && r.groups == s.groups
      && |r.open| == |s.open| + (if i in s.open then 1 else 2)
      && r.open[..|s.open|] == s.open
      && i in r.open
      && r.open[|r.open| - 1] == i + 1
    ensures IsFar(line, maxDistance, i) ==> r.groups == s.groups + [s.open] && r.open == []
    ensures !IsClose(line, maxDistance, i) && !IsFar(line, maxDistance, i) ==> r == s
  {
    if !line[i].hasSource || !line[i + 1].hasSource then
      s
    else if line[i].placement == line[i + 1].placement then
      if Distance(line[i].box, line[i + 1].box).x < maxDistance then
        var withCurrent := if i in s.open then s.open else s.open + [i];
        Scan(s.groups, withCurrent + [i + 1])
      else
        Scan(s.groups + [s.open], [])
    else
      s
  }

  /** The scan after visiting the first k pairs. */
  function ScanPairs(line: seq<Expression>, maxDistance: real, k: nat): (r: Scan)
    requires k <= PairCount(line)
    ensures |r.groups| <= k
  {
    if k == 0 then Scan([], []) else Step(line, maxDistance, k - 1, ScanPairs(line, maxDistance, k - 1))
  }

  /** The groups of the staff line: the emitted groups followed by the final
      accumulator, which is emitted whatever it holds. */
  function Groups(line: seq<Expression>, maxDistance: real): (gs: seq<seq<nat>>)
    ensures 1 <= |gs| <= PairCount(line) + 1
  {
    var s := ScanPairs(line, maxDistance, PairCount(line));
    s.groups + [s.open]
  }

  /** Number of far pairs among the first k pairs. */
  function FarPairs(line: seq<Expression>, maxDistance: real, k: nat): nat
    requires k <= PairCount(line)
  {
    if k == 0 then 0
    else FarPairs(line, maxDistance, k - 1) + (if IsFar(line, maxDistance, k - 1) then 1 else 0)
  }

  predicate Increasing(s: seq<nat>)
  {
    forall i, j :: 0 <= i < j < |s| ==> s[i] < s[j]
  }

  /** A group that can be aligned on a staff line of n expressions:
      strictly increasing indices into the line. */
  predicate ValidGroup(group: seq<nat>, n: nat)
  {
    Increasing(group) && forall j :: 0 <= j < |group| ==> group[j] < n
  }

  /** The groups concatenated in order. */
  function Flatten(gs: seq<seq<nat>>): seq<nat>
  {
    if |gs| == 0 then [] else Flatten(gs[..|gs| - 1]) + gs[|gs| - 1]
  }

  /** What holds of the scan after k pairs. */
  ghost predicate ScanInv(line: seq<Expression>, s: Scan, k: nat)
  {
    && Increasing(Flatten(s.groups) + s.open)
    && (forall x :: x in Flatten(s.groups) ==> x < k)
    && (forall x :: x in s.open ==> x <= k)
    && (forall x :: x in Flatten(s.groups) + s.open ==> x < |line| && line[x].hasSource)
    && (forall g :: 0 <= g < |s.groups| ==> |s.groups[g]| != 1)
    && |s.open| != 1
  }

  // ---------------------------------------------------------------------
  // Sequence facts

  lemma IncreasingSnoc(s: seq<nat>, y: nat)
    requires Increasing(s)
    requires forall x :: x in s ==> x < y
    ensures Increasing(s + [y])
  {
    forall i, j | 0 <= i < j < |s| + 1
      ensures (s + [y])[i] < (s + [y])[j]
    {
      if j == |s| {
        assert s[i] in s;
      }
    }
  }

  lemma IncreasingSeparated(p: seq<nat>, q: seq<nat>)
    requires Increasing(p + q)
    ensures Increasing(p) && Increasing(q)
    ensures forall a, b :: a in p && b in q ==> a < b
  {
    forall i, j | 0 <= i < j < |q|
      ensures q[i] < q[j]
    {
      assert q[i] == (p + q)[|p| + i] && q[j] == (p + q)[|p| + j];
    }
    forall i, j | 0 <= i < j < |p|
      ensures p[i] < p[j]
    {
      assert p[i] == (p + q)[i] && p[j] == (p + q)[j];
    }
    forall a, b | a in p && b in q
      ensures a < b
    {
      var i :| 0 <= i < |p| && p[i] == a;
      var j :| 0 <= j < |q| && q[j] == b;
      assert (p + q)[i] == a && (p + q)[|p| + j] == b;
    }
  }

  lemma {:induction false} FlattenAppend(a: seq<seq<nat>>, b: seq<seq<nat>>)
    ensures Flatten(a + b) == Flatten(a) + Flatten(b)
    decreases |b|
  {
    if |b| == 0 {
      assert a + b == a;
    } else {
      var c := b[..|b| - 1];
      assert (a + b)[..|a + b| - 1] == a + c;
      assert (a + b)[|a + b| - 1] == b[|b| - 1];
      FlattenAppend(a, c);
    }
  }

  lemma FlattenSnoc(gs: seq<seq<nat>>, g: seq<nat>)
    ensures Flatten(gs + [g]) == Flatten(gs) + g
  {
    assert (gs + [g])[..|gs|] == gs;
  }

  lemma FlattenPrefix(gs: seq<seq<nat>>, g: nat)
    requires g < |gs|
    ensures Flatten(gs[..g + 1]) == Flatten(gs[..g]) + gs[g]
  {
    assert gs[..g + 1][..g] == gs[..g];
  }

  lemma FlattenWhole(gs: seq<seq<nat>>, g: nat)
    requires g < |gs|
    ensures Flatten(gs) == Flatten(gs[..g + 1] + gs[g + 1..])
  {
    assert gs == gs[..g + 1] + gs[g + 1..];
  }

  /** Flatten(gs) is gs[..g], then gs[g], then the rest. */
  lemma FlattenSplit(gs: seq<seq<nat>>, g: nat)
    requires g < |gs|
    ensures Flatten(gs) == Flatten(gs[..g]) + gs[g] + Flatten(gs[g + 1..])
  {
    FlattenWhole(gs, g);
    FlattenAppend(gs[..g + 1], gs[g + 1..]);
    FlattenPrefix(gs, g);
  }

  /** Strictly increasing concatenation: each group is strictly increasing,
      lies inside the concatenation, and every member of an earlier group is
      below every member of a later one. */
  lemma FlattenOrdered(gs: seq<seq<nat>>)
    requires Increasing(Flatten(gs))
    ensures forall g, x :: 0 <= g < |gs| && x in gs[g] ==> x in Flatten(gs)
    ensures forall g :: 0 <= g < |gs| ==> Increasing(gs[g])
    ensures forall g, h, a, b :: 0 <= g < h < |gs| && a in gs[g] && b in gs[h] ==> a < b
  {
    forall g | 0 <= g < |gs|
      ensures Increasing(gs[g]) && forall x :: x in gs[g] ==> x in Flatten(gs)
    {
      FlattenSplit(gs, g);
      IncreasingSeparated(Flatten(gs[..g]) + gs[g], Flatten(gs[g + 1..]));
      IncreasingSeparated(Flatten(gs[..g]), gs[g]);
    }
    forall g, h, a, b | 0 <= g < h < |gs| && a in gs[g] && b in gs[h]
      ensures a < b
    {
      var pre := gs[..h];
      FlattenSplit(gs, h);
      IncreasingSeparated(Flatten(pre) + gs[h], Flatten(gs[h + 1..]));
      IncreasingSeparated(Flatten(pre), gs[h]);
      FlattenSplit(pre, g);
      assert pre[g] == gs[g];
      assert a in Flatten(pre);
    }
  }

  // ---------------------------------------------------------------------
  // The scan

  lemma CloseStepPreserves(line: seq<Expression>, maxDistance: real, i: nat, s: Scan)
    requires i + 1 < |line| && IsClose(line, maxDistance, i)
    requires ScanInv(line, s, i)
    ensures ScanInv(line, Step(line, maxDistance, i, s), i + 1)
  {
    var r := Step(line, maxDistance, i, s);
    var f := Flatten(s.groups);
    assert r.groups == s.groups;
    if i in s.open {
      assert r.open == s.open + [i + 1];
      assert f + r.open == (f + s.open) + [i + 1];
      IncreasingSnoc(f + s.open, i + 1);
    } else {
      assert r.open == s.open + [i] + [i + 1];
      assert f + r.open == ((f + s.open) + [i]) + [i + 1];
      IncreasingSnoc(f + s.open, i);
      IncreasingSnoc((f + s.open) + [i], i + 1);
    }
  }

  lemma FarStepPreserves(line: seq<Expression>, maxDistance: real, i: nat, s: Scan)
    requires i + 1 < |line| && IsFar(line, maxDistance, i)
    requires ScanInv(line, s, i)
    ensures ScanInv(line, Step(line, maxDistance, i, s), i + 1)
  {
    var r := Step(line, maxDistance, i, s);
    assert r.groups == s.groups + [s.open] && r.open == [];
    FlattenSnoc(s.groups, s.open);
    assert Flatten(r.groups) + r.open == Flatten(s.groups) + s.open;
  }

  lemma StepPreserves(line: seq<Expression>, maxDistance: real, i: nat, s: Scan)
    requires i + 1 < |line|
    requires ScanInv(line, s, i)
    ensures ScanInv(line, Step(line, maxDistance, i, s), i + 1)
  {
    if IsClose(line, maxDistance, i) {
      CloseStepPreserves(line, maxDistance, i, s);
    } else if IsFar(line, maxDistance, i) {
      FarStepPreserves(line, maxDistance, i, s);
    }
  }

  /** Every scan state satisfies ScanInv. */
  lemma {:induction false} ScanInvariant(line: seq<Expression>, maxDistance: real, k: nat)
    requires k <= PairCount(line)
    ensures ScanInv(line, ScanPairs(line, maxDistance, k), k)
  {
    if k > 0 {
      ScanInvariant(line, maxDistance, k - 1);
      StepPreserves(line, maxDistance, k - 1, ScanPairs(line, maxDistance, k - 1));
    }
  }

  lemma {:induction false} ScanGroupCount(line: seq<Expression>, maxDistance: real, k: nat)
    requires k <= PairCount(line)
    ensures |ScanPairs(line, maxDistance, k).groups| == FarPairs(line, maxDistance, k)
  {
    if k > 0 {
      ScanGroupCount(line, maxDistance, k - 1);
    }
  }

  // ---------------------------------------------------------------------
  // Properties of the groups

  /** One group more than there are eligible, same-placement pairs that are too far apart. */
  lemma GroupCount(line: seq<Expression>, maxDistance: real)
    ensures |Groups(line, maxDistance)| == 1 + FarPairs(line, maxDistance, PairCount(line))
  {
    ScanGroupCount(line, maxDistance, PairCount(line));
  }

  /** A staff line with zero or one expression yields exactly one, empty, group. */
  lemma ShortLineSingleEmptyGroup(line: seq<Expression>, maxDistance: real)
    requires |line| <= 1
    ensures Groups(line, maxDistance) == [[]]
  {
  }

  /** The groups listed one after another name each expression at most once,
      in strictly increasing index order; every grouped expression has a
      source expression; no group holds exactly one expression. */
  lemma GroupsWellFormed(line: seq<Expression>, maxDistance: real)
    ensures var gs := Groups(line, maxDistance);
      && Increasing(Flatten(gs))
      && (forall x :: x in Flatten(gs) ==> x < |line| && line[x].hasSource)
      && (forall g :: 0 <= g < |gs| ==> |gs[g]| != 1)
  {
    var s := ScanPairs(line, maxDistance, PairCount(line));
    ScanInvariant(line, maxDistance, PairCount(line));
    FlattenSnoc(s.groups, s.open);
  }

  /** Each group is strictly increasing and indexes the staff line, and
      the groups are pairwise ordered, hence disjoint. */
  lemma GroupsIndexLine(line: seq<Expression>, maxDistance: real)
    ensures var gs := Groups(line, maxDistance);
      && (forall g :: 0 <= g < |gs| ==> ValidGroup(gs[g], |line|))
      && (forall g, x :: 0 <= g < |gs| && x in gs[g] ==> x < |line| && line[x].hasSource)
      && (forall g, h, a, b :: 0 <= g < h < |gs| && a in gs[g] && b in gs[h] ==> a < b)
  {
    var gs := Groups(line, maxDistance);
    GroupsWellFormed(line, maxDistance);
    FlattenOrdered(gs);
    forall g, j | 0 <= g < |gs| && 0 <= j < |gs[g]|
      ensures gs[g][j] < |line|
    {
      var x := gs[g][j];
      assert x in gs[g];
      assert x in Flatten(gs);
    }
  }

  /** i and i + 1 are both open, or both in one emitted group. */
  ghost predicate Together(s: Scan, i: nat)
  {
    (i in s.open && i + 1 in s.open) || exists g :: 0 <= g < |s.groups| && i in s.groups[g] && i + 1 in s.groups[g]
  }

  /** One step of the scan keeps two expressions together. */
  lemma StepKeepsTogether(line: seq<Expression>, maxDistance: real, i: nat, k: nat, p: Scan)
    requires k + 1 < |line| && Together(p, i)
    ensures Together(Step(line, maxDistance, k, p), i)
  {
    var s := Step(line, maxDistance, k, p);
    if IsClose(line, maxDistance, k) {
      if i in p.open && i + 1 in p.open {
        assert forall x :: x in p.open ==> x in s.open by {
          forall x | x in p.open ensures x in s.open {
            var j :| 0 <= j < |p.open| && p.open[j] == x;
            assert s.open[..|p.open|][j] == x;
          }
        }
      }
    } else if IsFar(line, maxDistance, k) {
      if i in p.open && i + 1 in p.open {
        assert s.groups[|p.groups|] == p.open;
      } else {
        var g :| 0 <= g < |p.groups| && i in p.groups[g] && i + 1 in p.groups[g];
        assert s.groups[g] == p.groups[g];
      }
    }
  }

  lemma {:induction false} CloseStaysTogether(line: seq<Expression>, maxDistance: real, i: nat, k: nat)
    requires i + 1 < |line| && i + 1 <= k <= PairCount(line)
    requires IsClose(line, maxDistance, i)
    ensures Together(ScanPairs(line, maxDistance, k), i)
  {
    if k > i + 1 {
      CloseStaysTogether(line, maxDistance, i, k - 1);
      StepKeepsTogether(line, maxDistance, i, k - 1, ScanPairs(line, maxDistance, k - 1));
    }
  }

  /** Two adjacent expressions that form a close pair end up in the same group. */
  lemma CloseTogether(line: seq<Expression>, maxDistance: real, i: nat)
    requires i + 1 < |line|
    requires IsClose(line, maxDistance, i)
    ensures var gs := Groups(line, maxDistance);
      exists g :: 0 <= g < |gs| && i in gs[g] && i + 1 in gs[g]
  {
    CloseStaysTogether(line, maxDistance, i, PairCount(line));
    var s := ScanPairs(line, maxDistance, PairCount(line));
    var gs := Groups(line, maxDistance);
    if i in s.open && i + 1 in s.open {
      assert gs[|s.groups|] == s.open;
    } else {
      var g :| 0 <= g < |s.groups| && i in s.groups[g] && i + 1 in s.groups[g];
      assert gs[g] == s.groups[g];
    }
  }

  /** After a far pair i, the groups emitted so far stay as they are and
      everything added later is above i. */
  lemma {:induction false} FarSeparates(line: seq<Expression>, maxDistance: real, i: nat, k: nat)
    requires i + 1 < |line| && i + 1 <= k <= PairCount(line)
    requires IsFar(line, maxDistance, i)
    ensures var m := |ScanPairs(line, maxDistance, i + 1).groups|;
      var s := ScanPairs(line, maxDistance, k);
      && m <= |s.groups|
      && s.groups[..m] == ScanPairs(line, maxDistance, i + 1).groups
      && (forall g, x :: m <= g < |s.groups| && x in s.groups[g] ==> x > i)
      && (forall x :: x in s.open ==> x > i)
  {
    if k > i + 1 {
      FarSeparates(line, maxDistance, i, k - 1);
      var p := ScanPairs(line, maxDistance, k - 1);
      var s := ScanPairs(line, maxDistance, k);
      var m := |ScanPairs(line, maxDistance, i + 1).groups|;
      if IsClose(line, maxDistance, k - 1) {
        forall x | x in s.open ensures x > i {
          var j :| 0 <= j < |s.open| && s.open[j] == x;
          if j < |p.open| {
            assert s.open[..|p.open|][j] == x;
          }
        }
      } else if IsFar(line, maxDistance, k - 1) {
        assert s.groups[..m] == p.groups[..m];
        forall g, x | m <= g < |s.groups| && x in s.groups[g] ensures x > i {
          if g == |p.groups| {
            assert s.groups[g] == p.open;
          } else {
            assert s.groups[g] == p.groups[g];
          }
        }
      }
    }
  }

  /** Two adjacent expressions that form a far pair never share a group. */
  lemma FarApart(line: seq<Expression>, maxDistance: real, i: nat)
    requires i + 1 < |line|
    requires IsFar(line, maxDistance, i)
    ensures var gs := Groups(line, maxDistance);
      forall g :: 0 <= g < |gs| ==> !(i in gs[g] && i + 1 in gs[g])
  {
    var gs := Groups(line, maxDistance);
    var early := ScanPairs(line, maxDistance, i + 1);
    var s := ScanPairs(line, maxDistance, PairCount(line));
    var m := |early.groups|;
    FarSeparates(line, maxDistance, i, PairCount(line));
    ScanInvariant(line, maxDistance, i + 1);
    IncreasingSeparated(Flatten(early.groups), early.open);
    FlattenOrdered(early.groups);
    forall g | 0 <= g < |gs|
      ensures !(i in gs[g] && i + 1 in gs[g])
    {
      if g < m {
        assert gs[g] == early.groups[g] by {
          assert s.groups[..m][g] == early.groups[g];
        }
        forall x | x in gs[g] ensures x < i + 1 {
          assert x in early.groups[g];
          assert x in Flatten(early.groups);
        }
      } else if g < |s.groups| {
        assert gs[g] == s.groups[g];
      } else {
        assert gs[g] == s.open;
      }
    }
  }

  /** Placement changes do not close a group: marks above and below the staff can share one. */
  lemma MixedPlacementsShareGroup()
    ensures var up := Box(0.0, 0.0, 0.0, 1.0, 0.0, 1.0);
      var down := Box(0.0, 5.0, 0.0, 1.0, 0.0, 1.0);
      var line := [Expression(Some(Above), true, OtherExpression, up),
                   Expression(Some(Above), true, OtherExpression, up),
                   Expression(Some(Below), true, OtherExpression, down),
                   Expression(Some(Below), true, OtherExpression, down)];
      Groups(line, 2.0) == [[0, 1, 2, 3]]
  {
    var up := Box(0.0, 0.0, 0.0, 1.0, 0.0, 1.0);
    var down := Box(0.0, 5.0, 0.0, 1.0, 0.0, 1.0);
    var line := [Expression(Some(Above), true, OtherExpression, up),
                 Expression(Some(Above), true, OtherExpression, up),
                 Expression(Some(Below), true, OtherExpression, down),
                 Expression(Some(Below), true, OtherExpression, down)];
    assert ScanPairs(line, 2.0, 1) == Scan([], [0, 1]);
    assert ScanPairs(line, 2.0, 2) == Scan([], [0, 1]);
    assert ScanPairs(line, 2.0, 3) == Scan([], [0, 1, 2, 3]);
  }
}
