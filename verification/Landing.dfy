/** Where the rewrite leaves filters, and what a plan that passes inference reads. */
module Landing {
  import opened Rewrite

  // ----- where filters land -----

  ghost predicate Covers(p: Plan, e: Expression)
  {
    ExpressionBindings(e) <= Outputs(p)
  }

  /** A filter directly above this plan has farther to go. */
  ghost predicate MayEnter(e: Expression, p: Plan)
  {
    p.InnerApply? || (p.LeftApply? && Covers(p.child, e))
  }

  /** No filter of the plan stands where it could still move down. */
  ghost predicate AllLanded(p: Plan)
  {
    match p
    case Unit => true
    case Match(_, _) => true
    case Filter(e, child) => AllLanded(child) && !MayEnter(e, child)
    case InnerApply(child, right) => AllLanded(child) && AllLanded(right)
    case LeftApply(child, right) => AllLanded(child) && AllLanded(right)
    case Call(child, _) => AllLanded(child)
    case Project(child, _, _) => AllLanded(child)
  }

  datatype Side = ToLeft | ToRight

  ghost function Below(p: Plan, side: Side): Plan
    requires p.InnerApply? || p.LeftApply?
  {
    if side.ToLeft? then p.child else p.right
  }

  /** A way down from apply to apply. */
  ghost predicate IsPlace(p: Plan, place: seq<Side>)
    decreases |place|
  {
    |place| > 0 ==>
      && (p.InnerApply? || p.LeftApply?)
      && IsPlace(Below(p, place[0]), place[1..])
  }

  ghost function At(p: Plan, place: seq<Side>): Plan
    requires IsPlace(p, place)
    decreases |place|
  {
    if |place| == 0 then p else At(Below(p, place[0]), place[1..])
  }

  /** The plan with a filter put in at a place, and nothing else changed. */
  ghost function With(e: Expression, p: Plan, place: seq<Side>): Plan
    requires IsPlace(p, place)
    decreases |place|
  {
    if |place| == 0 then Filter(e, p)
    else
      var left := if place[0].ToLeft? then With(e, p.child, place[1..]) else p.child;
      var right := if place[0].ToRight? then With(e, p.right, place[1..]) else p.right;
      if p.InnerApply? then InnerApply(left, right) else LeftApply(left, right)
  }

  /** At each apply on the way the filter keeps to the left when the left side binds all it reads, and
      goes right only past an inner apply; where it stops it can go no farther. */
  ghost predicate Leads(e: Expression, p: Plan, place: seq<Side>)
    requires IsPlace(p, place)
  {
    && !MayEnter(e, At(p, place))
    && forall k :: 0 <= k < |place| ==> Turns(e, p, place, k)
  }

  ghost predicate Turns(e: Expression, p: Plan, place: seq<Side>, k: nat)
    requires IsPlace(p, place) && k < |place|
  {
    PrefixIsPlace(p, place, k);
    var apply := At(p, place[..k]);
    (place[k].ToLeft? <==> Covers(apply.child, e)) && (place[k].ToRight? ==> apply.InnerApply?)
  }

  lemma {:induction false} PrefixIsPlace(p: Plan, place: seq<Side>, k: nat)
    requires IsPlace(p, place) && k <= |place|
    ensures IsPlace(p, place[..k])
    ensures k < |place| ==> At(p, place[..k]).InnerApply? || At(p, place[..k]).LeftApply?
    decreases |place|
  {
    if k > 0 {
      PrefixIsPlace(Below(p, place[0]), place[1..], k - 1);
      assert place[..k][1..] == place[1..][..k - 1];
    }
  }

  lemma TurnsBelow(e: Expression, p: Plan, side: Side, place: seq<Side>, k: nat)
    requires p.InnerApply? || p.LeftApply?
    requires IsPlace(Below(p, side), place) && k < |place|
    ensures IsPlace(p, [side] + place)
    ensures Turns(e, p, [side] + place, k + 1) <==> Turns(e, Below(p, side), place, k)
  {
    var longer := [side] + place;
    assert longer[1..] == place;
    PrefixIsPlace(p, longer, k + 1);
    PrefixIsPlace(Below(p, side), place, k);
    assert longer[..k + 1][1..] == place[..k];
  }

  /** A pushed filter stands at the one place that its bindings lead it to, and the plan is otherwise as it was. */
  lemma {:induction false} FilterLands(e: Expression, p: Plan) returns (place: seq<Side>)
    ensures IsPlace(p, place) && Leads(e, p, place) && Sink(e, p) == With(e, p, place)
    ensures PushFilter(e, p).Some? ==> PushFilter(e, p).value == With(e, p, place)
    decreases p
  {
    PushInfers(e, p);
    if MayEnter(e, p) {
      var side := if Covers(p.child, e) then ToLeft else ToRight;
      var rest := FilterLands(e, Below(p, side));
      place := [side] + rest;
      assert place[1..] == rest && place[..0] == [];
      assert Turns(e, p, place, 0);
      forall k | 0 <= k < |place|
        ensures Turns(e, p, place, k)
      {
        if k > 0 {
          TurnsBelow(e, p, side, rest, k - 1);
        }
      }
    } else {
      place := [];
    }
  }

  lemma {:induction false} SinkLands(e: Expression, p: Plan)
    requires AllLanded(p)
    ensures AllLanded(Sink(e, p))
    decreases p
  {
    match p
    case InnerApply(left, right) =>
      SinkLands(e, left);
      SinkLands(e, right);
    case LeftApply(left, right) => SinkLands(e, left);
    case _ =>
  }

  /** After the pass no filter stands above an apply that it could enter. */
  lemma {:induction false} RewriteLandsAll(p: Plan)
    ensures AllLanded(SinkAll(p)) && (RewritePredicates(p).Some? ==> AllLanded(RewritePredicates(p).value))
  {
    RewriteInfers(p);
    match p
    case Unit =>
    case Match(_, _) =>
    case Filter(e, child) =>
      RewriteLandsAll(child);
      SinkLands(e, SinkAll(child));
    case InnerApply(child, right) =>
      RewriteLandsAll(child);
      RewriteLandsAll(right);
    case LeftApply(child, right) =>
      RewriteLandsAll(child);
      RewriteLandsAll(right);
    case Call(child, _) => RewriteLandsAll(child);
    case Project(child, _, _) => RewriteLandsAll(child);
  }

  // ----- what a plan reads -----

  /** Whenever the plan is run below such a row, every predicate and projection finds all it reads bound.
      What runs below a CALL starts from nothing, and is covered when it needs nothing. */
  ghost predicate ReadsBound(p: Plan, outer: Row)
  {
    match p
    case Unit => true
    case Match(_, _) => true
    case Filter(e, child) =>
      ReadsBound(child, outer) && forall r :: r in Rows(child, outer) ==> ExpressionBindings(e) <= r.Keys
    case InnerApply(child, right) =>
      ReadsBound(child, outer) && forall r :: r in Rows(child, outer) ==> ReadsBound(right, r)
    case LeftApply(child, right) =>
      ReadsBound(child, outer) && forall r :: r in Rows(child, outer) ==> ReadsBound(right, r)
    case Call(child, _) => WellScoped(child) ==> ReadsBound(child, map[])
    case Project(child, needs, _) =>
      ReadsBound(child, outer) && forall r :: r in Rows(child, outer) ==> needs <= r.Keys
  }

  lemma RowsBind(p: Plan, outer: Row, r: Row)
    requires WellFormed(p) && InferProperties(p).Some? && r in Rows(p, outer)
    ensures outer.Keys + InferProperties(p).value.outputs <= r.Keys
  {
    RowsExtend(p, outer);
    InferredOutputs(p);
    var i :| 0 <= i < |Rows(p, outer)| && Rows(p, outer)[i] == r;
    assert Extends(Rows(p, outer)[i], outer);
  }

  /** A plan that infers, run below a row that binds what it requires, never reads an unbound name. */
  lemma {:induction false} InferredReadsAreBound(p: Plan, outer: Row)
    requires WellFormed(p) && InferProperties(p).Some? && InferProperties(p).value.required <= outer.Keys
    ensures ReadsBound(p, outer)
    decreases p, 1
  {
    match p
    case Unit =>
    case Match(_, _) =>
    case Filter(e, child) =>
      InferredReadsAreBound(child, outer);
      forall r | r in Rows(child, outer)
        ensures ExpressionBindings(e) <= r.Keys
      {
        RowsBind(child, outer, r);
        forall x | x in ExpressionBindings(e)
          ensures x in r.Keys
        {
          assert x in InferProperties(child).value.outputs || x in InferProperties(p).value.required;
        }
      }
    case InnerApply(_, _) => ApplyReadsAreBound(p, outer);
    case LeftApply(_, _) => ApplyReadsAreBound(p, outer);
    case Call(child, _) =>
      if WellScoped(child) {
        InferredReadsAreBound(child, map[]);
      }
    case Project(child, needs, _) =>
      InferredReadsAreBound(child, outer);
      forall r | r in Rows(child, outer)
        ensures needs <= r.Keys
      {
        RowsBind(child, outer, r);
      }
  }

  lemma {:induction false} ApplyReadsAreBound(p: Plan, outer: Row)
    requires WellFormed(p) && (p.InnerApply? || p.LeftApply?)
    requires InferProperties(p).Some? && InferProperties(p).value.required <= outer.Keys
    ensures ReadsBound(p.child, outer) && forall r :: r in Rows(p.child, outer) ==> ReadsBound(p.right, r)
    decreases p, 0
  {
    InferredReadsAreBound(p.child, outer);
    forall r | r in Rows(p.child, outer)
      ensures ReadsBound(p.right, r)
    {
      RowsBind(p.child, outer, r);
      InferredReadsAreBound(p.right, r);
    }
  }

  /** So the plan that the pass returns reads nothing unbound. */
  lemma OptimizedReadsAreBound(p: Plan)
    requires WellFormed(p) && Optimize(p).Some?
    ensures ReadsBound(Optimize(p).value, map[])
  {
    RewriteKeepsMeaning(p);
    InferredReadsAreBound(Optimize(p).value, map[]);
  }
}
