/** Node kinds of the mutable plan tree, and how a node combines what its operands provide. */
module Kinds {
  import Rewrite

  datatype Kind =
    | UnitKind
    | MatchKind(bindings: set<nat>, table: seq<Rewrite.Row>)
    | FilterKind(condition: Rewrite.Expression)
    | InnerApplyKind
    | LeftApplyKind
    | CallKind(emit: seq<Rewrite.Row> -> nat)
    | ProjectKind(needs: set<nat>, arrange: seq<Rewrite.Row> -> seq<Rewrite.Row>)
  {
    predicate IsApply()
    {
      InnerApplyKind? || LeftApplyKind?
    }
  }

  type MaybePlan = Rewrite.Option<Rewrite.Plan>
  type MaybeProperties = Rewrite.Option<Rewrite.Properties>

  /** The plan of a node with these plans below and beside it. */
  ghost predicate IsPlanOf(p: Rewrite.Plan, kind: Kind, below: MaybePlan, beside: MaybePlan)
  {
    match kind
    case UnitKind => below.None? && beside.None? && p == Rewrite.Unit
    case MatchKind(bindings, table) => below.None? && beside.None? && p == Rewrite.Match(bindings, table)
    case FilterKind(e) => below.Some? && beside.None? && p == Rewrite.Filter(e, below.value)
    case InnerApplyKind => below.Some? && beside.Some? && p == Rewrite.InnerApply(below.value, beside.value)
    case LeftApplyKind => below.Some? && beside.Some? && p == Rewrite.LeftApply(below.value, beside.value)
    case CallKind(emit) => below.Some? && beside.None? && p == Rewrite.Call(below.value, emit)
    case ProjectKind(needs, arrange) => below.Some? && beside.None? && p == Rewrite.Project(below.value, needs, arrange)
  }

  /** The properties of a node from those of its operands. */
  function Combine(kind: Kind, below: MaybeProperties, beside: MaybeProperties): MaybeProperties
  {
    match kind
    case UnitKind => Rewrite.Some(Rewrite.Properties({}, {}))
    case MatchKind(bindings, _) => Rewrite.Some(Rewrite.Properties(bindings, {}))
    case FilterKind(e) =>
      if below.None? then Rewrite.None
      else Rewrite.Some(Rewrite.Properties(below.value.outputs,
                                           below.value.required
                                               + (Rewrite.ExpressionBindings(e) - below.value.outputs)))
    case InnerApplyKind => Rewrite.InferApply(below, beside)
    case LeftApplyKind => Rewrite.InferApply(below, beside)
    case CallKind(_) => if below.None? then Rewrite.None else Rewrite.Some(Rewrite.Properties({}, {}))
    case ProjectKind(needs, _) => if below.None? || !(needs <= below.value.outputs) then Rewrite.None else below
  }

  ghost function Inferred(p: MaybePlan): MaybeProperties
  {
    if p.None? then Rewrite.None else Rewrite.InferProperties(p.value)
  }

  lemma CombineInfers(p: Rewrite.Plan, kind: Kind, below: MaybePlan, beside: MaybePlan)
    requires IsPlanOf(p, kind, below, beside)
    ensures Combine(kind, Inferred(below), Inferred(beside)) == Rewrite.InferProperties(p)
  {
  }

  ghost function Assembled(kind: Kind, below: MaybePlan, beside: MaybePlan): Rewrite.Plan
  {
    match kind
    case UnitKind => Rewrite.Unit
    case MatchKind(bindings, table) => Rewrite.Match(bindings, table)
    case FilterKind(e) => if below.Some? then Rewrite.Filter(e, below.value) else Rewrite.Unit
    case InnerApplyKind => if below.Some? && beside.Some? then Rewrite.InnerApply(below.value, beside.value)
        else Rewrite.Unit
    case LeftApplyKind => if below.Some? && beside.Some? then Rewrite.LeftApply(below.value, beside.value)
        else Rewrite.Unit
    case CallKind(emit) => if below.Some? then Rewrite.Call(below.value, emit) else Rewrite.Unit
    case ProjectKind(needs, arrange) => if below.Some? then Rewrite.Project(below.value, needs, arrange)
        else Rewrite.Unit
  }
}

/** The rewrite as it runs: operator nodes whose child links are rewired in place and whose inferred
    properties are cached until a node changes. */
module Operators {
  import Rewrite
  import opened Kinds

  class Operator {
    const kind: Kind
    var child: Operator?
    var right: Operator?
    var properties: Rewrite.Properties
    var propertiesValid: bool
    ghost var plan: Rewrite.Plan
    ghost var repr: set<Operator>

    /** A tree of nodes; a cached inference is that of the node's present plan. */
    ghost predicate Valid()
      reads this, repr
      decreases repr
    {
      && this in repr
      && (child != null ==> child in repr && child.repr <= repr && this !in child.repr && child.Valid())
      && (right != null ==> right in repr && right.repr <= repr && this !in right.repr && right.Valid())
      && (child != null && right != null ==> child.repr !! right.repr)
      && IsPlanOf(plan, kind, PlanAt(child), PlanAt(right))
      && (propertiesValid ==> Rewrite.InferProperties(plan) == Rewrite.Some(properties))
    }

    static ghost function PlanAt(node: Operator?): MaybePlan
      reads node
    {
      if node == null then Rewrite.None else Rewrite.Some(node.plan)
    }

    /** A node above operands that share no node. */
    constructor (kind: Kind, below: Operator?, beside: Operator?, ghost newPlan: Rewrite.Plan)
      requires below != null ==> below.Valid()
      requires beside != null ==> beside.Valid()
      requires below != null && beside != null ==> below.repr !! beside.repr
      requires IsPlanOf(newPlan, kind, PlanAt(below), PlanAt(beside))
      ensures Valid() && plan == newPlan && this.kind == kind && child == below && right == beside && !propertiesValid
    {
      this.kind, child, right, plan := kind, below, beside, newPlan;
      properties, propertiesValid := Rewrite.Properties({}, {}), false;
      repr := {this} + (if below != null then below.repr else {}) + (if beside != null then beside.repr else {});
    }

    /** Infers what a node produces and needs, keeping each node's answer. */
    method InferProperties() returns (result: Rewrite.Option<Rewrite.Properties>)
      requires Valid()
      modifies repr`properties, repr`propertiesValid
      ensures Valid() && result == Rewrite.InferProperties(plan)
      ensures result.Some? ==> propertiesValid
      decreases plan
    {
      if propertiesValid {
        return Rewrite.Some(properties);
      }
      CombineInfers(plan, kind, PlanAt(child), PlanAt(right));
      var below, beside := Rewrite.None, Rewrite.None;
      if child != null {
        below := child.InferProperties();
      }
      if right != null {
        beside := right.InferProperties();
      }
      result := Combine(kind, below, beside);
      if result.Some? {
        properties, propertiesValid := result.value, true;
      }
    }

    /** Hangs another tree below this node. */
    method RelinkChild(below: Operator, ghost newPlan: Rewrite.Plan)
      requires below.Valid() && this !in below.repr && IsPlanOf(newPlan, kind, Rewrite.Some(below.plan), Rewrite.None)
      modifies this
      ensures Valid() && plan == newPlan && child == below && right == null && !propertiesValid
        && repr == {this} + below.repr
    {
      child, right, propertiesValid := below, null, false;
      plan := newPlan;
      repr := {this} + below.repr;
    }

    /** Hangs other trees below and beside this node. */
    method RelinkBoth(below: Operator, beside: Operator, ghost newPlan: Rewrite.Plan)
      requires below.Valid() && beside.Valid() && this !in below.repr + beside.repr && below.repr !! beside.repr
      requires IsPlanOf(newPlan, kind, Rewrite.Some(below.plan), Rewrite.Some(beside.plan))
      modifies this
      ensures Valid() && plan == newPlan && child == below && right == beside && !propertiesValid
      ensures repr == {this} + below.repr + beside.repr
    {
      child, right, propertiesValid := below, beside, false;
      plan := newPlan;
      repr := {this} + below.repr + beside.repr;
    }

    /** No node of the tree keeps an answer. */
    ghost predicate Cleared()
      requires Valid()
      reads this, repr
      decreases repr
    {
      !propertiesValid && (child != null ==> child.Cleared()) && (right != null ==> right.Cleared())
    }

    /** Forgets the answer of every node of the tree. */
    method ClearProperties()
      requires Valid()
      modifies repr`propertiesValid
      ensures Valid() && Cleared()
      decreases plan
    {
      propertiesValid := false;
      if child != null {
        child.ClearProperties();
      }
      if right != null {
        right.ClearProperties();
      }
    }
  }

  /** Sinks a filter node into the apply below it and returns the node that now stands in its place;
      null where the inference throws. */
  method PushFilter(filter: Operator) returns (result: Operator?)
    requires filter.Valid() && filter.kind.FilterKind?
    modifies filter.repr
    ensures result == null <==> Rewrite.PushFilter(old(filter.plan).condition, old(filter.plan).child).None?
    ensures result != null ==> result.Valid() && result.repr <= old(filter.repr)
    ensures result != null ==>
      Rewrite.PushFilter(old(filter.plan).condition, old(filter.plan).child) == Rewrite.Some(result.plan)
    decreases filter.plan.child, 0
  {
    var apply := filter.child;
    if !apply.kind.IsApply() {
      return filter;
    }
    var left, right := apply.child, apply.right;
    ghost var condition, leftPlan, rightPlan := filter.kind.condition, left.plan, right.plan;
    assert right.Valid() && left.Valid();
    var properties := left.InferProperties();
    if properties.None? {
      return null;
    }
    if Rewrite.ExpressionBindings(filter.kind.condition) <= properties.value.outputs {
      result := PushLeft(filter, apply, left, right);
    } else if apply.kind.LeftApplyKind? {
      StillValid(filter, apply, left, right);
      result := filter;
    } else {
      result := PushRight(filter, apply, left, right);
    }
  }

  /** Answers kept on the left side leave the nodes above it valid. */
  lemma StillValid(filter: Operator, apply: Operator, left: Operator, right: Operator)
    requires filter.kind.FilterKind? && filter.child == apply && filter.right == null && apply.kind.IsApply()
    requires apply.child == left && apply.right == right && left.Valid() && right.Valid() && left.repr !! right.repr
    requires apply !in left.repr + right.repr && {apply} + left.repr + right.repr <= apply.repr
    requires filter !in apply.repr && {filter} + apply.repr <= filter.repr
    requires IsPlanOf(apply.plan, apply.kind, Rewrite.Some(left.plan), Rewrite.Some(right.plan))
    requires IsPlanOf(filter.plan, filter.kind, Rewrite.Some(apply.plan), Rewrite.None)
    requires apply.propertiesValid ==> Rewrite.InferProperties(apply.plan) == Rewrite.Some(apply.properties)
    requires filter.propertiesValid ==> Rewrite.InferProperties(filter.plan) == Rewrite.Some(filter.properties)
    ensures filter.Valid()
  {
    assert apply.Valid();
  }

  /** A filter and an apply that are being relinked, and the two trees below the apply. */
  ghost predicate Apart(filter: Operator, apply: Operator, left: Operator, right: Operator)
    reads left, left.repr, right, right.repr
  {
    && left.Valid() && right.Valid() && left.repr !! right.repr
    && filter != apply && filter !in left.repr + right.repr && apply !in left.repr + right.repr
  }

  method PushLeft(filter: Operator, apply: Operator, left: Operator, right: Operator) returns (result: Operator?)
    requires Apart(filter, apply, left, right) && filter.kind.FilterKind? && apply.kind.IsApply()
    modifies filter, apply, left.repr
    ensures result == null <==> Rewrite.PushFilter(filter.kind.condition, old(left.plan)).None?
    ensures result != null ==> result.Valid() && result.repr <= {filter, apply} + old(left.repr) + old(right.repr)
    ensures result != null ==>
              var pushed := Rewrite.PushFilter(filter.kind.condition, old(left.plan)).value;
              result.plan == if apply.kind.InnerApplyKind? then Rewrite.InnerApply(pushed, old(right.plan))
                             else Rewrite.LeftApply(pushed, old(right.plan))
    decreases left.plan, 1
  {
    filter.RelinkChild(left, Rewrite.Filter(filter.kind.condition, left.plan));
    var pushed := PushFilter(filter);
    if pushed == null {
      return null;
    }
    apply.RelinkBoth(pushed, right, if apply.kind.InnerApplyKind? then Rewrite.InnerApply(pushed.plan, right.plan)
                                else Rewrite.LeftApply(pushed.plan, right.plan));
    result := apply;
  }

  method PushRight(filter: Operator, apply: Operator, left: Operator, right: Operator) returns (result: Operator?)
    requires Apart(filter, apply, left, right) && filter.kind.FilterKind? && apply.kind.InnerApplyKind?
    modifies filter, apply, right.repr
    ensures result == null <==> Rewrite.PushFilter(filter.kind.condition, old(right.plan)).None?
    ensures result != null ==> result.Valid() && result.repr <= {filter, apply} + old(left.repr) + old(right.repr)
    ensures result != null ==>
              result.plan == Rewrite.InnerApply(old(left.plan),
                                                Rewrite.PushFilter(filter.kind.condition, old(right.plan)).value)
    decreases right.plan, 1
  {
    filter.RelinkChild(right, Rewrite.Filter(filter.kind.condition, right.plan));
    var pushed := PushFilter(filter);
    if pushed == null {
      return null;
    }
    apply.RelinkBoth(left, pushed, Rewrite.InnerApply(left.plan, pushed.plan));
    result := apply;
  }

  /** Rewrites a tree bottom up in place. */
  method RewritePredicates(operation: Operator) returns (result: Operator?)
    requires operation.Valid()
    modifies operation.repr
    ensures result == null <==> Rewrite.RewritePredicates(old(operation.plan)).None?
    ensures result != null ==> result.Valid() && result.repr <= old(operation.repr)
    ensures result != null ==> Rewrite.RewritePredicates(old(operation.plan)) == Rewrite.Some(result.plan)
    decreases operation.plan, 1
  {
    if operation.child == null {
      operation.propertiesValid := false;
      return operation;
    }
    if operation.right != null {
      result := RewriteApply(operation, operation.child, operation.right);
      return;
    }
    var kind := operation.kind;
    var child := RewritePredicates(operation.child);
    if child == null {
      return null;
    }
    operation.RelinkChild(child, Assembled(kind, Rewrite.Some(child.plan), Rewrite.None));
    if !kind.FilterKind? {
      return operation;
    }
    result := PushFilter(operation);
  }

  method RewriteApply(operation: Operator, left: Operator, right: Operator) returns (result: Operator?)
    requires operation.Valid() && operation.child == left && operation.right == right
    modifies operation.repr
    ensures result == null <==> Rewrite.RewritePredicates(old(operation.plan)).None?
    ensures result != null ==> result.Valid() && result.repr <= old(operation.repr)
    ensures result != null ==> Rewrite.RewritePredicates(old(operation.plan)) == Rewrite.Some(result.plan)
    decreases operation.plan, 0
  {
    var kind := operation.kind;
    assert right.Valid();
    var newLeft := RewritePredicates(left);
    if newLeft == null {
      return null;
    }
    var newRight := RewritePredicates(right);
    if newRight == null {
      return null;
    }
    operation.RelinkBoth(newLeft, newRight, Assembled(kind, Rewrite.Some(newLeft.plan), Rewrite.Some(newRight.plan)));
    result := operation;
  }

  /** The whole pass on a tree; null where it throws. */
  method GqlOptimize(root: Operator) returns (result: Operator?)
    requires root.Valid()
    modifies root.repr
    ensures result == null <==> Rewrite.Optimize(old(root.plan)).None?
    ensures result != null ==> result.Valid() && result.propertiesValid && result.repr <= old(root.repr)
    ensures result != null ==> Rewrite.Optimize(old(root.plan)) == Rewrite.Some(result.plan)
  {
    result := RewritePredicates(root);
    if result == null {
      return;
    }
    result.ClearProperties();
    var properties := result.InferProperties();
    if properties.None? || properties.value.required != {} {
      return null;
    }
  }
}
