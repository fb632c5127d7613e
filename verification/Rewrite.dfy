/** Predicate pushdown through correlated applies: what a plan means, what the rewrite does to it, and
    when the rewritten plan is still resolved. */
module Rewrite {

  // ----- expressions -----

  datatype Value = Missing | Null | Known(value: int)

  type Row = map<nat, Value>

  datatype Option<T> = None | Some(value: T)

  /** A graph binding, if the node names one, and its operands: left, right, then arguments. */
  datatype Expression = Expression(binding: Option<nat>, operands: seq<Expression>, apply: (Value, seq<Value>) -> Value)

  /** The graph bindings that an expression mentions anywhere. */
  function ExpressionBindings(e: Expression): set<nat>
  {
    (if e.binding.Some? then {e.binding.value} else {}) + OperandBindings(e.operands)
  }

  function OperandBindings(operands: seq<Expression>): set<nat>
  {
    if |operands| == 0 then {} else ExpressionBindings(operands[0]) + OperandBindings(operands[1..])
  }

  function Lookup(row: Row, binding: nat): Value
  {
    if binding in row then row[binding] else Missing
  }

  function Evaluate(e: Expression, row: Row): Value
  {
    e.apply(if e.binding.Some? then Lookup(row, e.binding.value) else Missing, EvaluateAll(e.operands, row))
  }

  function EvaluateAll(operands: seq<Expression>, row: Row): seq<Value>
  {
    if |operands| == 0 then [] else [Evaluate(operands[0], row)] + EvaluateAll(operands[1..], row)
  }

  /** A predicate keeps a row only when it is true, not when it is null. */
  predicate Holds(e: Expression, row: Row)
  {
    Evaluate(e, row) == Known(1)
  }

  predicate AgreeOn(a: Row, b: Row, bindings: set<nat>)
  {
    forall x :: x in bindings ==> Lookup(a, x) == Lookup(b, x)
  }

  /** The collected bindings are all that an expression reads. */
  lemma {:induction false} EvaluateReadsBindings(e: Expression, a: Row, b: Row)
    requires AgreeOn(a, b, ExpressionBindings(e))
    ensures Evaluate(e, a) == Evaluate(e, b)
    decreases e, 1
  {
    OperandsReadBindings(e.operands, a, b);
  }

  lemma {:induction false} OperandsReadBindings(operands: seq<Expression>, a: Row, b: Row)
    requires AgreeOn(a, b, OperandBindings(operands))
    ensures EvaluateAll(operands, a) == EvaluateAll(operands, b)
    decreases operands, 0
  {
    if |operands| > 0 {
      EvaluateReadsBindings(operands[0], a, b);
      OperandsReadBindings(operands[1..], a, b);
    }
  }

  // ----- plans -----

  datatype Plan =
    | Unit
    | Match(bindings: set<nat>, table: seq<Row>)
    | Filter(condition: Expression, child: Plan)
    | InnerApply(child: Plan, right: Plan)
    | LeftApply(child: Plan, right: Plan)
    | Call(child: Plan, emit: seq<Row> -> nat)
    | Project(child: Plan, needs: set<nat>, arrange: seq<Row> -> seq<Row>)

  /** The bindings of a plan's rows. */
  function Outputs(p: Plan): set<nat>
  {
    match p
    case Unit => {}
    case Match(bindings, _) => bindings
    case Filter(_, child) => Outputs(child)
    case InnerApply(child, right) => Outputs(child) + Outputs(right)
    case LeftApply(child, right) => Outputs(child) + Outputs(right)
    case Call(_, _) => {}
    case Project(child, _, _) => Outputs(child)
  }

  datatype Properties = Properties(outputs: set<nat>, required: set<nat>)

  /** What a plan produces and what it needs from an enclosing row; none where the inference throws. */
  function InferProperties(p: Plan): Option<Properties>
  {
    match p
    case Unit => Some(Properties({}, {}))
    case Match(bindings, _) => Some(Properties(bindings, {}))
    case Filter(e, child) =>
      var c := InferProperties(child);
      if c.None? then None
      else Some(Properties(c.value.outputs, c.value.required + (ExpressionBindings(e) - c.value.outputs)))
    case InnerApply(child, right) => InferApply(InferProperties(child), InferProperties(right))
    case LeftApply(child, right) => InferApply(InferProperties(child), InferProperties(right))
    case Call(child, _) => if InferProperties(child).None? then None else Some(Properties({}, {}))
    case Project(child, needs, _) =>
      var c := InferProperties(child);
      if c.None? || !(needs <= c.value.outputs) then None else c
  }

  function InferApply(left: Option<Properties>, right: Option<Properties>): Option<Properties>
  {
    if left.None? || right.None? || !(right.value.required <= left.value.outputs) then None
    else Some(Properties(left.value.outputs + right.value.outputs, left.value.required))
  }

  lemma {:induction false} InferredOutputs(p: Plan)
    ensures InferProperties(p).Some? ==> InferProperties(p).value.outputs == Outputs(p)
  {
    match p
    case Unit =>
    case Match(_, _) =>
    case Filter(_, child) => InferredOutputs(child);
    case InnerApply(child, right) => InferredOutputs(child); InferredOutputs(right);
    case LeftApply(child, right) => InferredOutputs(child); InferredOutputs(right);
    case Call(child, _) =>
    case Project(child, _, _) => InferredOutputs(child);
  }

  // ----- what a plan means -----

  /** The table rows that agree with the enclosing row on what both bind. */
  function Joined(outer: Row, table: seq<Row>): seq<Row>
  {
    if |table| == 0 then []
    else
      var rest := Joined(outer, table[1..]);
      if forall x :: x in outer && x in table[0] ==> outer[x] == table[0][x] then [table[0] + outer] + rest else rest
  }

  function Kept(e: Expression, rows: seq<Row>): seq<Row>
  {
    if |rows| == 0 then []
    else if Holds(e, rows[0]) then [rows[0]] + Kept(e, rows[1..])
    else Kept(e, rows[1..])
  }

  /** A left row without a match is kept with nulls for what the right side would have bound. */
  function NullExtended(row: Row, bindings: set<nat>): Row
  {
    (map x | x in bindings :: Null) + row
  }

  function Copies(row: Row, count: nat): seq<Row>
  {
    seq(count, _ => row)
  }

  /** The rows of a plan, given the row of the enclosing apply. */
  ghost function Rows(p: Plan, outer: Row): seq<Row>
    decreases p, 0, 0
  {
    match p
    case Unit => [outer]
    case Match(_, table) => Joined(outer, table)
    case Filter(e, child) => Kept(e, Rows(child, outer))
    case InnerApply(child, right) => Applied(right, Rows(child, outer))
    case LeftApply(child, right) => LeftApplied(right, Rows(child, outer))
    case Call(child, emit) => Copies(outer, emit(Rows(child, map[])))
    case Project(child, _, arrange) => arrange(Rows(child, outer))
  }

  ghost function Applied(right: Plan, lefts: seq<Row>): seq<Row>
    decreases right, 1, |lefts|
  {
    if |lefts| == 0 then [] else Rows(right, lefts[0]) + Applied(right, lefts[1..])
  }

  ghost function LeftApplied(right: Plan, lefts: seq<Row>): seq<Row>
    decreases right, 1, |lefts|
  {
    if |lefts| == 0 then []
    else
      var matches := Rows(right, lefts[0]);
      (if matches == [] then [NullExtended(lefts[0], Outputs(right))] else matches) + LeftApplied(right, lefts[1..])
  }

  /** Tables bind what they say they bind, and projections and orderings only drop or move rows. */
  ghost predicate WellFormed(p: Plan)
  {
    match p
    case Unit => true
    case Match(bindings, table) => forall i :: 0 <= i < |table| ==> table[i].Keys == bindings
    case Filter(_, child) => WellFormed(child)
    case InnerApply(child, right) => WellFormed(child) && WellFormed(right)
    case LeftApply(child, right) => WellFormed(child) && WellFormed(right)
    case Call(child, _) => WellFormed(child)
    case Project(child, _, arrange) => WellFormed(child) && forall rows, r :: r in arrange(rows) ==> r in rows
  }

  /** A row with everything that another one binds. */
  predicate Extends(row: Row, outer: Row)
  {
    outer.Keys <= row.Keys && forall x :: x in outer ==> row[x] == outer[x]
  }

  ghost predicate AllExtend(rows: seq<Row>, outer: Row, bindings: set<nat>)
  {
    forall i :: 0 <= i < |rows| ==> Extends(rows[i], outer) && bindings <= rows[i].Keys
  }

  lemma {:induction false} JoinedExtend(outer: Row, bindings: set<nat>, table: seq<Row>)
    requires forall i :: 0 <= i < |table| ==> table[i].Keys == bindings
    ensures AllExtend(Joined(outer, table), outer, bindings)
  {
    if |table| > 0 {
      JoinedExtend(outer, bindings, table[1..]);
    }
  }

  /** Every row of a plan carries the enclosing row and the plan's own bindings. */
  lemma {:induction false} RowsExtend(p: Plan, outer: Row)
    requires WellFormed(p)
    ensures AllExtend(Rows(p, outer), outer, Outputs(p))
    decreases p, 0, 0
  {
    match p
    case Unit =>
    case Match(bindings, table) => JoinedExtend(outer, bindings, table);
    case Filter(e, child) =>
      RowsExtend(child, outer);
      KeptAreAmong(e, Rows(child, outer));
      AmongExtend(Rows(child, outer), Kept(e, Rows(child, outer)), outer, Outputs(child));
    case InnerApply(child, right) =>
      RowsExtend(child, outer);
      AppliedExtend(right, Rows(child, outer), outer, Outputs(child));
    case LeftApply(child, right) =>
      RowsExtend(child, outer);
      LeftAppliedExtend(right, Rows(child, outer), outer, Outputs(child));
    case Call(child, emit) =>
    case Project(child, _, arrange) =>
      RowsExtend(child, outer);
      AmongExtend(Rows(child, outer), arrange(Rows(child, outer)), outer, Outputs(child));
  }

  ghost predicate Among(few: seq<Row>, rows: seq<Row>)
  {
    forall r :: r in few ==> r in rows
  }

  lemma {:induction false} KeptAreAmong(e: Expression, rows: seq<Row>)
    ensures Among(Kept(e, rows), rows)
  {
    if |rows| > 0 {
      KeptAreAmong(e, rows[1..]);
    }
  }

  lemma AmongExtend(rows: seq<Row>, few: seq<Row>, outer: Row, bindings: set<nat>)
    requires AllExtend(rows, outer, bindings) && Among(few, rows)
    ensures AllExtend(few, outer, bindings)
  {
    forall i | 0 <= i < |few|
      ensures Extends(few[i], outer) && bindings <= few[i].Keys
    {
      assert few[i] in few && few[i] in rows;
      var j :| 0 <= j < |rows| && rows[j] == few[i];
    }
  }

  lemma {:induction false} AppliedExtend(right: Plan, lefts: seq<Row>, outer: Row, bindings: set<nat>)
    requires WellFormed(right) && AllExtend(lefts, outer, bindings)
    ensures AllExtend(Applied(right, lefts), outer, bindings + Outputs(right))
    decreases right, 1, |lefts|
  {
    if |lefts| > 0 {
      RowsExtend(right, lefts[0]);
      AppliedExtend(right, lefts[1..], outer, bindings);
      MatchesExtend(Rows(right, lefts[0]), lefts[0], outer, bindings, Outputs(right));
    }
  }

  lemma {:induction false} LeftAppliedExtend(right: Plan, lefts: seq<Row>, outer: Row, bindings: set<nat>)
    requires WellFormed(right) && AllExtend(lefts, outer, bindings)
    ensures AllExtend(LeftApplied(right, lefts), outer, bindings + Outputs(right))
    decreases right, 1, |lefts|
  {
    if |lefts| > 0 {
      RowsExtend(right, lefts[0]);
      LeftAppliedExtend(right, lefts[1..], outer, bindings);
      MatchesExtend(Rows(right, lefts[0]), lefts[0], outer, bindings, Outputs(right));
    }
  }

  lemma MatchesExtend(matches: seq<Row>, left: Row, outer: Row, bindings: set<nat>, more: set<nat>)
    requires AllExtend(matches, left, more) && Extends(left, outer) && bindings <= left.Keys
    ensures AllExtend(matches, outer, bindings + more)
  {
    forall i | 0 <= i < |matches|
      ensures Extends(matches[i], outer) && bindings + more <= matches[i].Keys
    {
      assert Extends(matches[i], left);
    }
  }

  // ----- pushing one filter -----

  /** Sinks a filter into the apply below it: left when the left side binds all it reads, otherwise right
      unless the right side is null-extended. */
  function PushFilter(e: Expression, child: Plan): Option<Plan>
  {
    match child
    case InnerApply(left, right) =>
      var properties := InferProperties(left);
      if properties.None? then None
      else if ExpressionBindings(e) <= properties.value.outputs then
        var pushed := PushFilter(e, left);
        if pushed.None? then None else Some(InnerApply(pushed.value, right))
      else
        var pushed := PushFilter(e, right);
        if pushed.None? then None else Some(InnerApply(left, pushed.value))
    case LeftApply(left, right) =>
      var properties := InferProperties(left);
      if properties.None? then None
      else if ExpressionBindings(e) <= properties.value.outputs then
        var pushed := PushFilter(e, left);
        if pushed.None? then None else Some(LeftApply(pushed.value, right))
      else Some(Filter(e, child))
    case _ => Some(Filter(e, child))
  }

  function RewritePredicates(p: Plan): Option<Plan>
  {
    match p
    case Unit => Some(p)
    case Match(_, _) => Some(p)
    case Filter(e, child) =>
      var c := RewritePredicates(child);
      if c.None? then None else PushFilter(e, c.value)
    case InnerApply(child, right) =>
      var c, r := RewritePredicates(child), RewritePredicates(right);
      if c.None? || r.None? then None else Some(InnerApply(c.value, r.value))
    case LeftApply(child, right) =>
      var c, r := RewritePredicates(child), RewritePredicates(right);
      if c.None? || r.None? then None else Some(LeftApply(c.value, r.value))
    case Call(child, emit) =>
      var c := RewritePredicates(child);
      if c.None? then None else Some(Call(c.value, emit))
    case Project(child, needs, arrange) =>
      var c := RewritePredicates(child);
      if c.None? then None else Some(Project(c.value, needs, arrange))
  }

  lemma {:induction false} KeptConcat(e: Expression, a: seq<Row>, b: seq<Row>)
    ensures Kept(e, a + b) == Kept(e, a) + Kept(e, b)
    decreases |a|
  {
    if |a| == 0 {
      assert a + b == b;
    } else {
      assert (a + b)[1..] == a[1..] + b;
      KeptConcat(e, a[1..], b);
    }
  }

  /** A predicate over bindings of the left row has one value on all rows that extend it. */
  lemma SameOnExtension(e: Expression, left: Row, row: Row)
    requires Extends(row, left) && ExpressionBindings(e) <= left.Keys
    ensures Holds(e, row) == Holds(e, left)
  {
    EvaluateReadsBindings(e, row, left);
  }

  lemma {:induction false} KeptAllOrNone(e: Expression, left: Row, rows: seq<Row>, more: set<nat>)
    requires AllExtend(rows, left, more) && ExpressionBindings(e) <= left.Keys
    ensures Kept(e, rows) == if Holds(e, left) then rows else []
  {
    if |rows| > 0 {
      SameOnExtension(e, left, rows[0]);
      KeptAllOrNone(e, left, rows[1..], more);
    }
  }

  /** A filter on the left side of an apply. */
  lemma {:induction false} KeptAboveLeft(e: Expression, right: Plan, lefts: seq<Row>, outer: Row, bindings: set<nat>)
    requires WellFormed(right) && AllExtend(lefts, outer, bindings) && ExpressionBindings(e) <= bindings
    ensures Kept(e, Applied(right, lefts)) == Applied(right, Kept(e, lefts))
    decreases |lefts|
  {
    if |lefts| > 0 {
      RowsExtend(right, lefts[0]);
      KeptAllOrNone(e, lefts[0], Rows(right, lefts[0]), Outputs(right));
      KeptConcat(e, Rows(right, lefts[0]), Applied(right, lefts[1..]));
      KeptAboveLeft(e, right, lefts[1..], outer, bindings);
    }
  }

  lemma {:induction false} KeptAboveNullExtension(e: Expression, right: Plan, lefts: seq<Row>, outer: Row,
                                                  bindings: set<nat>)
    requires WellFormed(right) && AllExtend(lefts, outer, bindings) && ExpressionBindings(e) <= bindings
    ensures Kept(e, LeftApplied(right, lefts)) == LeftApplied(right, Kept(e, lefts))
    decreases |lefts|
  {
    if |lefts| > 0 {
      var matches := Rows(right, lefts[0]);
      var first := if matches == [] then [NullExtended(lefts[0], Outputs(right))] else matches;
      RowsExtend(right, lefts[0]);
      assert AllExtend(first, lefts[0], Outputs(right));
      KeptAllOrNone(e, lefts[0], first, Outputs(right));
      KeptConcat(e, first, LeftApplied(right, lefts[1..]));
      KeptAboveNullExtension(e, right, lefts[1..], outer, bindings);
    }
  }

  /** A filter on the right side of an inner apply. */
  lemma {:induction false} KeptAboveRight(e: Expression, right: Plan, pushed: Plan, lefts: seq<Row>)
    requires forall l :: Rows(pushed, l) == Kept(e, Rows(right, l))
    ensures Kept(e, Applied(right, lefts)) == Applied(pushed, lefts)
    decreases |lefts|
  {
    if |lefts| > 0 {
      KeptConcat(e, Rows(right, lefts[0]), Applied(right, lefts[1..]));
      KeptAboveRight(e, right, pushed, lefts[1..]);
    }
  }

  /** Pushing a filter changes neither the rows, in their order, nor the bindings. */
  lemma {:induction false} PushKeepsRows(e: Expression, child: Plan, outer: Row)
    requires WellFormed(child) && PushFilter(e, child).Some?
    ensures var q := PushFilter(e, child).value;
      WellFormed(q) && Outputs(q) == Outputs(child) && Rows(q, outer) == Kept(e, Rows(child, outer))
    decreases child
  {
    match child
    case InnerApply(left, right) =>
      RowsExtend(left, outer);
      InferredOutputs(left);
      if ExpressionBindings(e) <= Outputs(left) {
        PushKeepsRows(e, left, outer);
        KeptAboveLeft(e, right, Rows(left, outer), outer, Outputs(left));
      } else {
        forall l: Row
          ensures Rows(PushFilter(e, right).value, l) == Kept(e, Rows(right, l))
        {
          PushKeepsRows(e, right, l);
        }
        PushKeepsRows(e, right, outer);
        KeptAboveRight(e, right, PushFilter(e, right).value, Rows(left, outer));
      }
    case LeftApply(left, right) =>
      RowsExtend(left, outer);
      InferredOutputs(left);
      if ExpressionBindings(e) <= Outputs(left) {
        PushKeepsRows(e, left, outer);
        KeptAboveNullExtension(e, right, Rows(left, outer), outer, Outputs(left));
      }
    case _ =>
  }

  // ----- the whole rewrite -----

  ghost predicate SameMeaning(p: Plan, q: Plan)
  {
    Outputs(p) == Outputs(q) && forall outer :: Rows(p, outer) == Rows(q, outer)
  }

  lemma {:induction false} AppliedAgrees(p: Plan, q: Plan, lefts: seq<Row>)
    requires SameMeaning(p, q)
    ensures Applied(p, lefts) == Applied(q, lefts) && LeftApplied(p, lefts) == LeftApplied(q, lefts)
    decreases |lefts|
  {
    if |lefts| > 0 {
      AppliedAgrees(p, q, lefts[1..]);
    }
  }

  lemma ApplyAgrees(p: Plan, q: Plan, c: Plan, d: Plan)
    requires SameMeaning(p, c) && SameMeaning(q, d)
    ensures SameMeaning(InnerApply(p, q), InnerApply(c, d)) && SameMeaning(LeftApply(p, q), LeftApply(c, d))
  {
    forall outer
      ensures Rows(InnerApply(p, q), outer) == Rows(InnerApply(c, d), outer)
      ensures Rows(LeftApply(p, q), outer) == Rows(LeftApply(c, d), outer)
    {
      AppliedAgrees(q, d, Rows(p, outer));
    }
  }

  lemma PushKeepsMeaning(e: Expression, child: Plan, rewritten: Plan)
    requires SameMeaning(child, rewritten) && WellFormed(rewritten) && PushFilter(e, rewritten).Some?
    ensures WellFormed(PushFilter(e, rewritten).value) && SameMeaning(Filter(e, child), PushFilter(e, rewritten).value)
  {
    forall outer
      ensures Rows(Filter(e, child), outer) == Rows(PushFilter(e, rewritten).value, outer)
    {
      PushKeepsRows(e, rewritten, outer);
    }
    PushKeepsRows(e, rewritten, map[]);
  }

  /** The rewritten plan produces the same rows in the same order from every enclosing row, and the same bindings. */
  lemma {:induction false} RewriteKeepsMeaning(p: Plan)
    requires WellFormed(p) && RewritePredicates(p).Some?
    ensures WellFormed(RewritePredicates(p).value) && SameMeaning(p, RewritePredicates(p).value)
  {
    match p
    case Unit =>
    case Match(_, _) =>
    case Filter(e, child) =>
      RewriteKeepsMeaning(child);
      PushKeepsMeaning(e, child, RewritePredicates(child).value);
    case InnerApply(child, right) =>
      RewriteKeepsMeaning(child);
      RewriteKeepsMeaning(right);
      ApplyAgrees(child, right, RewritePredicates(child).value, RewritePredicates(right).value);
    case LeftApply(child, right) =>
      RewriteKeepsMeaning(child);
      RewriteKeepsMeaning(right);
      ApplyAgrees(child, right, RewritePredicates(child).value, RewritePredicates(right).value);
    case Call(child, _) => RewriteKeepsMeaning(child);
    case Project(child, _, _) => RewriteKeepsMeaning(child);
  }

  // ----- null-extended sides -----

  /** The right sides of left applies, outermost only, from left to right. */
  function NullSides(p: Plan): seq<Plan>
  {
    match p
    case Unit => []
    case Match(_, _) => []
    case Filter(_, child) => NullSides(child)
    case InnerApply(child, right) => NullSides(child) + NullSides(right)
    case LeftApply(child, right) => NullSides(child) + [right]
    case Call(child, _) => NullSides(child)
    case Project(child, _, _) => NullSides(child)
  }

  /** Wherever a filter goes, it never enters the null-extended side of a left apply. */
  lemma {:induction false} PushLeavesNullSides(e: Expression, child: Plan)
    requires PushFilter(e, child).Some?
    ensures NullSides(PushFilter(e, child).value) == NullSides(child)
    decreases child
  {
    match child
    case InnerApply(left, right) =>
      if ExpressionBindings(e) <= InferProperties(left).value.outputs {
        PushLeavesNullSides(e, left);
      } else {
        PushLeavesNullSides(e, right);
      }
    case LeftApply(left, right) =>
      if ExpressionBindings(e) <= InferProperties(left).value.outputs {
        PushLeavesNullSides(e, left);
      }
    case _ =>
  }

  function IsKnown(binding: nat): Expression
  {
    Expression(Some(binding), [], (v: Value, _) => if v.Known? then Known(1) else Known(0))
  }

  /** Moving a filter on the null-extended side into that side would bring rejected rows back. */
  lemma NullSideFilterMatters()
    ensures exists e, left, right, outer :: WellFormed(LeftApply(left, right)) && PullsRowsBack(e, left, right, outer)
  {
    var e, left, right := IsKnown(0), Unit, Match({0}, []);
    var outer: Row := map[];
    var unmatched := NullExtended(outer, {0});
    assert Rows(right, outer) == [] && Kept(e, []) == [];
    assert Rows(left, outer) == [outer] && [outer][1..] == [];
    assert LeftApplied(right, [outer]) == [unmatched];
    assert LeftApplied(Filter(e, right), [outer]) == [unmatched];
    assert Lookup(unmatched, 0) == Null && EvaluateAll([], unmatched) == [];
    assert !Holds(e, unmatched);
    assert Rows(Filter(e, LeftApply(left, right)), outer) == [];
    assert PullsRowsBack(e, left, right, outer);
  }

  ghost predicate PullsRowsBack(e: Expression, left: Plan, right: Plan, outer: Row)
  {
    Rows(Filter(e, LeftApply(left, right)), outer) != Rows(LeftApply(left, Filter(e, right)), outer)
  }

  // ----- resolution -----

  /** The rewrite without the inference that may throw. */
  function Sink(e: Expression, child: Plan): Plan
  {
    match child
    case InnerApply(left, right) =>
      if ExpressionBindings(e) <= Outputs(left) then InnerApply(Sink(e, left), right)
          else InnerApply(left, Sink(e, right))
    case LeftApply(left, right) =>
      if ExpressionBindings(e) <= Outputs(left) then LeftApply(Sink(e, left), right) else Filter(e, child)
    case _ => Filter(e, child)
  }

  function SinkAll(p: Plan): Plan
  {
    match p
    case Unit => p
    case Match(_, _) => p
    case Filter(e, child) => Sink(e, SinkAll(child))
    case InnerApply(child, right) => InnerApply(SinkAll(child), SinkAll(right))
    case LeftApply(child, right) => LeftApply(SinkAll(child), SinkAll(right))
    case Call(child, emit) => Call(SinkAll(child), emit)
    case Project(child, needs, arrange) => Project(SinkAll(child), needs, arrange)
  }

  function SinkEach(plans: seq<Plan>): (sunk: seq<Plan>)
    ensures |sunk| == |plans| && forall i :: 0 <= i < |plans| ==> sunk[i] == SinkAll(plans[i])
  {
    if |plans| == 0 then [] else [SinkAll(plans[0])] + SinkEach(plans[1..])
  }

  lemma {:induction false} SinkLeavesNullSides(e: Expression, child: Plan)
    ensures NullSides(Sink(e, child)) == NullSides(child)
    decreases child
  {
    match child
    case InnerApply(left, right) =>
      SinkLeavesNullSides(e, left);
      SinkLeavesNullSides(e, right);
    case LeftApply(left, right) => SinkLeavesNullSides(e, left);
    case _ =>
  }

  /** The whole pass rewrites each null-extended side by itself: nothing from outside enters it, and nothing leaves. */
  lemma {:induction false} RewriteKeepsNullSides(p: Plan)
    ensures NullSides(SinkAll(p)) == SinkEach(NullSides(p))
    ensures RewritePredicates(p).Some? ==> NullSides(RewritePredicates(p).value) == SinkEach(NullSides(p))
  {
    RewriteInfers(p);
    match p
    case Unit =>
    case Match(_, _) =>
    case Filter(e, child) =>
      RewriteKeepsNullSides(child);
      SinkLeavesNullSides(e, SinkAll(child));
    case InnerApply(child, right) =>
      RewriteKeepsNullSides(child);
      RewriteKeepsNullSides(right);
    case LeftApply(child, _) => RewriteKeepsNullSides(child);
    case Call(child, _) => RewriteKeepsNullSides(child);
    case Project(child, _, _) => RewriteKeepsNullSides(child);
  }

  /** Whether the filter finds all it reads at every inner apply whose right side it enters. */
  predicate SinksResolved(e: Expression, child: Plan)
  {
    match child
    case InnerApply(left, right) =>
      if ExpressionBindings(e) <= Outputs(left) then SinksResolved(e, left)
      else ExpressionBindings(e) <= Outputs(child) && SinksResolved(e, right)
    case LeftApply(left, right) => ExpressionBindings(e) <= Outputs(left) ==> SinksResolved(e, left)
    case _ => true
  }

  predicate Resolvable(p: Plan)
  {
    match p
    case Unit => true
    case Match(_, _) => true
    case Filter(e, child) => Resolvable(child) && SinksResolved(e, SinkAll(child))
    case InnerApply(child, right) => Resolvable(child) && Resolvable(right)
    case LeftApply(child, right) => Resolvable(child) && Resolvable(right)
    case Call(child, _) => Resolvable(child)
    case Project(child, _, _) => Resolvable(child)
  }

  ghost predicate IsInferred(p: Option<Plan>)
  {
    p.Some? && InferProperties(p.value).Some?
  }

  lemma NothingMissing(x: set<nat>, left: set<nat>, right: set<nat>)
    ensures x <= left ==> x - left == {} && x - (left + right) == {}
    ensures x <= left + right ==> x - (left + right) == {}
    ensures x - right <= left <==> x <= left + right
  {
    forall y | y in x && x - right <= left
      ensures y in left + right
    {
      assert y in right || y in x - right;
    }
  }

  /** Pushing a filter keeps a plan inferable exactly if the filter sinks resolved. */
  lemma {:induction false} PushInfers(e: Expression, child: Plan)
    ensures PushFilter(e, child).Some? ==> PushFilter(e, child).value == Sink(e, child)
    ensures IsInferred(PushFilter(e, child)) <==> InferProperties(child).Some? && SinksResolved(e, child)
    ensures IsInferred(PushFilter(e, child)) ==>
              InferProperties(PushFilter(e, child).value) == InferProperties(Filter(e, child))
    decreases child
  {
    match child
    case InnerApply(left, right) =>
      InferredOutputs(left);
      InferredOutputs(right);
      PushInfers(e, left);
      PushInfers(e, right);
      NothingMissing(ExpressionBindings(e), Outputs(left), Outputs(right));
      if InferProperties(left).Some? {
        assert InferProperties(left).value.required + {} == InferProperties(left).value.required;
      }
    case LeftApply(left, right) =>
      InferredOutputs(left);
      InferredOutputs(right);
      PushInfers(e, left);
      NothingMissing(ExpressionBindings(e), Outputs(left), Outputs(right));
    case _ =>
  }

  lemma {:induction false} RewriteInfers(p: Plan)
    ensures RewritePredicates(p).Some? ==> RewritePredicates(p).value == SinkAll(p)
    ensures IsInferred(RewritePredicates(p)) <==> InferProperties(p).Some? && Resolvable(p)
    ensures IsInferred(RewritePredicates(p)) ==> InferProperties(RewritePredicates(p).value) == InferProperties(p)
  {
    match p
    case Unit =>
    case Match(_, _) =>
    case Filter(e, child) =>
      RewriteInfers(child);
      if RewritePredicates(child).Some? {
        PushInfers(e, RewritePredicates(child).value);
      }
    case InnerApply(child, right) => RewriteInfers(child); RewriteInfers(right);
    case LeftApply(child, right) => RewriteInfers(child); RewriteInfers(right);
    case Call(child, _) => RewriteInfers(child);
    case Project(child, _, _) => RewriteInfers(child);
  }

  /** The whole pass; none where it throws. */
  function Optimize(p: Plan): Option<Plan>
  {
    var q := RewritePredicates(p);
    if q.None? then None
    else
      var properties := InferProperties(q.value);
      if properties.None? || properties.value.required != {} then None else q
  }

  /** Nothing in the plan reads a binding that is not available to it. */
  predicate WellScoped(p: Plan)
  {
    InferProperties(p).Some? && InferProperties(p).value.required == {}
  }

  /** The pass accepts exactly the well-scoped plans whose filters all sink resolved. */
  lemma OptimizeSucceedsIff(p: Plan)
    ensures Optimize(p).Some? <==> WellScoped(p) && Resolvable(p)
  {
    RewriteInfers(p);
  }

  /** Not every well-scoped plan passes: a filter that reads both sides of an apply sinks into the right
      side, and from there into an apply that does not provide the left side's binding. */
  lemma WellScopedPlanMayFail()
    ensures var e := Expression(None, [IsKnown(0), IsKnown(2)], (_, _) => Known(1));
      var p := Filter(e, InnerApply(Match({0}, []), InnerApply(Match({1}, []), Match({2}, []))));
      WellScoped(p) && WellFormed(p) && Optimize(p).None?
  {
    var operands := [IsKnown(0), IsKnown(2)];
    var e := Expression(None, operands, (_, _) => Known(1));
    assert operands[1..] == [IsKnown(2)] && [IsKnown(2)][1..] == [];
    assert OperandBindings([IsKnown(2)]) == {2} && OperandBindings(operands) == {0, 2};
    var inner := InnerApply(Match({1}, []), Match({2}, []));
    var child := InnerApply(Match({0}, []), inner);
    assert ExpressionBindings(e) == {0, 2} && Outputs(inner) == {1, 2};
    assert 0 in ExpressionBindings(e) && 0 !in Outputs(inner) && 2 in ExpressionBindings(e)
    && 2 !in Outputs(child.child);
    assert !SinksResolved(e, inner) && !SinksResolved(e, child);
    assert SinkAll(child) == child;
    OptimizeSucceedsIff(Filter(e, child));
  }

  // ----- the plans that the binder builds -----

  /** One MATCH stage with its own filters. */
  predicate IsStage(p: Plan)
  {
    p.Match? || (p.Filter? && IsStage(p.child))
  }

  /** Stages applied one after the other, with filters, calls and projections above them. */
  predicate IsPipeline(p: Plan)
  {
    match p
    case Unit => true
    case Match(_, _) => true
    case Filter(_, child) => IsPipeline(child)
    case InnerApply(child, right) => IsPipeline(child) && IsStage(right)
    case LeftApply(child, right) => IsPipeline(child) && IsStage(right)
    case Call(child, _) => IsPipeline(child) && WellScoped(child)
    case Project(child, _, _) => IsPipeline(child)
  }

  lemma {:induction false} StageStays(p: Plan)
    requires IsStage(p)
    ensures SinkAll(p) == p && Resolvable(p)
  {
    if p.Filter? {
      StageStays(p.child);
    }
  }

  lemma {:induction false} SinkKeepsPipeline(e: Expression, p: Plan)
    requires IsPipeline(p) && ExpressionBindings(e) <= Outputs(p)
    ensures IsPipeline(Sink(e, p)) && Outputs(Sink(e, p)) == Outputs(p) && SinksResolved(e, p)
    decreases p
  {
    match p
    case InnerApply(left, right) =>
      if ExpressionBindings(e) <= Outputs(left) {
        SinkKeepsPipeline(e, left);
      }
    case LeftApply(left, right) =>
      if ExpressionBindings(e) <= Outputs(left) {
        SinkKeepsPipeline(e, left);
      }
    case _ =>
  }

  lemma {:induction false} PipelineResolves(p: Plan)
    requires IsPipeline(p) && WellScoped(p)
    ensures Resolvable(p) && IsPipeline(SinkAll(p)) && Outputs(SinkAll(p)) == Outputs(p) && WellScoped(SinkAll(p))
  {
    RewriteInfers(p);
    match p
    case Unit =>
    case Match(_, _) =>
    case Filter(e, child) =>
      PipelineResolves(child);
      InferredOutputs(child);
      FilterIsCovered(e, child);
      SinkKeepsPipeline(e, SinkAll(child));
    case InnerApply(child, right) =>
      PipelineResolves(child);
      StageStays(right);
    case LeftApply(child, right) =>
      PipelineResolves(child);
      StageStays(right);
    case Call(child, _) => PipelineResolves(child);
    case Project(child, _, _) => PipelineResolves(child);
  }

  lemma FilterIsCovered(e: Expression, child: Plan)
    requires WellScoped(Filter(e, child))
    ensures ExpressionBindings(e) <= InferProperties(child).value.outputs
  {
    var outputs := InferProperties(child).value.outputs;
    var missing := ExpressionBindings(e) - outputs;
    assert missing <= InferProperties(Filter(e, child)).value.required;
    assert missing == {};
    forall x | x in ExpressionBindings(e)
      ensures x in outputs
    {
      assert x !in missing;
    }
  }

  /** Every well-scoped plan of the shape that the binder builds passes. */
  lemma BoundPlansOptimize(p: Plan)
    requires IsPipeline(p) && WellScoped(p)
    ensures Optimize(p).Some?
  {
    PipelineResolves(p);
    OptimizeSucceedsIff(p);
  }
}
