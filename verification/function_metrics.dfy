/**
  The per-function passes: parameter count, function-level McCabe and bumpy
  road. Each one turns the rows of one partition of its (already filtered)
  view into one AST-node metric record per row.
 */
module FunctionMetrics {
  import opened MetricTypes

  /** A row of the parameter count view: a function and its number of parameters. */
  datatype ParamCountRow = ParamCountRow(id: AstNodeId, count: nat)

  /** A row of the McCabe view: a function and its cyclomatic complexity. */
  datatype McCabeRow = McCabeRow(astNodeId: AstNodeId, mccabe: nat)

  /** A row of the bumpy road view: a function, its bumpiness and its statement count. */
  datatype BumpyRoadRow = BumpyRoadRow(astNodeId: AstNodeId, bumpiness: nat, statementCount: nat)

  /** Bumpy road: 1.0 for a function without statements, otherwise bumpiness per statement. */
  function BumpyRoadValue(bumpiness: nat, statementCount: nat): (v: real)
    ensures statementCount == 0 ==> v == 1.0
    ensures statementCount > 0 ==> v * statementCount as real == bumpiness as real
    ensures v >= 0.0
    ensures statementCount > 0 && bumpiness <= statementCount ==> v <= 1.0
    ensures statementCount > 0 && bumpiness >= statementCount ==> v >= 1.0
  {
    if statementCount == 0 then 1.0 else bumpiness as real / statementCount as real
  }

  /** `functionParameters` on one partition: the parameter count, copied, under PARAMETER_COUNT. */
  function FunctionParameters(tasks: seq<ParamCountRow>): (r: seq<AstNodeMetric>)
    ensures |r| == |tasks|
    ensures forall i :: 0 <= i < |tasks| ==>
      && r[i].astNodeId == tasks[i].id
      && r[i].kind == ParameterCount
      && r[i].value == Num(tasks[i].count as real)
  {
    if tasks == [] then []
    else [AstNodeMetric(tasks[0].id, ParameterCount, Num(tasks[0].count as real))] + FunctionParameters(tasks[1..])
  }

  /** `functionMcCabe` on one partition: the McCabe value, copied, under MCCABE_FUNCTION. */
  function FunctionMcCabe(tasks: seq<McCabeRow>): (r: seq<AstNodeMetric>)
    ensures |r| == |tasks|
    ensures forall i :: 0 <= i < |tasks| ==>
      && r[i].astNodeId == tasks[i].astNodeId
      && r[i].kind == McCabeFunction
      && r[i].value == Num(tasks[i].mccabe as real)
  {
    if tasks == [] then []
    else [AstNodeMetric(tasks[0].astNodeId, McCabeFunction, Num(tasks[0].mccabe as real))] + FunctionMcCabe(tasks[1..])
  }

  /** `functionBumpyRoad` on one partition: one BUMPY_ROAD record per function, same AST node. */
  function FunctionBumpyRoad(tasks: seq<BumpyRoadRow>): (r: seq<AstNodeMetric>)
    ensures |r| == |tasks|
    ensures forall i :: 0 <= i < |tasks| ==>
      && r[i].astNodeId == tasks[i].astNodeId
      && r[i].kind == BumpyRoad
      && r[i].value == Num(BumpyRoadValue(tasks[i].bumpiness, tasks[i].statementCount))
  {
    if tasks == [] then []
    else [BumpyRoadRecord(tasks[0])] + FunctionBumpyRoad(tasks[1..])
  }

  function BumpyRoadRecord(t: BumpyRoadRow): AstNodeMetric {
    AstNodeMetric(t.astNodeId, BumpyRoad, Num(BumpyRoadValue(t.bumpiness, t.statementCount)))
  }

  /**
    The partition a row lands in does not matter: running a pass on two
    consecutive partitions persists exactly the records of one run on both.
   */
  lemma {:induction false} FunctionParametersSplit(a: seq<ParamCountRow>, b: seq<ParamCountRow>)
    ensures FunctionParameters(a + b) == FunctionParameters(a) + FunctionParameters(b)
  {
    if a != [] {
      assert (a + b)[1..] == a[1..] + b;
      FunctionParametersSplit(a[1..], b);
    }
  }

  lemma {:induction false} FunctionMcCabeSplit(a: seq<McCabeRow>, b: seq<McCabeRow>)
    ensures FunctionMcCabe(a + b) == FunctionMcCabe(a) + FunctionMcCabe(b)
  {
    if a != [] {
      assert (a + b)[1..] == a[1..] + b;
      FunctionMcCabeSplit(a[1..], b);
    }
  }

  lemma {:induction false} FunctionBumpyRoadSplit(a: seq<BumpyRoadRow>, b: seq<BumpyRoadRow>)
    ensures FunctionBumpyRoad(a + b) == FunctionBumpyRoad(a) + FunctionBumpyRoad(b)
  {
    if a != [] {
      assert (a + b)[1..] == a[1..] + b;
      FunctionBumpyRoadSplit(a[1..], b);
    }
  }
}
