/**
  `parse`: the six passes in their fixed order, each appending its records
  to the metric store. The order matters in one place: the type-level
  McCabe pass reads the function-level McCabe records, so it sees those
  the function pass of the same run has just written.
 */
module MetricsParser {
  import opened MetricTypes
  import opened FunctionMetrics
  import opened TypeMcCabe
  import opened LackOfCohesion
  import opened RelationalCohesion

  /** The two persisted metric tables. */
  datatype Store = Store(astNodeMetrics: seq<AstNodeMetric>, fileMetrics: seq<FileMetric>)

  /**
    What the passes read, beyond the store: the filtered views of every
    pass, and for relational cohesion the module set, the order its hash
    set is walked in and the File rows that give each module its id.
   */
  datatype Inputs = Inputs(
    parameterRows: seq<ParamCountRow>,
    mccabeRows: seq<McCabeRow>,
    bumpyRoadRows: seq<BumpyRoadRow>,
    typeFacts: FactBase,
    underInput: set<Path>,
    cohesionFacts: CohesionFacts,
    cohesionTypes: seq<CohesionType>,
    moduleFacts: ModuleFacts,
    moduleFiles: seq<FileRow>,
    modules: set<Path>,
    moduleOrder: seq<Path>)

  /** The position of each AST-node metric kind's pass in `parse`. */
  function PassIndex(k: AstNodeMetricKind): nat {
    match k
    case ParameterCount => 0
    case McCabeFunction => 1
    case BumpyRoad => 2
    case McCabeType => 3
    case LackOfCohesion => 4
    case LackOfCohesionHS => 4
  }

  /** Records appear grouped by pass, in pass order. */
  predicate PassOrdered(ms: seq<AstNodeMetric>) {
    forall i, j :: 0 <= i < j < |ms| ==> PassIndex(ms[i].kind) <= PassIndex(ms[j].kind)
  }

  /** The store the type-level McCabe pass reads: the prior records and those of the three function passes. */
  function FunctionPassesStore(prior: seq<AstNodeMetric>, inputs: Inputs): seq<AstNodeMetric> {
    prior + FunctionParameters(inputs.parameterRows) + FunctionMcCabe(inputs.mccabeRows) + FunctionBumpyRoad(inputs.bumpyRoadRows)
  }

  lemma FunctionParametersKinds(rows: seq<ParamCountRow>)
    ensures AllOfPass(FunctionParameters(rows), 0)
  {
    var r := FunctionParameters(rows);
    forall x | x in r ensures PassIndex(x.kind) == 0 { var i :| 0 <= i < |r| && r[i] == x; }
  }

  lemma FunctionMcCabeKinds(rows: seq<McCabeRow>)
    ensures AllOfPass(FunctionMcCabe(rows), 1)
    ensures McCabeNumeric(FunctionMcCabe(rows))
  {
    var r := FunctionMcCabe(rows);
    forall x | x in r ensures PassIndex(x.kind) == 1 && x.value.Num? { var i :| 0 <= i < |r| && r[i] == x; }
  }

  lemma FunctionBumpyRoadKinds(rows: seq<BumpyRoadRow>)
    ensures AllOfPass(FunctionBumpyRoad(rows), 2)
  {
    var r := FunctionBumpyRoad(rows);
    forall x | x in r ensures PassIndex(x.kind) == 2 { var i :| 0 <= i < |r| && r[i] == x; }
  }

  /** The three function passes write only numbers under MCCABE_FUNCTION. */
  lemma FunctionPassesKeepMcCabeNumeric(prior: seq<AstNodeMetric>, inputs: Inputs)
    requires McCabeNumeric(prior)
    ensures McCabeNumeric(FunctionPassesStore(prior, inputs))
  {
    FunctionParametersKinds(inputs.parameterRows);
    FunctionMcCabeKinds(inputs.mccabeRows);
    FunctionBumpyRoadKinds(inputs.bumpyRoadRows);
  }

  /** The AST-node records one run of `parse` appends, pass after pass. */
  function NewRecords(prior: Store, inputs: Inputs): seq<AstNodeMetric>
    requires McCabeNumeric(prior.astNodeMetrics)
  {
    var s3 := FunctionPassesStore(prior.astNodeMetrics, inputs);
    FunctionPassesKeepMcCabeNumeric(prior.astNodeMetrics, inputs);
    FunctionParameters(inputs.parameterRows)
      + FunctionMcCabe(inputs.mccabeRows)
      + FunctionBumpyRoad(inputs.bumpyRoadRows)
      + TypeRecords(inputs.typeFacts, inputs.underInput, s3, inputs.typeFacts.astNodes)
      + LackOfCohesionPass(inputs.cohesionFacts, inputs.cohesionTypes)
  }

  /**
    `parse`. The prior store must hold numbers under MCCABE_FUNCTION, which
    is what the function pass writes, and the module order walks the module
    set. The records of this run are appended; nothing already stored is
    changed, and every module gets one relational cohesion record.
   */
  function Parse(prior: Store, inputs: Inputs): (r: Store)
    requires McCabeNumeric(prior.astNodeMetrics)
    requires Enumerates(inputs.moduleOrder, inputs.modules)
    ensures prior.astNodeMetrics <= r.astNodeMetrics
    ensures prior.fileMetrics <= r.fileMetrics
    ensures r.astNodeMetrics[|prior.astNodeMetrics|..] == NewRecords(prior, inputs)
    ensures |r.fileMetrics| == |prior.fileMetrics| + |inputs.modules|
    ensures forall m :: m in r.fileMetrics[|prior.fileMetrics|..] ==> m.kind == RelationalCohesion
    ensures forall p :: p in inputs.modules ==>
      ModuleRecord(inputs.moduleFacts, ModuleIds(inputs.moduleFiles, inputs.modules), p) in r.fileMetrics[|prior.fileMetrics|..]
  {
    var records := NewRecords(prior, inputs);
    var files := RelationalCohesionPass(inputs.moduleFacts, inputs.moduleFiles, inputs.modules, inputs.moduleOrder);
    Appended(prior.astNodeMetrics, records);
    Appended(prior.fileMetrics, files);
    Store(prior.astNodeMetrics + records, prior.fileMetrics + files)
  }

  /** Appending keeps the old sequence as a prefix and the new part after it. */
  lemma Appended<T>(a: seq<T>, b: seq<T>)
    ensures a <= a + b
    ensures (a + b)[|a|..] == b
  {
    assert (a + b)[..|a|] == a;
  }

  predicate AllOfPass(ms: seq<AstNodeMetric>, p: nat) {
    forall m :: m in ms ==> PassIndex(m.kind) == p
  }

  lemma OrderedAppend(a: seq<AstNodeMetric>, pa: nat, b: seq<AstNodeMetric>)
    requires PassOrdered(a)
    requires forall m :: m in a ==> PassIndex(m.kind) <= pa
    requires forall m :: m in b ==> PassIndex(m.kind) >= pa
    requires PassOrdered(b)
    ensures PassOrdered(a + b)
  {
    forall i, j | 0 <= i < j < |a + b|
      ensures PassIndex((a + b)[i].kind) <= PassIndex((a + b)[j].kind)
    {
      if j < |a| {
        assert (a + b)[i] == a[i] && (a + b)[j] == a[j];
      } else if i < |a| {
        assert (a + b)[i] == a[i] && a[i] in a;
        assert (a + b)[j] == b[j - |a|] && b[j - |a|] in b;
      } else {
        assert (a + b)[i] == b[i - |a|] && (a + b)[j] == b[j - |a|];
      }
    }
  }

  lemma UniformIsOrdered(ms: seq<AstNodeMetric>, p: nat)
    requires AllOfPass(ms, p)
    ensures PassOrdered(ms)
  {
    forall i, j | 0 <= i < j < |ms|
      ensures PassIndex(ms[i].kind) <= PassIndex(ms[j].kind)
    {
      assert ms[i] in ms && ms[j] in ms;
    }
  }

  lemma LackOfCohesionPassKinds(facts: CohesionFacts, tasks: seq<CohesionType>)
    ensures AllOfPass(LackOfCohesionPass(facts, tasks), 4)
  {
    var r := LackOfCohesionPass(facts, tasks);
    forall m | m in r
      ensures PassIndex(m.kind) == 4
    {
      var k :| 0 <= k < |r| && r[k] == m;
      var i := k / 2;
      assert k == 2 * i || k == 2 * i + 1;
    }
  }

  /** Five segments, each written by one pass, in pass order. */
  lemma SegmentsOrdered(p: seq<AstNodeMetric>, m: seq<AstNodeMetric>, b: seq<AstNodeMetric>, t: seq<AstNodeMetric>, l: seq<AstNodeMetric>)
    requires AllOfPass(p, 0) && AllOfPass(m, 1) && AllOfPass(b, 2) && AllOfPass(t, 3) && AllOfPass(l, 4)
    ensures PassOrdered(p + m + b + t + l)
  {
    UniformIsOrdered(p, 0);
    UniformIsOrdered(m, 1);
    UniformIsOrdered(b, 2);
    UniformIsOrdered(t, 3);
    UniformIsOrdered(l, 4);
    OrderedAppend(p, 0, m);
    OrderedAppend(p + m, 1, b);
    OrderedAppend(p + m + b, 2, t);
    OrderedAppend(p + m + b + t, 3, l);
  }

  /**
    The records of one run come in pass order: parameter counts, function
    McCabe, bumpy road, type McCabe, then the two cohesion kinds.
   */
  lemma ParseRunsPassesInOrder(prior: Store, inputs: Inputs)
    requires McCabeNumeric(prior.astNodeMetrics)
    ensures PassOrdered(NewRecords(prior, inputs))
  {
    FunctionPassesKeepMcCabeNumeric(prior.astNodeMetrics, inputs);
    var s3 := FunctionPassesStore(prior.astNodeMetrics, inputs);
    FunctionParametersKinds(inputs.parameterRows);
    FunctionMcCabeKinds(inputs.mccabeRows);
    FunctionBumpyRoadKinds(inputs.bumpyRoadRows);
    RecordPerCountedType(inputs.typeFacts, inputs.underInput, s3, inputs.typeFacts.astNodes);
    LackOfCohesionPassKinds(inputs.cohesionFacts, inputs.cohesionTypes);
    SegmentsOrdered(
      FunctionParameters(inputs.parameterRows),
      FunctionMcCabe(inputs.mccabeRows),
      FunctionBumpyRoad(inputs.bumpyRoadRows),
      TypeRecords(inputs.typeFacts, inputs.underInput, s3, inputs.typeFacts.astNodes),
      LackOfCohesionPass(inputs.cohesionFacts, inputs.cohesionTypes));
  }

  /** Looking a node's McCabe record up in two stores in turn: the first store wins. */
  lemma {:induction false} FunctionMcCabeOfAppend(a: seq<AstNodeMetric>, b: seq<AstNodeMetric>, id: AstNodeId)
    ensures FunctionMcCabeOf(a + b, id)
         == if FunctionMcCabeOf(a, id).Some? then FunctionMcCabeOf(a, id) else FunctionMcCabeOf(b, id)
  {
    if a == [] {
      assert a + b == b;
    } else {
      assert (a + b)[0] == a[0];
      assert (a + b)[1..] == a[1..] + b;
      FunctionMcCabeOfAppend(a[1..], b, id);
    }
  }

  /** The function McCabe pass records, for a node, the value of its first row. */
  lemma {:induction false} FunctionMcCabeOfPass(rows: seq<McCabeRow>, id: AstNodeId, i: nat)
    requires i < |rows| && rows[i].astNodeId == id
    requires forall j :: 0 <= j < i ==> rows[j].astNodeId != id
    ensures FunctionMcCabeOf(FunctionMcCabe(rows), id) == Some(Num(rows[i].mccabe as real))
  {
    var r := FunctionMcCabe(rows);
    assert r[0] == AstNodeMetric(rows[0].astNodeId, McCabeFunction, Num(rows[0].mccabe as real));
    if i > 0 {
      FunctionMcCabeOfPass(rows[1..], id, i - 1);
      assert r[1..] == FunctionMcCabe(rows[1..]);
    }
  }

  /** Parameter count and bumpy road records never answer a McCabe lookup. */
  lemma {:induction false} NoMcCabeIn(ms: seq<AstNodeMetric>, id: AstNodeId)
    requires forall k :: 0 <= k < |ms| ==> ms[k].kind != McCabeFunction
    ensures FunctionMcCabeOf(ms, id).None?
  {
    if ms != [] {
      NoMcCabeIn(ms[1..], id);
    }
  }

  /**
    The pass order at work: for a function definition without a McCabe
    record from an earlier run, the type-level pass reads the value the
    function pass of this run wrote for it.
   */
  lemma TypePassSeesFunctionPass(prior: Store, inputs: Inputs, id: AstNodeId, i: nat)
    requires FunctionMcCabeOf(prior.astNodeMetrics, id).None?
    requires i < |inputs.mccabeRows| && inputs.mccabeRows[i].astNodeId == id
    requires forall j :: 0 <= j < i ==> inputs.mccabeRows[j].astNodeId != id
    ensures FunctionMcCabeOf(FunctionPassesStore(prior.astNodeMetrics, inputs), id)
         == Some(Num(inputs.mccabeRows[i].mccabe as real))
  {
    var s := prior.astNodeMetrics;
    var p := FunctionParameters(inputs.parameterRows);
    var m := FunctionMcCabe(inputs.mccabeRows);
    var b := FunctionBumpyRoad(inputs.bumpyRoadRows);
    NoMcCabeIn(p, id);
    FunctionMcCabeOfAppend(s, p, id);
    FunctionMcCabeOfPass(inputs.mccabeRows, id, i);
    FunctionMcCabeOfAppend(s + p, m, id);
    FunctionMcCabeOfAppend(s + p + m, b, id);
  }
}
