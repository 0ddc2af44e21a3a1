/**
  The vocabulary shared by every metric pass of the C++ metrics parser:
  identifiers, file statuses, source positions, metric values and the two
  kinds of persisted metric records (per AST node and per file).
 */
module MetricTypes {

  /** Database identifiers and content hashes (unsigned 64-bit in the store). */
  type AstNodeId = nat
  type FileId = nat
  type Hash = nat
  type Path = string

  datatype Option<+T> = None | Some(value: T)

  /** The incremental status the parser context reports for a file path. */
  datatype FileStatus = Unchanged | Added | Modified | Deleted | ActionChanged

  /**
    A persisted metric value. The store holds IEEE doubles; the passes
    modelled here only ever produce finite rationals, the NaN written for a
    single-method Henderson-Sellers cohesion, and the positive infinity an
    unguarded division by zero produces for a module without types.
   */
  datatype Value = Num(x: real) | NaN | PosInfinity

  /** The kinds of metric attached to an AST node (functions and types). */
  datatype AstNodeMetricKind =
    | ParameterCount
    | McCabeFunction
    | BumpyRoad
    | McCabeType
    | LackOfCohesion
    | LackOfCohesionHS

  /** The kinds of metric attached to a file (a module's representative file). */
  datatype FileMetricKind = RelationalCohesion

  datatype AstNodeMetric = AstNodeMetric(astNodeId: AstNodeId, kind: AstNodeMetricKind, value: Value)

  datatype FileMetric = FileMetric(file: FileId, kind: FileMetricKind, value: Value)

  /** A source position; positions are ordered lexicographically on (line, column). */
  datatype Position = Position(line: nat, column: nat)

  predicate Before(a: Position, b: Position) {
    a.line < b.line || (a.line == b.line && a.column < b.column)
  }

  /** A subset is no larger than its superset, and of equal size only when they are equal. */
  lemma SubsetCardinality<T>(a: set<T>, b: set<T>)
    requires a <= b
    ensures |a| <= |b|
    ensures |a| == |b| ==> a == b
  {
    assert a * b == a;
    assert |b - a| == |b| - |a|;
    if |a| == |b| {
      assert b - a == {};
    }
  }
}
