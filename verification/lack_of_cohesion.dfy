/**
  Lack of cohesion (`lackOfCohesion`): for every type, the standard LCOM and
  the Henderson-Sellers variant, computed from the number of distinct fields
  F, the number of methods with a body M and the total C, over those methods,
  of the number of distinct fields each one references.
 */
module LackOfCohesion {
  import opened MetricTypes

  /** A row of the record view: a type's entity hash and its AST node. */
  datatype CohesionType = CohesionType(entityHash: Hash, astNodeId: AstNodeId)

  /** A field of a type (its owner's hash and its own entity hash). */
  datatype FieldRow = FieldRow(typeHash: Hash, entityHash: Hash)

  /** A method of a type with the textual span of its definition. */
  datatype MethodRow = MethodRow(typeHash: Hash, start: Position, end: Position, filePath: Path)

  /** An AST node that reads or writes a variable, with the entity it refers to. */
  datatype NodeRow = NodeRow(entityHash: Hash, filePath: Path, start: Position, end: Position)

  datatype CohesionFacts = CohesionFacts(fields: seq<FieldRow>, methods: seq<MethodRow>, nodes: seq<NodeRow>)

  /** F, M and C of one type. */
  datatype CohesionCounts = CohesionCounts(fieldCount: nat, methodCount: nat, totalCohesion: nat)

  predicate Trivial(c: CohesionCounts) {
    c.fieldCount == 0 || c.methodCount == 0
  }

  /** The distinct entity hashes of the type's fields. */
  function FieldHashes(facts: CohesionFacts, t: CohesionType): set<Hash> {
    set f | f in facts.fields && f.typeHash == t.entityHash :: f.entityHash
  }

  /** A method has a body when its start lies strictly before its end. */
  predicate HasBody(m: MethodRow) {
    Before(m.start, m.end)
  }

  /** A method of type `t` that is counted in M. */
  predicate CountedMethod(t: CohesionType, m: MethodRow) {
    m.typeHash == t.entityHash && HasBody(m)
  }

  /**
    The range filter of the node query, as written: each column disjunct is
    implied by the line comparison next to it, so the filter compares lines only.
   */
  function InMethodSpan(m: MethodRow, n: NodeRow): (b: bool)
    ensures b <==> n.filePath == m.filePath && m.start.line <= n.start.line && n.end.line <= m.end.line
  {
    && n.filePath == m.filePath
    && (n.start.line >= m.start.line || (n.start.line == m.start.line && n.start.column >= m.start.column))
    && (n.end.line <= m.end.line || (n.end.line == m.end.line && n.end.column <= m.end.column))
  }

  /** The distinct fields of the type that nodes inside the method's span refer to. */
  function UsedFields(nodes: seq<NodeRow>, m: MethodRow, fields: set<Hash>): (r: set<Hash>)
    ensures r <= fields
    ensures |r| <= |fields|
  {
    var r := set n | n in nodes && InMethodSpan(m, n) && n.entityHash in fields :: n.entityHash;
    SubsetCardinality(r, fields);
    r
  }

  /** The number of counted methods among `ms` and the sum of their used-field counts. */
  function Tally(facts: CohesionFacts, t: CohesionType, fields: set<Hash>, ms: seq<MethodRow>): (c: (nat, nat))
    ensures c.0 <= |ms|
  {
    if ms == [] then (0, 0)
    else
      var rest := Tally(facts, t, fields, ms[..|ms| - 1]);
      var m := ms[|ms| - 1];
      if CountedMethod(t, m) then (rest.0 + 1, rest.1 + |UsedFields(facts.nodes, m, fields)|)
      else rest
  }

  /** Each counted method contributes at most F, so C <= M * F. */
  lemma {:induction false} TallyBound(facts: CohesionFacts, t: CohesionType, fields: set<Hash>, ms: seq<MethodRow>)
    ensures Tally(facts, t, fields, ms).1 <= Tally(facts, t, fields, ms).0 * |fields|
  {
    if ms != [] {
      var rest := Tally(facts, t, fields, ms[..|ms| - 1]);
      TallyBound(facts, t, fields, ms[..|ms| - 1]);
      assert (rest.0 + 1) * |fields| == rest.0 * |fields| + |fields|;
    }
  }

  /** M and C add up over consecutive runs of method rows. */
  lemma {:induction false} TallyAppend(facts: CohesionFacts, t: CohesionType, fields: set<Hash>, a: seq<MethodRow>, b: seq<MethodRow>)
    ensures Tally(facts, t, fields, a + b).0 == Tally(facts, t, fields, a).0 + Tally(facts, t, fields, b).0
    ensures Tally(facts, t, fields, a + b).1 == Tally(facts, t, fields, a).1 + Tally(facts, t, fields, b).1
  {
    if b == [] {
      assert a + b == a;
    } else {
      TallyAppend(facts, t, fields, a, b[..|b| - 1]);
      assert (a + b)[..|a + b| - 1] == a + b[..|b| - 1];
      assert (a + b)[|a + b| - 1] == b[|b| - 1];
    }
  }

  /** One method row adds 1 to M and its used-field count to C when it is counted, and nothing otherwise. */
  lemma TallyOfOne(facts: CohesionFacts, t: CohesionType, fields: set<Hash>, m: MethodRow)
    ensures Tally(facts, t, fields, [m])
         == if CountedMethod(t, m) then (1, |UsedFields(facts.nodes, m, fields)|) else (0, 0)
  {
    assert [m][..0] == [];
  }

  /** F, M and C of a type, gathered the way the pass gathers them. */
  function Counts(facts: CohesionFacts, t: CohesionType): CohesionCounts {
    var fields := FieldHashes(facts, t);
    var tally := Tally(facts, t, fields, facts.methods);
    CohesionCounts(|fields|, tally.0, tally.1)
  }

  /** F counts distinct field hashes, M is at most the number of methods, and C <= M * F. */
  lemma CountsBound(facts: CohesionFacts, t: CohesionType)
    ensures Counts(facts, t).fieldCount == |FieldHashes(facts, t)|
    ensures Counts(facts, t).methodCount <= |facts.methods|
    ensures Counts(facts, t).totalCohesion <= Counts(facts, t).methodCount * Counts(facts, t).fieldCount
  {
    TallyBound(facts, t, FieldHashes(facts, t), facts.methods);
  }

  /** Standard lack of cohesion: 0.0 for a trivial type, otherwise 1 - C/(M*F). */
  function StandardLcom(c: CohesionCounts): Value {
    if Trivial(c) then Num(0.0)
    else Num(1.0 - c.totalCohesion as real / (c.methodCount * c.fieldCount) as real)
  }

  /** Henderson-Sellers: 0.0 for a trivial type, NaN for a single method, otherwise (M - C/F)/(M - 1). */
  function HendersonSellersLcom(c: CohesionCounts): Value {
    if Trivial(c) then Num(0.0)
    else if c.methodCount == 1 then NaN
    else
      var m := c.methodCount as real;
      Num((m - c.totalCohesion as real / c.fieldCount as real) / (m - 1.0))
  }

  /**
    The standard value is always a number; it is 0.0 for a trivial type and
    otherwise the x with x * (M*F) = M*F - C, which lies in [0,1] when C <= M*F.
   */
  lemma StandardLcomMeaning(c: CohesionCounts)
    ensures StandardLcom(c).Num?
    ensures Trivial(c) ==> StandardLcom(c).x == 0.0
    ensures !Trivial(c) ==>
      StandardLcom(c).x * (c.methodCount * c.fieldCount) as real
        == (c.methodCount * c.fieldCount - c.totalCohesion) as real
    ensures c.totalCohesion <= c.methodCount * c.fieldCount ==> 0.0 <= StandardLcom(c).x <= 1.0
  {
    if !Trivial(c) {
      var mf := (c.methodCount * c.fieldCount) as real;
      assert mf >= 1.0;
      var q := c.totalCohesion as real / mf;
      assert q * mf == c.totalCohesion as real;
      assert StandardLcom(c).x == 1.0 - q;
      if c.totalCohesion <= c.methodCount * c.fieldCount {
        assert q * mf <= mf;
        assert q <= 1.0;
      }
    }
  }

  /**
    Henderson-Sellers is 0.0 for a trivial type, NaN for a single method and
    otherwise the x with x * ((M-1)*F) = M*F - C, which lies in [0,2] when C <= M*F.
   */
  lemma HendersonSellersMeaning(c: CohesionCounts)
    ensures Trivial(c) ==> HendersonSellersLcom(c) == Num(0.0)
    ensures !Trivial(c) && c.methodCount == 1 ==> HendersonSellersLcom(c) == NaN
    ensures !Trivial(c) && c.methodCount > 1 ==>
      && HendersonSellersLcom(c).Num?
      && HendersonSellersLcom(c).x * ((c.methodCount - 1) * c.fieldCount) as real
           == (c.methodCount * c.fieldCount - c.totalCohesion) as real
    ensures !Trivial(c) && c.methodCount > 1 && c.totalCohesion <= c.methodCount * c.fieldCount ==>
      0.0 <= HendersonSellersLcom(c).x <= 2.0
  {
    if !Trivial(c) && c.methodCount > 1 {
      var m := c.methodCount as real;
      var f := c.fieldCount as real;
      var q := c.totalCohesion as real / f;
      var v := (m - q) / (m - 1.0);
      assert HendersonSellersLcom(c) == Num(v);
      ScaledQuotient(m, f, q, v, c.totalCohesion as real);
      CastProduct(c.methodCount - 1, c.fieldCount);
      CastProduct(c.methodCount, c.fieldCount);
      if c.totalCohesion <= c.methodCount * c.fieldCount {
        assert q * f <= m * f;
        HendersonSellersBounds(m, f, q, v);
      }
    }
  }

  lemma CastProduct(a: nat, b: nat)
    ensures (a * b) as real == a as real * b as real
  {
  }

  /** With q = C/F and v = (M - q)/(M - 1): v * ((M-1) * F) = M*F - C. */
  lemma ScaledQuotient(m: real, f: real, q: real, v: real, total: real)
    requires m >= 2.0 && f > 0.0
    requires q == total / f && v == (m - q) / (m - 1.0)
    ensures q * f == total
    ensures v * (m - 1.0) == m - q
    ensures v * ((m - 1.0) * f) == m * f - total
  {
    assert v * (m - 1.0) == m - q;
    calc {
      v * ((m - 1.0) * f);
      (v * (m - 1.0)) * f;
      (m - q) * f;
      m * f - q * f;
    }
  }

  lemma HendersonSellersBounds(m: real, f: real, q: real, v: real)
    requires m >= 2.0 && f > 0.0
    requires 0.0 <= q * f <= m * f
    requires v * (m - 1.0) == m - q
    ensures 0.0 <= v <= 2.0
  {
    CancelPositive(0.0, f, q);
    CancelPositive(q, f, m);
    CancelPositive(0.0, m - 1.0, v);
    CancelPositive(v, m - 1.0, 2.0);
  }

  /** A positive factor can be cancelled from both sides of an inequality. */
  lemma CancelPositive(a: real, b: real, c: real)
    requires b > 0.0 && a * b <= c * b
    ensures a <= c
  {
  }

  function StandardRecord(facts: CohesionFacts, t: CohesionType): AstNodeMetric {
    AstNodeMetric(t.astNodeId, LackOfCohesion, StandardLcom(Counts(facts, t)))
  }

  function HendersonSellersRecord(facts: CohesionFacts, t: CohesionType): AstNodeMetric {
    AstNodeMetric(t.astNodeId, LackOfCohesionHS, HendersonSellersLcom(Counts(facts, t)))
  }

  /** `lackOfCohesion` on one partition: every type, trivial or not, gets its two records, standard first. */
  function LackOfCohesionPass(facts: CohesionFacts, tasks: seq<CohesionType>): (r: seq<AstNodeMetric>)
    ensures |r| == 2 * |tasks|
    ensures forall i :: 0 <= i < |tasks| ==>
      r[2 * i] == StandardRecord(facts, tasks[i]) && r[2 * i + 1] == HendersonSellersRecord(facts, tasks[i])
  {
    if tasks == [] then []
    else
      var rest := LackOfCohesionPass(facts, tasks[1..]);
      [StandardRecord(facts, tasks[0]), HendersonSellersRecord(facts, tasks[0])] + rest
  }

  lemma {:induction false} LackOfCohesionPassSplit(facts: CohesionFacts, a: seq<CohesionType>, b: seq<CohesionType>)
    ensures LackOfCohesionPass(facts, a + b) == LackOfCohesionPass(facts, a) + LackOfCohesionPass(facts, b)
  {
    if a == [] {
      assert a + b == b;
    } else {
      assert (a + b)[1..] == a[1..] + b;
      LackOfCohesionPassSplit(facts, a[1..], b);
    }
  }

  /** The pass writes both records of every type it is given, and only records of those types. */
  lemma PassRecordsIff(facts: CohesionFacts, tasks: seq<CohesionType>, m: AstNodeMetric)
    ensures m in LackOfCohesionPass(facts, tasks) <==>
      exists i :: 0 <= i < |tasks| && (m == StandardRecord(facts, tasks[i]) || m == HendersonSellersRecord(facts, tasks[i]))
  {
    var r := LackOfCohesionPass(facts, tasks);
    if m in r {
      var k :| 0 <= k < |r| && r[k] == m;
      var i := k / 2;
      assert k == 2 * i || k == 2 * i + 1;
      assert 0 <= i < |tasks|;
    }
    if exists i :: 0 <= i < |tasks| && (m == StandardRecord(facts, tasks[i]) || m == HendersonSellersRecord(facts, tasks[i])) {
      var i :| 0 <= i < |tasks| && (m == StandardRecord(facts, tasks[i]) || m == HendersonSellersRecord(facts, tasks[i]));
      assert r[2 * i] == StandardRecord(facts, tasks[i]);
      assert r[2 * i + 1] == HendersonSellersRecord(facts, tasks[i]);
    }
  }

  /** Every value of the pass lies in its range: [0,1] for the standard LCOM, [0,2] or NaN for Henderson-Sellers. */
  lemma LcomRanges(facts: CohesionFacts, t: CohesionType)
    ensures var c := Counts(facts, t);
      && StandardLcom(c).Num? && 0.0 <= StandardLcom(c).x <= 1.0
      && (HendersonSellersLcom(c).NaN? || (HendersonSellersLcom(c).Num? && 0.0 <= HendersonSellersLcom(c).x <= 2.0))
  {
    CountsBound(facts, t);
    StandardLcomMeaning(Counts(facts, t));
    HendersonSellersMeaning(Counts(facts, t));
  }

  /** Every counted method among `ms` uses every field. */
  predicate AllUseEveryField(facts: CohesionFacts, t: CohesionType, fields: set<Hash>, ms: seq<MethodRow>) {
    forall m :: m in ms && CountedMethod(t, m) ==> UsedFields(facts.nodes, m, fields) == fields
  }

  /** No counted method among `ms` uses any field. */
  predicate NoneUsesAnyField(facts: CohesionFacts, t: CohesionType, fields: set<Hash>, ms: seq<MethodRow>) {
    forall m :: m in ms && CountedMethod(t, m) ==> UsedFields(facts.nodes, m, fields) == {}
  }

  /**
    C reaches M*F exactly when every counted method uses every field: the
    tally is maximal exactly when each of its terms is.
   */
  lemma {:induction false} TallyFullIff(facts: CohesionFacts, t: CohesionType, fields: set<Hash>, ms: seq<MethodRow>)
    ensures Tally(facts, t, fields, ms).1 == Tally(facts, t, fields, ms).0 * |fields|
      <==> AllUseEveryField(facts, t, fields, ms)
  {
    if ms != [] {
      var init := ms[..|ms| - 1];
      var m := ms[|ms| - 1];
      TallyFullIff(facts, t, fields, init);
      TallyBound(facts, t, fields, init);
      var rest := Tally(facts, t, fields, init);
      AllUseEveryFieldSnoc(facts, t, fields, ms);
      if CountedMethod(t, m) {
        var used := UsedFields(facts.nodes, m, fields);
        SubsetCardinality(used, fields);
        FullSumIff(rest.1, |used|, rest.0, |fields|);
        assert Tally(facts, t, fields, ms) == (rest.0 + 1, rest.1 + |used|);
      } else {
        assert Tally(facts, t, fields, ms) == rest;
      }
    }
  }

  /** A sum of terms bounded by M*F and F reaches (M+1)*F exactly when both terms are maximal. */
  lemma FullSumIff(a: nat, b: nat, m: nat, f: nat)
    requires a <= m * f && b <= f
    ensures a + b == (m + 1) * f <==> a == m * f && b == f
  {
    assert (m + 1) * f == m * f + f;
  }

  lemma AllUseEveryFieldSnoc(facts: CohesionFacts, t: CohesionType, fields: set<Hash>, ms: seq<MethodRow>)
    requires ms != []
    ensures AllUseEveryField(facts, t, fields, ms) <==>
      && AllUseEveryField(facts, t, fields, ms[..|ms| - 1])
      && (CountedMethod(t, ms[|ms| - 1]) ==> UsedFields(facts.nodes, ms[|ms| - 1], fields) == fields)
  {
    assert ms == ms[..|ms| - 1] + [ms[|ms| - 1]];
  }

  lemma NoneUsesAnyFieldSnoc(facts: CohesionFacts, t: CohesionType, fields: set<Hash>, ms: seq<MethodRow>)
    requires ms != []
    ensures NoneUsesAnyField(facts, t, fields, ms) <==>
      && NoneUsesAnyField(facts, t, fields, ms[..|ms| - 1])
      && (CountedMethod(t, ms[|ms| - 1]) ==> UsedFields(facts.nodes, ms[|ms| - 1], fields) == {})
  {
    assert ms == ms[..|ms| - 1] + [ms[|ms| - 1]];
  }

  /** C is zero exactly when no counted method uses any field. */
  lemma {:induction false} TallyEmptyIff(facts: CohesionFacts, t: CohesionType, fields: set<Hash>, ms: seq<MethodRow>)
    ensures Tally(facts, t, fields, ms).1 == 0 <==> NoneUsesAnyField(facts, t, fields, ms)
  {
    if ms != [] {
      TallyEmptyIff(facts, t, fields, ms[..|ms| - 1]);
      NoneUsesAnyFieldSnoc(facts, t, fields, ms);
    }
  }

  /** Standard LCOM of a non-trivial type is 0 exactly when every method with a body uses every field. */
  lemma FullyCohesiveIff(facts: CohesionFacts, t: CohesionType)
    requires !Trivial(Counts(facts, t))
    ensures StandardLcom(Counts(facts, t)) == Num(0.0)
      <==> AllUseEveryField(facts, t, FieldHashes(facts, t), facts.methods)
  {
    var c := Counts(facts, t);
    TallyFullIff(facts, t, FieldHashes(facts, t), facts.methods);
    StandardLcomMeaning(c);
    var mf := c.methodCount * c.fieldCount;
    assert mf > 0;
  }

  /** Standard LCOM of a non-trivial type is 1 exactly when no method with a body uses any field. */
  lemma NotCohesiveIff(facts: CohesionFacts, t: CohesionType)
    requires !Trivial(Counts(facts, t))
    ensures StandardLcom(Counts(facts, t)) == Num(1.0)
      <==> NoneUsesAnyField(facts, t, FieldHashes(facts, t), facts.methods)
  {
    var c := Counts(facts, t);
    TallyEmptyIff(facts, t, FieldHashes(facts, t), facts.methods);
    StandardLcomMeaning(c);
    var mf := c.methodCount * c.fieldCount;
    assert mf > 0;
  }
}
