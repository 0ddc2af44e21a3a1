/**
  Type-level McCabe (`typeMcCabe`): for every type definition under an input
  path that is not a template instantiation, the sum of the function-level
  McCabe values already persisted for its methods' definitions.
 */
module TypeMcCabe {
  import opened MetricTypes

  datatype SymbolType = TypeSymbol | FunctionSymbol | OtherSymbol
  datatype AstType = Definition | Declaration | OtherAstType

  /** An AST node row: its id, the entity hash it shares with duplicates, its kind and its file. */
  datatype AstNode = AstNode(id: AstNodeId, entityHash: Hash, symbolType: SymbolType, astType: AstType, file: FileId)

  datatype Tag = TemplateInstantiation | Implicit | OtherTag
  datatype MemberKind = Field | Method

  /** A member row: the hash of the owning type, the member kind and the member's AST node. */
  datatype Member = Member(typeHash: Hash, kind: MemberKind, memberAstNode: AstNodeId)

  /** The slice of the fact base the pass reads; sequences are in query order. */
  datatype FactBase = FactBase(
    astNodes: seq<AstNode>,
    files: map<FileId, Path>,
    entityTags: map<AstNodeId, set<Tag>>,
    members: seq<Member>)

  /** Why a method does or does not contribute to its type's McCabe value. */
  datatype Resolution =
    | NoMethodNode
    | NoDefinition
    | ImplicitMethod
    | NoMetric
    | Resolved(definition: AstNode, mccabe: real)

  /** The entity attached to an AST node exists and carries the tag. */
  predicate HasTag(fb: FactBase, id: AstNodeId, tag: Tag) {
    id in fb.entityTags && tag in fb.entityTags[id]
  }

  /** A type definition that gets a MCCABE_TYPE record. */
  predicate CountedType(fb: FactBase, underInput: set<Path>, n: AstNode) {
    && n.symbolType == TypeSymbol
    && n.astType == Definition
    && n.file in fb.files
    && fb.files[n.file] in underInput
    && !HasTag(fb, n.id, TemplateInstantiation)
  }

  /** Every MCCABE_FUNCTION record holds a number (what the function pass writes). */
  predicate McCabeNumeric(store: seq<AstNodeMetric>) {
    forall m :: m in store && m.kind == McCabeFunction ==> m.value.Num?
  }

  predicate McCabeNonNegative(store: seq<AstNodeMetric>) {
    forall m :: m in store && m.kind == McCabeFunction ==> m.value.Num? && m.value.x >= 0.0
  }

  predicate IsFunctionDefinition(n: AstNode, hash: Hash) {
    n.entityHash == hash && n.symbolType == FunctionSymbol && n.astType == Definition
  }

  /** Looking an AST node up by its id. */
  function NodeById(nodes: seq<AstNode>, id: AstNodeId): (r: Option<AstNode>)
    ensures r.Some? ==> r.value in nodes && r.value.id == id
    ensures r.None? ==> forall n :: n in nodes ==> n.id != id
  {
    if nodes == [] then None
    else if nodes[0].id == id then Some(nodes[0])
    else NodeById(nodes[1..], id)
  }

  /** The position of the first function definition with the given entity hash: the first query result wins. */
  function FirstDefinition(nodes: seq<AstNode>, hash: Hash): (r: Option<nat>)
    ensures r.None? <==> forall n :: n in nodes ==> !IsFunctionDefinition(n, hash)
    ensures r.Some? ==>
      && r.value < |nodes|
      && IsFunctionDefinition(nodes[r.value], hash)
      && forall j :: 0 <= j < r.value ==> !IsFunctionDefinition(nodes[j], hash)
  {
    if nodes == [] then None
    else if IsFunctionDefinition(nodes[0], hash) then Some(0)
    else match FirstDefinition(nodes[1..], hash)
      case None => None
      case Some(k) => Some(k + 1)
  }

  /** The value of the first MCCABE_FUNCTION record of an AST node in the store. */
  function FunctionMcCabeOf(store: seq<AstNodeMetric>, id: AstNodeId): (r: Option<Value>)
    ensures r.Some? ==> AstNodeMetric(id, McCabeFunction, r.value) in store
    ensures r.None? ==> forall m :: m in store ==> !(m.astNodeId == id && m.kind == McCabeFunction)
  {
    if store == [] then None
    else if store[0].astNodeId == id && store[0].kind == McCabeFunction then Some(store[0].value)
    else FunctionMcCabeOf(store[1..], id)
  }

  /**
    Resolving a method: its AST node, the first function definition sharing
    that node's entity hash, skipping implicit methods, then that
    definition's McCabe record.
   */
  function ResolveMethod(fb: FactBase, store: seq<AstNodeMetric>, m: Member): (r: Resolution)
    requires McCabeNumeric(store)
    ensures r.NoMethodNode? <==> NodeById(fb.astNodes, m.memberAstNode).None?
    ensures r.Resolved? ==>
      && NodeById(fb.astNodes, m.memberAstNode).Some?
      && var decl := NodeById(fb.astNodes, m.memberAstNode).value;
         && FirstDefinition(fb.astNodes, decl.entityHash).Some?
         && r.definition == fb.astNodes[FirstDefinition(fb.astNodes, decl.entityHash).value]
         && IsFunctionDefinition(r.definition, decl.entityHash)
         && !HasTag(fb, r.definition.id, Implicit)
         && AstNodeMetric(r.definition.id, McCabeFunction, Num(r.mccabe)) in store
  {
    match NodeById(fb.astNodes, m.memberAstNode)
    case None => NoMethodNode
    case Some(decl) =>
      match FirstDefinition(fb.astNodes, decl.entityHash)
      case None => NoDefinition
      case Some(k) =>
        var def := fb.astNodes[k];
        if HasTag(fb, def.id, Implicit) then ImplicitMethod
        else match FunctionMcCabeOf(store, def.id)
          case None => NoMetric
          case Some(v) => Resolved(def, v.x)
  }

  /** Index `k` holds the first function definition with entity hash `h` in query order. */
  predicate IsFirstDefinition(nodes: seq<AstNode>, h: Hash, k: int) {
    && 0 <= k < |nodes|
    && IsFunctionDefinition(nodes[k], h)
    && forall j :: 0 <= j < k ==> !IsFunctionDefinition(nodes[j], h)
  }

  /** The store holds some MCCABE_FUNCTION record of the node. */
  predicate HasMcCabe(store: seq<AstNodeMetric>, id: AstNodeId) {
    exists r :: r in store && r.astNodeId == id && r.kind == McCabeFunction
  }

  /**
    Each outcome of resolving a method, in both directions: the method's
    node is missing, no function definition shares its hash, the first such
    definition is implicit, it has no McCabe record, or it resolves to the
    value of its first McCabe record.
   */
  lemma ResolveMethodOutcomes(fb: FactBase, store: seq<AstNodeMetric>, m: Member)
    requires McCabeNumeric(store)
    ensures var node := NodeById(fb.astNodes, m.memberAstNode);
      ResolveMethod(fb, store, m).NoDefinition? <==>
        node.Some? && forall n :: n in fb.astNodes ==> !IsFunctionDefinition(n, node.value.entityHash)
    ensures var node := NodeById(fb.astNodes, m.memberAstNode);
      ResolveMethod(fb, store, m).ImplicitMethod? <==>
        node.Some? &&
        exists k | IsFirstDefinition(fb.astNodes, node.value.entityHash, k) ::
          HasTag(fb, fb.astNodes[k].id, Implicit)
    ensures var node := NodeById(fb.astNodes, m.memberAstNode);
      ResolveMethod(fb, store, m).NoMetric? <==>
        node.Some? &&
        exists k | IsFirstDefinition(fb.astNodes, node.value.entityHash, k) ::
          !HasTag(fb, fb.astNodes[k].id, Implicit) && !HasMcCabe(store, fb.astNodes[k].id)
    ensures var node := NodeById(fb.astNodes, m.memberAstNode);
      ResolveMethod(fb, store, m).Resolved? <==>
        node.Some? &&
        exists k | IsFirstDefinition(fb.astNodes, node.value.entityHash, k) ::
          !HasTag(fb, fb.astNodes[k].id, Implicit) && HasMcCabe(store, fb.astNodes[k].id)
    ensures var r := ResolveMethod(fb, store, m);
      r.Resolved? ==> FunctionMcCabeOf(store, r.definition.id) == Some(Num(r.mccabe))
  {
    var node := NodeById(fb.astNodes, m.memberAstNode);
    if node.Some? {
      var h := node.value.entityHash;
      match FirstDefinition(fb.astNodes, h)
      case None =>
        forall k | 0 <= k < |fb.astNodes|
          ensures !IsFirstDefinition(fb.astNodes, h, k)
        {
          assert fb.astNodes[k] in fb.astNodes;
        }
      case Some(k0) =>
        assert IsFirstDefinition(fb.astNodes, h, k0);
        forall k | IsFirstDefinition(fb.astNodes, h, k)
          ensures k == k0
        {
        }
        var id := fb.astNodes[k0].id;
        match FunctionMcCabeOf(store, id)
        case Some(v) =>
          assert AstNodeMetric(id, McCabeFunction, v) in store;
        case None =>
          assert !HasMcCabe(store, id);
      }
  }

  /** A member adds to type `h` exactly when it is a method of `h` that resolves. */
  predicate Contributes(fb: FactBase, store: seq<AstNodeMetric>, h: Hash, m: Member)
    requires McCabeNumeric(store)
  {
    m.typeHash == h && m.kind == Method && ResolveMethod(fb, store, m).Resolved?
  }

  /** The McCabe values the members of type `h` contribute, in member order. */
  function Contributions(fb: FactBase, store: seq<AstNodeMetric>, h: Hash, ms: seq<Member>): (r: seq<real>)
    requires McCabeNumeric(store)
    ensures |r| <= |ms|
    ensures r == [] <==> forall m :: m in ms ==> !Contributes(fb, store, h, m)
    ensures forall k :: 0 <= k < |r| ==>
      exists m :: m in ms && Contributes(fb, store, h, m) && ResolveMethod(fb, store, m).mccabe == r[k]
  {
    if ms == [] then []
    else
      var init := ms[..|ms| - 1];
      var last := ms[|ms| - 1];
      assert ms == init + [last];
      var rest := Contributions(fb, store, h, init);
      if Contributes(fb, store, h, last) then rest + [ResolveMethod(fb, store, last).mccabe] else rest
  }

  function Sum(xs: seq<real>): real {
    if xs == [] then 0.0 else Sum(xs[..|xs| - 1]) + xs[|xs| - 1]
  }

  /** The MCCABE_TYPE value of the type with entity hash `h`. */
  function TypeValue(fb: FactBase, store: seq<AstNodeMetric>, h: Hash): real
    requires McCabeNumeric(store)
  {
    Sum(Contributions(fb, store, h, fb.members))
  }

  function TypeRecord(fb: FactBase, store: seq<AstNodeMetric>, n: AstNode): AstNodeMetric
    requires McCabeNumeric(store)
  {
    AstNodeMetric(n.id, McCabeType, Num(TypeValue(fb, store, n.entityHash)))
  }

  /** The type definitions that get a record, in query order. */
  function CountedTypes(fb: FactBase, underInput: set<Path>, nodes: seq<AstNode>): (r: seq<AstNode>)
    ensures |r| <= |nodes|
    ensures forall n :: n in r <==> n in nodes && CountedType(fb, underInput, n)
  {
    if nodes == [] then []
    else
      var init := nodes[..|nodes| - 1];
      var last := nodes[|nodes| - 1];
      assert nodes == init + [last];
      var rest := CountedTypes(fb, underInput, init);
      if CountedType(fb, underInput, last) then rest + [last] else rest
  }

  /** The records of the pass: one per counted type definition, in query order. */
  function TypeRecords(fb: FactBase, underInput: set<Path>, store: seq<AstNodeMetric>, nodes: seq<AstNode>): (r: seq<AstNodeMetric>)
    requires McCabeNumeric(store)
  {
    var types := CountedTypes(fb, underInput, nodes);
    seq(|types|, k requires 0 <= k < |types| => TypeRecord(fb, store, types[k]))
  }

  /** The inner loop of `typeMcCabe`: start at zero and add the value of every method of the type that resolves. */
  method SumMethodMcCabe(fb: FactBase, store: seq<AstNodeMetric>, h: Hash) returns (total: real)
    requires McCabeNumeric(store)
    ensures total == TypeValue(fb, store, h)
  {
    total := 0.0;
    var j := 0;
    while j < |fb.members|
      invariant 0 <= j <= |fb.members|
      invariant total == Sum(Contributions(fb, store, h, fb.members[..j]))
    {
      SumPrefixStep(fb, store, h, fb.members, j);
      var x := MethodMcCabe(fb, store, h, fb.members[j]);
      total := total + x;
      j := j + 1;
    }
    assert fb.members[..j] == fb.members;
  }

  /**
    The body of the inner loop for one member: a method of the type adds the
    McCabe value its definition resolves to, anything else adds nothing.
   */
  method MethodMcCabe(fb: FactBase, store: seq<AstNodeMetric>, h: Hash, m: Member) returns (x: real)
    requires McCabeNumeric(store)
    ensures Contributes(fb, store, h, m) ==> x == ResolveMethod(fb, store, m).mccabe
    ensures !Contributes(fb, store, h, m) ==> x == 0.0
  {
    x := 0.0;
    if m.typeHash == h && m.kind == Method {
      var res := ResolveMethod(fb, store, m);
      if res.Resolved? {
        x := res.mccabe;
      }
    }
  }

  /** One more member adds its resolved value when it contributes, and nothing otherwise. */
  lemma SumStep(fb: FactBase, store: seq<AstNodeMetric>, h: Hash, ms: seq<Member>)
    requires McCabeNumeric(store)
    requires ms != []
    ensures Sum(Contributions(fb, store, h, ms))
         == Sum(Contributions(fb, store, h, ms[..|ms| - 1]))
          + (if Contributes(fb, store, h, ms[|ms| - 1]) then ResolveMethod(fb, store, ms[|ms| - 1]).mccabe else 0.0)
  {
    var rest := Contributions(fb, store, h, ms[..|ms| - 1]);
    if Contributes(fb, store, h, ms[|ms| - 1]) {
      var x := ResolveMethod(fb, store, ms[|ms| - 1]).mccabe;
      assert (rest + [x])[..|rest|] == rest;
    }
  }

  /** The step of the inner loop, stated on prefixes of one member list. */
  lemma SumPrefixStep(fb: FactBase, store: seq<AstNodeMetric>, h: Hash, ms: seq<Member>, j: nat)
    requires McCabeNumeric(store)
    requires j < |ms|
    ensures Sum(Contributions(fb, store, h, ms[..j + 1]))
         == Sum(Contributions(fb, store, h, ms[..j]))
          + (if Contributes(fb, store, h, ms[j]) then ResolveMethod(fb, store, ms[j]).mccabe else 0.0)
  {
    assert ms[..j + 1][..j] == ms[..j];
    SumStep(fb, store, h, ms[..j + 1]);
  }

  /** `typeMcCabe`: one MCCABE_TYPE record per counted type definition. */
  method ComputeTypeMcCabe(fb: FactBase, underInput: set<Path>, store: seq<AstNodeMetric>)
    returns (records: seq<AstNodeMetric>)
    requires McCabeNumeric(store)
    ensures records == TypeRecords(fb, underInput, store, fb.astNodes)
    ensures |records| <= |fb.astNodes|
    ensures forall n :: n in fb.astNodes && CountedType(fb, underInput, n) ==>
      AstNodeMetric(n.id, McCabeType, Num(TypeValue(fb, store, n.entityHash))) in records
    ensures forall m :: m in records ==> m.kind == McCabeType
  {
    records := [];
    var i := 0;
    while i < |fb.astNodes|
      invariant 0 <= i <= |fb.astNodes|
      invariant records == TypeRecords(fb, underInput, store, fb.astNodes[..i])
    {
      var t := fb.astNodes[i];
      assert fb.astNodes[..i + 1][..i] == fb.astNodes[..i];
      TypeRecordsStep(fb, underInput, store, fb.astNodes[..i + 1]);
      if CountedType(fb, underInput, t) {
        var total := SumMethodMcCabe(fb, store, t.entityHash);
        records := records + [AstNodeMetric(t.id, McCabeType, Num(total))];
      }
      i := i + 1;
    }
    assert fb.astNodes[..i] == fb.astNodes;
    RecordPerCountedType(fb, underInput, store, fb.astNodes);
  }

  /** One more AST node adds its record exactly when it is a counted type definition. */
  lemma TypeRecordsStep(fb: FactBase, underInput: set<Path>, store: seq<AstNodeMetric>, nodes: seq<AstNode>)
    requires McCabeNumeric(store)
    requires nodes != []
    ensures TypeRecords(fb, underInput, store, nodes)
         == TypeRecords(fb, underInput, store, nodes[..|nodes| - 1])
          + (if CountedType(fb, underInput, nodes[|nodes| - 1]) then [TypeRecord(fb, store, nodes[|nodes| - 1])] else [])
  {
    var init := nodes[..|nodes| - 1];
    var last := nodes[|nodes| - 1];
    var before := CountedTypes(fb, underInput, init);
    var types := CountedTypes(fb, underInput, nodes);
    var r := TypeRecords(fb, underInput, store, nodes);
    var r0 := TypeRecords(fb, underInput, store, init);
    var extra := if CountedType(fb, underInput, last) then [TypeRecord(fb, store, last)] else [];
    assert types == if CountedType(fb, underInput, last) then before + [last] else before;
    assert |r| == |r0 + extra|;
    forall k | 0 <= k < |r|
      ensures r[k] == (r0 + extra)[k]
    {
      if k < |r0| {
        assert types[k] == before[k];
      }
    }
  }

  lemma {:induction false} SumAppend(a: seq<real>, b: seq<real>)
    ensures Sum(a + b) == Sum(a) + Sum(b)
    decreases |b|
  {
    if b == [] {
      assert a + b == a;
    } else {
      var init := b[..|b| - 1];
      assert (a + b)[..|a + b| - 1] == a + init;
      SumAppend(a, init);
    }
  }

  lemma {:induction false} ContributionsAppend(fb: FactBase, store: seq<AstNodeMetric>, h: Hash, a: seq<Member>, b: seq<Member>)
    requires McCabeNumeric(store)
    ensures Contributions(fb, store, h, a + b) == Contributions(fb, store, h, a) + Contributions(fb, store, h, b)
    decreases |b|
  {
    if b == [] {
      assert a + b == a;
    } else {
      var init := b[..|b| - 1];
      assert (a + b)[..|a + b| - 1] == a + init;
      ContributionsAppend(fb, store, h, a, init);
    }
  }

  /** Sum of parts: the members of a type split in two contribute the sum of both halves. */
  lemma SumOfParts(fb: FactBase, store: seq<AstNodeMetric>, h: Hash, a: seq<Member>, b: seq<Member>)
    requires McCabeNumeric(store)
    ensures Sum(Contributions(fb, store, h, a + b))
         == Sum(Contributions(fb, store, h, a)) + Sum(Contributions(fb, store, h, b))
  {
    ContributionsAppend(fb, store, h, a, b);
    SumAppend(Contributions(fb, store, h, a), Contributions(fb, store, h, b));
  }

  /** A skipped member (not a method of the type, no AST node, no definition, implicit, no metric) adds nothing. */
  lemma SkippedMemberAddsNothing(fb: FactBase, store: seq<AstNodeMetric>, h: Hash, a: seq<Member>, m: Member, b: seq<Member>)
    requires McCabeNumeric(store)
    requires !Contributes(fb, store, h, m)
    ensures Sum(Contributions(fb, store, h, a + [m] + b)) == Sum(Contributions(fb, store, h, a + b))
  {
    SumOfParts(fb, store, h, a + [m], b);
    SumOfParts(fb, store, h, a, [m]);
    SumOfParts(fb, store, h, a, b);
    assert Contributions(fb, store, h, [m]) == [];
  }

  /** A resolved method adds exactly the McCabe value of its first definition. */
  lemma ResolvedMethodAddsItsValue(fb: FactBase, store: seq<AstNodeMetric>, h: Hash, a: seq<Member>, m: Member, b: seq<Member>)
    requires McCabeNumeric(store)
    requires Contributes(fb, store, h, m)
    ensures Sum(Contributions(fb, store, h, a + [m] + b))
         == Sum(Contributions(fb, store, h, a + b)) + ResolveMethod(fb, store, m).mccabe
  {
    SumOfParts(fb, store, h, a + [m], b);
    SumOfParts(fb, store, h, a, [m]);
    SumOfParts(fb, store, h, a, b);
    assert [m][..0] == [];
    assert Contributions(fb, store, h, [m]) == [ResolveMethod(fb, store, m).mccabe];
  }

  /** A type none of whose members resolves gets the value 0, not a missing record. */
  lemma NoEligibleMethodIsZero(fb: FactBase, store: seq<AstNodeMetric>, h: Hash)
    requires McCabeNumeric(store)
    requires forall m :: m in fb.members ==> !Contributes(fb, store, h, m)
    ensures TypeValue(fb, store, h) == 0.0
  {
  }

  lemma {:induction false} SumNonNegative(xs: seq<real>)
    requires forall k :: 0 <= k < |xs| ==> xs[k] >= 0.0
    ensures Sum(xs) >= 0.0
  {
    if xs != [] {
      SumNonNegative(xs[..|xs| - 1]);
    }
  }

  /** With non-negative function McCabe values, every type's value is non-negative. */
  lemma TypeValueNonNegative(fb: FactBase, store: seq<AstNodeMetric>, h: Hash)
    requires McCabeNonNegative(store)
    ensures McCabeNumeric(store)
    ensures TypeValue(fb, store, h) >= 0.0
  {
    var cs := Contributions(fb, store, h, fb.members);
    forall k | 0 <= k < |cs|
      ensures cs[k] >= 0.0
    {
      var m :| m in fb.members && Contributes(fb, store, h, m) && ResolveMethod(fb, store, m).mccabe == cs[k];
      var res := ResolveMethod(fb, store, m);
      assert AstNodeMetric(res.definition.id, McCabeFunction, Num(res.mccabe)) in store;
    }
    SumNonNegative(cs);
  }

  predicate DistinctIds(nodes: seq<AstNode>) {
    forall i, j :: 0 <= i < |nodes| && 0 <= j < |nodes| && nodes[i].id == nodes[j].id ==> i == j
  }

  /** Every counted type definition has its record, and every record is of kind MCCABE_TYPE. */
  lemma RecordPerCountedType(fb: FactBase, underInput: set<Path>, store: seq<AstNodeMetric>, nodes: seq<AstNode>)
    requires McCabeNumeric(store)
    ensures |TypeRecords(fb, underInput, store, nodes)| <= |nodes|
    ensures forall n :: n in nodes && CountedType(fb, underInput, n) ==>
      TypeRecord(fb, store, n) in TypeRecords(fb, underInput, store, nodes)
    ensures forall m :: m in TypeRecords(fb, underInput, store, nodes) ==> m.kind == McCabeType
  {
    var types := CountedTypes(fb, underInput, nodes);
    var r := TypeRecords(fb, underInput, store, nodes);
    forall n | n in nodes && CountedType(fb, underInput, n)
      ensures TypeRecord(fb, store, n) in r
    {
      var k :| 0 <= k < |types| && types[k] == n;
      assert r[k] == TypeRecord(fb, store, n);
    }
  }

  /** Every record belongs to a counted type definition. */
  lemma RecordsComeFromCountedTypes(fb: FactBase, underInput: set<Path>, store: seq<AstNodeMetric>, nodes: seq<AstNode>, m: AstNodeMetric)
    requires McCabeNumeric(store)
    requires m in TypeRecords(fb, underInput, store, nodes)
    ensures exists n :: n in nodes && CountedType(fb, underInput, n) && m == TypeRecord(fb, store, n)
  {
    var types := CountedTypes(fb, underInput, nodes);
    var r := TypeRecords(fb, underInput, store, nodes);
    var k :| 0 <= k < |r| && r[k] == m;
    assert types[k] in types;
  }

  lemma {:induction false} CountedTypesKeepDistinctIds(fb: FactBase, underInput: set<Path>, nodes: seq<AstNode>)
    requires DistinctIds(nodes)
    ensures DistinctIds(CountedTypes(fb, underInput, nodes))
  {
    if nodes != [] {
      var init := nodes[..|nodes| - 1];
      var last := nodes[|nodes| - 1];
      assert DistinctIds(init);
      CountedTypesKeepDistinctIds(fb, underInput, init);
      var rest := CountedTypes(fb, underInput, init);
      if CountedType(fb, underInput, last) {
        forall k | 0 <= k < |rest|
          ensures rest[k].id != last.id
        {
          assert rest[k] in init;
          var j :| 0 <= j < |init| && init[j] == rest[k];
          assert nodes[j] == init[j];
        }
        assert CountedTypes(fb, underInput, nodes) == rest + [last];
      }
    }
  }

  /**
    With AST node ids unique (they are the primary key of the AST node
    table), every counted type has exactly one MCCABE_TYPE record.
   */
  lemma OneRecordPerType(fb: FactBase, underInput: set<Path>, store: seq<AstNodeMetric>, nodes: seq<AstNode>)
    requires McCabeNumeric(store)
    requires DistinctIds(nodes)
    ensures forall i, j ::
      && 0 <= i < |TypeRecords(fb, underInput, store, nodes)|
      && 0 <= j < |TypeRecords(fb, underInput, store, nodes)|
      && TypeRecords(fb, underInput, store, nodes)[i].astNodeId == TypeRecords(fb, underInput, store, nodes)[j].astNodeId
      ==> i == j
  {
    CountedTypesKeepDistinctIds(fb, underInput, nodes);
  }
}
