/**
  Relational cohesion (`relationalCohesion` and `checkTypes`): for every
  module, H = (R + 1) / N, where N is the number of distinct types defined
  under the module's path and R counts the type relations found inside the
  module. As the code is written, a file of the module contributes at most
  one relation, over all four kinds of use taken together.
 */
module RelationalCohesion {
  import opened MetricTypes

  /** A row of the File table as the module queries see it. */
  datatype FileRow = FileRow(id: FileId, path: Path, isDirectory: bool)

  /** A type defined in a file (a row of the record view). */
  datatype TypeDefinition = TypeDefinition(typeHash: Hash, filePath: Path)

  /** A use of a type in a file: a return type, a parameter, a local or a variable. */
  datatype TypeUse = TypeUse(typeHash: Hash, filePath: Path)

  /** The rows of the record view and of the four use views, in query order. */
  datatype ModuleFacts = ModuleFacts(
    definitions: seq<TypeDefinition>,
    returnTypes: seq<TypeUse>,
    parameters: seq<TypeUse>,
    locals: seq<TypeUse>,
    variables: seq<TypeUse>)

  /**
    The relations found so far in one module: the multimap from file path to
    type hash, and the counter R.
   */
  datatype Relations = Relations(found: set<(Path, Hash)>, count: nat)

  /** `LIKE module + '%'`, read as a plain prefix test. */
  predicate Under(mod: Path, p: Path) {
    mod <= p
  }

  // ---------------------------------------------------------------------
  // The module set, the order it is walked in, and each module's file
  // ---------------------------------------------------------------------

  /**
    `order` walks the module set the way a hash set is iterated: every
    module exactly once, in an order the container chooses.
   */
  predicate Enumerates(order: seq<Path>, modules: set<Path>) {
    && (forall i, j :: 0 <= i < j < |order| ==> order[i] != order[j])
    && (forall p :: p in order ==> p in modules)
    && (forall p :: p in modules ==> p in order)
  }

  /** A walk that visits every module once has as many steps as there are modules. */
  lemma {:induction false} EnumerationSize(order: seq<Path>, modules: set<Path>)
    requires Enumerates(order, modules)
    ensures |order| == |modules|
  {
    if order != [] {
      var p := order[0];
      var rest := order[1..];
      forall q | q in rest
        ensures q != p
      {
        var i :| 0 <= i < |rest| && rest[i] == q;
        assert order[i + 1] == q;
      }
      forall i, j | 0 <= i < j < |rest|
        ensures rest[i] != rest[j]
      {
        assert order[i + 1] != order[j + 1];
      }
      forall q
        ensures q in rest <==> q in modules - {p}
      {
        assert order == [p] + rest;
      }
      EnumerationSize(rest, modules - {p});
    } else {
      assert forall p :: p !in modules;
      assert modules == {};
    }
  }

  /**
    The file id of each module: for every module path, the id of the File
    rows with exactly that path; when several rows share it the last one
    written wins.
   */
  function ModuleIds(files: seq<FileRow>, modules: set<Path>): (r: map<Path, FileId>)
    ensures forall p :: p in r <==> p in modules && exists f :: f in files && f.path == p
  {
    if files == [] then map[]
    else
      var init := files[..|files| - 1];
      var f := files[|files| - 1];
      var rest := ModuleIds(init, modules);
      assert files == init + [f];
      if f.path in modules then rest[f.path := f.id] else rest
  }

  /** Of several File rows with a module's path, the last one in query order gives the id. */
  lemma {:induction false} ModuleIdIsLast(files: seq<FileRow>, modules: set<Path>, i: nat)
    requires i < |files| && files[i].path in modules
    requires forall j :: i < j < |files| ==> files[j].path != files[i].path
    ensures files[i].path in ModuleIds(files, modules)
    ensures ModuleIds(files, modules)[files[i].path] == files[i].id
  {
    var init := files[..|files| - 1];
    if i < |files| - 1 {
      assert init[i] == files[i];
      ModuleIdIsLast(init, modules, i);
    }
  }

  /** The id a module's record is written against: `moduleIds[path]`, 0 when the path has no File row. */
  function ModuleId(moduleIds: map<Path, FileId>, mod: Path): FileId {
    if mod in moduleIds then moduleIds[mod] else 0
  }

  // ---------------------------------------------------------------------
  // The types of a module and where each one is defined
  // ---------------------------------------------------------------------

  /** N's set: the hashes of the types defined in a file under the module's path. */
  function TypesFound(defs: seq<TypeDefinition>, mod: Path): set<Hash> {
    set d | d in defs && Under(mod, d.filePath) :: d.typeHash
  }

  /**
    Where each type of the module is defined. A map insert does not
    overwrite, so the first definition in query order wins.
   */
  function DefinitionPaths(defs: seq<TypeDefinition>, mod: Path): (r: map<Hash, Path>)
    ensures r.Keys == TypesFound(defs, mod)
  {
    if defs == [] then map[]
    else
      var init := defs[..|defs| - 1];
      var d := defs[|defs| - 1];
      var rest := DefinitionPaths(init, mod);
      assert defs == init + [d];
      if Under(mod, d.filePath) && d.typeHash !in rest then rest[d.typeHash := d.filePath] else rest
  }

  // ---------------------------------------------------------------------
  // checkTypes
  // ---------------------------------------------------------------------

  /** The files that already hold a relation. */
  function Files(found: set<(Path, Hash)>): set<Path> {
    set e | e in found :: e.0
  }

  /** No relation of file `p` is already to type `h` (the `none_of` test). */
  predicate NoneOf(found: set<(Path, Hash)>, p: Path, h: Hash) {
    forall e :: e in found && e.0 == p ==> e.1 != h
  }

  /** The part of the test that does not depend on the relations found so far. */
  predicate Qualifies(mod: Path, typesFound: set<Hash>, defPaths: map<Hash, Path>, u: TypeUse)
    requires typesFound <= defPaths.Keys
  {
    Under(mod, u.filePath) && u.typeHash in typesFound && defPaths[u.typeHash] != u.filePath
  }

  /**
    One row of a use view: a use of a module type outside the file that
    defines it is a relation, unless the file already holds one.
   */
  function Step(mod: Path, typesFound: set<Hash>, defPaths: map<Hash, Path>, rel: Relations, u: TypeUse): Relations
    requires typesFound <= defPaths.Keys
  {
    if && Qualifies(mod, typesFound, defPaths, u)
       && u.filePath !in Files(rel.found)
       && NoneOf(rel.found, u.filePath, u.typeHash)
    then Relations(rel.found + {(u.filePath, u.typeHash)}, rel.count + 1)
    else rel
  }

  /** `checkTypes` over the rows of one use view, in query order. */
  function CheckTypes(mod: Path, typesFound: set<Hash>, defPaths: map<Hash, Path>, rel: Relations, uses: seq<TypeUse>): (r: Relations)
    requires typesFound <= defPaths.Keys
    ensures rel.found <= r.found
    ensures rel.count <= r.count
  {
    if uses == [] then rel
    else
      var before := CheckTypes(mod, typesFound, defPaths, rel, uses[..|uses| - 1]);
      Step(mod, typesFound, defPaths, before, uses[|uses| - 1])
  }

  /** The four `checkTypes` calls of one module, sharing one multimap and one counter. */
  function CheckAll(mod: Path, typesFound: set<Hash>, defPaths: map<Hash, Path>, facts: ModuleFacts): Relations
    requires typesFound <= defPaths.Keys
  {
    var r1 := CheckTypes(mod, typesFound, defPaths, Relations({}, 0), facts.returnTypes);
    var r2 := CheckTypes(mod, typesFound, defPaths, r1, facts.parameters);
    var r3 := CheckTypes(mod, typesFound, defPaths, r2, facts.locals);
    CheckTypes(mod, typesFound, defPaths, r3, facts.variables)
  }

  /** Every use the module's four views report, in the order they are checked. */
  function AllUses(facts: ModuleFacts): seq<TypeUse> {
    facts.returnTypes + facts.parameters + facts.locals + facts.variables
  }

  /** The files of the module that use a module type defined in another file. */
  function RelatedFiles(mod: Path, typesFound: set<Hash>, defPaths: map<Hash, Path>, uses: seq<TypeUse>): set<Path>
    requires typesFound <= defPaths.Keys
  {
    set u | u in uses && Qualifies(mod, typesFound, defPaths, u) :: u.filePath
  }

  /** The relations found so far hold at most one type per file, and R counts them. */
  predicate WellFormed(rel: Relations) {
    && rel.count == |Files(rel.found)|
    && (forall e1, e2 :: e1 in rel.found && e2 in rel.found && e1.0 == e2.0 ==> e1 == e2)
  }

  /** The `none_of` test never decides anything: it only runs when the file holds no relation at all. */
  lemma NoneOfRedundant(found: set<(Path, Hash)>, p: Path, h: Hash)
    ensures p !in Files(found) ==> NoneOf(found, p, h)
  {
    assert forall e :: e in found ==> e.0 in Files(found);
  }

  lemma StepFacts(mod: Path, typesFound: set<Hash>, defPaths: map<Hash, Path>, rel: Relations, u: TypeUse)
    requires typesFound <= defPaths.Keys
    requires WellFormed(rel)
    ensures WellFormed(Step(mod, typesFound, defPaths, rel, u))
    ensures Files(Step(mod, typesFound, defPaths, rel, u).found)
         == Files(rel.found) + (if Qualifies(mod, typesFound, defPaths, u) then {u.filePath} else {})
  {
    NoneOfRedundant(rel.found, u.filePath, u.typeHash);
    if Qualifies(mod, typesFound, defPaths, u) && u.filePath !in Files(rel.found) {
      var found' := rel.found + {(u.filePath, u.typeHash)};
      assert Files(found') == Files(rel.found) + {u.filePath};
    } else if Qualifies(mod, typesFound, defPaths, u) {
      assert Files(rel.found) + {u.filePath} == Files(rel.found);
    }
  }

  /**
    What `checkTypes` computes: from a well-formed start, the files holding a
    relation afterwards are those before plus every file with a qualifying
    use, and R stays the number of such files.
   */
  lemma {:induction false} CheckTypesFiles(mod: Path, typesFound: set<Hash>, defPaths: map<Hash, Path>, rel: Relations, uses: seq<TypeUse>)
    requires typesFound <= defPaths.Keys
    requires WellFormed(rel)
    ensures WellFormed(CheckTypes(mod, typesFound, defPaths, rel, uses))
    ensures Files(CheckTypes(mod, typesFound, defPaths, rel, uses).found)
         == Files(rel.found) + RelatedFiles(mod, typesFound, defPaths, uses)
  {
    if uses != [] {
      var init := uses[..|uses| - 1];
      var u := uses[|uses| - 1];
      CheckTypesFiles(mod, typesFound, defPaths, rel, init);
      var before := CheckTypes(mod, typesFound, defPaths, rel, init);
      var after := Step(mod, typesFound, defPaths, before, u);
      assert CheckTypes(mod, typesFound, defPaths, rel, uses) == after;
      StepFacts(mod, typesFound, defPaths, before, u);
      RelatedFilesSnoc(mod, typesFound, defPaths, uses);
      var extra := if Qualifies(mod, typesFound, defPaths, u) then {u.filePath} else {};
      UnionStep(Files(after.found), Files(before.found), Files(rel.found),
        RelatedFiles(mod, typesFound, defPaths, init), RelatedFiles(mod, typesFound, defPaths, uses), extra);
    }
  }

  lemma UnionStep<T>(after: set<T>, before: set<T>, start: set<T>, seen: set<T>, all: set<T>, extra: set<T>)
    requires after == before + extra && before == start + seen && all == seen + extra
    ensures after == start + all
  {
  }

  lemma RelatedFilesSnoc(mod: Path, typesFound: set<Hash>, defPaths: map<Hash, Path>, uses: seq<TypeUse>)
    requires typesFound <= defPaths.Keys
    requires uses != []
    ensures RelatedFiles(mod, typesFound, defPaths, uses)
         == RelatedFiles(mod, typesFound, defPaths, uses[..|uses| - 1])
          + (if Qualifies(mod, typesFound, defPaths, uses[|uses| - 1]) then {uses[|uses| - 1].filePath} else {})
  {
    assert uses == uses[..|uses| - 1] + [uses[|uses| - 1]];
  }

  /** Running `checkTypes` on two views in turn is one run on their concatenation. */
  lemma {:induction false} CheckTypesSplit(mod: Path, typesFound: set<Hash>, defPaths: map<Hash, Path>, rel: Relations, a: seq<TypeUse>, b: seq<TypeUse>)
    requires typesFound <= defPaths.Keys
    ensures CheckTypes(mod, typesFound, defPaths, CheckTypes(mod, typesFound, defPaths, rel, a), b)
         == CheckTypes(mod, typesFound, defPaths, rel, a + b)
  {
    if b == [] {
      assert a + b == a;
    } else {
      CheckTypesSplit(mod, typesFound, defPaths, rel, a, b[..|b| - 1]);
      assert (a + b)[..|a + b| - 1] == a + b[..|b| - 1];
      assert (a + b)[|a + b| - 1] == b[|b| - 1];
    }
  }

  /** The four calls of one module are one `checkTypes` over all its uses. */
  lemma CheckAllIsOnePass(mod: Path, typesFound: set<Hash>, defPaths: map<Hash, Path>, facts: ModuleFacts)
    requires typesFound <= defPaths.Keys
    ensures CheckAll(mod, typesFound, defPaths, facts)
         == CheckTypes(mod, typesFound, defPaths, Relations({}, 0), AllUses(facts))
  {
    var f := Relations({}, 0);
    var r1 := CheckTypes(mod, typesFound, defPaths, f, facts.returnTypes);
    var r2 := CheckTypes(mod, typesFound, defPaths, r1, facts.parameters);
    var r3 := CheckTypes(mod, typesFound, defPaths, r2, facts.locals);
    CheckTypesSplit(mod, typesFound, defPaths, f, facts.returnTypes, facts.parameters);
    CheckTypesSplit(mod, typesFound, defPaths, f, facts.returnTypes + facts.parameters, facts.locals);
    CheckTypesSplit(mod, typesFound, defPaths, f, facts.returnTypes + facts.parameters + facts.locals, facts.variables);
  }

  /**
    R of a module is the number of its files that use, as a return type, a
    parameter, a local or a variable, a type of the module first defined in
    another file.
   */
  lemma RelationCount(mod: Path, facts: ModuleFacts)
    ensures var typesFound := TypesFound(facts.definitions, mod);
      var defPaths := DefinitionPaths(facts.definitions, mod);
      CheckAll(mod, typesFound, defPaths, facts).count
        == |RelatedFiles(mod, typesFound, defPaths, AllUses(facts))|
  {
    var typesFound := TypesFound(facts.definitions, mod);
    var defPaths := DefinitionPaths(facts.definitions, mod);
    CheckAllIsOnePass(mod, typesFound, defPaths, facts);
    assert Files({}) == {};
    CheckTypesFiles(mod, typesFound, defPaths, Relations({}, 0), AllUses(facts));
  }

  /** The files a module's uses occur in. */
  function UseFiles(uses: seq<TypeUse>): set<Path> {
    set u | u in uses :: u.filePath
  }

  /** Each file adds at most one relation, so R is at most the number of distinct files with a use. */
  lemma RelationsAtMostUseFiles(mod: Path, facts: ModuleFacts)
    ensures var typesFound := TypesFound(facts.definitions, mod);
      CheckAll(mod, typesFound, DefinitionPaths(facts.definitions, mod), facts).count <= |UseFiles(AllUses(facts))|
  {
    RelationCount(mod, facts);
    var typesFound := TypesFound(facts.definitions, mod);
    var related := RelatedFiles(mod, typesFound, DefinitionPaths(facts.definitions, mod), AllUses(facts));
    SubsetCardinality(related, UseFiles(AllUses(facts)));
  }

  /** A module without types has no relations. */
  lemma NoTypesNoRelations(mod: Path, facts: ModuleFacts)
    requires TypesFound(facts.definitions, mod) == {}
    ensures CheckAll(mod, {}, DefinitionPaths(facts.definitions, mod), facts).count == 0
  {
    var defPaths := DefinitionPaths(facts.definitions, mod);
    RelationCount(mod, facts);
    assert RelatedFiles(mod, {}, defPaths, AllUses(facts)) == {};
  }

  /** The first definition of a type under the module is the path it is recorded at. */
  lemma {:induction false} DefinitionPathIsFirst(defs: seq<TypeDefinition>, mod: Path, i: nat)
    requires i < |defs| && Under(mod, defs[i].filePath)
    requires forall j :: 0 <= j < i ==> !(Under(mod, defs[j].filePath) && defs[j].typeHash == defs[i].typeHash)
    ensures defs[i].typeHash in DefinitionPaths(defs, mod)
    ensures DefinitionPaths(defs, mod)[defs[i].typeHash] == defs[i].filePath
  {
    var init := defs[..|defs| - 1];
    var last := defs[|defs| - 1];
    var h := defs[i].typeHash;
    DefinitionPathsSnoc(defs, mod);
    if i == |defs| - 1 {
      forall j | 0 <= j < |init| && Under(mod, init[j].filePath)
        ensures init[j].typeHash != h
      {
        assert defs[j] == init[j];
      }
      assert h !in TypesFound(init, mod);
    } else {
      assert init[i] == defs[i];
      DefinitionPathIsFirst(init, mod, i);
    }
  }

  /** One more definition row is inserted exactly when it is under the module and its type has no path yet. */
  lemma DefinitionPathsSnoc(defs: seq<TypeDefinition>, mod: Path)
    requires defs != []
    ensures var rest := DefinitionPaths(defs[..|defs| - 1], mod);
      var d := defs[|defs| - 1];
      DefinitionPaths(defs, mod) == if Under(mod, d.filePath) && d.typeHash !in rest then rest[d.typeHash := d.filePath] else rest
  {
  }

  // ---------------------------------------------------------------------
  // The value and the pass
  // ---------------------------------------------------------------------

  /** H = (R + 1) / N in doubles: positive infinity when the module has no types. */
  function RelationalCohesionValue(relations: nat, types: nat): (v: Value)
    ensures types == 0 <==> v.PosInfinity?
    ensures types > 0 ==> v.Num? && v.x * types as real == relations as real + 1.0 && v.x > 0.0
  {
    if types == 0 then PosInfinity
    else Num((relations as real + 1.0) / types as real)
  }

  /** The record one module gets. */
  function ModuleRecord(facts: ModuleFacts, moduleIds: map<Path, FileId>, mod: Path): FileMetric {
    var typesFound := TypesFound(facts.definitions, mod);
    var defPaths := DefinitionPaths(facts.definitions, mod);
    var rel := CheckAll(mod, typesFound, defPaths, facts);
    FileMetric(ModuleId(moduleIds, mod), RelationalCohesion, RelationalCohesionValue(rel.count, |typesFound|))
  }

  /** The records of the modules in the given order, one each. */
  function ModuleRecords(facts: ModuleFacts, moduleIds: map<Path, FileId>, order: seq<Path>): (r: seq<FileMetric>)
    ensures |r| == |order|
    ensures forall i :: 0 <= i < |order| ==> r[i] == ModuleRecord(facts, moduleIds, order[i])
  {
    if order == [] then []
    else [ModuleRecord(facts, moduleIds, order[0])] + ModuleRecords(facts, moduleIds, order[1..])
  }

  /**
    `relationalCohesion`: the file id of every module is looked up among the
    File rows, then the module set is walked once, and every module gets one
    RELATIONAL_COHESION record.
   */
  function RelationalCohesionPass(facts: ModuleFacts, files: seq<FileRow>, modules: set<Path>, order: seq<Path>): (r: seq<FileMetric>)
    requires Enumerates(order, modules)
    ensures |r| == |order| == |modules|
    ensures forall m :: m in r ==> m.kind == RelationalCohesion
    ensures forall i :: 0 <= i < |r| ==> order[i] in modules && r[i] == ModuleRecord(facts, ModuleIds(files, modules), order[i])
    ensures forall p :: p in modules ==>
      exists i :: 0 <= i < |r| && order[i] == p && r[i] == ModuleRecord(facts, ModuleIds(files, modules), p)
    ensures forall p :: p in modules ==> ModuleRecord(facts, ModuleIds(files, modules), p) in r
  {
    EnumerationSize(order, modules);
    var r := ModuleRecords(facts, ModuleIds(files, modules), order);
    assert forall i :: 0 <= i < |order| ==> order[i] in order;
    r
  }

  /** The related files of a module, over all four views. */
  function ModuleRelatedFiles(facts: ModuleFacts, mod: Path): set<Path> {
    RelatedFiles(mod, TypesFound(facts.definitions, mod), DefinitionPaths(facts.definitions, mod), AllUses(facts))
  }

  /**
    Each module's record sits on its representative file and holds
    (R + 1) / N for R its related files and N its types, or positive
    infinity when it has none.
   */
  lemma ModuleRecordMeaning(facts: ModuleFacts, moduleIds: map<Path, FileId>, mod: Path)
    ensures ModuleRecord(facts, moduleIds, mod).kind == RelationalCohesion
    ensures ModuleRecord(facts, moduleIds, mod).file == ModuleId(moduleIds, mod)
    ensures ModuleRecord(facts, moduleIds, mod).value
         == RelationalCohesionValue(|ModuleRelatedFiles(facts, mod)|, |TypesFound(facts.definitions, mod)|)
  {
    RelationCount(mod, facts);
  }

  /** One file using two types of the module defined elsewhere counts once. */
  lemma OneRelationPerFile()
    ensures var defs := [TypeDefinition(1, "m/a.h"), TypeDefinition(2, "m/b.h")];
      var uses := [TypeUse(1, "m/c.cpp"), TypeUse(2, "m/c.cpp")];
      var facts := ModuleFacts(defs, uses, [], [], []);
      CheckAll("m/", TypesFound(defs, "m/"), DefinitionPaths(defs, "m/"), facts).count == 1
  {
    var defs := [TypeDefinition(1, "m/a.h"), TypeDefinition(2, "m/b.h")];
    var uses := [TypeUse(1, "m/c.cpp"), TypeUse(2, "m/c.cpp")];
    var facts := ModuleFacts(defs, uses, [], [], []);
    var tf := TypesFound(defs, "m/");
    var dp := DefinitionPaths(defs, "m/");
    assert "m/" <= "m/a.h" && "m/" <= "m/b.h" && "m/" <= "m/c.cpp";
    assert defs[0] in defs && defs[1] in defs;
    DefinitionPathIsFirst(defs, "m/", 0);
    DefinitionPathIsFirst(defs, "m/", 1);
    RelationCount("m/", facts);
    assert AllUses(facts) == uses;
    assert uses[0] in uses;
    assert RelatedFiles("m/", tf, dp, uses) == {"m/c.cpp"};
  }
}
