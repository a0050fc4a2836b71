/**
 * "Import...": adds a single-type import for the type the user picks,
 * unless its name starts with "java.lang" or an import with exactly that
 * identifier is already present.
 */
module ImportGenerator {
  import opened Maybe
  import opened JavaText
  import opened SyntaxTrees
  import SiblingIndex

  /**
   * The scan of the default branch from pair (i-1, i): before import i-1,
   * between i-1 and i, or on to the next pair; the last pair decides
   * between n-1 and n.
   */
  function ScanImports(starts: seq<int>, caret: int, i: nat): (r: int)
    requires 1 <= i <= |starts| - 1
    decreases |starts| - i
    ensures i - 1 <= r <= |starts|
  {
    if i < |starts| - 1 then
      if caret < starts[i - 1] then i - 1
      else if starts[i - 1] < caret < starts[i] then i
      else ScanImports(starts, caret, i + 1)
    else if caret < starts[i] then |starts| - 1
    else |starts|
  }

  /** findInsertIndexInImportTree; it never reaches its final `return -1`. */
  function FindInsertIndexInImportTree(starts: seq<int>, caret: int): (r: int)
    ensures 0 <= r <= |starts|
  {
    var size := |starts|;
    if size == 0 then 0
    else if size == 1 then (if caret < starts[0] then 0 else 1)
    else if size == 2 then (if caret < starts[0] then 0 else if starts[1] < caret then size else 1)
    else ScanImports(starts, caret, 1)
  }

  /** The index splits the imports into those that start before the caret and those that start after it. */
  predicate Splits(starts: seq<int>, caret: int, r: int) {
    && 0 <= r <= |starts|
    && (forall j :: 0 <= j < r ==> starts[j] < caret)
    && (forall j :: r <= j < |starts| ==> caret < starts[j])
  }

  lemma {:induction false} ScanSplits(starts: seq<int>, caret: int, i: nat)
    requires StrictlyAscending(starts) && caret !in starts
    requires 1 <= i <= |starts| - 1
    requires forall j :: 0 <= j < i - 1 ==> starts[j] < caret
    requires i == |starts| - 1 ==> starts[i - 1] < caret
    ensures Splits(starts, caret, ScanImports(starts, caret, i))
    decreases |starts| - i
  {
    if i < |starts| - 1 && !(caret < starts[i - 1]) && !(starts[i - 1] < caret < starts[i]) {
      ScanSplits(starts, caret, i + 1);
    }
  }

  /**
   * For imports in source order and a caret at none of their start offsets,
   * the import goes exactly between the imports before the caret and those
   * after it; unlike the sibling rule, this holds for a caret before the
   * first import too.
   */
  lemma ImportIndexSplitsImports(starts: seq<int>, caret: int)
    requires StrictlyAscending(starts) && caret !in starts
    ensures Splits(starts, caret, FindInsertIndexInImportTree(starts, caret))
  {
    if |starts| >= 3 {
      ScanSplits(starts, caret, 1);
    }
  }

  lemma SplitBelow(starts: seq<int>, caret: int, r: int, j: int)
    requires Splits(starts, caret, r) && 0 <= j < |starts|
    ensures j < r <==> starts[j] < caret
  {
  }

  lemma SplitIsUnique(starts: seq<int>, caret: int, r1: int, r2: int)
    requires Splits(starts, caret, r1) && Splits(starts, caret, r2)
    ensures r1 == r2
  {
    if r1 != r2 {
      var j := if r1 < r2 then r1 else r2;
      SplitBelow(starts, caret, r1, j);
      SplitBelow(starts, caret, r2, j);
      assert false;
    }
  }

  /** Where the sibling rule applies cleanly, the import rule agrees with it. */
  lemma ImportRuleAgreesWithSiblingRule(starts: seq<int>, caret: int)
    requires StrictlyAscending(starts) && caret !in starts
    requires !(|starts| >= 3 && caret < starts[0])
    ensures FindInsertIndexInImportTree(starts, caret) == SiblingIndex.SiblingInsertIndex(starts, caret, 0)
  {
    ImportIndexSplitsImports(starts, caret);
    SiblingIndex.IndexSplitsSiblings(starts, caret, 0);
    SplitIsUnique(starts, caret, FindInsertIndexInImportTree(starts, caret), SiblingIndex.SiblingInsertIndex(starts, caret, 0));
  }

  /** Before the first of three siblings, imports go first while statements and methods go next to last. */
  lemma RulesDifferBeforeFirstSibling()
    ensures FindInsertIndexInImportTree([10, 20, 30], 5) == 0
    ensures SiblingIndex.SiblingInsertIndex([10, 20, 30], 5, 0) == 2
  {
    SiblingIndex.CaretBeforeFirstSibling([10, 20, 30], 5, 0);
  }

  /**
   * A caret on the first character of import k puts the new import right
   * after import k -- except after the last of two imports, where it goes
   * between them, and on import n - 3 of three or more, where the scan's
   * last step skips a pair and the import goes after import n - 2.
   */
  lemma CaretOnImportStart(starts: seq<int>, k: nat)
    requires StrictlyAscending(starts) && k < |starts|
    ensures |starts| == 2 && k == 1 ==> FindInsertIndexInImportTree(starts, starts[k]) == 1
    ensures |starts| >= 3 && k == |starts| - 3 ==> FindInsertIndexInImportTree(starts, starts[k]) == k + 2
    ensures !(|starts| == 2 && k == 1) && !(|starts| >= 3 && k == |starts| - 3) ==>
      FindInsertIndexInImportTree(starts, starts[k]) == k + 1
  {
    if |starts| >= 3 {
      ScanOnStart(starts, k, 1);
    }
  }

  /** The scan from pair (i-1, i), for a caret on the start of import k at or after i - 1. */
  lemma {:induction false} ScanOnStart(starts: seq<int>, k: nat, i: nat)
    requires StrictlyAscending(starts) && |starts| >= 3 && k < |starts|
    requires 1 <= i <= k + 1 && i <= |starts| - 1
    ensures k == |starts| - 3 ==> ScanImports(starts, starts[k], i) == k + 2
    ensures k != |starts| - 3 ==> ScanImports(starts, starts[k], i) == k + 1
    decreases |starts| - i
  {
    var n, caret := |starts|, starts[k];
    if i < n - 1 {
      assert !(caret < starts[i - 1]) && !(starts[i - 1] < caret < starts[i]);
      if i <= k {
        ScanOnStart(starts, k, i + 1);
      } else {
        assert ScanImports(starts, caret, i) == ScanImports(starts, caret, k + 2);
        assert caret < starts[k + 1];
      }
    }
  }

  /** Some existing import has exactly this identifier. */
  predicate AlreadyImported(imports: seq<ImportTree>, name: string) {
    exists i :: 0 <= i < |imports| && imports[i].qualifiedIdentifier == name
  }

  /** The type names the generator refuses: a plain prefix test on "java.lang". */
  predicate InJavaLang(name: string) {
    StartsWith(name, "java.lang")
  }

  /**
   * The edit for one use of the generator; `chosen` is the qualified name
   * picked in the type browser, None when the browser was cancelled.
   */
  function Invoke(cu: CompilationUnit, chosen: Option<string>, caret: int): (r: CompilationUnit)
    ensures r.typeDecls == cu.typeDecls
    ensures chosen.None? || InJavaLang(chosen.value) || AlreadyImported(cu.imports, chosen.value) ==> r == cu
    ensures chosen.Some? && !InJavaLang(chosen.value) && !AlreadyImported(cu.imports, chosen.value) ==>
      var k := FindInsertIndexInImportTree(ImportStarts(cu.imports), caret);
      && |r.imports| == |cu.imports| + 1
      && r.imports[..k] == cu.imports[..k]
      && r.imports[k] == ImportTree(chosen.value, false, NOPOS)
      && r.imports[k + 1..] == cu.imports[k..]
  {
    if chosen.None? then cu
    else
      var qualifiedName := chosen.value;
      if InJavaLang(qualifiedName) then cu
      else if AlreadyImported(cu.imports, qualifiedName) then cu
      else
        var insertIndex := FindInsertIndexInImportTree(ImportStarts(cu.imports), caret);
        cu.(imports := cu.imports[..insertIndex] + [ImportTree(qualifiedName, false, NOPOS)] + cu.imports[insertIndex..])
  }

  /** Importing a type a second time, from any caret position, changes nothing. */
  lemma ImportIsIdempotent(cu: CompilationUnit, chosen: Option<string>, caret: int, caret2: int)
    ensures Invoke(Invoke(cu, chosen, caret), chosen, caret2) == Invoke(cu, chosen, caret)
  {
    var once := Invoke(cu, chosen, caret);
    if chosen.Some? && !InJavaLang(chosen.value) && !AlreadyImported(cu.imports, chosen.value) {
      var k := FindInsertIndexInImportTree(ImportStarts(cu.imports), caret);
      assert once.imports[k].qualifiedIdentifier == chosen.value;
    }
  }

  /** After an import has been added, the type is imported. */
  lemma ImportedAfterInvoke(cu: CompilationUnit, name: string, caret: int)
    requires !InJavaLang(name)
    ensures AlreadyImported(Invoke(cu, Some(name), caret).imports, name)
  {
    if !AlreadyImported(cu.imports, name) {
      var k := FindInsertIndexInImportTree(ImportStarts(cu.imports), caret);
      assert Invoke(cu, Some(name), caret).imports[k].qualifiedIdentifier == name;
    }
  }

  /** The prefix test also refuses java.lang.reflect types, which are not imported implicitly. */
  lemma ReflectTypesAreRefused(cu: CompilationUnit, caret: int)
    ensures Invoke(cu, Some("java.lang.reflect.Method"), caret) == cu
  {
    assert "java.lang.reflect.Method"[..9] == "java.lang";
  }
}
