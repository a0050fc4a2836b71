/**
 * "Fields...": appends the fields described in the fields dialog, one per
 * table row and in row order, to the first class of the file.
 */
module FieldGenerator {
  import opened Maybe
  import opened SyntaxTrees

  /** A row of the fields table: access, static, final, transient, volatile, type, name, value. */
  datatype FieldRow = FieldRow(
    access: string,
    isStatic: bool,
    isFinal: bool,
    isTransient: bool,
    isVolatile: bool,
    typ: string,
    name: string,
    value: string)

  const ALL_MODIFIERS: set<Modifier> :=
    {PUBLIC, PROTECTED, PRIVATE, ABSTRACT, STATIC, FINAL, TRANSIENT, VOLATILE, SYNCHRONIZED, NATIVE, STRICTFP}

  /** Whether a row asks for modifier `m`: the access choice names at most one, each check box one more. */
  predicate FieldDeclares(row: FieldRow, m: Modifier) {
    match m
    case PUBLIC => row.access == "public"
    case PROTECTED => row.access == "protected"
    case PRIVATE => row.access == "private"
    case STATIC => row.isStatic
    case FINAL => row.isFinal
    case TRANSIENT => row.isTransient
    case VOLATILE => row.isVolatile
    case _ => false
  }

  /** The field declaration a row describes. */
  function FieldFor(row: FieldRow): (f: VariableTree)
    ensures forall m :: m in f.modifiers <==> FieldDeclares(row, m)
    ensures f.name == row.name && f.typ == row.typ
    ensures f.initializer.None? <==> row.value == ""
    ensures f.initializer.Some? ==> f.initializer.value == row.value
  {
    var modifiers := set m | m in ALL_MODIFIERS && FieldDeclares(row, m);
    VariableTree(modifiers, row.name, row.typ, if row.value == "" then None else Some(row.value))
  }

  /** The access choice "package" gives no access modifier; each other choice gives its own. */
  lemma AccessChoiceModifiers(row: FieldRow)
    ensures row.access == "package" ==> FieldFor(row).modifiers * {PUBLIC, PROTECTED, PRIVATE} == {}
    ensures row.access == "public" ==> FieldFor(row).modifiers * {PUBLIC, PROTECTED, PRIVATE} == {PUBLIC}
    ensures row.access == "protected" ==> FieldFor(row).modifiers * {PUBLIC, PROTECTED, PRIVATE} == {PROTECTED}
    ensures row.access == "private" ==> FieldFor(row).modifiers * {PUBLIC, PROTECTED, PRIVATE} == {PRIVATE}
  {
    var mods := FieldFor(row).modifiers;
    assert PUBLIC in mods <==> row.access == "public";
    assert PROTECTED in mods <==> row.access == "protected";
    assert PRIVATE in mods <==> row.access == "private";
  }

  /** Position k holds the first class of the file. */
  predicate IsFirstClass(decls: seq<ClassTree>, k: int) {
    0 <= k < |decls| && decls[k].kind == CLASS && forall j :: 0 <= j < k ==> decls[j].kind != CLASS
  }

  /** Where the first top-level class is; interfaces, enums and annotation types are passed over. */
  method GetClassTree(decls: seq<ClassTree>) returns (r: Result<nat>)
    ensures r.Ok? ==> IsFirstClass(decls, r.value)
    ensures r.Thrown? <==> forall j :: 0 <= j < |decls| ==> decls[j].kind != CLASS
  {
    var classTree: Option<nat> := None;
    var i := 0;
    while i < |decls|
      invariant 0 <= i <= |decls|
      invariant classTree.None?
      invariant forall j :: 0 <= j < i ==> decls[j].kind != CLASS
    {
      if decls[i].kind == CLASS {
        classTree := Some(i);
        break;
      }
      i := i + 1;
    }
    if classTree.None? {
      return Thrown("No class in the java file!");
    }
    return Ok(classTree.value);
  }

  function FieldMembers(rows: seq<FieldRow>): (ms: seq<Member>)
    ensures |ms| == |rows|
    ensures forall i :: 0 <= i < |rows| ==> ms[i] == FieldMember(FieldFor(rows[i]))
  {
    seq(|rows|, i requires 0 <= i < |rows| => FieldMember(FieldFor(rows[i])))
  }

  lemma FirstClassIsUnique(decls: seq<ClassTree>, k: int, k': int)
    requires IsFirstClass(decls, k) && IsFirstClass(decls, k')
    ensures k == k'
  {
  }

  lemma FieldMembersStep(rows: seq<FieldRow>, row: nat)
    requires row < |rows|
    ensures FieldMembers(rows[..row + 1]) == FieldMembers(rows[..row]) + [FieldMember(FieldFor(rows[row]))]
  {
  }

  /** The field for one row: the access choice and each check box give one modifier. */
  method BuildField(data: FieldRow) returns (field: VariableTree)
    ensures field == FieldFor(data)
  {
    var modifiers: set<Modifier> := {};
    match data.access {
      case "public" => modifiers := modifiers + {PUBLIC};
      case "protected" => modifiers := modifiers + {PROTECTED};
      case "private" => modifiers := modifiers + {PRIVATE};
      case _ =>
    }
    if data.isStatic {
      modifiers := modifiers + {STATIC};
    }
    if data.isFinal {
      modifiers := modifiers + {FINAL};
    }
    if data.isTransient {
      modifiers := modifiers + {TRANSIENT};
    }
    if data.isVolatile {
      modifiers := modifiers + {VOLATILE};
    }
    var initializer := if data.value == "" then None else Some(data.value);
    field := VariableTree(modifiers, data.name, data.typ, initializer);
    FieldModifiersExactly(data, modifiers);
  }

  /** A set that holds exactly the modifiers a row asks for, stated modifier by modifier. */
  predicate HoldsFieldDeclared(row: FieldRow, mods: set<Modifier>) {
    && (PUBLIC in mods <==> row.access == "public")
    && (PROTECTED in mods <==> row.access == "protected")
    && (PRIVATE in mods <==> row.access == "private")
    && (STATIC in mods <==> row.isStatic)
    && (FINAL in mods <==> row.isFinal)
    && (TRANSIENT in mods <==> row.isTransient)
    && (VOLATILE in mods <==> row.isVolatile)
    && ABSTRACT !in mods && SYNCHRONIZED !in mods && NATIVE !in mods && STRICTFP !in mods
  }

  /** Stated modifier by modifier, the set is the one of the row's field. */
  lemma FieldModifiersExactly(row: FieldRow, mods: set<Modifier>)
    requires HoldsFieldDeclared(row, mods)
    ensures mods == FieldFor(row).modifiers
  {
    var f := FieldFor(row).modifiers;
    forall m ensures m in mods <==> m in f {
      match m
      case PUBLIC =>
      case PROTECTED =>
      case PRIVATE =>
      case ABSTRACT =>
      case STATIC =>
      case FINAL =>
      case TRANSIENT =>
      case VOLATILE =>
      case SYNCHRONIZED =>
      case NATIVE =>
      case STRICTFP =>
    }
  }

  /**
   * The first class with one field per row appended to its members, in row
   * order and wherever the caret is; an IllegalStateException when the
   * file has no class.
   */
  method AddFieldsToClass(cu: CompilationUnit, rows: seq<FieldRow>) returns (r: Result<CompilationUnit>)
    ensures r.Thrown? <==> forall j :: 0 <= j < |cu.typeDecls| ==> cu.typeDecls[j].kind != CLASS
    ensures forall k :: IsFirstClass(cu.typeDecls, k) ==>
      var cls := cu.typeDecls[k];
      r == Ok(cu.(typeDecls := cu.typeDecls[k := cls.(members := cls.members + FieldMembers(rows))]))
  {
    var found := GetClassTree(cu.typeDecls);
    if found.Thrown? {
      return Thrown(found.exception);
    }
    var k := found.value;
    var oldClassTree := cu.typeDecls[k];
    var newClassTree := oldClassTree;
    var row := 0;
    while row < |rows|
      invariant 0 <= row <= |rows|
      invariant newClassTree == oldClassTree.(members := oldClassTree.members + FieldMembers(rows[..row]))
    {
      var field := BuildField(rows[row]);
      FieldMembersStep(rows, row);
      newClassTree := newClassTree.(members := newClassTree.members + [FieldMember(field)]);
      row := row + 1;
    }
    assert rows[..row] == rows;
    r := Ok(cu.(typeDecls := cu.typeDecls[k := newClassTree]));
    forall k' | IsFirstClass(cu.typeDecls, k') ensures k' == k {
      FirstClassIsUnique(cu.typeDecls, k, k');
    }
  }

  /** The edit for one use of the generator: none unless the dialog was confirmed with OK. */
  method Invoke(okPressed: bool, cu: CompilationUnit, rows: seq<FieldRow>) returns (r: Result<CompilationUnit>)
    ensures !okPressed ==> r == Ok(cu)
    ensures okPressed ==> (r.Thrown? <==> forall j :: 0 <= j < |cu.typeDecls| ==> cu.typeDecls[j].kind != CLASS)
    ensures okPressed ==> forall k :: IsFirstClass(cu.typeDecls, k) ==>
      var cls := cu.typeDecls[k];
      r == Ok(cu.(typeDecls := cu.typeDecls[k := cls.(members := cls.members + FieldMembers(rows))]))
  {
    r := Ok(cu);
    if okPressed {
      r := AddFieldsToClass(cu, rows);
    }
  }
}
