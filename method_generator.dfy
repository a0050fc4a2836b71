/**
 * "Method...": inserts a method declaration, as described in the method
 * dialog, into the class or interface that encloses the caret. The generator
 * is offered only where no block encloses the caret.
 */
module MethodGenerator {
  import opened Maybe
  import opened SyntaxTrees
  import opened SiblingIndex

  /** A row of the parameters table: final flag, type, name. */
  datatype ParameterRow = ParameterRow(isFinal: bool, typ: string, name: string)

  /** A row of the type parameters table: name and bound (empty for none). */
  datatype TypeParameterRow = TypeParameterRow(name: string, bound: string)

  /** What the method dialog hands to the generator. */
  datatype MethodForm = MethodForm(
    access: string,
    isAbstract: bool,
    isStatic: bool,
    isFinal: bool,
    isSynchronized: bool,
    isNative: bool,
    isStrictfp: bool,
    returnType: string,
    name: string,
    parameters: seq<ParameterRow>,
    typeParameters: seq<TypeParameterRow>,
    thrownTypes: seq<string>)

  /** Whether the form asks for modifier `m`: the access choice names at most one, each check box one more. */
  predicate Declares(form: MethodForm, m: Modifier) {
    match m
    case PUBLIC => form.access == "public"
    case PROTECTED => form.access == "protected"
    case PRIVATE => form.access == "private"
    case ABSTRACT => form.isAbstract
    case STATIC => form.isStatic
    case FINAL => form.isFinal
    case SYNCHRONIZED => form.isSynchronized
    case NATIVE => form.isNative
    case STRICTFP => form.isStrictfp
    case TRANSIENT => false
    case VOLATILE => false
  }

  /** A set that holds exactly the modifiers the form declares, stated modifier by modifier. */
  predicate HoldsDeclared(form: MethodForm, mods: set<Modifier>) {
    && (PUBLIC in mods <==> form.access == "public")
    && (PROTECTED in mods <==> form.access == "protected")
    && (PRIVATE in mods <==> form.access == "private")
    && (ABSTRACT in mods <==> form.isAbstract)
    && (STATIC in mods <==> form.isStatic)
    && (FINAL in mods <==> form.isFinal)
    && (SYNCHRONIZED in mods <==> form.isSynchronized)
    && (NATIVE in mods <==> form.isNative)
    && (STRICTFP in mods <==> form.isStrictfp)
    && TRANSIENT !in mods && VOLATILE !in mods
  }

  /** Stated modifier by modifier or with Declares, the two say the same. */
  lemma HoldsDeclaredExactly(form: MethodForm, mods: set<Modifier>)
    requires HoldsDeclared(form, mods)
    ensures forall m :: m in mods <==> Declares(form, m)
  {
    forall m ensures m in mods <==> Declares(form, m) {
      match m
      case PUBLIC =>
      case PROTECTED =>
      case PRIVATE =>
      case ABSTRACT =>
      case STATIC =>
      case FINAL =>
      case SYNCHRONIZED =>
      case NATIVE =>
      case STRICTFP =>
      case TRANSIENT =>
      case VOLATILE =>
    }
  }

  method GetMethodModifiers(form: MethodForm) returns (mods: set<Modifier>)
    ensures forall m :: m in mods <==> Declares(form, m)
  {
    mods := {};
    match form.access {
      case "public" => mods := mods + {PUBLIC};
      case "protected" => mods := mods + {PROTECTED};
      case "private" => mods := mods + {PRIVATE};
      case _ =>
    }
    if form.isAbstract {
      mods := mods + {ABSTRACT};
    }
    if form.isStatic {
      mods := mods + {STATIC};
    }
    if form.isFinal {
      mods := mods + {FINAL};
    }
    if form.isSynchronized {
      mods := mods + {SYNCHRONIZED};
    }
    if form.isNative {
      mods := mods + {NATIVE};
    }
    if form.isStrictfp {
      mods := mods + {STRICTFP};
    }
    HoldsDeclaredExactly(form, mods);
  }

  /** One parameter per row, in row order: FINAL exactly when the row says so, no initializer. */
  method GetMethodParameters(rows: seq<ParameterRow>) returns (params: seq<VariableTree>)
    ensures |params| == |rows|
    ensures forall i :: 0 <= i < |rows| ==>
      && params[i].name == rows[i].name
      && params[i].typ == rows[i].typ
      && (params[i].modifiers == if rows[i].isFinal then {FINAL} else {})
      && params[i].initializer.None?
  {
    params := [];
    var row := 0;
    while row < |rows|
      invariant 0 <= row <= |rows| && |params| == row
      invariant forall i :: 0 <= i < row ==>
        && params[i].name == rows[i].name
        && params[i].typ == rows[i].typ
        && (params[i].modifiers == if rows[i].isFinal then {FINAL} else {})
        && params[i].initializer.None?
    {
      var parameterModifiers: set<Modifier> := {};
      if rows[row].isFinal {
        parameterModifiers := parameterModifiers + {FINAL};
      }
      params := params + [VariableTree(parameterModifiers, rows[row].name, rows[row].typ, None)];
      row := row + 1;
    }
  }

  /** One type parameter per row, in row order, with the row's bound when it is not empty and no bound otherwise. */
  method GetMethodTypeParameters(rows: seq<TypeParameterRow>) returns (tps: seq<TypeParameterTree>)
    ensures |tps| == |rows|
    ensures forall i :: 0 <= i < |rows| ==>
      tps[i].name == rows[i].name && (tps[i].bounds == if rows[i].bound == "" then [] else [rows[i].bound])
  {
    tps := [];
    var row := 0;
    while row < |rows|
      invariant 0 <= row <= |rows| && |tps| == row
      invariant forall i :: 0 <= i < row ==>
        tps[i].name == rows[i].name && (tps[i].bounds == if rows[i].bound == "" then [] else [rows[i].bound])
    {
      var bounds: seq<string> := [];
      if rows[row].bound != "" {
        bounds := bounds + [rows[row].bound];
      }
      tps := tps + [TypeParameterTree(rows[row].name, bounds)];
      row := row + 1;
    }
  }

  /** One thrown type per row, in row order. */
  method GetMethodThrownTypes(rows: seq<string>) returns (thrown: seq<string>)
    ensures thrown == rows
  {
    thrown := [];
    var row := 0;
    while row < |rows|
      invariant 0 <= row <= |rows| && thrown == rows[..row]
    {
      thrown := thrown + [rows[row]];
      row := row + 1;
    }
  }

  /** Whether the generator is offered: only once the source resolved and when no block encloses the caret. */
  method Create(reached: Phase, taskFailed: bool, blockEncloses: bool) returns (offered: bool)
    ensures offered <==> !taskFailed && PhaseRank(reached) >= PhaseRank(RESOLVED) && !blockEncloses
  {
    var insideBlock := true;
    if !taskFailed && PhaseRank(reached) >= PhaseRank(RESOLVED) {
      if !blockEncloses {
        insideBlock := false;
      }
    }
    offered := !insideBlock;
  }

  /** TreeMaker.insertClassMember. */
  function InsertMember(members: seq<Member>, index: int, m: Member): seq<Member>
    requires 0 <= index <= |members|
  {
    members[..index] + [m] + members[index..]
  }

  /** One parameter per row, in row order: the row's name and type, FINAL exactly when the row says so, no initializer. */
  predicate ParametersFor(params: seq<VariableTree>, rows: seq<ParameterRow>) {
    && |params| == |rows|
    && forall i :: 0 <= i < |rows| ==>
      && params[i].name == rows[i].name
      && params[i].typ == rows[i].typ
      && (params[i].modifiers == if rows[i].isFinal then {FINAL} else {})
      && params[i].initializer.None?
  }

  /** One type parameter per row, in row order: the row's name, and its bound unless the bound text is empty. */
  predicate TypeParametersFor(tps: seq<TypeParameterTree>, rows: seq<TypeParameterRow>) {
    && |tps| == |rows|
    && forall i :: 0 <= i < |rows| ==>
      tps[i].name == rows[i].name && (tps[i].bounds == if rows[i].bound == "" then [] else [rows[i].bound])
  }

  /**
   * The declaration is the method the form describes: its modifiers, name,
   * return type, parameters, type parameters and thrown types, and an empty
   * body exactly for a method of a class that is neither abstract nor native.
   */
  predicate DeclaresForm(decl: MethodTree, form: MethodForm, isClass: bool) {
    && (forall x :: x in decl.modifiers <==> Declares(form, x))
    && decl.name == form.name
    && decl.returnType == form.returnType
    && ParametersFor(decl.parameters, form.parameters)
    && TypeParametersFor(decl.typeParameters, form.typeParameters)
    && decl.thrown == form.thrownTypes
    && (decl.body.Some? <==> isClass && !form.isAbstract && !form.isNative)
    && (decl.body.Some? ==> decl.body.value.statements == [])
  }

  /** The form determines the declaration: two declarations of the same form are the same tree. */
  lemma {:induction false} DeclaresFormUnique(d: MethodTree, e: MethodTree, form: MethodForm, isClass: bool)
    requires DeclaresForm(d, form, isClass) && DeclaresForm(e, form, isClass)
    ensures d == e
  {
    assert d.modifiers == e.modifiers by {
      forall x ensures x in d.modifiers <==> x in e.modifiers {
        assert x in d.modifiers <==> Declares(form, x);
      }
    }
    assert d.parameters == e.parameters by {
      forall i | 0 <= i < |d.parameters| ensures d.parameters[i] == e.parameters[i] {
        assert d.parameters[i].initializer == None == e.parameters[i].initializer;
      }
    }
    assert d.typeParameters == e.typeParameters;
    assert d.body == e.body by {
      if d.body.Some? {
        assert d.body.value == Block([]) == e.body.value;
      }
    }
  }

  class Generator {
    /** Where the new method goes among the class members. */
    var insertIndex: int
    /** Whether the enclosing type is a class rather than an interface. */
    var isClass: bool

    constructor ()
      ensures insertIndex == 0 && !isClass
    {
      insertIndex := 0;
      isClass := false;
    }

    /** The copy of the sibling rule that runs over class members. */
    method SetInsertIndex(starts: seq<int>, caret: int)
      modifies this`insertIndex
      ensures insertIndex == SiblingInsertIndex(starts, caret, old(insertIndex))
    {
      var size := |starts|;
      if size == 1 {
        if caret < starts[0] {
          insertIndex := 0;
        } else {
          insertIndex := 1;
        }
      } else if size == 2 {
        if caret < starts[0] {
          insertIndex := 0;
        } else if starts[1] < caret {
          insertIndex := size;
        } else {
          insertIndex := 1;
        }
      } else {
        var i := 1;
        while i < size
          invariant 1 <= i && (size == 0 || i <= size)
          invariant FirstGap(starts, caret, i) == FirstGap(starts, caret, 1)
          invariant insertIndex == old(insertIndex) || i == size
          invariant i == size && size > 0 ==> insertIndex == SiblingInsertIndex(starts, caret, old(insertIndex))
        {
          if i < size - 1 {
            if starts[i - 1] < caret && caret < starts[i] {
              insertIndex := i;
              break;
            }
          } else {
            if starts[i] < caret {
              insertIndex := size;
            } else {
              insertIndex := i;
            }
          }
          i := i + 1;
        }
      }
    }

    /**
     * The declaration the form describes, inserted at insertIndex. A method
     * of a class has an empty body unless it is abstract or native, which
     * is what section 8.4.7 of the Java Language Specification asks; an
     * interface method never gets a body.
     */
    method InsertMethodIntoClassOrInterface(cls: ClassTree, form: MethodForm) returns (updated: ClassTree)
      requires 0 <= insertIndex <= |cls.members|
      ensures updated.kind == cls.kind && updated.name == cls.name
      ensures |updated.members| == |cls.members| + 1
      ensures updated.members[..insertIndex] == cls.members[..insertIndex]
      ensures updated.members[insertIndex + 1..] == cls.members[insertIndex..]
      ensures updated.members[insertIndex].MethodMember?
      ensures DeclaresForm(updated.members[insertIndex].decl, form, isClass)
      ensures isClass ==> (updated.members[insertIndex].decl.body.Some? <==>
        ABSTRACT !in updated.members[insertIndex].decl.modifiers && NATIVE !in updated.members[insertIndex].decl.modifiers)
    {
      var modifiers := GetMethodModifiers(form);
      var params := GetMethodParameters(form.parameters);
      var typeParams := GetMethodTypeParameters(form.typeParameters);
      var thrown := GetMethodThrownTypes(form.thrownTypes);
      var block := Block([]);
      var body := if form.isAbstract || form.isNative || !isClass then None else Some(block);
      var decl := MethodTree(modifiers, form.name, form.returnType, typeParams, params, thrown, body);
      updated := cls.(members := InsertMember(cls.members, insertIndex, MethodMember(decl)));
      assert ABSTRACT in modifiers <==> form.isAbstract;
      assert NATIVE in modifiers <==> form.isNative;
    }

    /**
     * The edit for one use of the generator. `scope` is the nearest class or
     * interface around the caret (an enum or annotation type is never it).
     * Nothing changes without one, or when the dialog is cancelled.
     */
    method Invoke(scope: Option<ClassTree>, caret: int, okPressed: bool, form: MethodForm) returns (edited: Option<ClassTree>)
      requires insertIndex == 0
      requires scope.Some? ==> scope.value.kind in {CLASS, INTERFACE}
      modifies this
      ensures scope.None? || !okPressed ==> edited.None?
      ensures scope.Some? ==> isClass == (scope.value.kind == CLASS)
      ensures scope.Some? ==> insertIndex == SiblingInsertIndex(MemberStarts(scope.value.members), caret, 0)
      ensures edited.Some? ==>
        && scope.Some?
        && 0 <= insertIndex <= |scope.value.members|
        && |edited.value.members| == |scope.value.members| + 1
        && edited.value.members[..insertIndex] == scope.value.members[..insertIndex]
        && edited.value.members[insertIndex + 1..] == scope.value.members[insertIndex..]
        && edited.value.kind == scope.value.kind && edited.value.name == scope.value.name
        && edited.value.members[insertIndex].MethodMember?
        && DeclaresForm(edited.value.members[insertIndex].decl, form, isClass)
      ensures scope.Some? && okPressed ==> edited.Some?
    {
      edited := None;
      if scope.Some? {
        var oldTree := scope.value;
        SetInsertIndex(MemberStarts(oldTree.members), caret);
        if oldTree.kind == CLASS {
          isClass := true;
        } else {
          isClass := false;
        }
        if okPressed {
          var newTree := InsertMethodIntoClassOrInterface(oldTree, form);
          edited := Some(newTree);
        }
      }
    }
  }
}
