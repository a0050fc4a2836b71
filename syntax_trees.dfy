/**
 * The parts of the javac tree model and of javax.lang.model that the
 * generators read and build. Trees that already exist in the edited source
 * keep only their start offset; trees that a generator synthesises carry
 * their content and have no position (javac's NOPOS).
 */
module SyntaxTrees {
  import opened Maybe

  /** javax.lang.model.element.Modifier, restricted to the constants the generators use. */
  datatype Modifier =
    | PUBLIC | PROTECTED | PRIVATE
    | ABSTRACT | STATIC | FINAL | TRANSIENT | VOLATILE | SYNCHRONIZED | NATIVE | STRICTFP

  /** javax.lang.model.type.TypeKind, restricted to the kinds the generators tell apart. */
  datatype TypeKind =
    | BOOLEAN | BYTE | SHORT | INT | LONG | CHAR | FLOAT | DOUBLE
    | VOID | ARRAY | DECLARED | TYPEVAR | ERROR | OTHER

  /** A resolved type: its kind and its printed form (TypeMirror.toString()). */
  datatype TypeMirror = TypeMirror(kind: TypeKind, text: string)

  /** Diagnostic.NOPOS, the start offset of a tree that has no source position. */
  const NOPOS: int := -1

  /** A variable declaration: a field, a method parameter or a local variable. */
  datatype VariableTree = VariableTree(modifiers: set<Modifier>, name: string, typ: string, initializer: Option<string>)

  /** A type parameter with its `extends` bounds. */
  datatype TypeParameterTree = TypeParameterTree(name: string, bounds: seq<string>)

  /** A call `receiver.methodName(arguments)`; each argument is an identifier or a literal, kept as text. */
  datatype Invocation = Invocation(receiver: string, methodName: string, arguments: seq<string>)

  /** A statement of a block. */
  datatype Statement =
    | ExistingStatement(start: int)
    | CallStatement(call: Invocation)
    | LocalVariable(typ: TypeMirror, name: string, initializer: Invocation)

  datatype Block = Block(statements: seq<Statement>)

  datatype MethodTree = MethodTree(
    modifiers: set<Modifier>,
    name: string,
    returnType: string,
    typeParameters: seq<TypeParameterTree>,
    parameters: seq<VariableTree>,
    thrown: seq<string>,
    body: Option<Block>)

  /** A member of a class or interface body. */
  datatype Member =
    | ExistingMember(start: int)
    | FieldMember(field: VariableTree)
    | MethodMember(decl: MethodTree)

  /** com.sun.source.tree.Tree.Kind of a type declaration. */
  datatype ClassKind = CLASS | INTERFACE | ENUM | ANNOTATION_TYPE

  datatype ClassTree = ClassTree(kind: ClassKind, name: string, members: seq<Member>)

  datatype ImportTree = ImportTree(qualifiedIdentifier: string, isStatic: bool, start: int)

  datatype CompilationUnit = CompilationUnit(imports: seq<ImportTree>, typeDecls: seq<ClassTree>)

  /** JavaSource.Phase, in the order javac reaches them. */
  datatype Phase = MODIFIED | PARSED | ELEMENTS_RESOLVED | RESOLVED | UP_TO_DATE

  function PhaseRank(p: Phase): nat {
    match p
    case MODIFIED => 0
    case PARSED => 1
    case ELEMENTS_RESOLVED => 2
    case RESOLVED => 3
    case UP_TO_DATE => 4
  }

  /** SourcePositions.getStartPosition of a statement. */
  function StatementStart(s: Statement): int {
    if s.ExistingStatement? then s.start else NOPOS
  }

  function StatementStarts(ss: seq<Statement>): (starts: seq<int>)
    ensures |starts| == |ss|
    ensures forall i :: 0 <= i < |ss| ==> starts[i] == StatementStart(ss[i])
  {
    seq(|ss|, i requires 0 <= i < |ss| => StatementStart(ss[i]))
  }

  function MemberStart(m: Member): int {
    if m.ExistingMember? then m.start else NOPOS
  }

  function MemberStarts(ms: seq<Member>): (starts: seq<int>)
    ensures |starts| == |ms|
    ensures forall i :: 0 <= i < |ms| ==> starts[i] == MemberStart(ms[i])
  {
    seq(|ms|, i requires 0 <= i < |ms| => MemberStart(ms[i]))
  }

  function ImportStarts(imports: seq<ImportTree>): (starts: seq<int>)
    ensures |starts| == |imports|
    ensures forall i :: 0 <= i < |imports| ==> starts[i] == imports[i].start
  {
    seq(|imports|, i requires 0 <= i < |imports| => imports[i].start)
  }

  /** Starts strictly increasing, as for siblings that do not overlap. */
  predicate StrictlyAscending(starts: seq<int>) {
    forall i, j :: 0 <= i < j < |starts| ==> starts[i] < starts[j]
  }
}
