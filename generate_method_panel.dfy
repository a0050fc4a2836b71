/**
 * The method form: the patterns its text fields and table cells must match,
 * the parameter name it suggests for a parameter type, the interlocks
 * between the modifier check boxes and the access choice, and the three
 * tables (parameters, type parameters, thrown types) with their selections.
 * The form's OK button is enabled only through `valid()`.
 */
module GenerateMethodPanel {
  import opened JavaText
  import opened SyntaxTrees
  import opened MethodGenerator
  import opened TableSelection

  /** The items of the access combo box, "package" first and selected initially. */
  const ACCESS_CHOICES: seq<string> := ["package", "private", "protected", "public"]

  // ---- validation patterns ----

  /**
   * TYPE_PARAMETER_NAME_REGEX. Read with java.util.regex precedence it is
   * `(^name)|(\?$)`; String.matches must cover the whole text, so it
   * accepts exactly a name or `?`.
   */
  predicate IsTypeParameterName(s: string) { IsName(s) || s == "?" }

  /** `[a-zA-Z_?]\w*?`: the left side of a bounded type argument. */
  predicate IsWildcardHead(s: string) {
    |s| > 0 && (IsNameStart(s[0]) || s[0] == '?') && forall i :: 1 <= i < |s| ==> IsWordChar(s[i])
  }

  const EXTENDS: string := " extends "

  /** The type argument TYPE_REGEX admits between `<` and `>`: `?`, a name, or `X extends Name`. */
  predicate IsTypeArgument(a: string) {
    || a == "?"
    || IsName(a)
    || (var p := IndexOf(a, ' ');
        && 0 < p
        && IsWildcardHead(a[..p])
        && StartsWith(a[p..], EXTENDS)
        && IsName(a[p + |EXTENDS|..]))
  }

  /**
   * TYPE_REGEX: a dotted name, alone, followed by one `[]`, or followed by
   * one type argument in angle brackets.
   */
  predicate IsMethodType(s: string) {
    || IsDottedName(s)
    || (|s| > 2 && s[|s| - 2..] == "[]" && IsDottedName(s[..|s| - 2]))
    || (var p := IndexOf(s, '<');
        && 0 < p < |s| - 1
        && s[|s| - 1] == '>'
        && IsDottedName(s[..p])
        && IsTypeArgument(s[p + 1..|s| - 1]))
  }

  /** TYPE_REGEX_EMPTY_ALLOWED: the bound column also takes the empty text. */
  predicate IsBoundText(s: string) { s == "" || IsMethodType(s) }

  /** A dotted name consists of name characters and dots. */
  lemma DottedNameChars(d: string)
    requires IsDottedName(d)
    ensures forall i :: 0 <= i < |d| ==> IsWordChar(d[i]) || d[i] == '.'
  {
    forall i | 0 <= i < |d| ensures IsWordChar(d[i]) || d[i] == '.' {
      assert WellPlaced(d, i);
    }
  }

  /** The three shapes TYPE_REGEX accepts, built from any dotted name. */
  lemma MethodTypeShapes(d: string, a: string)
    requires IsDottedName(d)
    ensures IsMethodType(d)
    ensures IsMethodType(d + "[]")
    ensures IsTypeArgument(a) ==> IsMethodType(d + "<" + a + ">")
  {
    var arr := d + "[]";
    assert arr[..|arr| - 2] == d && arr[|arr| - 2..] == "[]";
    if IsTypeArgument(a) {
      var s := d + "<" + a + ">";
      DottedNameChars(d);
      assert s[|d|] == '<';
      assert forall j :: 0 <= j < |d| ==> s[j] == d[j];
      assert IndexOf(s, '<') == |d|;
      assert s[..|d|] == d && s[|d| + 1..|s| - 1] == a;
    }
  }

  /** TYPE_REGEX refuses the empty text and a second array dimension. */
  lemma OneArrayDimensionOnly()
    ensures !IsMethodType("")
    ensures !IsMethodType("int[][]")
  {
    var s := "int[][]";
    assert !WellPlaced(s, 3);
    assert !WellPlaced(s[..|s| - 2], 3);
    assert IndexOf(s, '<') == -1;
  }

  /** TYPE_REGEX refuses two type arguments. */
  lemma OneTypeArgumentOnly()
    ensures !IsMethodType("Map<K,V>")
  {
    var m := "Map<K,V>";
    assert !WellPlaced(m, 3);
    assert IndexOf(m, '<') == 3;
    var ma := m[4..|m| - 1];
    assert ma == "K,V" && !IsWordChar(ma[1]);
    assert IndexOf(ma, ' ') == -1;
  }

  /** TYPE_REGEX refuses a type argument that has type arguments itself, such as `List<List<T>>`. */
  lemma NoNestedTypeArguments(head: string, argument: string)
    requires IsDottedName(head) && '<' in argument
    ensures !IsMethodType(head + "<" + argument + ">")
  {
    var t := head + "<" + argument + ">";
    var p := |head|;
    assert t[p] == '<' && t[|t| - 1] == '>';
    DottedNameChars(head);
    assert !IsDottedName(t) by {
      if IsDottedName(t) {
        DottedNameChars(t);
        assert false;
      }
    }
    assert IndexOf(t, '<') == p by {
      forall j | 0 <= j < p ensures t[j] != '<' {
        assert t[j] == head[j];
      }
    }
    assert t[p + 1..|t| - 1] == argument;
    assert !IsTypeArgument(argument) by {
      if IsTypeArgument(argument) {
        TypeArgumentChars(argument);
        assert false;
      }
    }
  }

  /** A bounded wildcard is a type argument. */
  lemma BoundedWildcardIsTypeArgument(bound: string)
    requires IsName(bound)
    ensures IsTypeArgument("?" + EXTENDS + bound)
  {
    var a := "?" + EXTENDS + bound;
    assert a[1] == ' ' && a[0] != ' ';
    assert IndexOf(a, ' ') == 1;
    assert a[..1] == "?" && a[1..][..|EXTENDS|] == EXTENDS && a[1 + |EXTENDS|..] == bound;
  }

  /** Every character of an admitted type argument is a name character, `?` or a space. */
  lemma TypeArgumentChars(a: string)
    requires IsTypeArgument(a)
    ensures forall i :: 0 <= i < |a| ==> IsWordChar(a[i]) || a[i] == '?' || a[i] == ' '
  {
    if a != "?" && !IsName(a) {
      var p := IndexOf(a, ' ');
      var n := p + |EXTENDS|;
      forall i | 0 <= i < |a| ensures IsWordChar(a[i]) || a[i] == '?' || a[i] == ' ' {
        if i < p {
          assert a[i] == a[..p][i];
        } else if i < n {
          assert a[i] == EXTENDS[i - p];
        } else {
          assert a[i] == a[n..][i - n];
        }
      }
    }
  }

  // ---- parameter name suggestion ----

  /** `\w` or `.`: a character of a possibly qualified type name. */
  predicate IsHeadChar(c: char) { IsWordChar(c) || c == '.' }

  /** The length of the longest prefix made of name characters and dots. */
  function HeadLength(s: string): (n: nat)
    ensures n <= |s|
    ensures forall i :: 0 <= i < n ==> IsHeadChar(s[i])
    ensures n < |s| ==> !IsHeadChar(s[n])
  {
    if |s| == 0 || !IsHeadChar(s[0]) then 0 else 1 + HeadLength(s[1..])
  }

  /** A line terminator, which `.` in java.util.regex does not match. */
  predicate IsLineTerminator(c: char) {
    c == '\n' || c == '\r' || c == '\U{0085}' || c == '\U{2028}' || c == '\U{2029}'
  }

  /** `((\[\])|(\<.*?\>))?`: nothing, one `[]`, or anything on one line between `<` and `>`. */
  predicate IsSuggestionTail(t: string) {
    || t == ""
    || t == "[]"
    || (|t| >= 2 && t[0] == '<' && t[|t| - 1] == '>' && forall i :: 1 <= i < |t| - 1 ==> !IsLineTerminator(t[i]))
  }

  /** Every segment has at least two characters, as `[a-zA-Z_]\w+?` demands. */
  predicate LongSegments(parts: seq<string>) { forall k :: 0 <= k < |parts| ==> |parts[k]| >= 2 }

  lemma LowerFirstKeepsName(s: string)
    requires IsName(s)
    ensures IsName(LowerFirst(s))
  {
    var r := LowerFirst(s);
    assert r[0] == ToLowerAscii(s[0]);
    forall i | 1 <= i < |r| ensures IsWordChar(r[i]) {
      assert r[i] == r[1..][i - 1] == s[1..][i - 1] == s[i];
    }
  }

  /**
   * The suggestion for the name part of a type text: a simple name of two or
   * more characters with its first letter lowered; failing that, for a
   * qualified name of two or more segments of two or more characters each,
   * its last segment lowered the same way; otherwise "".
   */
  function SuggestFromHead(head: string): (name: string)
    ensures name == "" || (IsName(name) && |name| >= 2)
  {
    if IsName(head) && |head| >= 2 then
      LowerFirstKeepsName(head);
      LowerFirst(head)
    else if IsDottedName(head) && |Segments(head)| >= 2 && LongSegments(Segments(head)) then
      DottedNameSplits(head);
      var last := Segments(head)[|Segments(head)| - 1];
      LowerFirstKeepsName(last);
      LowerFirst(last)
    else ""
  }

  /**
   * suggestParameterName: the type text splits into its longest prefix of
   * name characters and dots and a rest that must be nothing, `[]` or
   * `<...>`; the suggestion comes from the prefix, and is "" when the rest
   * does not fit.
   */
  function SuggestParameterName(typ: string): (name: string)
    ensures name == "" || (IsName(name) && |name| >= 2)
  {
    var n := HeadLength(typ);
    if IsSuggestionTail(typ[n..]) then SuggestFromHead(typ[..n]) else ""
  }

  /** Splitting a type text after a prefix of name characters and dots. */
  lemma {:induction false} HeadOfTypeText(head: string, tail: string)
    requires forall i :: 0 <= i < |head| ==> IsHeadChar(head[i])
    requires tail == "" || tail[0] == '[' || tail[0] == '<'
    ensures HeadLength(head + tail) == |head|
    ensures (head + tail)[..|head|] == head && (head + tail)[|head|..] == tail
  {
    if |head| > 0 {
      assert (head + tail)[1..] == head[1..] + tail;
      HeadOfTypeText(head[1..], tail);
    } else {
      assert head + tail == tail;
    }
  }

  /** The suggestion for a name followed by nothing, `[]` or `<...>` comes from the name alone. */
  lemma SuggestOfParts(head: string, tail: string)
    requires forall i :: 0 <= i < |head| ==> IsHeadChar(head[i])
    requires IsSuggestionTail(tail)
    ensures SuggestParameterName(head + tail) == SuggestFromHead(head)
  {
    HeadOfTypeText(head, tail);
  }

  lemma NameChars(s: string)
    requires IsName(s)
    ensures forall i :: 0 <= i < |s| ==> IsHeadChar(s[i])
  {
    forall i | 0 <= i < |s| ensures IsHeadChar(s[i]) {
      if i > 0 { assert IsWordChar(s[i]); }
    }
  }

  /** A simple type name of two or more characters is suggested with its first letter lowered. */
  lemma SuggestForSimpleType(name: string, tail: string)
    requires IsName(name) && |name| >= 2 && IsSuggestionTail(tail)
    ensures SuggestParameterName(name + tail) == LowerFirst(name)
  {
    NameChars(name);
    SuggestOfParts(name, tail);
  }

  /** A qualified type name whose segments all have two or more characters is suggested as its last segment, first letter lowered. */
  lemma SuggestForQualifiedType(segments: seq<string>, tail: string)
    requires |segments| >= 2
    requires forall k :: 0 <= k < |segments| ==> IsName(segments[k]) && |segments[k]| >= 2
    requires IsSuggestionTail(tail)
    ensures SuggestParameterName(Join(segments) + tail) == LowerFirst(segments[|segments| - 1])
  {
    var head := Join(segments);
    assert IsDottedName(head) by { JoinedNamesAreDotted(segments); }
    assert forall i :: 0 <= i < |head| ==> IsHeadChar(head[i]) by { DottedNameChars(head); }
    SuggestOfParts(head, tail);
    assert Segments(head) == segments by { SegmentsOfJoin(segments); }
    assert LongSegments(segments);
    JoinOfSeveralIsNoName(segments);
  }

  /** Two or more segments joined have a dot, so they are not a simple name. */
  lemma JoinOfSeveralIsNoName(segments: seq<string>)
    requires |segments| >= 2
    ensures !IsName(Join(segments))
  {
    var init := Join(segments[..|segments| - 1]);
    var head := Join(segments);
    assert head == init + "." + segments[|segments| - 1];
    assert head[|init|] == '.';
  }

  /** A one-character type name gets no suggestion, whatever follows it. */
  lemma NoSuggestionForOneCharacter(c: char, tail: string)
    requires IsNameStart(c) && IsSuggestionTail(tail)
    ensures SuggestParameterName([c] + tail) == ""
  {
    assert IsName([c]);
    NameChars([c]);
    SuggestOfParts([c], tail);
    NameIsOneSegment([c]);
  }

  /** A name is its own single segment. */
  lemma NameIsOneSegment(s: string)
    requires IsName(s)
    ensures Segments(s) == [s]
  {
    assert LastIndexOf(s, '.') == -1 by {
      var r := LastIndexOf(s, '.');
      if r >= 0 { assert IsWordChar(s[r]); }
    }
  }

  /** A dotted name gets a suggestion exactly when each of its segments has two or more characters. */
  lemma HeadSuggestionIffLongSegments(d: string)
    requires IsDottedName(d)
    ensures SuggestFromHead(d) != "" <==> LongSegments(Segments(d))
  {
    DottedNameSplits(d);
    if |Segments(d)| == 1 {
      assert d == Segments(d)[0];
    } else if IsName(d) {
      NameIsOneSegment(d);
      assert false;
    }
  }

  /** An accepted type is a dotted name followed by nothing, `[]` or a type argument in angle brackets. */
  lemma AcceptedTypeSplits(t: string) returns (d: string, tail: string)
    requires IsMethodType(t)
    ensures t == d + tail && IsDottedName(d) && IsSuggestionTail(tail)
  {
    if IsDottedName(t) {
      d, tail := t, "";
      assert t == d + tail;
    } else if |t| > 2 && t[|t| - 2..] == "[]" && IsDottedName(t[..|t| - 2]) {
      d, tail := t[..|t| - 2], "[]";
      SplitBefore(t, |t| - 2);
    } else {
      var p := IndexOf(t, '<');
      d, tail := t[..p], t[p..];
      SplitBefore(t, p);
      AngleTail(t, p);
    }
  }

  lemma SplitBefore(t: string, p: int)
    requires 0 <= p <= |t|
    ensures t == t[..p] + t[p..]
  {
  }

  /** What follows the `<` of an accepted generic type is a suggestion tail. */
  lemma AngleTail(t: string, p: int)
    requires 0 < p < |t| - 1 && t[p] == '<' && t[|t| - 1] == '>'
    requires IsTypeArgument(t[p + 1..|t| - 1])
    ensures IsSuggestionTail(t[p..])
  {
    var a := t[p + 1..|t| - 1];
    var tail := t[p..];
    TypeArgumentChars(a);
    forall i | 1 <= i < |tail| - 1 ensures !IsLineTerminator(tail[i]) {
      assert tail[i] == a[i - 1];
    }
  }

  /**
   * Every type TYPE_REGEX accepts starts with a dotted name, and it gets a
   * suggestion exactly when each segment of that name has two or more
   * characters.
   */
  lemma SuggestionForAcceptedType(t: string)
    requires IsMethodType(t)
    ensures IsDottedName(t[..HeadLength(t)])
    ensures SuggestParameterName(t) != "" <==> LongSegments(Segments(t[..HeadLength(t)]))
  {
    var d, tail := AcceptedTypeSplits(t);
    DottedNameChars(d);
    HeadOfTypeText(d, tail);
    SuggestOfParts(d, tail);
    HeadSuggestionIffLongSegments(d);
  }

  /** `String` is suggested as `string`. */
  lemma SuggestionForString()
    ensures SuggestParameterName("String") == "string"
  {
    var s := "String";
    assert IsName(s) by { assert forall i :: 1 <= i < |s| ==> IsWordChar(s[i]); }
    SuggestForSimpleType(s, "");
    assert s + "" == s;
    assert ToLowerAscii('S') == 's';
    assert LowerFirst(s) == "string";
  }

  /** `int[]` is suggested as `int`. */
  lemma SuggestionForIntArray()
    ensures SuggestParameterName("int[]") == "int"
  {
    var i := "int";
    assert IsName(i) by { assert forall k :: 1 <= k < |i| ==> IsWordChar(i[k]); }
    SuggestForSimpleType(i, "[]");
    assert i + "[]" == "int[]";
    assert LowerFirst(i) == "int";
  }

  /** A one-letter type variable gets no suggestion. */
  lemma NoSuggestionForTypeVariable()
    ensures SuggestParameterName("T") == ""
  {
    NoSuggestionForOneCharacter('T', "");
    assert ['T'] + "" == "T";
  }

  // ---- form validity ----

  predicate ParameterRowIsValid(row: ParameterRow) {
    IsMethodType(row.typ) && IsName(row.name)
  }

  predicate TypeParameterRowIsValid(row: TypeParameterRow) {
    IsTypeParameterName(row.name) && IsBoundText(row.bound)
  }

  /**
   * valid(): every parameter row has a type and a name, every type
   * parameter row a name and an optional bound, every thrown type is a type,
   * and so are the return type and the method name. Empty tables impose
   * nothing.
   */
  predicate FormIsValid(form: MethodForm) {
    && (forall i :: 0 <= i < |form.parameters| ==> ParameterRowIsValid(form.parameters[i]))
    && (forall i :: 0 <= i < |form.typeParameters| ==> TypeParameterRowIsValid(form.typeParameters[i]))
    && (forall i :: 0 <= i < |form.thrownTypes| ==> IsMethodType(form.thrownTypes[i]))
    && IsMethodType(form.returnType)
    && IsName(form.name)
  }

  /** Validity looks at the texts and the tables only, never at the access choice or the check boxes. */
  lemma ValidityIgnoresModifiers(f: MethodForm, g: MethodForm)
    requires f.returnType == g.returnType && f.name == g.name
    requires f.parameters == g.parameters && f.typeParameters == g.typeParameters && f.thrownTypes == g.thrownTypes
    ensures FormIsValid(f) == FormIsValid(g)
  {
  }

  /**
   * A parameter row after its type cell was edited to `text`: the text is
   * kept even when TYPE_REGEX refuses it; an accepted type also replaces the
   * name with the suggestion for it, so the row is then valid exactly when
   * there is a suggestion.
   */
  function TypeEdited(row: ParameterRow, text: string): (edited: ParameterRow)
    ensures edited.typ == text && edited.isFinal == row.isFinal
    ensures IsMethodType(text) ==> edited.name == SuggestParameterName(text)
    ensures !IsMethodType(text) ==> edited.name == row.name && !ParameterRowIsValid(edited)
    ensures IsMethodType(text) ==> (ParameterRowIsValid(edited) <==> SuggestParameterName(text) != "")
  {
    if IsMethodType(text) then row.(typ := text, name := SuggestParameterName(text)) else row.(typ := text)
  }

  /** One table's part of valid(): the rows in order, stopping at the first one that fails `passes`. */
  method AllRowsPass<T>(rows: seq<T>, passes: T -> bool) returns (ok: bool)
    ensures ok <==> forall i :: 0 <= i < |rows| ==> passes(rows[i])
  {
    var i := 0;
    while i < |rows|
      invariant 0 <= i <= |rows|
      invariant forall j :: 0 <= j < i ==> passes(rows[j])
    {
      if !passes(rows[i]) {
        return false;
      }
      i := i + 1;
    }
    return true;
  }

  // ---- modifier interlocks ----

  /** The relations between the check boxes and the access choice that the form's handlers keep. */
  predicate Interlocked(form: MethodForm) {
    && (form.isAbstract ==> !form.isStatic && !form.isFinal && !form.isSynchronized && !form.isNative && !form.isStrictfp)
    && (form.isAbstract ==> form.access != "private")
    && !(form.isNative && form.isStrictfp)
  }

  /**
   * The method modifier rules of section 8.4.3 of the Java Language
   * Specification (Java SE 11): at most one access modifier; abstract
   * excludes private, static, final, native, strictfp and synchronized;
   * native excludes strictfp; transient and volatile are not method
   * modifiers.
   */
  predicate LegalMethodModifiers(mods: set<Modifier>) {
    && !(PUBLIC in mods && PROTECTED in mods)
    && !(PUBLIC in mods && PRIVATE in mods)
    && !(PROTECTED in mods && PRIVATE in mods)
    && (ABSTRACT in mods ==>
          PRIVATE !in mods && STATIC !in mods && FINAL !in mods &&
          NATIVE !in mods && STRICTFP !in mods && SYNCHRONIZED !in mods)
    && !(NATIVE in mods && STRICTFP in mods)
    && TRANSIENT !in mods && VOLATILE !in mods
  }

  /** A form keeps the interlocks exactly when the modifiers generated from it are legal. */
  lemma InterlockedIffLegal(form: MethodForm, mods: set<Modifier>)
    requires forall m :: m in mods <==> Declares(form, m)
    ensures Interlocked(form) <==> LegalMethodModifiers(mods)
  {
    assert (PUBLIC in mods) == (form.access == "public");
    assert (PROTECTED in mods) == (form.access == "protected");
    assert (PRIVATE in mods) == (form.access == "private");
    assert (ABSTRACT in mods) == form.isAbstract;
    assert (STATIC in mods) == form.isStatic;
    assert (FINAL in mods) == form.isFinal;
    assert (SYNCHRONIZED in mods) == form.isSynchronized;
    assert (NATIVE in mods) == form.isNative;
    assert (STRICTFP in mods) == form.isStrictfp;
    assert TRANSIENT !in mods && VOLATILE !in mods;
  }

  /** A form for an interface, where every box but abstract is disabled, declares at most abstract. */
  lemma InterfaceFormDeclaresAtMostAbstract(form: MethodForm, mods: set<Modifier>)
    requires form.access == "package"
    requires !form.isStatic && !form.isFinal && !form.isSynchronized && !form.isNative && !form.isStrictfp
    requires forall m :: m in mods <==> Declares(form, m)
    ensures mods <= {ABSTRACT}
    ensures ABSTRACT in mods <==> form.isAbstract
  {
    forall m | m in mods ensures m == ABSTRACT {
      assert Declares(form, m);
    }
  }

  // ---- the form ----

  /** The selected rows of the three tables; -1 is an empty selection. */
  datatype Selections = Selections(parameter: int, typeParameter: int, thrownType: int)

  /**
   * The form's invariant: a listed access choice; the interlocks; for an
   * interface, package access and no box but abstract; each selection a
   * row of its table or none; OK enabled only on a valid form.
   */
  predicate Coherent(isClass: bool, form: MethodForm, selection: Selections, okEnabled: bool) {
    && form.access in ACCESS_CHOICES
    && Interlocked(form)
    && (!isClass ==> form.access == "package" && !form.isStatic && !form.isFinal
                     && !form.isSynchronized && !form.isNative && !form.isStrictfp)
    && -1 <= selection.parameter < |form.parameters|
    && -1 <= selection.typeParameter < |form.typeParameters|
    && -1 <= selection.thrownType < |form.thrownTypes|
    && (okEnabled ==> FormIsValid(form))
  }

  /** The state after a click on "abstract": toggled, private access turned into package, the five other boxes cleared. */
  function AbstractClicked(f: MethodForm): MethodForm {
    f.(isAbstract := !f.isAbstract,
       access := if !f.isAbstract && f.access == "private" then "package" else f.access,
       isStatic := false, isFinal := false, isSynchronized := false, isNative := false, isStrictfp := false)
  }

  /** A click on "abstract" keeps the form's invariant, in a class and in an interface. */
  lemma AbstractClickKeepsCoherence(isClass: bool, f: MethodForm, selection: Selections, okEnabled: bool)
    requires Coherent(isClass, f, selection, okEnabled)
    ensures Coherent(isClass, AbstractClicked(f), selection, okEnabled)
  {
    var g := AbstractClicked(f);
    assert "package" in ACCESS_CHOICES && "package" != "private";
    ValidityIgnoresModifiers(f, g);
  }

  class MethodPanel {
    /** Whether the method goes into a class; for an interface the access choice and all boxes but abstract are disabled. */
    const isClass: bool
    /**
     * What the widgets hold: the access combo box, the six check boxes, the
     * return type and name fields and the three tables, as handed to the
     * method generator.
     */
    var form: MethodForm
    var selection: Selections
    /** Whether the dialog's OK button is enabled. */
    var okEnabled: bool

    /** The form's invariant, on its current state. */
    predicate Consistent()
      reads this
    {
      Coherent(isClass, form, selection, okEnabled)
    }

    /** A new form with the given initial return type and name, empty tables, no box checked and OK disabled. */
    constructor (isClass: bool, returnType: string, name: string)
      ensures Consistent()
      ensures this.isClass == isClass
      ensures form == MethodForm("package", false, false, false, false, false, false, returnType, name, [], [], [])
      ensures selection == Selections(-1, -1, -1) && !okEnabled
    {
      this.isClass := isClass;
      form := MethodForm("package", false, false, false, false, false, false, returnType, name, [], [], []);
      selection := Selections(-1, -1, -1);
      okEnabled := false;
    }

    /**
     * Clicking "abstract" toggles it; checking it while the access is
     * private switches the access to package; either way static, final,
     * synchronized, native and strictfp are cleared.
     */
    method ClickAbstract()
      requires Consistent()
      modifies this
      ensures Consistent()
      ensures form == AbstractClicked(old(form))
      ensures selection == old(selection) && okEnabled == old(okEnabled)
    {
      AbstractClickKeepsCoherence(isClass, form, selection, okEnabled);
      form := form.(isAbstract := !form.isAbstract);
      if form.isAbstract && form.access == "private" {
        form := form.(access := "package");
      }
      form := form.(isStatic := false, isFinal := false, isSynchronized := false, isNative := false, isStrictfp := false);
    }

    /** Checking "static" clears abstract; unchecking it changes nothing else. */
    method ClickStatic()
      requires Consistent() && isClass
      modifies this
      ensures Consistent()
      ensures form == old(form).(isStatic := !old(form.isStatic), isAbstract := if old(form.isStatic) then old(form.isAbstract) else false)
      ensures !form.isAbstract
      ensures selection == old(selection) && okEnabled == old(okEnabled)
    {
      form := form.(isStatic := !form.isStatic);
      if form.isStatic {
        form := form.(isAbstract := false);
      }
    }

    /** Checking "final" clears abstract; unchecking it changes nothing else. */
    method ClickFinal()
      requires Consistent() && isClass
      modifies this
      ensures Consistent()
      ensures form == old(form).(isFinal := !old(form.isFinal), isAbstract := if old(form.isFinal) then old(form.isAbstract) else false)
      ensures !form.isAbstract
      ensures selection == old(selection) && okEnabled == old(okEnabled)
    {
      form := form.(isFinal := !form.isFinal);
      if form.isFinal {
        form := form.(isAbstract := false);
      }
    }

    /** Checking "synchronized" clears abstract; unchecking it changes nothing else. */
    method ClickSynchronized()
      requires Consistent() && isClass
      modifies this
      ensures Consistent()
      ensures form == old(form).(
        isSynchronized := !old(form.isSynchronized),
        isAbstract := if old(form.isSynchronized) then old(form.isAbstract) else false)
      ensures !form.isAbstract
      ensures selection == old(selection) && okEnabled == old(okEnabled)
    {
      form := form.(isSynchronized := !form.isSynchronized);
      if form.isSynchronized {
        form := form.(isAbstract := false);
      }
    }

    /** Checking "native" clears abstract and strictfp; unchecking it changes nothing else. */
    method ClickNative()
      requires Consistent() && isClass
      modifies this
      ensures Consistent()
      ensures form == old(form).(
        isNative := !old(form.isNative),
        isAbstract := if old(form.isNative) then old(form.isAbstract) else false,
        isStrictfp := if old(form.isNative) then old(form.isStrictfp) else false)
      ensures selection == old(selection) && okEnabled == old(okEnabled)
    {
      form := form.(isNative := !form.isNative);
      if form.isNative {
        form := form.(isAbstract := false, isStrictfp := false);
      }
    }

    /** Checking "strictfp" clears abstract and native; unchecking it changes nothing else. */
    method ClickStrictfp()
      requires Consistent() && isClass
      modifies this
      ensures Consistent()
      ensures form == old(form).(
        isStrictfp := !old(form.isStrictfp),
        isAbstract := if old(form.isStrictfp) then old(form.isAbstract) else false,
        isNative := if old(form.isStrictfp) then old(form.isNative) else false)
      ensures selection == old(selection) && okEnabled == old(okEnabled)
    {
      form := form.(isStrictfp := !form.isStrictfp);
      if form.isStrictfp {
        form := form.(isAbstract := false, isNative := false);
      }
    }

    /** Choosing an access; the combo box's item listener clears abstract when the choice is private. */
    method ChooseAccess(choice: string)
      requires Consistent() && isClass && choice in ACCESS_CHOICES
      modifies this
      ensures Consistent()
      ensures form == old(form).(access := choice, isAbstract := if choice == "private" then false else old(form.isAbstract))
      ensures selection == old(selection) && okEnabled == old(okEnabled)
    {
      form := form.(access := choice);
      if choice == "private" {
        form := form.(isAbstract := false);
      }
    }

    /** valid(): the rows are checked table by table, then the return type and the name. */
    method IsValid() returns (ok: bool)
      ensures ok <==> FormIsValid(form)
    {
      ok := AllRowsPass(form.parameters, ParameterRowIsValid);
      if ok {
        ok := AllRowsPass(form.typeParameters, TypeParameterRowIsValid);
      }
      if ok {
        ok := AllRowsPass(form.thrownTypes, IsMethodType);
      }
      ok := ok && IsMethodType(form.returnType) && IsName(form.name);
    }

    /** Typing in the return type field re-evaluates valid(). */
    method EditReturnType(text: string)
      requires Consistent()
      modifies this
      ensures Consistent()
      ensures form == old(form).(returnType := text)
      ensures selection == old(selection) && okEnabled == FormIsValid(form)
    {
      form := form.(returnType := text);
      okEnabled := IsValid();
    }

    /** Typing in the name field re-evaluates valid(). */
    method EditName(text: string)
      requires Consistent()
      modifies this
      ensures Consistent()
      ensures form == old(form).(name := text)
      ensures selection == old(selection) && okEnabled == FormIsValid(form)
    {
      form := form.(name := text);
      okEnabled := IsValid();
    }

    /** "Add" under the parameters table: a row with final unchecked and empty type and name, selected; OK is disabled. */
    method AddParameter()
      requires Consistent()
      modifies this
      ensures Consistent()
      ensures form == old(form).(parameters := old(form.parameters) + [ParameterRow(false, "", "")])
      ensures selection == old(selection).(parameter := |form.parameters| - 1)
      ensures !okEnabled && !FormIsValid(form)
    {
      form := form.(parameters := form.parameters + [ParameterRow(false, "", "")]);
      selection := selection.(parameter := |form.parameters| - 1);
      okEnabled := false;
      assert !ParameterRowIsValid(form.parameters[|form.parameters| - 1]);
    }

    /** "Remove" under the parameters table: the selected row goes, the selection moves up one row, OK follows valid(). */
    method RemoveParameter()
      requires Consistent() && selection.parameter >= 0
      modifies this
      ensures Consistent()
      ensures form == old(form).(parameters := RemoveAt(old(form.parameters), old(selection.parameter)))
      ensures selection == old(selection).(parameter := SelectionAfterRemoval(old(selection.parameter), |form.parameters|))
      ensures okEnabled == FormIsValid(form)
    {
      var row := selection.parameter;
      form := form.(parameters := RemoveAt(form.parameters, row));
      selection := selection.(parameter := SelectionAfterRemoval(row, |form.parameters|));
      okEnabled := IsValid();
    }

    /**
     * "Add" under the type parameters table: a row with empty name and
     * bound; the row selected is the last row of the PARAMETERS table,
     * which is what the source selects. OK is disabled.
     */
    method AddTypeParameter()
      requires Consistent()
      modifies this
      ensures Consistent()
      ensures form == old(form).(typeParameters := old(form.typeParameters) + [TypeParameterRow("", "")])
      ensures selection == old(selection).(parameter := |form.parameters| - 1)
      ensures !okEnabled && !FormIsValid(form)
    {
      form := form.(typeParameters := form.typeParameters + [TypeParameterRow("", "")]);
      selection := selection.(parameter := |form.parameters| - 1);
      okEnabled := false;
      assert !TypeParameterRowIsValid(form.typeParameters[|form.typeParameters| - 1]);
    }

    /** "Remove" under the type parameters table. */
    method RemoveTypeParameter()
      requires Consistent() && selection.typeParameter >= 0
      modifies this
      ensures Consistent()
      ensures form == old(form).(typeParameters := RemoveAt(old(form.typeParameters), old(selection.typeParameter)))
      ensures selection == old(selection).(
        typeParameter := SelectionAfterRemoval(old(selection.typeParameter), |form.typeParameters|))
      ensures okEnabled == FormIsValid(form)
    {
      var row := selection.typeParameter;
      form := form.(typeParameters := RemoveAt(form.typeParameters, row));
      selection := selection.(typeParameter := SelectionAfterRemoval(row, |form.typeParameters|));
      okEnabled := IsValid();
    }

    /** "Add" under the thrown types table: an empty row, selected; OK is disabled. */
    method AddThrownType()
      requires Consistent()
      modifies this
      ensures Consistent()
      ensures form == old(form).(thrownTypes := old(form.thrownTypes) + [""])
      ensures selection == old(selection).(thrownType := |form.thrownTypes| - 1)
      ensures !okEnabled && !FormIsValid(form)
    {
      form := form.(thrownTypes := form.thrownTypes + [""]);
      selection := selection.(thrownType := |form.thrownTypes| - 1);
      okEnabled := false;
      assert !IsMethodType(form.thrownTypes[|form.thrownTypes| - 1]);
    }

    /** "Remove" under the thrown types table. */
    method RemoveThrownType()
      requires Consistent() && selection.thrownType >= 0
      modifies this
      ensures Consistent()
      ensures form == old(form).(thrownTypes := RemoveAt(old(form.thrownTypes), old(selection.thrownType)))
      ensures selection == old(selection).(thrownType := SelectionAfterRemoval(old(selection.thrownType), |form.thrownTypes|))
      ensures okEnabled == FormIsValid(form)
    {
      var row := selection.thrownType;
      form := form.(thrownTypes := RemoveAt(form.thrownTypes, row));
      selection := selection.(thrownType := SelectionAfterRemoval(row, |form.thrownTypes|));
      okEnabled := IsValid();
    }

    /** A click in the parameters table: row r becomes its selection (-1 clears it); its "Remove" is enabled exactly when a row is selected. */
    method SelectParameter(r: int) returns (removeEnabled: bool)
      requires Consistent() && -1 <= r < |form.parameters|
      modifies this
      ensures Consistent()
      ensures selection == old(selection).(parameter := r)
      ensures form == old(form) && okEnabled == old(okEnabled)
      ensures removeEnabled <==> selection.parameter >= 0
    {
      selection := selection.(parameter := r);
      removeEnabled := r >= 0;
    }

    /** A click in the type parameters table. */
    method SelectTypeParameter(r: int) returns (removeEnabled: bool)
      requires Consistent() && -1 <= r < |form.typeParameters|
      modifies this
      ensures Consistent()
      ensures selection == old(selection).(typeParameter := r)
      ensures form == old(form) && okEnabled == old(okEnabled)
      ensures removeEnabled <==> selection.typeParameter >= 0
    {
      selection := selection.(typeParameter := r);
      removeEnabled := r >= 0;
    }

    /** A click in the thrown types table. */
    method SelectThrownType(r: int) returns (removeEnabled: bool)
      requires Consistent() && -1 <= r < |form.thrownTypes|
      modifies this
      ensures Consistent()
      ensures selection == old(selection).(thrownType := r)
      ensures form == old(form) && okEnabled == old(okEnabled)
      ensures removeEnabled <==> selection.thrownType >= 0
    {
      selection := selection.(thrownType := r);
      removeEnabled := r >= 0;
    }

    /**
     * Finishing an edit of the selected parameter's type. The text is stored
     * whether or not it passes TYPE_REGEX; when it fails OK is disabled,
     * when it passes the row's name becomes the suggestion for the type and
     * OK follows valid().
     */
    method EditParameterType(text: string)
      requires Consistent() && selection.parameter >= 0
      modifies this
      ensures Consistent()
      ensures var r := old(selection.parameter);
        form == old(form).(parameters := old(form.parameters)[r := TypeEdited(old(form.parameters)[r], text)])
      ensures selection == old(selection)
      ensures okEnabled == (IsMethodType(text) && FormIsValid(form))
    {
      var r := selection.parameter;
      form := form.(parameters := form.parameters[r := TypeEdited(form.parameters[r], text)]);
      if IsMethodType(text) {
        okEnabled := IsValid();
      } else {
        okEnabled := false;
      }
    }

    /** Finishing an edit of the selected parameter's name: a text that is not a name is not stored and disables OK. */
    method EditParameterName(text: string)
      requires Consistent() && selection.parameter >= 0
      modifies this
      ensures Consistent()
      ensures var r := old(selection.parameter);
        form == old(form).(parameters :=
          if IsName(text) then old(form.parameters)[r := old(form.parameters)[r].(name := text)] else old(form.parameters))
      ensures selection == old(selection)
      ensures okEnabled == (IsName(text) && FormIsValid(form))
    {
      var r := selection.parameter;
      if IsName(text) {
        form := form.(parameters := form.parameters[r := form.parameters[r].(name := text)]);
        okEnabled := IsValid();
      } else {
        okEnabled := false;
      }
    }

    /** Finishing an edit of the selected type parameter's name: the text is stored either way; one that fails disables OK. */
    method EditTypeParameterName(text: string)
      requires Consistent() && selection.typeParameter >= 0
      modifies this
      ensures Consistent()
      ensures var r := old(selection.typeParameter);
        form == old(form).(typeParameters := old(form.typeParameters)[r := old(form.typeParameters)[r].(name := text)])
      ensures selection == old(selection)
      ensures okEnabled == (IsTypeParameterName(text) && FormIsValid(form))
    {
      var r := selection.typeParameter;
      form := form.(typeParameters := form.typeParameters[r := form.typeParameters[r].(name := text)]);
      if IsTypeParameterName(text) {
        okEnabled := IsValid();
      } else {
        okEnabled := false;
      }
    }

    /** Finishing an edit of the selected type parameter's bound: the text is stored either way; one that fails disables OK. */
    method EditTypeParameterBound(text: string)
      requires Consistent() && selection.typeParameter >= 0
      modifies this
      ensures Consistent()
      ensures var r := old(selection.typeParameter);
        form == old(form).(typeParameters := old(form.typeParameters)[r := old(form.typeParameters)[r].(bound := text)])
      ensures selection == old(selection)
      ensures okEnabled == (IsBoundText(text) && FormIsValid(form))
    {
      var r := selection.typeParameter;
      form := form.(typeParameters := form.typeParameters[r := form.typeParameters[r].(bound := text)]);
      if IsBoundText(text) {
        okEnabled := IsValid();
      } else {
        okEnabled := false;
      }
    }

    /** Finishing an edit of the selected thrown type: the text is stored either way; one that fails disables OK. */
    method EditThrownType(text: string)
      requires Consistent() && selection.thrownType >= 0
      modifies this
      ensures Consistent()
      ensures form == old(form).(thrownTypes := old(form.thrownTypes)[old(selection.thrownType) := text])
      ensures selection == old(selection)
      ensures okEnabled == (IsMethodType(text) && FormIsValid(form))
    {
      form := form.(thrownTypes := form.thrownTypes[selection.thrownType := text]);
      if IsMethodType(text) {
        okEnabled := IsValid();
      } else {
        okEnabled := false;
      }
    }
  }
}
