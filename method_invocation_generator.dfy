/**
 * "Other Method Invocations...": for the variable the user picks, one call
 * per public method of its type that is neither a getter nor a setter is
 * inserted into the block around the caret. Void methods become call
 * statements; the others become local variables named after the method and
 * numbered against the names this generator has already produced.
 */
module MethodInvocationGenerator {
  import opened Maybe
  import opened JavaText
  import opened SyntaxTrees
  import opened SiblingIndex

  const ERROR_NAME: string := "<error>"

  /** A field, local variable or parameter visible at the caret (all of them are variable elements). */
  datatype Local = Local(name: string, typ: TypeMirror)

  /** A method declared in the selected variable's type. */
  datatype MethodElement = MethodElement(
    name: string,
    modifiers: set<Modifier>,
    returnType: TypeMirror,
    parameterTypes: seq<TypeMirror>)

  /**
   * What the compiler answers: the type a piece of type text denotes in the
   * scope (None when it does not resolve or the attempt throws), and
   * Types.isAssignable.
   */
  datatype TypeServices = TypeServices(
    resolve: string -> Option<TypeMirror>,
    isAssignable: (TypeMirror, TypeMirror) -> bool)

  // ---- arguments ----

  /** The local instanceOf accepts: a real name, a type that resolved, and assignable to the parameter type. */
  predicate Suitable(local: Local, t: TypeMirror, ts: TypeServices) {
    local.name != ERROR_NAME && local.typ.kind != ERROR && ts.isAssignable(local.typ, t)
  }

  /** The first suitable local, in the order the locals are listed. */
  function FirstSuitable(locals: seq<Local>, t: TypeMirror, ts: TypeServices): Option<Local> {
    if |locals| == 0 then None
    else if Suitable(locals[0], t, ts) then Some(locals[0])
    else FirstSuitable(locals[1..], t, ts)
  }

  /** FirstSuitable finds a local exactly when there is a suitable one, and then the first. */
  lemma {:induction false} FirstSuitableIsFirst(locals: seq<Local>, t: TypeMirror, ts: TypeServices)
    ensures FirstSuitable(locals, t, ts).None? <==> forall i :: 0 <= i < |locals| ==> !Suitable(locals[i], t, ts)
    ensures FirstSuitable(locals, t, ts).Some? ==>
      exists i :: 0 <= i < |locals| && locals[i] == FirstSuitable(locals, t, ts).value
        && Suitable(locals[i], t, ts) && forall j :: 0 <= j < i ==> !Suitable(locals[j], t, ts)
  {
    if |locals| > 0 && !Suitable(locals[0], t, ts) {
      FirstSuitableIsFirst(locals[1..], t, ts);
      var r := FirstSuitable(locals[1..], t, ts);
      if r.Some? {
        var i :| 0 <= i < |locals| - 1 && locals[1..][i] == r.value
          && Suitable(locals[1..][i], t, ts) && forall j :: 0 <= j < i ==> !Suitable(locals[1..][j], t, ts);
        assert locals[i + 1] == r.value;
        forall j | 0 <= j < i + 1 ensures !Suitable(locals[j], t, ts) {
          if j > 0 { assert locals[j] == locals[1..][j - 1]; }
        }
      } else {
        forall i | 0 <= i < |locals| ensures !Suitable(locals[i], t, ts) {
          if i > 0 { assert locals[i] == locals[1..][i - 1]; }
        }
      }
    }
  }

  /** instanceOf(typeName, null): no variable when the type text does not resolve. */
  function FindVariable(typeName: string, locals: seq<Local>, ts: TypeServices): Option<Local> {
    match ts.resolve(typeName)
    case None => None
    case Some(t) => FirstSuitable(locals, t, ts)
  }

  /** The literal passed for a parameter no visible variable can fill. */
  function DefaultLiteral(kind: TypeKind): string {
    match kind
    case BOOLEAN => "false"
    case BYTE => "0"
    case SHORT => "0"
    case INT => "0"
    case LONG => "0L"
    case FLOAT => "0.0F"
    case DOUBLE => "0.0"
    case _ => "null"
  }

  /** The type of a literal as javac reads it (section 3.10 of the Java Language Specification); None for `null`. */
  function LiteralType(text: string): Option<TypeKind> {
    if text == "false" || text == "true" then Some(BOOLEAN)
    else if text == "0" then Some(INT)
    else if text == "0L" then Some(LONG)
    else if text == "0.0F" then Some(FLOAT)
    else if text == "0.0" then Some(DOUBLE)
    else None
  }

  /**
   * The fallback literal has exactly the parameter's type for boolean, int,
   * long, float and double; byte and short get the int literal 0, and every
   * other kind gets `null`.
   */
  lemma DefaultLiteralTypes(kind: TypeKind)
    ensures kind in {BOOLEAN, INT, LONG, FLOAT, DOUBLE} ==> LiteralType(DefaultLiteral(kind)) == Some(kind)
    ensures kind in {BYTE, SHORT} ==> LiteralType(DefaultLiteral(kind)) == Some(INT)
    ensures kind !in {BOOLEAN, BYTE, SHORT, INT, LONG, FLOAT, DOUBLE} ==> DefaultLiteral(kind) == "null"
  {
  }

  /** The argument evaluateMethodArguments passes for one parameter. */
  function ArgumentFor(param: TypeMirror, locals: seq<Local>, ts: TypeServices): string {
    match FindVariable(param.text, locals, ts)
    case Some(v) => v.name
    case None => DefaultLiteral(param.kind)
  }

  function Arguments(params: seq<TypeMirror>, locals: seq<Local>, ts: TypeServices): seq<string> {
    seq(|params|, i requires 0 <= i < |params| => ArgumentFor(params[i], locals, ts))
  }

  /** instanceOf(typeName, null): scans the locals for the first one that fits. */
  method InstanceOf(typeName: string, locals: seq<Local>, ts: TypeServices) returns (found: Option<Local>)
    ensures found == FindVariable(typeName, locals, ts)
    ensures found.Some? ==> found.value in locals
  {
    var t := ts.resolve(typeName);
    if t.None? {
      return None;
    }
    var i := 0;
    while i < |locals|
      invariant 0 <= i <= |locals|
      invariant FirstSuitable(locals[i..], t.value, ts) == FirstSuitable(locals, t.value, ts)
    {
      if Suitable(locals[i], t.value, ts) {
        return Some(locals[i]);
      }
      assert locals[i..][1..] == locals[i + 1..];
      i := i + 1;
    }
    return None;
  }

  /** One argument per parameter: a fitting visible variable, else the default literal of the parameter's kind. */
  method EvaluateMethodArguments(params: seq<TypeMirror>, locals: seq<Local>, ts: TypeServices) returns (args: seq<string>)
    ensures args == Arguments(params, locals, ts)
  {
    args := [];
    var i := 0;
    while i < |params|
      invariant 0 <= i <= |params|
      invariant |args| == i
      invariant forall j :: 0 <= j < i ==> args[j] == ArgumentFor(params[j], locals, ts)
    {
      var found := InstanceOf(params[i].text, locals, ts);
      var arg;
      if found.Some? {
        arg := found.value.name;
      } else {
        arg := DefaultLiteral(params[i].kind);
      }
      args := args + [arg];
      i := i + 1;
    }
  }

  // ---- which methods are called ----

  predicate IsMethodNotPublic(m: MethodElement) { PUBLIC !in m.modifiers }

  /** A getter by name only: `get...` or `is...`, whatever the signature. */
  predicate IsGetter(m: MethodElement) { StartsWith(m.name, "get") || StartsWith(m.name, "is") }

  /** A setter by name only: `set...`, whatever the signature. */
  predicate IsSetter(m: MethodElement) { StartsWith(m.name, "set") }

  predicate IsMethodReturnVoid(m: MethodElement) { m.returnType.kind == VOID }

  predicate Skipped(m: MethodElement) { IsMethodNotPublic(m) || IsGetter(m) || IsSetter(m) }

  function Call(receiver: string, m: MethodElement, locals: seq<Local>, ts: TypeServices): Invocation {
    Invocation(receiver, m.name, Arguments(m.parameterTypes, locals, ts))
  }

  // ---- variable names ----

  /** `variable.matches("^" + name + "\\d*$")`, with the name read literally. */
  predicate MatchesNumbered(v: string, name: string) {
    StartsWith(v, name) && AllDigits(v[|name|..])
  }

  /** The registry entries matching `name\d*`, in registry order. */
  function Occurrences(registry: seq<string>, name: string): (occ: seq<string>)
    ensures forall v :: v in occ <==> v in registry && MatchesNumbered(v, name)
  {
    if |registry| == 0 then []
    else
      var last := registry[|registry| - 1];
      Occurrences(registry[..|registry| - 1], name) + (if MatchesNumbered(last, name) then [last] else [])
  }

  /** The last element after Collections.sort, that is, the greatest under String.compareTo. */
  function LexMax(xs: seq<string>): (r: string)
    requires |xs| > 0
    ensures r in xs
  {
    if |xs| == 1 then xs[0]
    else
      var m := LexMax(xs[..|xs| - 1]);
      if LexLess(m, xs[|xs| - 1]) then xs[|xs| - 1] else m
  }

  /** LexMax is not below any element. */
  lemma {:induction false} LexMaxIsGreatest(xs: seq<string>)
    requires |xs| > 0
    ensures forall x :: x in xs ==> !LexLess(LexMax(xs), x)
  {
    if |xs| == 1 {
      LexLessIrreflexive(xs[0]);
    } else {
      var init, last := xs[..|xs| - 1], xs[|xs| - 1];
      LexMaxIsGreatest(init);
      var m := LexMax(init);
      assert xs == init + [last];
      if LexLess(m, last) {
        LexLessIrreflexive(last);
        forall x | x in init ensures !LexLess(last, x) {
          if LexLess(last, x) { LexLessTransitive(m, last, x); }
        }
      }
    }
  }

  /** incrementNumberOfVariableIfNeeded: the name to declare, given the names already declared. */
  function NextName(registry: seq<string>, name: string): (r: string)
    ensures name !in registry ==> r == name
    ensures StartsWith(r, name)
  {
    if name !in registry then name
    else
      var occ := Occurrences(registry, name);
      if |occ| == 0 then name
      else AfterGreatest(name, LexMax(occ))
  }

  /**
   * The name that follows `greatest`, the greatest registered match of
   * `name`: the serial after the name plus one, 1 for the bare name, and
   * the bare name again when the serial does not parse as an int.
   */
  function AfterGreatest(name: string, greatest: string): (r: string)
    requires MatchesNumbered(greatest, name)
    ensures StartsWith(r, name)
  {
    var serial := greatest[|name|..];
    if |serial| == 0 then name + "1"
    else match ParseInt(serial)
      case None => name
      case Some(n) => name + IntToString(IncrementInt(n))
  }

  /** The bare name as the greatest match: the serial 1 is appended. */
  lemma AfterBareName(name: string)
    ensures MatchesNumbered(name, name)
    ensures AfterGreatest(name, name) == name + "1"
  {
    assert name[..|name|] == name && name[|name|..] == [];
  }

  /**
   * The serial n as the greatest match: n + 1 below Integer.MAX_VALUE, the
   * wrapped Integer.MIN_VALUE at it, and the bare name past it, where
   * parseInt throws.
   */
  lemma AfterSerial(name: string, n: nat)
    ensures MatchesNumbered(name + IntToString(n), name)
    ensures n < INT_MAX ==> AfterGreatest(name, name + IntToString(n)) == name + IntToString(n + 1)
    ensures n == INT_MAX ==> AfterGreatest(name, name + IntToString(n)) == name + IntToString(INT_MIN)
    ensures n > INT_MAX ==> AfterGreatest(name, name + IntToString(n)) == name
  {
    AfterDigits(name, NaturalToString(n));
    DecimalRoundTrip(n);
  }

  /**
   * The greatest match carrying any digit serial, leading zeros included:
   * parseInt reads its value, so "01" counts as 1, and the same three
   * regimes as in AfterSerial follow from that value.
   */
  lemma AfterDigits(name: string, serial: string)
    requires |serial| > 0 && AllDigits(serial)
    ensures MatchesNumbered(name + serial, name)
    ensures DecimalValue(serial) < INT_MAX ==>
      AfterGreatest(name, name + serial) == name + IntToString(DecimalValue(serial) + 1)
    ensures DecimalValue(serial) == INT_MAX ==> AfterGreatest(name, name + serial) == name + IntToString(INT_MIN)
    ensures DecimalValue(serial) > INT_MAX ==> AfterGreatest(name, name + serial) == name
  {
    var g := name + serial;
    assert g[..|name|] == name && g[|name|..] == serial;
  }

  /**
   * Whatever the registry, when the greatest match of a registered name has
   * the serial n below Integer.MAX_VALUE, the next name carries n + 1.
   */
  lemma NextNameAfterSerial(registry: seq<string>, name: string, n: nat)
    requires name in registry && n < INT_MAX
    requires |Occurrences(registry, name)| > 0
    requires LexMax(Occurrences(registry, name)) == name + IntToString(n)
    ensures NextName(registry, name) == name + IntToString(n + 1)
  {
    AfterSerial(name, n);
  }

  /**
   * The same for a serial written with leading zeros: the next name carries
   * the serial's value plus one, without the zeros.
   */
  lemma NextNameAfterDigits(registry: seq<string>, name: string, serial: string)
    requires name in registry && |serial| > 0 && AllDigits(serial) && DecimalValue(serial) < INT_MAX
    requires |Occurrences(registry, name)| > 0
    requires LexMax(Occurrences(registry, name)) == name + serial
    ensures NextName(registry, name) == name + IntToString(DecimalValue(serial) + 1)
  {
    AfterDigits(name, serial);
  }

  /** A method named x01 registers x01, and the next x is then x2. */
  lemma LeadingZeroSerial()
    ensures NextName(["x", "x01"], "x") == "x2"
  {
    var registry := ["x", "x01"];
    assert "x01"[..1] == "x" && "x01"[1..] == "01";
    assert Occurrences(registry, "x") == registry;
    assert LexLess("x", "x01");
    assert LexMax(registry) == "x01";
    NextNameAfterDigits(registry, "x", "01");
  }

  /** A registered name is among its own matches, so the matches are never empty for it. */
  lemma RegisteredNameOccurs(registry: seq<string>, name: string)
    requires name in registry
    ensures name in Occurrences(registry, name)
  {
    assert name[..|name|] == name && name[|name|..] == [];
  }

  /** The loop over addedVariables that collects the names matching `name\d*`. */
  method MatchingVariables(registry: seq<string>, name: string) returns (occurrences: seq<string>)
    ensures occurrences == Occurrences(registry, name)
  {
    occurrences := [];
    var i := 0;
    while i < |registry|
      invariant 0 <= i <= |registry|
      invariant occurrences == Occurrences(registry[..i], name)
    {
      assert registry[..i + 1][..i] == registry[..i];
      if MatchesNumbered(registry[i], name) {
        occurrences := occurrences + [registry[i]];
      }
      i := i + 1;
    }
    assert registry[..i] == registry;
  }

  /** Collections.sort followed by taking the last element: a scan for the greatest name. */
  method Greatest(xs: seq<string>) returns (last: string)
    requires |xs| > 0
    ensures last == LexMax(xs)
  {
    last := xs[0];
    var j := 1;
    while j < |xs|
      invariant 1 <= j <= |xs|
      invariant last == LexMax(xs[..j])
    {
      assert xs[..j + 1][..j] == xs[..j];
      if LexLess(last, xs[j]) {
        last := xs[j];
      }
      j := j + 1;
    }
    assert xs[..j] == xs;
  }

  /** The registry after `k` requests for the same name. */
  function Requests(name: string, k: nat): (reg: seq<string>)
    ensures |reg| == k
  {
    if k == 0 then [] else var prev := Requests(name, k - 1); prev + [NextName(prev, name)]
  }

  /** `name`, `name1`, `name2`, ... */
  function Numbered(name: string, j: nat): string {
    if j == 0 then name else name + IntToString(j)
  }

  lemma SmallNumberText(j: nat)
    requires j < 10
    ensures IntToString(j) == [DigitChar(j)]
    ensures ParseInt([DigitChar(j)]) == Some(j)
  {
    var s := [DigitChar(j)];
    assert s[..0] == [];
    assert DecimalValue(s) == 10 * DecimalValue(s[..0]) + DigitValue(s[0]);
  }

  lemma TenText()
    ensures IntToString(10) == "10"
  {
    assert DigitChar(1) == '1' && DigitChar(0) == '0';
  }

  lemma {:induction false} AllOccur(registry: seq<string>, name: string)
    requires forall i :: 0 <= i < |registry| ==> MatchesNumbered(registry[i], name)
    ensures Occurrences(registry, name) == registry
  {
    if |registry| > 0 {
      AllOccur(registry[..|registry| - 1], name);
      assert registry == registry[..|registry| - 1] + [registry[|registry| - 1]];
    }
  }

  function NumberedRun(name: string, k: nat): (run: seq<string>)
    ensures |run| == k && forall j :: 0 <= j < k ==> run[j] == Numbered(name, j)
  {
    seq(k, j requires 0 <= j => Numbered(name, j))
  }

  lemma NumberedSuffix(name: string, j: nat)
    requires 1 <= j < 10
    ensures |Numbered(name, j)| == |name| + 1
    ensures Numbered(name, j)[|name|..] == [DigitChar(j)]
    ensures MatchesNumbered(Numbered(name, j), name)
  {
    SmallNumberText(j);
    assert (name + [DigitChar(j)])[..|name|] == name;
  }

  lemma NumberedRunMatches(name: string, k: nat)
    requires k <= 11
    ensures forall j :: 0 <= j < k ==> MatchesNumbered(NumberedRun(name, k)[j], name)
  {
    forall j | 0 <= j < k ensures MatchesNumbered(NumberedRun(name, k)[j], name) {
      if j == 0 {
        assert name[|name|..] == [];
      } else if j < 10 {
        NumberedSuffix(name, j);
      } else {
        TenText();
        assert (name + "10")[..|name|] == name && (name + "10")[|name|..] == "10";
      }
    }
  }

  lemma NumberedAscend(name: string, i: nat)
    requires i < 9
    ensures LexLess(Numbered(name, i), Numbered(name, i + 1))
  {
    SmallNumberText(i + 1);
    if i == 0 {
      LexLessCommonPrefix(name, "", [DigitChar(1)]);
      assert name + "" == name;
    } else {
      SmallNumberText(i);
      LexLessCommonPrefix(name, [DigitChar(i)], [DigitChar(i + 1)]);
    }
  }

  lemma NineAfterTen(name: string)
    ensures !LexLess(Numbered(name, 9), Numbered(name, 10))
  {
    SmallNumberText(9);
    TenText();
    LexLessCommonPrefix(name, [DigitChar(9)], "10");
  }

  /** After name, name1, ..., name10 the greatest is still name9: `name10` sorts before `name9`. */
  lemma ElevenRunMax(name: string)
    ensures LexMax(NumberedRun(name, 11)) == Numbered(name, 9)
  {
    var prev, x := NumberedRun(name, 10), Numbered(name, 10);
    assert NumberedRun(name, 11) == prev + [x] by { NumberedRunStep(name, 11); }
    assert LexMax(prev) == Numbered(name, 9) by { OneDigitRunMax(name, 10); }
    NineAfterTen(name);
    LexMaxSnoc(prev, x);
  }

  /** While the serials have one digit, the last of name, name1, ..., name(k-1) is the greatest. */
  lemma OneDigitRunMax(name: string, k: nat)
    requires 1 <= k <= 10
    ensures LexMax(NumberedRun(name, k)) == Numbered(name, k - 1)
  {
    var run := NumberedRun(name, k);
    forall i | 0 <= i < k - 1 ensures LexLess(run[i], run[i + 1]) {
      NumberedAscend(name, i);
    }
    AscendingMax(run);
  }

  /** In a strictly ascending sequence the greatest element is the last. */
  lemma {:induction false} AscendingMax(xs: seq<string>)
    requires |xs| > 0
    requires forall i :: 0 <= i < |xs| - 1 ==> LexLess(xs[i], xs[i + 1])
    ensures LexMax(xs) == xs[|xs| - 1]
  {
    if |xs| > 1 {
      var init := xs[..|xs| - 1];
      assert forall i :: 0 <= i < |init| - 1 ==> LexLess(init[i], init[i + 1]);
      AscendingMax(init);
      assert LexLess(init[|init| - 1], xs[|xs| - 1]);
    }
  }

  /** The request after name, name1, ..., name(k-1) when the greatest of them has the one-digit serial d. */
  lemma NextAfterDigit(run: seq<string>, name: string, d: nat)
    requires 1 <= d <= 9 && name in run && Occurrences(run, name) == run
    requires LexMax(run) == Numbered(name, d)
    ensures NextName(run, name) == name + IntToString(d + 1)
  {
    assert MatchesNumbered(Numbered(name, d), name) && NextName(run, name) == AfterGreatest(name, Numbered(name, d));
    AfterDigit(name, d);
  }

  /** After a one-digit serial d comes d + 1. */
  lemma AfterDigit(name: string, d: nat)
    requires 1 <= d <= 9
    ensures MatchesNumbered(Numbered(name, d), name)
    ensures AfterGreatest(name, Numbered(name, d)) == name + IntToString(d + 1)
  {
    NumberedSuffix(name, d);
    SmallNumberText(d);
  }

  lemma LexMaxSnoc(xs: seq<string>, x: string)
    requires |xs| > 0
    ensures LexMax(xs + [x]) == if LexLess(LexMax(xs), x) then x else LexMax(xs)
  {
    var ys := xs + [x];
    assert ys[..|ys| - 1] == xs;
  }

  /** The request after the bare name alone. */
  lemma NextAfterBare(run: seq<string>, name: string)
    requires run == [name]
    ensures NextName(run, name) == Numbered(name, 1)
  {
    assert name[|name|..] == [];
    assert MatchesNumbered(name, name);
    assert Occurrences(run, name) == [name] by { AllOccur(run, name); }
    SmallNumberText(1);
    assert DigitChar(1) == '1';
  }

  /** After name, name1, ..., name(k-1), with k at most ten, comes name(k). */
  lemma NextNameOnOneDigitRun(name: string, k: nat)
    requires 1 <= k <= 10
    ensures NextName(NumberedRun(name, k), name) == Numbered(name, k)
  {
    if k == 1 {
      assert NumberedRun(name, k) == [name];
      NextAfterBare(NumberedRun(name, k), name);
    } else {
      NextNameAfterDigitRun(name, k);
    }
  }

  /** The case of `NextNameOnOneDigitRun` whose greatest serial is a digit. */
  lemma NextNameAfterDigitRun(name: string, k: nat)
    requires 2 <= k <= 10
    ensures NextName(NumberedRun(name, k), name) == name + IntToString(k)
  {
    var run := NumberedRun(name, k);
    assert name in run by { assert run[0] == name; }
    assert Occurrences(run, name) == run by {
      NumberedRunMatches(name, k);
      AllOccur(run, name);
    }
    assert LexMax(run) == Numbered(name, k - 1) by { OneDigitRunMax(name, k); }
    NextAfterDigit(run, name, k - 1);
  }

  /** After name, name1, ..., name10 comes name10 again. */
  lemma NextNameOnElevenRun(name: string)
    ensures NextName(NumberedRun(name, 11), name) == Numbered(name, 10)
  {
    var run := NumberedRun(name, 11);
    assert run[0] == name;
    NumberedRunMatches(name, 11);
    AllOccur(run, name);
    ElevenRunMax(name);
    NextAfterDigit(run, name, 9);
  }

  lemma RequestsStep(name: string, k: nat)
    requires 1 <= k
    ensures Requests(name, k) == Requests(name, k - 1) + [NextName(Requests(name, k - 1), name)]
  {
  }

  lemma NumberedRunStep(name: string, k: nat)
    requires 1 <= k
    ensures NumberedRun(name, k) == NumberedRun(name, k - 1) + [Numbered(name, k - 1)]
  {
    var run, prev := NumberedRun(name, k), NumberedRun(name, k - 1);
    forall j | 0 <= j < k ensures run[j] == (prev + [Numbered(name, k - 1)])[j] {
      if j < k - 1 {
        assert prev[j] == Numbered(name, j);
      }
    }
  }

  /**
   * The first eleven requests for a name give name, name1, ..., name10:
   * while the suffixes have one digit, the lexicographic order agrees with
   * the numeric one.
   */
  lemma {:induction false} RequestsAreNumbered(name: string, k: nat)
    requires k <= 11
    ensures Requests(name, k) == NumberedRun(name, k)
  {
    if k > 0 {
      RequestsAreNumbered(name, k - 1);
      RequestsStep(name, k);
      NumberedRunStep(name, k);
      if k > 1 {
        NextNameOnOneDigitRun(name, k - 1);
      }
    }
  }

  lemma NumberedDistinct(name: string, i: nat, j: nat)
    requires i < j <= 10
    ensures Numbered(name, i) != Numbered(name, j)
  {
    TenText();
    if i == 0 {
      assert |Numbered(name, j)| > |name|;
    } else if j < 10 {
      NumberedSuffix(name, i);
      NumberedSuffix(name, j);
      assert Numbered(name, i)[|name|] != Numbered(name, j)[|name|];
    } else {
      NumberedSuffix(name, i);
      assert |Numbered(name, j)| == |name| + 2;
    }
  }

  /** Up to eleven requests for one name never hand out the same variable name twice. */
  lemma RequestsAreDistinct(name: string, k: nat)
    requires k <= 11
    ensures forall i, j :: 0 <= i < j < k ==> Requests(name, k)[i] != Requests(name, k)[j]
  {
    RequestsAreNumbered(name, k);
    forall i, j | 0 <= i < j < k ensures Requests(name, k)[i] != Requests(name, k)[j] {
      NumberedDistinct(name, i, j);
    }
  }

  /**
   * The twelfth request repeats name10: name10 sorts before name9, so the
   * serial number read back is 9 again.
   */
  lemma TwelfthRequestRepeats(name: string)
    ensures Requests(name, 12)[11] == name + "10"
    ensures Requests(name, 12)[10] == name + "10"
  {
    RequestsAreNumbered(name, 11);
    NextNameOnElevenRun(name);
    TenText();
    assert Requests(name, 12) == Requests(name, 11) + [NextName(Requests(name, 11), name)];
  }

  /** Three calls returning values of methods of one name, such as `bytes`, declare bytes, bytes1 and bytes2. */
  lemma ThreeVariablesOfOneName(name: string)
    ensures Requests(name, 3) == [name, name + "1", name + "2"]
  {
    RequestsAreNumbered(name, 3);
    FirstThreeNumbered(name);
  }

  lemma FirstThreeNumbered(name: string)
    ensures NumberedRun(name, 3) == [name, name + "1", name + "2"]
  {
    assert Numbered(name, 1) == name + "1" by {
      SmallNumberText(1);
      assert DigitChar(1) == '1';
    }
    assert Numbered(name, 2) == name + "2" by {
      SmallNumberText(2);
      assert DigitChar(2) == '2';
    }
    assert NumberedRun(name, 3) == [Numbered(name, 0), Numbered(name, 1), Numbered(name, 2)];
  }

  // ---- the generated statements ----

  /** What the loop of generateOtherMethods produces, in loop order, and the registry afterwards. */
  datatype Batch = Batch(statements: seq<Statement>, registry: seq<string>)

  function Generated(methods: seq<MethodElement>, receiver: string, locals: seq<Local>, ts: TypeServices, registry: seq<string>): Batch
  {
    if |methods| == 0 then Batch([], registry)
    else
      var prev := Generated(methods[..|methods| - 1], receiver, locals, ts, registry);
      var m := methods[|methods| - 1];
      if Skipped(m) then prev
      else if IsMethodReturnVoid(m) then
        Batch(prev.statements + [CallStatement(Call(receiver, m, locals, ts))], prev.registry)
      else
        var v := NextName(prev.registry, m.name);
        Batch(prev.statements + [LocalVariable(m.returnType, v, Call(receiver, m, locals, ts))], prev.registry + [v])
  }

  /** The methods that are called: public, and neither getters nor setters by name. */
  function Processed(methods: seq<MethodElement>): (ps: seq<MethodElement>)
    ensures forall i :: 0 <= i < |ps| ==> ps[i] in methods && !Skipped(ps[i])
  {
    if |methods| == 0 then []
    else
      var m := methods[|methods| - 1];
      Processed(methods[..|methods| - 1]) + (if Skipped(m) then [] else [m])
  }

  /** The names of the local variables among some statements. */
  function DeclaredNames(statements: seq<Statement>): seq<string> {
    if |statements| == 0 then []
    else
      var s := statements[|statements| - 1];
      DeclaredNames(statements[..|statements| - 1]) + (if s.LocalVariable? then [s.name] else [])
  }

  /** Statement `s` calls method `m` on the receiver: a bare call for a void method, a declaration of its return type otherwise. */
  predicate Invokes(s: Statement, receiver: string, m: MethodElement, locals: seq<Local>, ts: TypeServices) {
    if IsMethodReturnVoid(m) then s == CallStatement(Call(receiver, m, locals, ts))
    else s.LocalVariable? && s.typ == m.returnType && s.initializer == Call(receiver, m, locals, ts) && StartsWith(s.name, m.name)
  }

  /**
   * A batch follows the called methods `ms`: one statement per method, in
   * order, each invoking its method, and the registry grown by exactly the
   * declared variable names.
   */
  predicate Follows(b: Batch, ms: seq<MethodElement>, receiver: string, locals: seq<Local>, ts: TypeServices, registry: seq<string>) {
    && |b.statements| == |ms|
    && (forall i :: 0 <= i < |b.statements| ==> Invokes(b.statements[i], receiver, ms[i], locals, ts))
    && b.registry == registry + DeclaredNames(b.statements)
  }

  /** The batch of the loop of generateOtherMethods follows the methods it calls. */
  lemma {:induction false} GeneratedFollowsMethods(methods: seq<MethodElement>, receiver: string, locals: seq<Local>, ts: TypeServices, registry: seq<string>)
    ensures Follows(Generated(methods, receiver, locals, ts, registry), Processed(methods), receiver, locals, ts, registry)
  {
    if |methods| > 0 {
      var init := methods[..|methods| - 1];
      GeneratedFollowsMethods(init, receiver, locals, ts, registry);
      var prev := Generated(init, receiver, locals, ts, registry);
      var m := methods[|methods| - 1];
      if !Skipped(m) {
        var call := Call(receiver, m, locals, ts);
        var s := if IsMethodReturnVoid(m) then CallStatement(call)
          else LocalVariable(m.returnType, NextName(prev.registry, m.name), call);
        assert Generated(methods, receiver, locals, ts, registry)
          == Batch(prev.statements + [s], prev.registry + (if s.LocalVariable? then [s.name] else []));
        assert Processed(methods) == Processed(init) + [m];
        assert Invokes(s, receiver, m, locals, ts);
        FollowsSnoc(prev, Processed(init), s, m, receiver, locals, ts, registry);
      }
    }
  }

  /** A batch that follows `ms`, extended by a statement invoking `m`, follows `ms + [m]`. */
  lemma FollowsSnoc(b: Batch, ms: seq<MethodElement>, s: Statement, m: MethodElement,
                    receiver: string, locals: seq<Local>, ts: TypeServices, registry: seq<string>)
    requires Follows(b, ms, receiver, locals, ts, registry)
    requires Invokes(s, receiver, m, locals, ts)
    ensures Follows(Batch(b.statements + [s], b.registry + (if s.LocalVariable? then [s.name] else [])),
                    ms + [m], receiver, locals, ts, registry)
  {
    var t := b.statements + [s];
    assert t[..|t| - 1] == b.statements;
  }

  /** Getters, `is` methods and setters are left out by name: of getX, isY, setZ and doWork only doWork is called. */
  lemma AccessorsAreNotCalled(receiver: string, locals: seq<Local>, ts: TypeServices, registry: seq<string>)
    ensures var void := TypeMirror(VOID, "void");
      var ms := [
        MethodElement("getX", {PUBLIC}, TypeMirror(INT, "int"), []),
        MethodElement("isY", {PUBLIC}, TypeMirror(BOOLEAN, "boolean"), []),
        MethodElement("setZ", {PUBLIC}, void, [TypeMirror(INT, "int")]),
        MethodElement("doWork", {PUBLIC}, void, [])];
      Generated(ms, receiver, locals, ts, registry) == Batch([CallStatement(Invocation(receiver, "doWork", []))], registry)
  {
    var void := TypeMirror(VOID, "void");
    var ms := [
      MethodElement("getX", {PUBLIC}, TypeMirror(INT, "int"), []),
      MethodElement("isY", {PUBLIC}, TypeMirror(BOOLEAN, "boolean"), []),
      MethodElement("setZ", {PUBLIC}, void, [TypeMirror(INT, "int")]),
      MethodElement("doWork", {PUBLIC}, void, [])];
    assert ms[..3][..2][..1][..0] == [];
    assert Skipped(ms[0]) && Skipped(ms[1]) && Skipped(ms[2]);
    assert !Skipped(ms[3]) by {
      assert "doWork"[..3][0] == 'd' && "doWork"[..2][0] == 'd';
    }
    assert Arguments([], locals, ts) == [];
    GeneratedStep(ms, 0, receiver, locals, ts, registry);
    GeneratedStep(ms, 1, receiver, locals, ts, registry);
    GeneratedStep(ms, 2, receiver, locals, ts, registry);
    GeneratedStep(ms, 3, receiver, locals, ts, registry);
    assert ms[..4] == ms;
  }

  /** TreeMaker.insertBlockStatement. */
  function InsertStatement(statements: seq<Statement>, index: int, s: Statement): seq<Statement>
    requires 0 <= index <= |statements|
  {
    statements[..index] + [s] + statements[index..]
  }

  function Reversed<T>(xs: seq<T>): (r: seq<T>)
    ensures |r| == |xs|
    ensures forall i :: 0 <= i < |xs| ==> r[i] == xs[|xs| - 1 - i]
  {
    if |xs| == 0 then [] else [xs[|xs| - 1]] + Reversed(xs[..|xs| - 1])
  }

  /** Inserting at the fixed index puts the newest statement first in the batch. */
  lemma InsertBeforeBatch(statements: seq<Statement>, k: int, batch: seq<Statement>, s: Statement)
    requires 0 <= k <= |statements|
    ensures InsertStatement(statements[..k] + Reversed(batch) + statements[k..], k, s)
      == statements[..k] + Reversed(batch + [s]) + statements[k..]
  {
    InsertAtJoint(statements[..k], Reversed(batch), statements[k..], s);
    ReversedSnoc(batch, s);
  }

  /** Inserting where a middle part starts puts the statement at its head. */
  lemma InsertAtJoint(pre: seq<Statement>, mid: seq<Statement>, post: seq<Statement>, s: Statement)
    ensures InsertStatement(pre + mid + post, |pre|, s) == pre + ([s] + mid) + post
  {
    var t := pre + mid + post;
    assert t[..|pre|] == pre;
    assert t[|pre|..] == mid + post;
  }

  lemma ReversedSnoc<T>(xs: seq<T>, x: T)
    ensures Reversed(xs + [x]) == [x] + Reversed(xs)
  {
    assert (xs + [x])[..|xs|] == xs;
  }

  /** One more method extends the batch by that method's statement, if it is called. */
  lemma GeneratedStep(methods: seq<MethodElement>, i: nat, receiver: string, locals: seq<Local>, ts: TypeServices, registry: seq<string>)
    requires i < |methods|
    ensures var prev := Generated(methods[..i], receiver, locals, ts, registry);
      var m := methods[i];
      Generated(methods[..i + 1], receiver, locals, ts, registry)
        == if Skipped(m) then prev
           else if IsMethodReturnVoid(m) then Batch(prev.statements + [CallStatement(Call(receiver, m, locals, ts))], prev.registry)
           else
             var v := NextName(prev.registry, m.name);
             Batch(prev.statements + [LocalVariable(m.returnType, v, Call(receiver, m, locals, ts))], prev.registry + [v])
  {
    assert methods[..i + 1][..i] == methods[..i];
  }

  class Generator {
    /** Where every statement of the batch is inserted; it is computed once and never advanced. */
    var insertIndex: int
    /** The names of the variables this generator has declared. */
    var addedVariables: seq<string>

    constructor ()
      ensures insertIndex == 0 && addedVariables == []
    {
      insertIndex := 0;
      addedVariables := [];
    }

    method SetInsertIndex(starts: seq<int>, caret: int)
      modifies this`insertIndex
      ensures insertIndex == SiblingInsertIndex(starts, caret, old(insertIndex))
    {
      var size := |starts|;
      if size == 1 {
        if caret < starts[0] {
          insertIndex := 0;
        } else {
          insertIndex := 1;
        }
      } else if size == 2 {
        if caret < starts[0] {
          insertIndex := 0;
        } else if starts[1] < caret {
          insertIndex := size;
        } else {
          insertIndex := 1;
        }
      } else {
        var i := 1;
        while i < size
          invariant 1 <= i && (size == 0 || i <= size)
          invariant FirstGap(starts, caret, i) == FirstGap(starts, caret, 1)
          invariant insertIndex == old(insertIndex) || i == size
          invariant i == size && size > 0 ==> insertIndex == SiblingInsertIndex(starts, caret, old(insertIndex))
        {
          if i < size - 1 {
            if starts[i - 1] < caret && caret < starts[i] {
              insertIndex := i;
              break;
            }
          } else {
            if starts[i] < caret {
              insertIndex := size;
            } else {
              insertIndex := i;
            }
          }
          i := i + 1;
        }
      }
    }

    method IncrementNumberOfVariableIfNeeded(name: string) returns (varName: string)
      ensures varName == NextName(addedVariables, name)
    {
      varName := name;
      if name in addedVariables {
        var occurrences := MatchingVariables(addedVariables, name);
        if |occurrences| > 0 {
          var last := Greatest(occurrences);
          var serial := last[|name|..];
          if |serial| > 0 {
            var n := ParseInt(serial);
            if n.Some? {
              varName := varName + IntToString(IncrementInt(n.value));
            }
          } else {
            varName := varName + "1";
          }
        }
      }
    }

    method CreateMethodInvocationStatementWithReturnValue(receiver: string, m: MethodElement, locals: seq<Local>, ts: TypeServices)
      returns (s: Statement)
      modifies this`addedVariables
      ensures s == LocalVariable(m.returnType, NextName(old(addedVariables), m.name), Call(receiver, m, locals, ts))
      ensures addedVariables == old(addedVariables) + [s.name]
    {
      var args := EvaluateMethodArguments(m.parameterTypes, locals, ts);
      var varName := IncrementNumberOfVariableIfNeeded(m.name);
      s := LocalVariable(m.returnType, varName, Invocation(receiver, m.name, args));
      addedVariables := addedVariables + [varName];
    }

    /**
     * Edits the block enclosing the caret, if any: every statement of the
     * batch is inserted at the one index computed before the loop, so the
     * batch ends up in reverse method order.
     */
    method GenerateOtherMethods(block: Option<Block>, caret: int, selected: Option<string>,
                                methods: seq<MethodElement>, locals: seq<Local>, ts: TypeServices)
      returns (rewritten: Option<Block>)
      requires insertIndex == 0
      modifies this
      ensures block.None? ==> rewritten.None? && insertIndex == 0 && addedVariables == old(addedVariables)
      ensures block.Some? ==> insertIndex == SiblingInsertIndex(StatementStarts(block.value.statements), caret, 0)
      ensures block.Some? && selected.None? ==> rewritten.None? && addedVariables == old(addedVariables)
      ensures block.Some? && selected.Some? ==>
        var statements := block.value.statements;
        var b := Generated(methods, selected.value, locals, ts, old(addedVariables));
        && 0 <= insertIndex <= |statements|
        && rewritten == Some(Block(statements[..insertIndex] + Reversed(b.statements) + statements[insertIndex..]))
        && addedVariables == b.registry
    {
      if block.None? {
        return None;
      }
      var oldTree := block.value.statements;
      SetInsertIndex(StatementStarts(oldTree), caret);
      if selected.None? {
        return None;
      }
      var receiver := selected.value;
      var k := insertIndex;
      var newTree := oldTree;
      var i := 0;
      while i < |methods|
        invariant 0 <= i <= |methods|
        invariant insertIndex == k && 0 <= k <= |oldTree|
        invariant var b := Generated(methods[..i], receiver, locals, ts, old(addedVariables));
          newTree == oldTree[..k] + Reversed(b.statements) + oldTree[k..] && addedVariables == b.registry
      {
        var m := methods[i];
        ghost var b := Generated(methods[..i], receiver, locals, ts, old(addedVariables));
        GeneratedStep(methods, i, receiver, locals, ts, old(addedVariables));
        if !(IsMethodNotPublic(m) || IsGetter(m) || IsSetter(m)) {
          var s;
          if IsMethodReturnVoid(m) {
            var args := EvaluateMethodArguments(m.parameterTypes, locals, ts);
            s := CallStatement(Invocation(receiver, m.name, args));
          } else {
            s := CreateMethodInvocationStatementWithReturnValue(receiver, m, locals, ts);
          }
          InsertBeforeBatch(oldTree, k, b.statements, s);
          newTree := InsertStatement(newTree, insertIndex, s);
        }
        i := i + 1;
      }
      assert methods[..i] == methods;
      return Some(Block(newTree));
    }
  }
}
