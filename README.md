# NetBeans code generators: insertion bookkeeping and form state

This project models the part of the NetBeans code-generator plugin that
decides *what* goes into the editor and *where*. The tree building and the
type queries are left to the host IDE.

- **Insertion indices.** Each generator has its own rule for turning a caret
  offset and the ascending start offsets of the existing siblings into an
  index:
  - statements in a block (`MethodInvocationGenerator.setInsertIndex`);
  - members of a class or interface (`MethodGenerator.setInsertIndex`);
  - imports (`ImportGenerator.findInsertIndexInImportTree`).

  The first two are the same text. Module `SiblingIndex` states their rule
  once, and each generator's `SetInsertIndex` method reproduces the
  original loop with its `break` and is proved equal to that rule. The
  import rule is a separate function in `ImportGenerator`. Both rules are
  proved to stay in `[0, n]`. For a caret that is not on the first
  character of any sibling, both split the siblings around the caret,
  except that the sibling rule gives `n - 1` for a caret before the first
  of three or more siblings. A caret on the first character of a sibling
  is stated separately for each rule. For a caret on the first character
  of sibling `k`, the two rules agree when there are one or two siblings,
  and on siblings `n - 3` and `n - 2`. Everywhere else they differ: the
  import rule gives `k + 1` and the sibling rule gives `n - 1`.
- **Invocation synthesis** (`MethodInvocationGenerator`):
  - the name filter (public, and not `get…`, `is…` or `set…`);
  - the split between void calls and value-returning calls;
  - the table of default literals;
  - the choice of the first assignable local as an argument;
  - the `addedVariables` registry and its numeric-suffix de-duplication;
  - the reverse-order insertion of the generated statements at one fixed
    index.
- **Declaration synthesis** (`MethodGenerator`, `FieldGenerator`):
  - modifier sets built from an access string and flags;
  - the rule for whether a method gets a body;
  - how parameter, type-parameter and thrown-type rows are mapped;
  - the field initializer rule;
  - where generated members go.
- **Import insertion** (`ImportGenerator`): the `java.lang` prefix filter,
  the exact-match duplicate check, and the insert.
- **The two input forms** (`GenerateMethodPanel`, `GenerateFieldsPanel`):
  - the regular-expression validators, written as predicates;
  - `suggestParameterName`;
  - the modifier check-box interlocks;
  - the add and remove handlers of every table;
  - what each cell editor does when it succeeds and when it fails;
  - when the dialog's OK button is enabled.

  The forms are classes whose fields are the widget state. Every handler
  keeps the form's invariant: the legal-modifier rules for methods, an
  in-range selection, and OK enabled only when `valid()` holds.

Host services are represented as follows:
- Syntax trees are records, and member, statement and import lists are
  sequences (module `SyntaxTrees`).
- The enclosing scope, the methods of the selected element, the locals in
  scope and the assignability test are inputs.
- `TypeServices` carries assignability as an uninterpreted relation.

Where the description of the system and the code differ, the model follows
the code:
- The generated statements end up in **reverse** order, because every
  insert uses the same index.
- A caret before the first of three or more statements or members gives
  index `n - 1`, not `0`.
- A caret on the first character of a statement or member gives `n - 1`
  when there are three or more of them, whichever one it is on. On import
  `k` it gives `k + 1` instead, with two exceptions: import `n - 3` of
  three or more gives `n - 1`, and the second of two imports gives `1`.
  For starts 10, 20, 30, 40 and caret 20 the sibling rule gives 3. For
  the same starts and caret 10 the import rule gives 1 and the sibling
  rule gives 3.
- After a type parameter is added, the **parameters** table's last row is
  selected (`GenerateMethodPanel.java:665-672`).
- A type cell whose text fails its check is still committed to the table.
  The cell editor fires `editingStopped` before it refuses.

## Model

| member | source | states |
|---|---|---|
| SiblingIndex.FirstGap | src/com/github/isarthur/netbeans/editor/generator/java/MethodInvocationGenerator.java:241-258 | the loop over pairs finds the first `i` with `s[i-1] < caret < s[i]`; no earlier pair qualifies, and when none is found no pair qualifies |
| SiblingIndex.SiblingInsertIndex | src/com/github/isarthur/netbeans/editor/generator/java/MethodInvocationGenerator.java:211-261 | with no siblings the index is left as it was; otherwise it lies in `[0, n]` |
| SiblingIndex.GapExists | src/com/github/isarthur/netbeans/editor/generator/java/MethodInvocationGenerator.java:241-258 | if the caret lies strictly between two sibling starts, some adjacent pair between them encloses it |
| SiblingIndex.IndexSplitsSiblings | src/com/github/isarthur/netbeans/editor/generator/java/MethodGenerator.java:270-320 | for a caret on no sibling's first character, and not before the first of three or more siblings, every sibling before the index starts before the caret and every sibling from the index on starts after it |
| SiblingIndex.CaretBeforeFirstSibling | src/com/github/isarthur/netbeans/editor/generator/java/MethodInvocationGenerator.java:240-259 | with three or more siblings and the caret before all of them, the index is `n - 1`, not `0` |
| SiblingIndex.CaretOnSiblingStart | src/com/github/isarthur/netbeans/editor/generator/java/MethodInvocationGenerator.java:240-259 | a caret on the first character of a sibling gives index 1 for one or two siblings and `n - 1` for three or more, whichever sibling it is |
| ImportGenerator.ScanImports | src/com/github/isarthur/netbeans/editor/generator/java/ImportGenerator.java:144-165 | the loop from pair `i` returns an index between `i - 1` and `n` |
| ImportGenerator.FindInsertIndexInImportTree | src/com/github/isarthur/netbeans/editor/generator/java/ImportGenerator.java:111-169 | the import index always lies in `[0, n]`, so the `-1` result and the append branch it guards cannot be reached |
| ImportGenerator.ScanSplits | src/com/github/isarthur/netbeans/editor/generator/java/ImportGenerator.java:144-165 | the loop's result puts exactly the imports that start before the caret ahead of the index |
| ImportGenerator.ImportIndexSplitsImports | src/com/github/isarthur/netbeans/editor/generator/java/ImportGenerator.java:111-169 | for every caret that is not on an import start, the new import goes after exactly the imports that start before the caret |
| ImportGenerator.SplitBelow | src/com/github/isarthur/netbeans/editor/generator/java/ImportGenerator.java:111-169 | an import is ahead of a splitting index exactly when it starts before the caret |
| ImportGenerator.SplitIsUnique | src/com/github/isarthur/netbeans/editor/generator/java/ImportGenerator.java:111-169 | only one index splits the imports around a caret |
| ImportGenerator.ImportRuleAgreesWithSiblingRule | src/com/github/isarthur/netbeans/editor/generator/java/ImportGenerator.java:111-169 | for a caret on no sibling's first character, the import rule and the statement/member rule give the same index, except for a caret before the first of three or more siblings |
| ImportGenerator.RulesDifferBeforeFirstSibling | src/com/github/isarthur/netbeans/editor/generator/java/ImportGenerator.java:144-149 | for starts 10, 20, 30 and caret 5, the import rule gives 0 and the statement/member rule gives 2 |
| ImportGenerator.CaretOnImportStart | src/com/github/isarthur/netbeans/editor/generator/java/ImportGenerator.java:111-169 | a caret on the first character of import `k` gives `k + 1`, except `1` after the second of two imports and `k + 2` for import `n - 3` of three or more |
| ImportGenerator.ScanOnStart | src/com/github/isarthur/netbeans/editor/generator/java/ImportGenerator.java:144-165 | the scan, started at or before import `k`, with the caret on import `k`'s first character, ends at `k + 1`, or at `k + 2` when `k` is `n - 3` |
| ImportGenerator.Invoke | src/com/github/isarthur/netbeans/editor/generator/java/ImportGenerator.java:67-109 | no choice, a name starting with `java.lang`, or an exact duplicate leaves the unit unchanged; otherwise exactly one non-static import is inserted at the computed index, and the imports around it and the type declarations are kept |
| ImportGenerator.InJavaLang | src/com/github/isarthur/netbeans/editor/generator/java/ImportGenerator.java:73-75 | the names refused by a plain prefix test on `java.lang` |
| ImportGenerator.AlreadyImported | src/com/github/isarthur/netbeans/editor/generator/java/ImportGenerator.java:87-93 | some existing import has exactly this identifier |
| ImportGenerator.ImportIsIdempotent | src/com/github/isarthur/netbeans/editor/generator/java/ImportGenerator.java:87-93 | importing the same name twice, at any carets, equals importing it once |
| ImportGenerator.ImportedAfterInvoke | src/com/github/isarthur/netbeans/editor/generator/java/ImportGenerator.java:94-104 | after importing a name outside `java.lang`, the name is among the imports |
| ImportGenerator.ReflectTypesAreRefused | src/com/github/isarthur/netbeans/editor/generator/java/ImportGenerator.java:73-75 | the prefix test also refuses `java.lang.reflect.Method`, which Java does not import implicitly |
| MethodInvocationGenerator.FirstSuitableIsFirst | src/com/github/isarthur/netbeans/editor/generator/java/MethodInvocationGenerator.java:406-438 | the chosen local is suitable (a variable, not `<error>`, of a non-error type assignable to the parameter type) and no earlier local is; none is chosen exactly when no local is suitable |
| MethodInvocationGenerator.DefaultLiteralTypes | src/com/github/isarthur/netbeans/editor/generator/java/MethodInvocationGenerator.java:317-337 | the default literal for boolean, int, long, float and double parses back as that kind; byte and short get an int `0`; every other kind gets `null` |
| MethodInvocationGenerator.InstanceOf | src/com/github/isarthur/netbeans/editor/generator/java/MethodInvocationGenerator.java:406-438 | the search loop returns the first suitable local, or none |
| MethodInvocationGenerator.EvaluateMethodArguments | src/com/github/isarthur/netbeans/editor/generator/java/MethodInvocationGenerator.java:306-342 | one argument per parameter, in order: the first suitable local's name, otherwise the kind's default literal |
| MethodInvocationGenerator.FirstSuitable | src/com/github/isarthur/netbeans/editor/generator/java/MethodInvocationGenerator.java:406-438 | the first local, in scope order, that is assignable to the type |
| MethodInvocationGenerator.FindVariable | src/com/github/isarthur/netbeans/editor/generator/java/MethodInvocationGenerator.java:406-438 | no variable when the type name does not resolve, else the first suitable local |
| MethodInvocationGenerator.DefaultLiteral | src/com/github/isarthur/netbeans/editor/generator/java/MethodInvocationGenerator.java:317-337 | the literal for a parameter no variable fills: `false`, `0`, `0L`, `0.0F`, `0.0`, else `null` |
| MethodInvocationGenerator.Occurrences | src/com/github/isarthur/netbeans/editor/generator/java/MethodInvocationGenerator.java:374-380 | the occurrences are exactly the registry entries of the form name followed by digits |
| MethodInvocationGenerator.LexMax | src/com/github/isarthur/netbeans/editor/generator/java/MethodInvocationGenerator.java:381-383 | the last entry after sorting is one of the occurrences |
| MethodInvocationGenerator.LexMaxIsGreatest | src/com/github/isarthur/netbeans/editor/generator/java/MethodInvocationGenerator.java:381-383 | no occurrence sorts after it, as `String.compareTo` orders them |
| JavaText.LexLess | src/com/github/isarthur/netbeans/editor/generator/java/MethodInvocationGenerator.java:382 | the order `Collections.sort` uses on strings: `String.compareTo` by characters, a proper prefix first |
| MethodInvocationGenerator.MatchingVariables | src/com/github/isarthur/netbeans/editor/generator/java/MethodInvocationGenerator.java:375-380 | the loop over the registry collects exactly its matching entries, in registry order |
| MethodInvocationGenerator.Greatest | src/com/github/isarthur/netbeans/editor/generator/java/MethodInvocationGenerator.java:381-383 | the element taken after sorting is the greatest under `String.compareTo` |
| MethodInvocationGenerator.AfterGreatest | src/com/github/isarthur/netbeans/editor/generator/java/MethodInvocationGenerator.java:384-395 | the name built from the greatest match still starts with the requested name; its exact value for every digit serial, leading zeros included, is stated by `AfterBareName` and `AfterDigits` |
| MethodInvocationGenerator.NextName | src/com/github/isarthur/netbeans/editor/generator/java/MethodInvocationGenerator.java:372-399 | a name not in the registry comes back unchanged; any returned name starts with the requested name |
| MethodInvocationGenerator.AfterBareName | src/com/github/isarthur/netbeans/editor/generator/java/MethodInvocationGenerator.java:393-395 | when the greatest match is the bare name itself, the next name is the name followed by `1` |
| MethodInvocationGenerator.AfterSerial | src/com/github/isarthur/netbeans/editor/generator/java/MethodInvocationGenerator.java:384-392 | when the greatest match is the name followed by the decimal text of `n`: below `Integer.MAX_VALUE` the next name carries `n + 1`; at `Integer.MAX_VALUE` the increment wraps and the name carries `-2147483648`; past it the parse fails and the name comes back unchanged |
| MethodInvocationGenerator.AfterDigits | src/com/github/isarthur/netbeans/editor/generator/java/MethodInvocationGenerator.java:384-392 | when the greatest match is the name followed by any digit string, leading zeros included, `parseInt` reads its value: below `Integer.MAX_VALUE` the next name carries that value plus one, with no leading zeros; at `Integer.MAX_VALUE` the increment wraps to `-2147483648`; past it the name comes back unchanged |
| MethodInvocationGenerator.NextNameAfterDigits | src/com/github/isarthur/netbeans/editor/generator/java/MethodInvocationGenerator.java:372-399 | for any registered name whose greatest match carries a digit serial of value below `Integer.MAX_VALUE`, leading zeros included, the next name carries that value plus one |
| MethodInvocationGenerator.LeadingZeroSerial | src/com/github/isarthur/netbeans/editor/generator/java/MethodInvocationGenerator.java:384-389 | with `x` and `x01` registered, the next `x` is `x2` |
| MethodInvocationGenerator.NextNameAfterSerial | src/com/github/isarthur/netbeans/editor/generator/java/MethodInvocationGenerator.java:372-399 | for any registered name whose greatest match carries serial `n` below `Integer.MAX_VALUE`, the next name carries `n + 1` |
| MethodInvocationGenerator.RegisteredNameOccurs | src/com/github/isarthur/netbeans/editor/generator/java/MethodInvocationGenerator.java:374-381 | a registered name is among its own matches, so the list of matches is never empty |
| MethodInvocationGenerator.Requests | src/com/github/isarthur/netbeans/editor/generator/java/MethodInvocationGenerator.java:354-370 | `k` successive requests for one name leave `k` entries in the registry |
| MethodInvocationGenerator.NumberedRun | src/com/github/isarthur/netbeans/editor/generator/java/MethodInvocationGenerator.java:372-399 | the reference run: the bare name, then `name1`, `name2`, … |
| MethodInvocationGenerator.AscendingMax | src/com/github/isarthur/netbeans/editor/generator/java/MethodInvocationGenerator.java:381-383 | in a strictly ascending list the greatest element is the last one |
| MethodInvocationGenerator.OneDigitRunMax | src/com/github/isarthur/netbeans/editor/generator/java/MethodInvocationGenerator.java:381-383 | among the bare name and `name1` … `name9` the greatest is the last of them |
| MethodInvocationGenerator.ElevenRunMax | src/com/github/isarthur/netbeans/editor/generator/java/MethodInvocationGenerator.java:381-383 | among the bare name and `name1` … `name10` the greatest is still `name9` |
| MethodInvocationGenerator.AfterDigit | src/com/github/isarthur/netbeans/editor/generator/java/MethodInvocationGenerator.java:384-389 | after a one-digit serial `d` the next name carries `d + 1` |
| MethodInvocationGenerator.NextNameOnOneDigitRun | src/com/github/isarthur/netbeans/editor/generator/java/MethodInvocationGenerator.java:372-399 | after the bare name and `name1` … `name(k-1)`, for `k` up to ten, the next name is `name(k)` |
| MethodInvocationGenerator.NextNameOnElevenRun | src/com/github/isarthur/netbeans/editor/generator/java/MethodInvocationGenerator.java:372-399 | after the bare name and `name1` … `name10`, the next name is `name10` again |
| MethodInvocationGenerator.RequestsAreNumbered | src/com/github/isarthur/netbeans/editor/generator/java/MethodInvocationGenerator.java:372-399 | up to eleven requests for one name give the bare name, then `name1` … `name10`, in order |
| MethodInvocationGenerator.RequestsAreDistinct | src/com/github/isarthur/netbeans/editor/generator/java/MethodInvocationGenerator.java:372-399 | the first eleven names handed out for one name are pairwise different |
| MethodInvocationGenerator.TwelfthRequestRepeats | src/com/github/isarthur/netbeans/editor/generator/java/MethodInvocationGenerator.java:381-389 | because `name9` sorts after `name10`, the twelfth request repeats `name10` |
| MethodInvocationGenerator.ThreeVariablesOfOneName | src/com/github/isarthur/netbeans/editor/generator/java/MethodInvocationGenerator.java:372-399 | three requests for one name, such as `bytes`, give the name, the name with 1 and the name with 2 |
| MethodInvocationGenerator.Processed | src/com/github/isarthur/netbeans/editor/generator/java/MethodInvocationGenerator.java:186-191 | every processed method is public and named neither `get…`, `is…` nor `set…` |
| MethodInvocationGenerator.IsMethodNotPublic | src/com/github/isarthur/netbeans/editor/generator/java/MethodInvocationGenerator.java:273-276 | a method without `public` among its modifiers |
| MethodInvocationGenerator.IsGetter | src/com/github/isarthur/netbeans/editor/generator/java/MethodInvocationGenerator.java:278-281 | a method whose name starts with `get` or `is`, whatever its signature |
| MethodInvocationGenerator.IsSetter | src/com/github/isarthur/netbeans/editor/generator/java/MethodInvocationGenerator.java:283-286 | a method whose name starts with `set` |
| MethodInvocationGenerator.IsMethodReturnVoid | src/com/github/isarthur/netbeans/editor/generator/java/MethodInvocationGenerator.java:288-291 | a method whose return type is of kind `VOID` |
| MethodInvocationGenerator.Generated | src/com/github/isarthur/netbeans/editor/generator/java/MethodInvocationGenerator.java:185-203 | the statements of the loop over the methods, in loop order, and the registry afterwards: nothing for a skipped method, a call for a void one, a declaration named by `NextName` for the others |
| MethodInvocationGenerator.GeneratedFollowsMethods | src/com/github/isarthur/netbeans/editor/generator/java/MethodInvocationGenerator.java:186-203 | one statement per processed method, in order, each invoking that method on the selected element; the registry gains exactly the declared variable names |
| MethodInvocationGenerator.FollowsSnoc | src/com/github/isarthur/netbeans/editor/generator/java/MethodInvocationGenerator.java:186-203 | one more statement invoking one more called method keeps the batch in step with the called methods |
| MethodInvocationGenerator.AccessorsAreNotCalled | src/com/github/isarthur/netbeans/editor/generator/java/MethodInvocationGenerator.java:273-286 | among `getX`, `isY`, `setZ` and `doWork` only `doWork` is called, by name prefix alone |
| MethodInvocationGenerator.Reversed | src/com/github/isarthur/netbeans/editor/generator/java/MethodInvocationGenerator.java:401-404 | the reversal keeps the length and mirrors the positions |
| MethodInvocationGenerator.InsertBeforeBatch | src/com/github/isarthur/netbeans/editor/generator/java/MethodInvocationGenerator.java:344-348 | inserting at the unchanged index puts the new statement in front of those generated before it |
| MethodInvocationGenerator.GeneratedStep | src/com/github/isarthur/netbeans/editor/generator/java/MethodInvocationGenerator.java:186-202 | one loop step: a skipped method adds nothing, a void method adds a call, and any other method adds a declaration of its return type under the registry's next name (`NextName`), which can repeat after `name10` |
| MethodInvocationGenerator.Generator.constructor | src/com/github/isarthur/netbeans/editor/generator/java/MethodInvocationGenerator.java:74-79 | a fresh generator has index 0 and an empty registry |
| MethodInvocationGenerator.Generator.SetInsertIndex | src/com/github/isarthur/netbeans/editor/generator/java/MethodInvocationGenerator.java:211-261 | the loop with `break` stores the statement index of the sibling rule |
| MethodInvocationGenerator.Generator.IncrementNumberOfVariableIfNeeded | src/com/github/isarthur/netbeans/editor/generator/java/MethodInvocationGenerator.java:372-399 | the loop that collects, sorts and parses suffixes returns the registry's next name |
| MethodInvocationGenerator.Generator.CreateMethodInvocationStatementWithReturnValue | src/com/github/isarthur/netbeans/editor/generator/java/MethodInvocationGenerator.java:354-370 | declares the return type under the registry's next name (`NextName`, which can repeat after `name10`), initialised with the call, and appends that name to the registry |
| MethodInvocationGenerator.Generator.GenerateOtherMethods | src/com/github/isarthur/netbeans/editor/generator/java/MethodInvocationGenerator.java:162-209 | with no enclosing block, or no selected element, the block is not rewritten and the registry is unchanged; otherwise the generated statements sit in reverse order at the sibling index, the statements around them are kept, and the registry gains their names |
| MethodGenerator.GetMethodModifiers | src/com/github/isarthur/netbeans/editor/generator/java/MethodGenerator.java:218-260 | the set holds exactly the access modifier named by the access string (none for `package` or any other string) plus one modifier per set flag |
| MethodGenerator.Declares | src/com/github/isarthur/netbeans/editor/generator/java/MethodGenerator.java:218-260 | the modifiers a form asks for: the access choice gives at most one of public, protected and private, and each check box adds its own |
| MethodGenerator.GetMethodParameters | src/com/github/isarthur/netbeans/editor/generator/java/MethodGenerator.java:167-187 | one parameter per row, in order, with the row's type and name, `final` exactly when the row's flag is set, and no initializer |
| MethodGenerator.GetMethodTypeParameters | src/com/github/isarthur/netbeans/editor/generator/java/MethodGenerator.java:189-206 | one type parameter per row, in order, with exactly one bound when the bound text is non-empty and none otherwise |
| MethodGenerator.GetMethodThrownTypes | src/com/github/isarthur/netbeans/editor/generator/java/MethodGenerator.java:208-216 | the thrown types are the rows, in order |
| MethodGenerator.ParametersFor | src/com/github/isarthur/netbeans/editor/generator/java/MethodGenerator.java:167-187 | the parameter list a table of parameter rows asks for: one per row, in order, with name, type, `FINAL` if and only if the row is final, and no initializer |
| MethodGenerator.TypeParametersFor | src/com/github/isarthur/netbeans/editor/generator/java/MethodGenerator.java:189-206 | the type parameter list a table asks for: one per row, in order, with the name, and the bound unless its text is empty |
| MethodGenerator.DeclaresForm | src/com/github/isarthur/netbeans/editor/generator/java/MethodGenerator.java:129-155 | the method a form describes, in the `make.Method` call: every component of the declaration, and an empty body exactly for a class method that is neither abstract nor native |
| MethodGenerator.DeclaresFormUnique | src/com/github/isarthur/netbeans/editor/generator/java/MethodGenerator.java:129-155 | the form determines the declaration: two declarations that both match one form are the same tree |
| MethodGenerator.Create | src/com/github/isarthur/netbeans/editor/generator/java/MethodGenerator.java:332-352 | the generator is offered exactly when the source reached RESOLVED and no block encloses the caret |
| MethodGenerator.Generator.constructor | src/com/github/isarthur/netbeans/editor/generator/java/MethodGenerator.java:61-62 | a fresh generator starts at index 0 |
| MethodGenerator.Generator.SetInsertIndex | src/com/github/isarthur/netbeans/editor/generator/java/MethodGenerator.java:270-320 | the loop with `break` stores the member index of the sibling rule |
| MethodGenerator.Generator.InsertMethodIntoClassOrInterface | src/com/github/isarthur/netbeans/editor/generator/java/MethodGenerator.java:129-155 | exactly one member is inserted, at the index, and the others keep their order; it is the method the form describes (`DeclaresForm`): its modifiers, name, return type, each parameter's name, type, final flag and missing initializer, each type parameter's name and bound, the thrown types, and the body rule |
| MethodGenerator.Generator.Invoke | src/com/github/isarthur/netbeans/editor/generator/java/MethodGenerator.java:95-127 | with no enclosing class or interface, or no OK, nothing is inserted. Otherwise the member index follows the sibling rule, and the enclosing type keeps its kind and name. The method the form describes (`DeclaresForm`) is inserted at that index, and the other members keep their order |
| FieldGenerator.FieldFor | src/com/github/isarthur/netbeans/editor/generator/java/FieldGenerator.java:103-138 | a field's modifiers are exactly the row's access modifier and checked flags; it keeps the row's type and name; it has no initializer exactly when the value text is empty, and otherwise the text verbatim |
| FieldGenerator.AccessChoiceModifiers | src/com/github/isarthur/netbeans/editor/generator/java/FieldGenerator.java:103-116 | `package` adds no access modifier, and `public`, `protected` and `private` add exactly their own |
| FieldGenerator.GetClassTree | src/com/github/isarthur/netbeans/editor/generator/java/FieldGenerator.java:143-157 | finds the first top-level class, skipping interfaces and enums, and throws exactly when there is none |
| FieldGenerator.IsFirstClass | src/com/github/isarthur/netbeans/editor/generator/java/FieldGenerator.java:143-156 | the position the loop of `getClassTree` stops at: a CLASS, with no CLASS before it |
| FieldGenerator.FieldMembers | src/com/github/isarthur/netbeans/editor/generator/java/FieldGenerator.java:95-140 | one field member per row, in row order |
| FieldGenerator.FirstClassIsUnique | src/com/github/isarthur/netbeans/editor/generator/java/FieldGenerator.java:143-157 | there is only one first class |
| FieldGenerator.FieldMembersStep | src/com/github/isarthur/netbeans/editor/generator/java/FieldGenerator.java:96-138 | each pass of the row loop appends that row's field after the earlier ones |
| FieldGenerator.BuildField | src/com/github/isarthur/netbeans/editor/generator/java/FieldGenerator.java:97-138 | the modifier set the row loop fills, and the initializer it picks, make up the row's field |
| FieldGenerator.AddFieldsToClass | src/com/github/isarthur/netbeans/editor/generator/java/FieldGenerator.java:90-141 | the fields are appended, in row order, after the existing members of the first class, whatever the caret; it throws exactly when no class exists |
| FieldGenerator.Invoke | src/com/github/isarthur/netbeans/editor/generator/java/FieldGenerator.java:70-88 | nothing is edited unless OK was pressed; otherwise the result is that of adding the fields to the first class |
| JavaText.LastIndexOf | src/com/github/isarthur/netbeans/editor/generator/java/ui/GenerateMethodPanel.java:127 | the last occurrence of a character, or -1 when there is none |
| JavaText.NameIsDottedName | src/com/github/isarthur/netbeans/editor/generator/java/ui/GenerateFieldsPanel.java:246 | a plain name passes the dotted-type pattern |
| JavaText.DottedNameAppend | src/com/github/isarthur/netbeans/editor/generator/java/ui/GenerateFieldsPanel.java:246 | a dotted name, a dot and a name together again form a dotted name |
| JavaText.JoinedNamesAreDotted | src/com/github/isarthur/netbeans/editor/generator/java/ui/GenerateFieldsPanel.java:246 | names joined with dots pass the dotted-type pattern |
| JavaText.DottedNameSplits | src/com/github/isarthur/netbeans/editor/generator/java/ui/GenerateFieldsPanel.java:246 | a dotted name splits at its dots into names that join back into it |
| JavaText.SegmentsOfJoin | src/com/github/isarthur/netbeans/editor/generator/java/ui/GenerateFieldsPanel.java:246 | splitting names joined with dots gives back those names |
| JavaText.LowerFirst | src/com/github/isarthur/netbeans/editor/generator/java/ui/GenerateMethodPanel.java:121 | lowering the first character keeps the length and the rest of the text |
| JavaText.ParseInt | src/com/github/isarthur/netbeans/editor/generator/java/MethodInvocationGenerator.java:384-391 | a digit string parses exactly when its value fits in a Java `int`, and then to that value |
| JavaText.IncrementInt | src/com/github/isarthur/netbeans/editor/generator/java/MethodInvocationGenerator.java:387-388 | adding one to an `int` wraps from the largest value to the smallest |
| JavaText.IntToString | src/com/github/isarthur/netbeans/editor/generator/java/MethodInvocationGenerator.java:388-389 | the decimal text appended for an `Integer` serial, with a minus sign for a negative one |
| JavaText.IsName | src/com/github/isarthur/netbeans/editor/generator/java/ui/GenerateMethodPanel.java:55 | `NAME_REGEX`: a letter or underscore, then word characters; the fields form's name check is the same pattern |
| JavaText.IsDottedName | src/com/github/isarthur/netbeans/editor/generator/java/ui/GenerateFieldsPanel.java:246 | the fields form's type pattern: names joined by single dots |
| JavaText.DecimalRoundTrip | src/com/github/isarthur/netbeans/editor/generator/java/MethodInvocationGenerator.java:387-389 | the decimal text of a number reads back as that number |
| GenerateMethodPanel.MethodTypeShapes | src/com/github/isarthur/netbeans/editor/generator/java/ui/GenerateMethodPanel.java:57-63 | the type pattern accepts a dotted name, the name followed by `[]`, and the name followed by one type argument in angle brackets |
| GenerateMethodPanel.IsTypeParameterName | src/com/github/isarthur/netbeans/editor/generator/java/ui/GenerateMethodPanel.java:56 | `TYPE_PARAMETER_NAME_REGEX`: a name or `?` |
| GenerateMethodPanel.IsTypeArgument | src/com/github/isarthur/netbeans/editor/generator/java/ui/GenerateMethodPanel.java:57-63 | the type argument inside the angle brackets of `TYPE_REGEX`: `?`, a name, or a wildcard head, ` extends ` and a name |
| GenerateMethodPanel.IsMethodType | src/com/github/isarthur/netbeans/editor/generator/java/ui/GenerateMethodPanel.java:57-63 | `TYPE_REGEX`: a dotted name alone, followed by `[]`, or followed by one type argument in angle brackets |
| GenerateMethodPanel.IsBoundText | src/com/github/isarthur/netbeans/editor/generator/java/ui/GenerateMethodPanel.java:64-70 | `TYPE_REGEX_EMPTY_ALLOWED`: the empty text or what `TYPE_REGEX` accepts |
| GenerateMethodPanel.OneArrayDimensionOnly | src/com/github/isarthur/netbeans/editor/generator/java/ui/GenerateMethodPanel.java:57-63 | the non-empty type pattern refuses the empty text and `int[][]` |
| GenerateMethodPanel.OneTypeArgumentOnly | src/com/github/isarthur/netbeans/editor/generator/java/ui/GenerateMethodPanel.java:57-63 | the type pattern refuses `Map<K,V>` |
| GenerateMethodPanel.NoNestedTypeArguments | src/com/github/isarthur/netbeans/editor/generator/java/ui/GenerateMethodPanel.java:57-63 | a dotted name followed by an angle-bracketed argument that itself holds a `<` (such as `List<List<T>>`) is refused by the type pattern |
| GenerateMethodPanel.BoundedWildcardIsTypeArgument | src/com/github/isarthur/netbeans/editor/generator/java/ui/GenerateMethodPanel.java:57-63 | `? extends Name` is an accepted type argument |
| GenerateMethodPanel.TypeArgumentChars | src/com/github/isarthur/netbeans/editor/generator/java/ui/GenerateMethodPanel.java:57-63 | a type argument is made only of name characters, `?` and spaces |
| GenerateMethodPanel.HeadLength | src/com/github/isarthur/netbeans/editor/generator/java/ui/GenerateMethodPanel.java:118-125 | the suggestion patterns' leading `[\w.]*` part is the longest prefix of name characters and dots |
| GenerateMethodPanel.SuggestFromHead | src/com/github/isarthur/netbeans/editor/generator/java/ui/GenerateMethodPanel.java:116-132 | the suggestion from the captured head: a name of two or more characters with its first letter lowered; else, for a qualified name whose segments all have two or more characters, its last segment lowered the same way; else nothing |
| GenerateMethodPanel.SuggestParameterName | src/com/github/isarthur/netbeans/editor/generator/java/ui/GenerateMethodPanel.java:116-132 | a suggestion is either empty or a valid name of at least two characters |
| GenerateMethodPanel.SuggestOfParts | src/com/github/isarthur/netbeans/editor/generator/java/ui/GenerateMethodPanel.java:116-132 | only the part before `[]` or `<…>` decides the suggestion |
| GenerateMethodPanel.SuggestForSimpleType | src/com/github/isarthur/netbeans/editor/generator/java/ui/GenerateMethodPanel.java:118-121 | a simple type of two or more characters, with or without `[]` or `<…>`, suggests itself with the first character lowered |
| GenerateMethodPanel.SuggestForQualifiedType | src/com/github/isarthur/netbeans/editor/generator/java/ui/GenerateMethodPanel.java:123-128 | a qualified type whose segments all have two or more characters suggests its last segment with the first character lowered |
| GenerateMethodPanel.NoSuggestionForOneCharacter | src/com/github/isarthur/netbeans/editor/generator/java/ui/GenerateMethodPanel.java:116-132 | a one-character type name suggests nothing |
| GenerateMethodPanel.HeadSuggestionIffLongSegments | src/com/github/isarthur/netbeans/editor/generator/java/ui/GenerateMethodPanel.java:116-132 | for a dotted name, something is suggested exactly when every segment has at least two characters |
| GenerateMethodPanel.AcceptedTypeSplits | src/com/github/isarthur/netbeans/editor/generator/java/ui/GenerateMethodPanel.java:57-63 | every accepted type is a dotted name followed by nothing, `[]` or `<…>` |
| GenerateMethodPanel.SuggestionForAcceptedType | src/com/github/isarthur/netbeans/editor/generator/java/ui/GenerateMethodPanel.java:116-132 | for a type the cell check accepts, the suggestion is non-empty exactly when every segment of its dotted part has at least two characters |
| GenerateMethodPanel.SuggestionForString | src/com/github/isarthur/netbeans/editor/generator/java/ui/GenerateMethodPanel.java:118-121 | `String` suggests `string` |
| GenerateMethodPanel.SuggestionForIntArray | src/com/github/isarthur/netbeans/editor/generator/java/ui/GenerateMethodPanel.java:118-121 | `int[]` suggests `int` |
| GenerateMethodPanel.NoSuggestionForTypeVariable | src/com/github/isarthur/netbeans/editor/generator/java/ui/GenerateMethodPanel.java:116-132 | `T` suggests nothing |
| GenerateMethodPanel.ValidityIgnoresModifiers | src/com/github/isarthur/netbeans/editor/generator/java/ui/GenerateMethodPanel.java:720-753 | `valid()` looks only at the texts and tables, never at the access choice or the check boxes |
| GenerateMethodPanel.FormIsValid | src/com/github/isarthur/netbeans/editor/generator/java/ui/GenerateMethodPanel.java:720-753 | `valid()`: every parameter, type parameter and thrown type row passes its checks, and so do the return type and the method name |
| GenerateMethodPanel.TypeEdited | src/com/github/isarthur/netbeans/editor/generator/java/ui/GenerateMethodPanel.java:946-966 | an edited parameter type is stored even when refused, and then the row is invalid; an accepted type replaces the name with the suggestion, and the row is then valid exactly when something was suggested |
| GenerateMethodPanel.InterlockedIffLegal | src/com/github/isarthur/netbeans/editor/generator/java/ui/GenerateMethodPanel.java:596-640 | the check-box invariant holds exactly when the generated modifier set is legal under section 8.4.3 of the Java Language Specification (abstract with none of private, static, final, native, strictfp or synchronized; not native and strictfp together) |
| GenerateMethodPanel.Interlocked | src/com/github/isarthur/netbeans/editor/generator/java/ui/GenerateMethodPanel.java:596-640 | the state the check-box handlers keep: abstract excludes the other five boxes and private access, and native excludes strictfp |
| GenerateMethodPanel.InterfaceFormDeclaresAtMostAbstract | src/com/github/isarthur/netbeans/editor/generator/java/ui/GenerateMethodPanel.java:77-84 | in an interface only abstract can be chosen, and it is the only modifier generated |
| GenerateMethodPanel.AbstractClickKeepsCoherence | src/com/github/isarthur/netbeans/editor/generator/java/ui/GenerateMethodPanel.java:596-608 | clicking abstract keeps the form's invariant: a listed access, the interlocks, the interface restrictions, valid selections, and OK only on a valid form |
| GenerateMethodPanel.AllRowsPass | src/com/github/isarthur/netbeans/editor/generator/java/ui/GenerateMethodPanel.java:720-753 | one table's loop in `valid()` succeeds exactly when every row passes that table's cell checks |
| GenerateMethodPanel.MethodPanel.constructor | src/com/github/isarthur/netbeans/editor/generator/java/ui/GenerateMethodPanel.java:75-110 | the form starts with package access, no boxes checked, empty tables, no selections and OK disabled |
| GenerateMethodPanel.MethodPanel.ClickAbstract | src/com/github/isarthur/netbeans/editor/generator/java/ui/GenerateMethodPanel.java:596-608 | toggling abstract in either direction clears the other five boxes; checking it while private switches access to package |
| GenerateMethodPanel.MethodPanel.ClickStatic | src/com/github/isarthur/netbeans/editor/generator/java/ui/GenerateMethodPanel.java:610-614 | checking static clears abstract |
| GenerateMethodPanel.MethodPanel.ClickFinal | src/com/github/isarthur/netbeans/editor/generator/java/ui/GenerateMethodPanel.java:616-620 | checking final clears abstract |
| GenerateMethodPanel.MethodPanel.ClickSynchronized | src/com/github/isarthur/netbeans/editor/generator/java/ui/GenerateMethodPanel.java:622-626 | checking synchronized clears abstract |
| GenerateMethodPanel.MethodPanel.ClickNative | src/com/github/isarthur/netbeans/editor/generator/java/ui/GenerateMethodPanel.java:628-633 | checking native clears abstract and strictfp |
| GenerateMethodPanel.MethodPanel.ClickStrictfp | src/com/github/isarthur/netbeans/editor/generator/java/ui/GenerateMethodPanel.java:635-640 | checking strictfp clears abstract and native |
| GenerateMethodPanel.MethodPanel.ChooseAccess | src/com/github/isarthur/netbeans/editor/generator/java/ui/GenerateMethodPanel.java:98-103 | choosing private clears abstract |
| GenerateMethodPanel.MethodPanel.IsValid | src/com/github/isarthur/netbeans/editor/generator/java/ui/GenerateMethodPanel.java:720-753 | `valid()` holds exactly when every parameter, type-parameter and thrown-type row passes its cell checks and the return type and name pass theirs; only a bound may be empty |
| GenerateMethodPanel.MethodPanel.EditReturnType | src/com/github/isarthur/netbeans/editor/generator/java/ui/GenerateMethodPanel.java:142-155 | each change to the return type re-evaluates OK with `valid()` |
| GenerateMethodPanel.MethodPanel.EditName | src/com/github/isarthur/netbeans/editor/generator/java/ui/GenerateMethodPanel.java:142-155 | each change to the method name re-evaluates OK with `valid()` |
| GenerateMethodPanel.MethodPanel.AddParameter | src/com/github/isarthur/netbeans/editor/generator/java/ui/GenerateMethodPanel.java:642-650 | an empty parameter row is appended and selected; OK is disabled, and `valid()` indeed fails |
| GenerateMethodPanel.MethodPanel.SelectParameter | src/com/github/isarthur/netbeans/editor/generator/java/ui/GenerateMethodPanel.java:86-89 | a click in the parameters table selects that row or none; the form and OK are unchanged; its "Remove" is enabled exactly when a row is selected |
| GenerateMethodPanel.MethodPanel.SelectTypeParameter | src/com/github/isarthur/netbeans/editor/generator/java/ui/GenerateMethodPanel.java:90-93 | the same for the type parameters table |
| GenerateMethodPanel.MethodPanel.SelectThrownType | src/com/github/isarthur/netbeans/editor/generator/java/ui/GenerateMethodPanel.java:94-97 | the same for the thrown types table |
| GenerateMethodPanel.MethodPanel.RemoveParameter | src/com/github/isarthur/netbeans/editor/generator/java/ui/GenerateMethodPanel.java:652-663 | the selected parameter row is removed, the selection moves to the neighbouring row, and OK follows `valid()` |
| GenerateMethodPanel.MethodPanel.AddTypeParameter | src/com/github/isarthur/netbeans/editor/generator/java/ui/GenerateMethodPanel.java:665-672 | an empty type-parameter row is appended, the parameters table's last row is selected, and OK is disabled |
| GenerateMethodPanel.MethodPanel.RemoveTypeParameter | src/com/github/isarthur/netbeans/editor/generator/java/ui/GenerateMethodPanel.java:674-685 | the selected type-parameter row is removed, the selection moves to the neighbouring row, and OK follows `valid()` |
| GenerateMethodPanel.MethodPanel.AddThrownType | src/com/github/isarthur/netbeans/editor/generator/java/ui/GenerateMethodPanel.java:687-693 | an empty thrown-type row is appended and selected, and OK is disabled |
| GenerateMethodPanel.MethodPanel.RemoveThrownType | src/com/github/isarthur/netbeans/editor/generator/java/ui/GenerateMethodPanel.java:695-706 | the selected thrown-type row is removed, the selection moves to the neighbouring row, and OK follows `valid()` |
| GenerateMethodPanel.MethodPanel.EditParameterType | src/com/github/isarthur/netbeans/editor/generator/java/ui/GenerateMethodPanel.java:946-966 | the edited type is committed and an accepted one fills in the suggested name; a refused one disables OK, otherwise OK follows `valid()` |
| GenerateMethodPanel.MethodPanel.EditParameterName | src/com/github/isarthur/netbeans/editor/generator/java/ui/GenerateMethodPanel.java:239-256 | a name that fails the check is not committed and disables OK; an accepted one is stored and OK follows `valid()` |
| GenerateMethodPanel.MethodPanel.EditTypeParameterName | src/com/github/isarthur/netbeans/editor/generator/java/ui/GenerateMethodPanel.java:297-315 | the text is committed even when it fails the check, and then OK is disabled |
| GenerateMethodPanel.MethodPanel.EditTypeParameterBound | src/com/github/isarthur/netbeans/editor/generator/java/ui/GenerateMethodPanel.java:946-966 | the bound is committed; the empty text is accepted, and a refused bound disables OK |
| GenerateMethodPanel.MethodPanel.EditThrownType | src/com/github/isarthur/netbeans/editor/generator/java/ui/GenerateMethodPanel.java:946-966 | the thrown type is committed; a refused one disables OK, otherwise OK follows `valid()` |
| TableSelection.RemoveAt | src/com/github/isarthur/netbeans/editor/generator/java/ui/GenerateFieldsPanel.java:227 | removing a row keeps the rows above it and moves the rows below it up by one |
| TableSelection.SelectionAfterRemoval | src/com/github/isarthur/netbeans/editor/generator/java/ui/GenerateFieldsPanel.java:225-236 | after a removal the selection is a row of the table, or empty exactly when the table became empty |
| TableSelection.SelectionLandsOnNeighbour | src/com/github/isarthur/netbeans/editor/generator/java/ui/GenerateMethodPanel.java:652-663 | the selected row after removing row `r` is the old row `r - 1`, or the old second row when the first row was removed |
| GenerateFieldsPanel.DottedTypeRefusals | src/com/github/isarthur/netbeans/editor/generator/java/ui/GenerateFieldsPanel.java:436-443 | the field type check refuses the empty text, `List<String>` and `int[]` |
| GenerateFieldsPanel.QualifiedTypeAccepted | src/com/github/isarthur/netbeans/editor/generator/java/ui/GenerateFieldsPanel.java:436-443 | the field type check accepts `java.util.List` |
| GenerateFieldsPanel.ListedAccessGivesOneAccessModifier | src/com/github/isarthur/netbeans/editor/generator/java/ui/GenerateFieldsPanel.java:51-56 | each item of the access combo box gives a field at most one access modifier |
| GenerateFieldsPanel.FieldsPanel.constructor | src/com/github/isarthur/netbeans/editor/generator/java/ui/GenerateFieldsPanel.java:64-71 | the form starts with an empty table, no selection and OK disabled |
| GenerateFieldsPanel.FieldsPanel.IsValid | src/com/github/isarthur/netbeans/editor/generator/java/ui/GenerateFieldsPanel.java:242-255 | `valid()` holds exactly when every row has a dotted type and a name, so it holds for an empty table |
| GenerateFieldsPanel.FieldsPanel.AddField | src/com/github/isarthur/netbeans/editor/generator/java/ui/GenerateFieldsPanel.java:198-223 | a private row with no boxes checked and empty texts is appended and selected; it fails `valid()`, matching the disabled OK |
| GenerateFieldsPanel.FieldsPanel.Select | src/com/github/isarthur/netbeans/editor/generator/java/ui/GenerateFieldsPanel.java:66-69 | a click in the fields table selects that row or none; the rows and OK are unchanged; "Remove" is enabled exactly when a row is selected |
| GenerateFieldsPanel.FieldsPanel.RemoveField | src/com/github/isarthur/netbeans/editor/generator/java/ui/GenerateFieldsPanel.java:204-236 | the selected row is removed, the selection moves to the neighbouring row, and OK follows `valid()` |
| GenerateFieldsPanel.FieldsPanel.EditType | src/com/github/isarthur/netbeans/editor/generator/java/ui/GenerateFieldsPanel.java:376-391 | the type is committed even when it fails the check; a refused type disables OK, otherwise OK follows `valid()` |
| GenerateFieldsPanel.FieldsPanel.EditName | src/com/github/isarthur/netbeans/editor/generator/java/ui/GenerateFieldsPanel.java:135-153 | a name that fails the check is not committed and disables OK; an accepted one is stored and OK follows `valid()` |
| GenerateFieldsPanel.FieldsPanel.ChooseAccess | src/com/github/isarthur/netbeans/editor/generator/java/ui/GenerateFieldsPanel.java:118-119 | the access cell takes one of the four combo box items and leaves OK as it was |

## Left out

- The dialog classes (window bounds in Preferences, screen geometry, `DialogDisplayer`). From them only one fact is kept: OK starts disabled.
- Swing plumbing: layouts, renderers, borders, focus, and listener lists. Each handler is modelled by its effect on the form's state.
- The browse buttons (`TypeElementFinder`): they run a type search dialog, which is outside the model.
- The table enabling/disabling after add and remove. It affects only whether a table can be clicked.
- The NetBeans Java infrastructure: modification tasks, commit, phases, `TreeMaker`, and the `pathFor`/`scopeFor` lookups. The enclosing block or class, the methods of the selected element and the locals in scope are inputs.
- `MethodInvocationGenerator.type()` (snippet parsing) and `Types.isAssignable`. Assignability is an uninterpreted relation in `TypeServices`.
- The Collections.sort of the locals by name. The locals are taken in the order given, which the caller provides already sorted.
- The name-distance and `isSameType` branch of `instanceOf`. Its only caller passes a null name, so the branch is never reached.
- The `PARSED` phase request and the compilation-unit lookup in `ImportGenerator.invoke`; the unit is an input.
- IOException handling and the null-dialog `saveBounds` crash when no class encloses the caret.
- The cell edits that are not validated: the parameter `final` flag, the field flags, and the field value column. They only store what was typed.
- Whitespace in the method type pattern. The pattern allows spaces around `<`, `>`, `[]` and `extends`; the model takes only the single-space ` extends ` form and no other spaces.
- `Locale.getDefault()` lowercasing: `LowerFirst` lowers ASCII letters only, so a locale such as Turkish, where `I` lowers differently, is not modelled.
- `String.compareTo` is modelled over Dafny characters (UTF-16 code units). The model has no surrogate pairs, which the plugin's ASCII-only names never contain.
- The edited cell is taken to be in the selected row. Clicking a cell selects its row (`Select`, `SelectParameter`, `SelectTypeParameter`, `SelectThrownType`), and the type editor writes the suggested name into the selected row. A multi-row selection is not modelled: each table holds one selected row or none.
- MethodInvocationGenerator.Generator.IncrementNumberOfVariableIfNeeded: the name is matched literally, followed by digits. The source pastes the name into a regular expression, so a name containing `$` would be read as part of the pattern there.
- MethodInvocationGenerator.NextName: the contract states only the unchanged name and the prefix. The exact number for every digit serial, leading zeros included, is stated separately by `AfterDigits` and `NextNameAfterDigits`, and the repeat after `name10` by `TwelfthRequestRepeats`.
