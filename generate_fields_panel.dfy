/**
 * The fields form: one table row per field, the cell checks on the type and
 * name columns, the row a new field starts with, and the selection after a
 * row is removed. The form's OK button is enabled only through `valid()`.
 */
module GenerateFieldsPanel {
  import opened JavaText
  import opened SyntaxTrees
  import opened FieldGenerator
  import opened TableSelection

  /** The items of the access column's combo box. */
  const ACCESS_MODIFIERS: seq<string> := ["package", "private", "protected", "public"]

  /** The row "Add" appends: private, no box checked, empty type, name and value. */
  const NEW_ROW: FieldRow := FieldRow(ACCESS_MODIFIERS[1], false, false, false, false, "", "", "")

  /** A row passes valid(), and each of its two checked cells passes its verifier: a dotted type and a name. */
  predicate FieldRowIsValid(row: FieldRow) {
    IsDottedName(row.typ) && IsName(row.name)
  }

  /** valid(): every row passes; an empty table passes. */
  predicate FieldsAreValid(rows: seq<FieldRow>) {
    forall i :: 0 <= i < |rows| ==> FieldRowIsValid(rows[i])
  }

  /** The type check refuses the empty text, generic types and array types. */
  lemma DottedTypeRefusals()
    ensures !IsDottedName("")
    ensures !IsDottedName("List<String>")
    ensures !IsDottedName("int[]")
  {
    var g := "List<String>";
    assert !WellPlaced(g, 4);
    var a := "int[]";
    assert !WellPlaced(a, 3);
  }

  /** A qualified type name passes the type check. */
  lemma QualifiedTypeAccepted()
    ensures IsDottedName("java.util.List")
  {
    var java, util, list := "java", "util", "List";
    assert IsName(java) by { assert forall i :: 1 <= i < |java| ==> IsWordChar(java[i]); }
    assert IsName(util) by { assert forall i :: 1 <= i < |util| ==> IsWordChar(util[i]); }
    assert IsName(list) by { assert forall i :: 1 <= i < |list| ==> IsWordChar(list[i]); }
    NameIsDottedName(java);
    DottedNameAppend(java, util);
    DottedNameAppend(java + "." + util, list);
    assert java + "." + util + "." + list == "java.util.List";
  }

  /** The rows of a consistent form give fields with at most one access modifier each. */
  lemma ListedAccessGivesOneAccessModifier(row: FieldRow)
    requires row.access in ACCESS_MODIFIERS
    ensures |FieldFor(row).modifiers * {PUBLIC, PROTECTED, PRIVATE}| <= 1
  {
    AccessChoiceModifiers(row);
  }

  /**
   * The form's invariant: the selection is a row or none, every row's
   * access is one of the combo box's items, and OK is enabled only when
   * valid() holds.
   */
  predicate Coherent(rows: seq<FieldRow>, selection: int, okEnabled: bool) {
    && -1 <= selection < |rows|
    && (forall i :: 0 <= i < |rows| ==> rows[i].access in ACCESS_MODIFIERS)
    && (okEnabled ==> FieldsAreValid(rows))
  }

  class FieldsPanel {
    var rows: seq<FieldRow>
    /** The selected row, or -1. */
    var selection: int
    /** Whether the dialog's OK button is enabled. */
    var okEnabled: bool

    predicate Consistent()
      reads this
    {
      Coherent(rows, selection, okEnabled)
    }

    /** A new form: an empty table, no selection, OK disabled. */
    constructor ()
      ensures Consistent()
      ensures rows == [] && selection == -1 && !okEnabled
    {
      rows := [];
      selection := -1;
      okEnabled := false;
    }

    /** valid(): the rows are checked in order, type before name. */
    method IsValid() returns (ok: bool)
      ensures ok <==> FieldsAreValid(rows)
    {
      var row := 0;
      while row < |rows|
        invariant 0 <= row <= |rows|
        invariant forall j :: 0 <= j < row ==> FieldRowIsValid(rows[j])
      {
        if !IsDottedName(rows[row].typ) {
          return false;
        }
        if !IsName(rows[row].name) {
          return false;
        }
        row := row + 1;
      }
      return true;
    }

    /** "Add": the new row is appended and selected; it fails valid(), and OK is disabled. */
    method AddField()
      requires Consistent()
      modifies this
      ensures Consistent()
      ensures rows == old(rows) + [NEW_ROW] && selection == |rows| - 1
      ensures !okEnabled && !FieldsAreValid(rows)
    {
      rows := rows + [NEW_ROW];
      selection := |rows| - 1;
      okEnabled := false;
      assert !FieldRowIsValid(rows[|rows| - 1]);
    }

    /**
     * A click in the table: row r becomes the selection (-1 clears it), and
     * "Remove" is enabled exactly when some row is selected.
     */
    method Select(r: int) returns (removeEnabled: bool)
      requires Consistent() && -1 <= r < |rows|
      modifies this
      ensures Consistent()
      ensures selection == r && rows == old(rows) && okEnabled == old(okEnabled)
      ensures removeEnabled <==> selection >= 0
    {
      selection := r;
      removeEnabled := selection >= 0;
    }

    /** "Remove": the selected row goes, the selection moves up one row, OK follows valid(). */
    method RemoveField()
      requires Consistent() && selection >= 0
      modifies this
      ensures Consistent()
      ensures rows == RemoveAt(old(rows), old(selection))
      ensures selection == SelectionAfterRemoval(old(selection), |rows|)
      ensures okEnabled == FieldsAreValid(rows)
    {
      var row := selection;
      rows := RemoveAt(rows, row);
      selection := SelectionAfterRemoval(row, |rows|);
      okEnabled := IsValid();
    }

    /** Finishing an edit of the selected row's type: the text is stored either way; one that fails disables OK. */
    method EditType(text: string)
      requires Consistent() && selection >= 0
      modifies this
      ensures Consistent()
      ensures rows == old(rows)[old(selection) := old(rows)[old(selection)].(typ := text)]
      ensures selection == old(selection)
      ensures okEnabled == (IsDottedName(text) && FieldsAreValid(rows))
    {
      rows := rows[selection := rows[selection].(typ := text)];
      if IsDottedName(text) {
        okEnabled := IsValid();
      } else {
        okEnabled := false;
      }
    }

    /** Finishing an edit of the selected row's name: a text that is not a name is not stored and disables OK. */
    method EditName(text: string)
      requires Consistent() && selection >= 0
      modifies this
      ensures Consistent()
      ensures rows == if IsName(text) then old(rows)[old(selection) := old(rows)[old(selection)].(name := text)] else old(rows)
      ensures selection == old(selection)
      ensures okEnabled == (IsName(text) && FieldsAreValid(rows))
    {
      if IsName(text) {
        rows := rows[selection := rows[selection].(name := text)];
        okEnabled := IsValid();
      } else {
        okEnabled := false;
      }
    }

    /** Choosing an access for the selected row from the combo box; validity does not look at it. */
    method ChooseAccess(choice: string)
      requires Consistent() && selection >= 0 && choice in ACCESS_MODIFIERS
      modifies this
      ensures Consistent()
      ensures rows == old(rows)[old(selection) := old(rows)[old(selection)].(access := choice)]
      ensures selection == old(selection) && okEnabled == old(okEnabled)
    {
      rows := rows[selection := rows[selection].(access := choice)];
      assert okEnabled ==> FieldsAreValid(rows) by {
        if okEnabled {
          forall i | 0 <= i < |rows| ensures FieldRowIsValid(rows[i]) {
            assert FieldRowIsValid(old(rows)[i]);
          }
        }
      }
    }
  }
}
