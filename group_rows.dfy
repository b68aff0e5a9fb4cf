// Repeatable group fields (generate_group_field and
// generate_group_row_template): how many rows are rendered, and the ids,
// names, values and row classes each row's subfields receive. The HTML
// around them is not modelled; a row is the record of what it carries.

module GroupRows {
  import opened PhpValues
  import opened Schema
  import opened FieldRegistry

  /** The arguments a group field is rendered with (as generate_setting prepared them). */
  datatype GroupArgs = GroupArgs(id: string, name: string, value: Value, subfields: seq<Field>)

  /** One subfield of a row, as handed to do_field_method. */
  datatype SubfieldArgs = SubfieldArgs(
    id: string,
    name: string,
    value: Value,
    fieldType: string,
    generator: Option<Generator>)

  /** A row template; NoRow is the `false` returned when the group has no subfields. */
  datatype RowTemplate =
    | NoRow
    | Row(
        index: nat,
        rowClass: string,
        rowIdName: string,
        rowIdValue: Value,
        subfields: seq<SubfieldArgs>)

  /** The stored entry of row `row`: `$args['value'][$row]`. */
  function RowValue(value: Value, row: nat): Value {
    Lookup(value, IntKey(row))
  }

  /** The row's identifier: its stored `row_id` when that is not empty, else the row index. */
  function RowId(value: Value, row: nat): Value {
    var stored := Lookup(RowValue(value, row), StrKey("row_id"));
    if !Empty(stored) then stored else Int(row)
  }

  /** A subfield's id after wp_parse_args with the framework defaults. */
  function SubfieldId(sub: Field): string {
    sub.id.GetOr("default_field")
  }

  /** A subfield's type after wp_parse_args with the framework defaults. */
  function SubfieldType(sub: Field): string {
    sub.fieldType.GetOr("text")
  }

  /** `%s_%d_%s`: group id, row, subfield id. */
  function SubfieldDomId(groupId: string, row: nat, sid: string): string {
    groupId + "_" + NatToString(row) + "_" + sid
  }

  /** `%s[%d][%s]`: group name, row, subfield id. */
  function SubfieldName(groupName: string, row: nat, sid: string): string {
    groupName + "[" + NatToString(row) + "][" + sid + "]"
  }

  /** The subfield arguments of one subfield in row `row`; a blank row carries empty values. */
  function SubfieldFor(args: GroupArgs, blank: bool, row: nat, sub: Field): SubfieldArgs {
    var sid := SubfieldId(sub);
    SubfieldArgs(
      SubfieldDomId(args.id, row, sid),
      SubfieldName(args.name, row, sid),
      if blank then Str("") else Coalesce(Lookup(RowValue(args.value, row), StrKey(sid)), Str("")),
      SubfieldType(sub),
      Dispatch(SubfieldType(sub)))
  }

  /** What generate_group_row_template produces for (args, blank, row). */
  function RowTemplateFor(args: GroupArgs, blank: bool, row: nat): RowTemplate {
    if |args.subfields| == 0 then NoRow
    else
      Row(
        row,
        if row % 2 == 0 then "alternate" else "",
        args.name + "[" + NatToString(row) + "][row_id]",
        if blank then Str("") else RowId(args.value, row),
        seq(|args.subfields|, j requires 0 <= j < |args.subfields| => SubfieldFor(args, blank, row, args.subfields[j])))
  }

  /** The number of rows rendered: the entry count of `(array)value`, or 1 when that is empty. */
  function RowCount(value: Value): (n: nat)
    ensures n >= 1
    ensures |CastToArray(value)| > 0 ==> n == |CastToArray(value)|
    ensures |CastToArray(value)| == 0 ==> n == 1
  {
    var rows := CastToArray(value);
    if |rows| > 0 then |rows| else 1
  }

  // ---------------------------------------------------------------------
  // The rendering loops

  /** generate_group_row_template: builds the row's subfields one at a time. */
  method GenerateGroupRowTemplate(args: GroupArgs, blank: bool, row: nat) returns (t: RowTemplate)
    ensures t == RowTemplateFor(args, blank, row)
    ensures |args.subfields| == 0 <==> t.NoRow?
  {
    if |args.subfields| == 0 {
      return NoRow;
    }
    var rowIdValue := if blank then Str("") else RowId(args.value, row);
    var rowClass := if row % 2 == 0 then "alternate" else "";
    var subs: seq<SubfieldArgs> := [];
    for j := 0 to |args.subfields|
      invariant |subs| == j
      invariant forall k :: 0 <= k < j ==> subs[k] == SubfieldFor(args, blank, row, args.subfields[k])
    {
      var sub := args.subfields[j];
      var sid := SubfieldId(sub);
      var value := if blank then Str("") else Coalesce(Lookup(RowValue(args.value, row), StrKey(sid)), Str(""));
      var fieldType := SubfieldType(sub);
      var subArgs := SubfieldArgs(SubfieldDomId(args.id, row, sid), SubfieldName(args.name, row, sid), value, fieldType, Dispatch(fieldType));
      assert subArgs == SubfieldFor(args, blank, row, sub);
      subs := subs + [subArgs];
    }
    assert subs == seq(|args.subfields|, j requires 0 <= j < |args.subfields| => SubfieldFor(args, blank, row, args.subfields[j]));
    t := Row(row, rowClass, args.name + "[" + NatToString(row) + "][row_id]", rowIdValue, subs);
  }

  /** generate_group_field: one row per stored entry (at least one), then the blank template. */
  method GenerateGroupField(args: GroupArgs) returns (rows: seq<RowTemplate>, template: RowTemplate)
    ensures |rows| == RowCount(args.value)
    ensures forall r :: 0 <= r < |rows| ==> rows[r] == RowTemplateFor(args, false, r)
    ensures template == RowTemplateFor(args, true, 0)
  {
    var value := CastToArray(args.value);
    var rowCount := if |value| > 0 then |value| else 1;
    rows := [];
    for row := 0 to rowCount
      invariant |rows| == row
      invariant forall r :: 0 <= r < row ==> rows[r] == RowTemplateFor(args, false, r)
    {
      var t := GenerateGroupRowTemplate(args, false, row);
      rows := rows + [t];
    }
    template := GenerateGroupRowTemplate(args, true, 0);
  }

  // ---------------------------------------------------------------------
  // Properties

  /** A row's identifier is the stored non-empty `row_id`, else the row index; the blank template's is "". */
  lemma RowIdPreserved(args: GroupArgs, row: nat)
    requires |args.subfields| > 0
    ensures var stored := Lookup(Lookup(args.value, IntKey(row)), StrKey("row_id"));
            RowTemplateFor(args, false, row).rowIdValue == (if Empty(stored) then Int(row) else stored)
    ensures RowTemplateFor(args, true, row).rowIdValue == Str("")
  {
  }

  /** In the blank template every subfield value is "", whatever is stored. */
  lemma BlankTemplateIsEmpty(args: GroupArgs, j: nat)
    requires j < |args.subfields|
    ensures RowTemplateFor(args, true, 0).subfields[j].value == Str("")
    ensures RowTemplateFor(args, true, 0).index == 0
  {
  }

  /** A rendered subfield shows the stored `value[row][sub]` when set, else "". */
  lemma RowSubfieldValue(args: GroupArgs, row: nat, j: nat, es: seq<(Key, Value)>, i: nat)
    requires j < |args.subfields|
    requires args.value == Arr(es) && i < |es| && es[i].0 == IntKey(row)
    requires forall k :: 0 <= k < i ==> es[k].0 != IntKey(row)
    ensures var stored := Lookup(es[i].1, StrKey(SubfieldId(args.subfields[j])));
            RowTemplateFor(args, false, row).subfields[j].value == (if IsSet(stored) then stored else Str(""))
  {
    LookupFound(es, i, IntKey(row));
  }

  /**
   * When the stored rows are keyed 0, 1, 2, ... (as a saved group is), row r
   * shows the r-th stored entry: its subfield values and its row_id.
   */
  lemma ContiguousRowsAllShown(args: GroupArgs, r: nat, j: nat)
    requires args.value.Arr?
    requires forall i :: 0 <= i < |args.value.entries| ==> args.value.entries[i].0 == IntKey(i)
    requires r < |args.value.entries| && j < |args.subfields|
    ensures r < RowCount(args.value)
    ensures var entry := args.value.entries[r].1;
            var stored := Lookup(entry, StrKey(SubfieldId(args.subfields[j])));
            RowTemplateFor(args, false, r).subfields[j].value == (if IsSet(stored) then stored else Str(""))
    ensures var rowId := Lookup(args.value.entries[r].1, StrKey("row_id"));
            RowTemplateFor(args, false, r).rowIdValue == (if Empty(rowId) then Int(r) else rowId)
  {
    LookupFound(args.value.entries, r, IntKey(r));
  }

  /** Even rows are `alternate`, odd rows carry no class. */
  lemma RowClassesAlternate(args: GroupArgs, row: nat)
    requires |args.subfields| > 0
    ensures RowTemplateFor(args, false, row).rowClass == "alternate" <==> row % 2 == 0
    ensures RowTemplateFor(args, false, row + 1).rowClass != RowTemplateFor(args, false, row).rowClass
  {
  }

  /** A printed row index holds neither `]` nor `_`, the separators of subfield names and DOM ids. */
  lemma DigitsHaveNoSeparator(row: nat)
    ensures ']' !in NatToString(row) && '_' !in NatToString(row)
  {
  }

  /** Subfield names of one group never collide: equal names mean the same row and the same subfield id. */
  lemma SubfieldNameInjective(name: string, r1: nat, s1: string, r2: nat, s2: string)
    requires SubfieldName(name, r1, s1) == SubfieldName(name, r2, s2)
    ensures r1 == r2 && s1 == s2
  {
    var p := name + "[";
    var t1 := NatToString(r1);
    var t2 := NatToString(r2);
    var tail1 := "[" + s1 + "]";
    var tail2 := "[" + s2 + "]";
    assert SubfieldName(name, r1, s1) == p + (t1 + [']'] + tail1);
    assert SubfieldName(name, r2, s2) == p + (t2 + [']'] + tail2);
    assert t1 + [']'] + tail1 == (p + (t1 + [']'] + tail1))[|p|..];
    assert t2 + [']'] + tail2 == (p + (t2 + [']'] + tail2))[|p|..];
    DigitsHaveNoSeparator(r1);
    DigitsHaveNoSeparator(r2);
    SplitAtFirst(']', t1, tail1, t2, tail2);
    NatToStringInjective(r1, r2);
    assert s1 == tail1[1..|tail1| - 1];
    assert s2 == tail2[1..|tail2| - 1];
  }

  /** Subfield DOM ids of one group never collide across rows or subfield ids. */
  lemma SubfieldDomIdInjective(id: string, r1: nat, s1: string, r2: nat, s2: string)
    requires SubfieldDomId(id, r1, s1) == SubfieldDomId(id, r2, s2)
    ensures r1 == r2 && s1 == s2
  {
    var p := id + "_";
    var t1 := NatToString(r1);
    var t2 := NatToString(r2);
    assert SubfieldDomId(id, r1, s1) == p + (t1 + "_" + s1);
    assert SubfieldDomId(id, r2, s2) == p + (t2 + "_" + s2);
    assert t1 + "_" + s1 == (p + (t1 + "_" + s1))[|p|..];
    assert t2 + "_" + s2 == (p + (t2 + "_" + s2))[|p|..];
    DigitsHaveNoSeparator(r1);
    DigitsHaveNoSeparator(r2);
    SplitAtFirst('_', t1, s1, t2, s2);
    NatToStringInjective(r1, r2);
  }

  /**
   * Rows are looked up by row number used as a key, not by walking the
   * stored keys: with entries stored under keys 0 and 2, two rows are
   * rendered, row 1 is read as missing (its value is "" and its id is 1),
   * and the entry under key 2 is not shown.
   */
  lemma SparseRowsLeaveGaps()
    ensures var sub := Field(Some("a"), None, Null, None, Visibility(None, None), []);
            var args := GroupArgs("g", "n", Arr([(IntKey(0), Arr([(StrKey("a"), Str("x"))])), (IntKey(2), Arr([(StrKey("a"), Str("y"))]))]), [sub]);
            RowCount(args.value) == 2
            && RowTemplateFor(args, false, 0).subfields[0].value == Str("x")
            && RowTemplateFor(args, false, 1).subfields[0].value == Str("")
            && RowTemplateFor(args, false, 1).rowIdValue == Int(1)
  {
  }
}
