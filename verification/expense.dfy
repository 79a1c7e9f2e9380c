/** The expense endpoint's projection of AnalyzeExpense documents: summary
    label/value pairs and line-item rows. A member access the source makes
    without a null check is modelled as a failure when the object is missing. */
module Expense {
  import opened Wrappers
  import opened Seqs

  /** An `ExpenseType` or `ExpenseDetection`: only its text is read. */
  datatype Detection = Detection(text: Option<string>)

  /** An `ExpenseField`; each of its three parts may be missing. */
  datatype ExpenseField = ExpenseField(
    fieldType: Option<Detection>,
    labelDetection: Option<Detection>,
    valueDetection: Option<Detection>)

  datatype LineItem = LineItem(fields: seq<ExpenseField>)
  datatype LineItemGroup = LineItemGroup(items: seq<LineItem>)
  datatype ExpenseDocument = ExpenseDocument(summaryFields: seq<ExpenseField>, groups: seq<LineItemGroup>)

  /** The null dereferences the projection can hit. */
  datatype ExpenseError = MissingType | MissingLabel | MissingValue

  datatype Summary = Summary(key: Option<string>, value: Option<string>)
  datatype Column = Column(columnName: Option<string>, value: Option<string>)
  datatype LineItemRows = LineItemRows(rows: seq<Column>)
  datatype ExpenseResult = ExpenseResult(summaries: seq<Summary>, tables: seq<seq<LineItemRows>>)

  /** The `Type.Text` that marks a line item's whole-row field. */
  const ExpenseRowType: string := "EXPENSE_ROW"

  /** `s.LabelDetection?.Text`: null-safe. */
  function LabelText(f: ExpenseField): Option<string> {
    if f.labelDetection.Some? then f.labelDetection.value.text else None
  }

  // -------------------------------------------------------------- Summaries

  /** One summary: the label text when it is not null, otherwise the type
      text; then the value text. */
  function SummaryOf(f: ExpenseField): (r: Result<Summary, ExpenseError>)
    ensures r.Success? <==> f.valueDetection.Some? && (LabelText(f).Some? || f.fieldType.Some?)
    ensures r.Success? ==> r.value.value == f.valueDetection.value.text
    ensures r.Success? && LabelText(f).Some? ==> r.value.key == LabelText(f)
    ensures r.Success? && LabelText(f).None? ==> r.value.key == f.fieldType.value.text
    ensures LabelText(f).None? && f.fieldType.None? ==> r == Failure(MissingType)
    ensures (LabelText(f).Some? || f.fieldType.Some?) && f.valueDetection.None? ==> r == Failure(MissingValue)
  {
    var key :- if LabelText(f).Some? then Success(LabelText(f))
               else if f.fieldType.Some? then Success(f.fieldType.value.text)
               else Failure(MissingType);
    if f.valueDetection.None? then Failure(MissingValue)
    else Success(Summary(key, f.valueDetection.value.text))
  }

  /** The summaries of a document: one per summary field, in order. */
  function Summaries(fs: seq<ExpenseField>): (r: Result<seq<Summary>, ExpenseError>)
    ensures r.Success? <==> forall i :: 0 <= i < |fs| ==> SummaryOf(fs[i]).Success?
    ensures r.Success? ==> |r.value| == |fs| && forall i :: 0 <= i < |fs| ==> SummaryOf(fs[i]) == Success(r.value[i])
    ensures r.Failure? ==> exists i :: 0 <= i < |fs| && SummaryOf(fs[i]) == Failure(r.error)
                                       && forall j :: 0 <= j < i ==> SummaryOf(fs[j]).Success?
  {
    MapResult(fs, SummaryOf)
  }

  // ------------------------------------------------------------- Line items

  /** A field that stays among a line item's rows. */
  predicate IsKept(f: ExpenseField) {
    f.fieldType.Some? && f.fieldType.value.text != Some(ExpenseRowType)
  }

  /** `Where(lef => lef.Type.Text != "EXPENSE_ROW")`: dereferences the type. */
  function Kept(f: ExpenseField): (r: Result<bool, ExpenseError>)
    ensures r.Success? <==> f.fieldType.Some?
    ensures r.Success? ==> (r.value <==> IsKept(f))
  {
    if f.fieldType.None? then Failure(MissingType)
    else Success(f.fieldType.value.text != Some(ExpenseRowType))
  }

  /** One column: label and value text, both read without a null check. */
  function ColumnOf(f: ExpenseField): (r: Result<Column, ExpenseError>)
    ensures r.Success? <==> f.labelDetection.Some? && f.valueDetection.Some?
    ensures r.Success? ==> r.value.columnName == f.labelDetection.value.text && r.value.value == f.valueDetection.value.text
    ensures f.labelDetection.None? ==> r == Failure(MissingLabel)
    ensures f.labelDetection.Some? && f.valueDetection.None? ==> r == Failure(MissingValue)
  {
    if f.labelDetection.None? then Failure(MissingLabel)
    else if f.valueDetection.None? then Failure(MissingValue)
    else Success(Column(f.labelDetection.value.text, f.valueDetection.value.text))
  }

  /** Can the filter read every field of `fs`, and can every kept one be projected? */
  predicate RowsDefined(fs: seq<ExpenseField>) {
    forall i :: 0 <= i < |fs| ==> fs[i].fieldType.Some? && (IsKept(fs[i]) ==> ColumnOf(fs[i]).Success?)
  }

  /** `Where(...).Select(...)` over a line item's fields, run lazily: each
      field is filtered and, when kept, projected before the next is looked
      at. It fails exactly when some field has no type or some kept field
      lacks a label or a value. */
  function Rows(fs: seq<ExpenseField>): (r: Result<seq<Column>, ExpenseError>)
    ensures r.Success? <==> RowsDefined(fs)
  {
    if |fs| == 0 then Success([])
    else
      assert forall i :: 1 <= i < |fs| ==> fs[i] == fs[1..][i - 1];
      var keep :- Kept(fs[0]);
      if keep then
        var head :- ColumnOf(fs[0]);
        var tail :- Rows(fs[1..]);
        Success([head] + tail)
      else
        Rows(fs[1..])
  }

  /** When the lazy pass succeeds, its rows are the kept fields' columns in
      order: filtering first and projecting second gives the same rows. */
  lemma {:induction false} RowsAreKeptColumns(fs: seq<ExpenseField>)
    requires Rows(fs).Success?
    ensures |Rows(fs).value| == |Filter(fs, IsKept)|
    ensures forall i :: 0 <= i < |Rows(fs).value| ==> ColumnOf(Filter(fs, IsKept)[i]) == Success(Rows(fs).value[i])
  {
    if |fs| > 0 {
      var tail := fs[1..];
      RowsStep(fs);
      RowsAreKeptColumns(tail);
      assert fs == [fs[0]] + tail;
      FilterCons(fs[0], tail, IsKept);
      var r, rt := Rows(fs).value, Rows(tail).value;
      var k, kt := Filter(fs, IsKept), Filter(tail, IsKept);
      if IsKept(fs[0]) {
        assert r == [ColumnOf(fs[0]).value] + rt;
        assert k == [fs[0]] + kt;
        forall i | 0 <= i < |r|
          ensures ColumnOf(k[i]) == Success(r[i])
        {
          if i > 0 {
            assert k[i] == kt[i - 1] && r[i] == rt[i - 1];
          }
        }
      } else {
        assert r == rt && k == kt;
      }
    }
  }

  /** A failing pass reports the first field it cannot handle: every field
      before it is fine, and it either has no type or is kept and lacks a
      label or a value. */
  lemma {:induction false} RowsFailAtFirstBadField(fs: seq<ExpenseField>)
    requires Rows(fs).Failure?
    ensures exists i :: 0 <= i < |fs| && RowsDefined(fs[..i])
                        && if fs[i].fieldType.None? then Rows(fs).error == MissingType
                           else IsKept(fs[i]) && ColumnOf(fs[i]) == Failure(Rows(fs).error)
  {
    var tail := fs[1..];
    assert fs[..0] == [];
    if fs[0].fieldType.Some? && (IsKept(fs[0]) ==> ColumnOf(fs[0]).Success?) {
      assert Rows(fs) == Rows(tail);
      RowsFailAtFirstBadField(tail);
      var i :| 0 <= i < |tail| && RowsDefined(tail[..i])
               && if tail[i].fieldType.None? then Rows(tail).error == MissingType
                  else IsKept(tail[i]) && ColumnOf(tail[i]) == Failure(Rows(tail).error);
      assert fs[..i + 1] == [fs[0]] + tail[..i];
      assert RowsDefined(fs[..i + 1]);
      assert fs[i + 1] == tail[i];
    } else if fs[0].fieldType.None? {
      assert Rows(fs).error == MissingType;
      assert RowsDefined(fs[..0]);
    } else {
      assert IsKept(fs[0]) && ColumnOf(fs[0]) == Failure(Rows(fs).error);
      assert RowsDefined(fs[..0]);
    }
  }

  /** One step of the lazy pass: a successful pass over `fs` succeeds on its
      tail and puts the head's column in front exactly when the head is kept. */
  lemma RowsStep(fs: seq<ExpenseField>)
    requires |fs| > 0 && Rows(fs).Success?
    ensures Rows(fs[1..]).Success?
    ensures IsKept(fs[0]) ==> ColumnOf(fs[0]).Success?
                              && Rows(fs).value == [ColumnOf(fs[0]).value] + Rows(fs[1..]).value
    ensures !IsKept(fs[0]) ==> Rows(fs).value == Rows(fs[1..]).value
  {
  }

  /** The rows of one line item. */
  function LineItemOf(li: LineItem): (r: Result<LineItemRows, ExpenseError>)
    ensures r.Success? <==> RowsDefined(li.fields)
    ensures r.Success? ==> r.value.rows == Rows(li.fields).value
    ensures r.Failure? ==> r.error == Rows(li.fields).error
  {
    var rows :- Rows(li.fields);
    Success(LineItemRows(rows))
  }

  /** One entry per line item group, each with one entry per line item. */
  function LineItemTables(groups: seq<LineItemGroup>): (r: Result<seq<seq<LineItemRows>>, ExpenseError>)
    ensures r.Success? <==> forall i, j :: 0 <= i < |groups| && 0 <= j < |groups[i].items| ==>
                                           RowsDefined(groups[i].items[j].fields)
    ensures r.Success? ==> |r.value| == |groups|
                           && forall i :: 0 <= i < |groups| ==> |r.value[i]| == |groups[i].items|
    ensures r.Success? ==> forall i, j :: 0 <= i < |groups| && 0 <= j < |groups[i].items| ==>
                                           LineItemOf(groups[i].items[j]) == Success(r.value[i][j])
  {
    MapResult(groups, GroupTable)
  }

  /** The entries of one line item group. */
  function GroupTable(g: LineItemGroup): Result<seq<LineItemRows>, ExpenseError> {
    MapResult(g.items, LineItemOf)
  }

  /** A failing projection reports the first line item, in group order and
      then item order, whose rows cannot be built. */
  lemma LineItemTablesFailAtFirstBadItem(groups: seq<LineItemGroup>)
    ensures LineItemTables(groups).Failure? ==>
              exists i, j :: 0 <= i < |groups| && 0 <= j < |groups[i].items|
                             && LineItemOf(groups[i].items[j]) == Failure(LineItemTables(groups).error)
                             && (forall k :: 0 <= k < j ==> LineItemOf(groups[i].items[k]).Success?)
                             && forall g, k :: 0 <= g < i && 0 <= k < |groups[g].items| ==>
                                                 LineItemOf(groups[g].items[k]).Success?
  {
    var i, j := FirstBadItem(groups);
  }

  /** The position of the first line item whose rows cannot be built. */
  lemma FirstBadItem(groups: seq<LineItemGroup>) returns (i: nat, j: nat)
    ensures MapResult(groups, GroupTable).Failure? ==>
              && i < |groups| && j < |groups[i].items|
              && LineItemOf(groups[i].items[j]) == Failure(MapResult(groups, GroupTable).error)
              && (forall k :: 0 <= k < j ==> LineItemOf(groups[i].items[k]).Success?)
              && forall g, k :: 0 <= g < i && 0 <= k < |groups[g].items| ==> LineItemOf(groups[g].items[k]).Success?
  {
    i := FirstBadGroup(groups);
    if i < |groups| && GroupTable(groups[i]).Failure? {
      j := GroupTableFailure(groups[i]);
      forall g, k | 0 <= g < i && 0 <= k < |groups[g].items|
        ensures LineItemOf(groups[g].items[k]).Success?
      {
        GroupTableSuccess(groups[g], k);
      }
    } else {
      j := 0;
    }
  }

  /** The first group of a failing projection whose entries cannot be built. */
  lemma FirstBadGroup(groups: seq<LineItemGroup>) returns (i: nat)
    ensures MapResult(groups, GroupTable).Failure? ==>
              && i < |groups| && GroupTable(groups[i]) == Failure(MapResult(groups, GroupTable).error)
              && forall g :: 0 <= g < i ==> GroupTable(groups[g]).Success?
  {
    if MapResult(groups, GroupTable).Failure? {
      i :| 0 <= i < |groups| && GroupTable(groups[i]) == Failure(MapResult(groups, GroupTable).error)
           && forall g :: 0 <= g < i ==> GroupTable(groups[g]).Success?;
    } else {
      i := 0;
    }
  }

  /** The first item of a failing group whose rows cannot be built. */
  lemma GroupTableFailure(grp: LineItemGroup) returns (j: nat)
    requires GroupTable(grp).Failure?
    ensures j < |grp.items| && LineItemOf(grp.items[j]) == Failure(GroupTable(grp).error)
    ensures forall k :: 0 <= k < j ==> LineItemOf(grp.items[k]).Success?
  {
    j :| 0 <= j < |grp.items| && LineItemOf(grp.items[j]) == Failure(GroupTable(grp).error)
         && forall k :: 0 <= k < j ==> LineItemOf(grp.items[k]).Success?;
  }

  /** Every item of a successful group has rows. */
  lemma GroupTableSuccess(grp: LineItemGroup, k: nat)
    requires GroupTable(grp).Success? && k < |grp.items|
    ensures LineItemOf(grp.items[k]).Success?
  {
  }

  // ---------------------------------------------------------------- Endpoint

  function DocumentOf(d: ExpenseDocument): (r: Result<ExpenseResult, ExpenseError>)
    ensures r.Success? ==> Summaries(d.summaryFields) == Success(r.value.summaries)
                           && LineItemTables(d.groups) == Success(r.value.tables)
    ensures r.Success? <==> Summaries(d.summaryFields).Success? && LineItemTables(d.groups).Success?
    ensures r.Failure? ==> if Summaries(d.summaryFields).Failure? then r.error == Summaries(d.summaryFields).error
                           else r.error == LineItemTables(d.groups).error
  {
    var summaries :- Summaries(d.summaryFields);
    var tables :- LineItemTables(d.groups);
    Success(ExpenseResult(summaries, tables))
  }

  /** `GetExpenseResult` after the service call: one result per expense
      document, in order. */
  function GetExpenseResult(docs: seq<ExpenseDocument>): (r: Result<seq<ExpenseResult>, ExpenseError>)
    ensures r.Success? <==> forall i :: 0 <= i < |docs| ==> DocumentOf(docs[i]).Success?
    ensures r.Success? ==> |r.value| == |docs| && forall i :: 0 <= i < |docs| ==> DocumentOf(docs[i]) == Success(r.value[i])
  {
    MapResult(docs, DocumentOf)
  }

  /** A failing endpoint reports the first expense document whose result
      cannot be built. */
  lemma GetExpenseResultFailsAtFirstBadDocument(docs: seq<ExpenseDocument>)
    ensures GetExpenseResult(docs).Failure? ==>
              exists i :: 0 <= i < |docs| && DocumentOf(docs[i]) == Failure(GetExpenseResult(docs).error)
                          && forall j :: 0 <= j < i ==> DocumentOf(docs[j]).Success?
  {
  }
}
