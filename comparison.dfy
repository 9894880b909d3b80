/** The non-GUI part of `GUI.compare_files` (analyze.py:113-147): each document's
    kept rows go through `extract_inn`, only all-digit values are compared, and the
    displayed counts are the lengths of the filtered lists. */
module Comparison {
  import opened Text
  import opened Sequences
  import opened RowFilter
  import opened InnExtraction
  import opened Reconciliation

  /** `[x for x in inn if x.isdigit()]`. */
  function NumericOnly(inns: seq<string>): (ids: seq<string>)
    ensures |ids| <= |inns|
    ensures forall i :: 0 <= i < |ids| ==> IsDigits(ids[i])
    ensures forall x :: x in ids <==> x in inns && IsDigits(x)
    ensures forall x :: multiset(ids)[x] == if IsDigits(x) then multiset(inns)[x] else 0
  {
    assert inns != [] ==> inns == [inns[0]] + inns[1..];
    if inns == [] then []
    else if IsDigits(inns[0]) then [inns[0]] + NumericOnly(inns[1..])
    else NumericOnly(inns[1..])
  }

  /** The numeric filter keeps the surviving values in their original order. */
  lemma {:induction false} NumericOnlyKeepsOrder(inns: seq<string>)
    ensures IsSubsequence(NumericOnly(inns), inns)
  {
    if inns != [] {
      NumericOnlyKeepsOrder(inns[1..]);
      var rest := NumericOnly(inns[1..]);
      if IsDigits(inns[0]) {
        assert ([inns[0]] + rest)[0] == inns[0] && ([inns[0]] + rest)[1..] == rest;
      }
    }
  }

  /** A list of all-digit values passes the filter whole. */
  lemma {:induction false} NumericOnlyOfDigits(inns: seq<string>)
    requires forall i :: 0 <= i < |inns| ==> IsDigits(inns[i])
    ensures NumericOnly(inns) == inns
  {
    if inns != [] {
      NumericOnlyOfDigits(inns[1..]);
      assert [inns[0]] + inns[1..] == inns;
    }
  }

  /** Column 0 of the worksheet as it is read back: the text of each kept row's first cell. */
  function FirstColumn(sheet: seq<Row>): (column: seq<string>)
    requires forall i :: 0 <= i < |sheet| ==> |sheet[i]| > 0 && sheet[i][0].Some?
    ensures |column| == |sheet|
    ensures forall i :: 0 <= i < |sheet| ==> column[i] == sheet[i][0].value
  {
    if sheet == [] then [] else [sheet[0][0].value] + FirstColumn(sheet[1..])
  }

  /** Every row on the worksheet has text in its first cell. */
  lemma KeptRowsHaveText(tables: seq<Table>)
    ensures forall i :: 0 <= i < |KeptRows(tables)| ==>
      |KeptRows(tables)[i]| > 0 && KeptRows(tables)[i][0].Some? && KeptRows(tables)[i][0].value != ""
  {
    KeptRowsIsFilteredFlatten(tables);
    RowsWithTextMembers(Flatten(tables));
    forall i | 0 <= i < |KeptRows(tables)|
      ensures |KeptRows(tables)[i]| > 0 && KeptRows(tables)[i][0].Some? && KeptRows(tables)[i][0].value != ""
    {
      assert HasText(KeptRows(tables)[i]);
    }
  }

  /** One document's `extract_inn(load_tables_from_xlsx(...))`. */
  function DocumentInns(tables: seq<Table>): (inns: seq<string>)
    ensures |inns| == |KeptRows(tables)|
    ensures forall i :: 0 <= i < |inns| ==>
      |KeptRows(tables)[i]| > 0 && KeptRows(tables)[i][0].Some?
      && inns[i] == NormalizeCell(KeptRows(tables)[i][0].value)
  {
    KeptRowsHaveText(tables);
    ExtractInn(FirstColumn(KeptRows(tables)))
  }

  /** What `compare_files` displays: the two diff lists and the two counts. */
  datatype Report = Report(added: seq<string>, removed: seq<string>, oldCount: nat, newCount: nat)

  /** analyze.py:132 and 143-144, from the two `extract_inn` results. */
  function Reconcile(oldInn: seq<string>, newInn: seq<string>): (rep: Report)
    ensures forall x :: x in rep.added <==> IsDigits(x) && x in newInn && x !in oldInn
    ensures forall x :: x in rep.removed <==> IsDigits(x) && x in oldInn && x !in newInn
    ensures NoDuplicates(rep.added) && NoDuplicates(rep.removed)
    ensures rep.oldCount == |NumericOnly(oldInn)| && rep.newCount == |NumericOnly(newInn)|
    ensures |rep.added| <= rep.newCount && |rep.removed| <= rep.oldCount
  {
    var oldIds, newIds := NumericOnly(oldInn), NumericOnly(newInn);
    DiffSizeBound(oldIds, newIds);
    var d := CompareClients(oldIds, newIds);
    Report(d.added, d.removed, |oldIds|, |newIds|)
  }

  /** `compare_files` from the tables of the two documents up to the displayed values. */
  function CompareDocuments(oldTables: seq<Table>, newTables: seq<Table>): (rep: Report)
    requires NoEmptyRows(oldTables) && NoEmptyRows(newTables)
    ensures forall x :: x in rep.added <==>
      IsDigits(x) && x in DocumentInns(newTables) && x !in DocumentInns(oldTables)
    ensures forall x :: x in rep.removed <==>
      IsDigits(x) && x in DocumentInns(oldTables) && x !in DocumentInns(newTables)
    ensures NoDuplicates(rep.added) && NoDuplicates(rep.removed)
    ensures rep.oldCount == |NumericOnly(DocumentInns(oldTables))|
    ensures rep.newCount == |NumericOnly(DocumentInns(newTables))|
    ensures rep.oldCount <= |KeptRows(oldTables)| && rep.newCount <= |KeptRows(newTables)|
  {
    Reconcile(DocumentInns(oldTables), DocumentInns(newTables))
  }

  /** Each count includes repeated INNs, so it is at least the number of distinct INNs. */
  lemma CountAtLeastDistinct(oldInn: seq<string>, newInn: seq<string>)
    ensures |Elements(NumericOnly(oldInn))| <= Reconcile(oldInn, newInn).oldCount
    ensures |Elements(NumericOnly(newInn))| <= Reconcile(oldInn, newInn).newCount
  {
    ElementsBound(NumericOnly(oldInn));
    ElementsBound(NumericOnly(newInn));
  }

  /** Documents without tables give empty lists and zero counts. The program itself
      raises IndexError here, on `df.iloc[:, 0]` of the empty worksheet. */
  lemma EmptyDocuments()
    ensures CompareDocuments([], []) == Report([], [], 0, 0)
  {
  }

  /** End to end: one INN in common, one added, one removed. */
  lemma ReconcileScenario()
    ensures Reconcile(["1234567890", "9876543210"], ["1234567890", "1111111111"])
         == Report(["1111111111"], ["9876543210"], 2, 2)
  {
    var a, b, c := "1234567890", "9876543210", "1111111111";
    assert IsDigits(a) && IsDigits(b) && IsDigits(c);
    NumericOnlyOfDigits([a, b]);
    NumericOnlyOfDigits([a, c]);
    assert a != c && b != c && a != b;
  }
}
