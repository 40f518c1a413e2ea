/**
 * The upload scenario of `funds/tests/tests.py`: a header and two funds, the
 * second with no aum and no inception date, uploaded into an empty table once
 * and then a second time.
 */
module UploadExample {
  import opened Base
  import opened CsvReading
  import opened Funds
  import opened FundStore

  const HeaderFields: seq<string> := ["Name", "Strategy", "AUM (USD)", "Inception Date"]
  const FirstFields: seq<string> := ["Amazing Fund 1", "Long/Short Equity", "355000000", "2011-03-10"]
  const SecondFields: seq<string> := ["Another Fund Y", "Global Macro", "", ""]

  /** The test's file: three comma-separated lines, the last without a final line break. */
  function ExampleText(): string {
    Terminated([JoinFields(HeaderFields), JoinFields(FirstFields)], "\n") + JoinFields(SecondFields)
  }

  lemma {:induction false} JoinFieldsNoLineBreak(fields: seq<string>)
    requires forall j :: 0 <= j < |fields| ==> NoLineBreak(fields[j])
    ensures NoLineBreak(JoinFields(fields))
    decreases |fields|
  {
    if |fields| > 1 {
      JoinFieldsNoLineBreak(fields[1..]);
      var s := JoinFields(fields);
      var tail := JoinFields(fields[1..]);
      assert s == fields[0] + "," + tail;
      forall k | 0 <= k < |s| ensures !IsLineBreak(s[k]) {
        if k < |fields[0]| {
          assert s[k] == fields[0][k];
        } else if k > |fields[0]| {
          assert s[k] == tail[k - |fields[0]| - 1];
        }
      }
    }
  }

  predicate PlainFields(fields: seq<string>) {
    |fields| >= 2 && forall j :: 0 <= j < |fields| ==> NoComma(fields[j]) && NoLineBreak(fields[j])
  }

  lemma JoinedNonEmpty(fields: seq<string>)
    requires |fields| >= 2
    ensures JoinFields(fields) != ""
  {
    assert JoinFields(fields)[|fields[0]|] == ',';
  }

  /**
   * A header and two data lines: reading them gives the two data rows, field by
   * field.
   */
  lemma ThreeLineFile(header: seq<string>, a: seq<string>, b: seq<string>)
    requires PlainFields(header) && PlainFields(a) && PlainFields(b)
    ensures RowsAfterHeader(SplitLines(Terminated([JoinFields(header), JoinFields(a)], "\n") + JoinFields(b))) == Some([a, b])
  {
    var h, la, lb := JoinFields(header), JoinFields(a), JoinFields(b);
    JoinFieldsNoLineBreak(header);
    JoinFieldsNoLineBreak(a);
    JoinFieldsNoLineBreak(b);
    JoinedNonEmpty(header);
    JoinedNonEmpty(a);
    JoinedNonEmpty(b);
    SplitTerminated([h, la], "\n", lb);
    assert SplitLines(Terminated([h, la], "\n") + lb) == [] + [h] + [la, lb];
    ReadRowJoin(a);
    ReadRowJoin(b);
    HeaderDiscarded([], h, [la, lb]);
    assert [la, lb][1..][1..] == [];
    assert NonEmptyRows([la, lb][1..]) == [b];
    assert NonEmptyRows([la, lb]) == [a, b];
    assert [] + [h] + [la, lb] == [h, la, lb];
  }

  lemma HeaderPlain() ensures PlainFields(HeaderFields) {
    assert NoComma(HeaderFields[0]) && NoLineBreak(HeaderFields[0]);
    assert NoComma(HeaderFields[1]) && NoLineBreak(HeaderFields[1]);
    assert NoComma(HeaderFields[2]) && NoLineBreak(HeaderFields[2]);
    assert NoComma(HeaderFields[3]) && NoLineBreak(HeaderFields[3]);
  }

  lemma FirstPlain() ensures PlainFields(FirstFields) {
    assert NoComma(FirstFields[0]) && NoLineBreak(FirstFields[0]);
    assert NoComma(FirstFields[1]) && NoLineBreak(FirstFields[1]);
    assert NoComma(FirstFields[2]) && NoLineBreak(FirstFields[2]);
    assert NoComma(FirstFields[3]) && NoLineBreak(FirstFields[3]);
  }

  lemma SecondPlain() ensures PlainFields(SecondFields) {
    assert NoComma(SecondFields[0]) && NoLineBreak(SecondFields[0]);
    assert NoComma(SecondFields[1]) && NoLineBreak(SecondFields[1]);
  }

  lemma ExampleRows()
    ensures RowsAfterHeader(SplitLines(ExampleText())) == Some([FirstFields, SecondFields])
  {
    HeaderPlain();
    FirstPlain();
    SecondPlain();
    ThreeLineFile(HeaderFields, FirstFields, SecondFields);
  }

  const FirstRecord := Record("Amazing Fund 1", FundValues("Long/Short Equity", Some(355000000), Some(Date(2011, 3, 10))))
  const SecondRecord := Record("Another Fund Y", FundValues("Global Macro", None, None))

  /** The example file becomes two records; the second has no aum and no inception date. */
  lemma ExampleBatch(file: seq<bv8>, conv: Conversions)
    requires conv.decodeUtf8(file) == Some(ExampleText())
    requires conv.toAum("355000000") == Some(355000000)
    requires conv.toDate("2011-03-10") == Some(Date(2011, 3, 10))
    ensures Batch(file, conv) == Success([FirstRecord, SecondRecord])
  {
    ExampleRows();
    FirstAccepted(conv);
    SecondAccepted(conv);
    TwoRowBatch(file, conv, ExampleText(), FirstFields, SecondFields);
  }

  lemma FirstAccepted(conv: Conversions)
    requires conv.toAum("355000000") == Some(355000000)
    requires conv.toDate("2011-03-10") == Some(Date(2011, 3, 10))
    ensures RowAccepted(FirstFields, conv) && RecordOf(FirstFields, conv) == FirstRecord
  {
    assert FirstFields[2] == "355000000" && FirstFields[3] == "2011-03-10";
  }

  lemma SecondAccepted(conv: Conversions)
    ensures RowAccepted(SecondFields, conv) && RecordOf(SecondFields, conv) == SecondRecord
  {
    assert Field(SecondFields, 2) == None && Field(SecondFields, 3) == None;
  }

  lemma TwoRowBatch(file: seq<bv8>, conv: Conversions, text: string, a: seq<string>, b: seq<string>)
    requires conv.decodeUtf8(file) == Some(text)
    requires RowsAfterHeader(SplitLines(text)) == Some([a, b])
    requires RowAccepted(a, conv) && RowAccepted(b, conv)
    ensures Batch(file, conv) == Success([RecordOf(a, conv), RecordOf(b, conv)])
  {
    var rows := [a, b];
    assert rows[0] == a && rows[1] == b;
    BatchOfRows(file, conv, text, rows);
    var r := Batch(file, conv);
    assert r.Success?;
    PairResult(r, RecordOf(a, conv), RecordOf(b, conv));
  }

  lemma PairResult(r: Result<seq<Record>, UploadError>, x: Record, y: Record)
    requires r.Success? && |r.value| == 2 && r.value[0] == x && r.value[1] == y
    ensures r == Success([x, y])
  {
    assert r.value == [x, y];
  }

  /** Two records with different names upserted into an empty table leave two rows. */
  lemma TwoNewRecords(rows: map<string, Fund>, r1: Record, r2: Record)
    requires r1.name != r2.name
    requires Upserted(map[], rows, [r1, r2])
    ensures |rows| == 2
    ensures r1.name in rows && r2.name in rows
    ensures rows[r2.name].Values() == r2.values
  {
    var batch := [r1, r2];
    var values := ApplyBatch(map[], batch);
    assert values == map[r1.name := r1.values][r2.name := r2.values] by {
      assert batch[..1] == [r1];
      assert [r1][..0] == [];
      assert ApplyBatch(map[], [r1]) == map[][r1.name := r1.values];
    }
    assert ValuesOf(rows) == values;
    assert rows.Keys == ValuesOf(rows).Keys;
    assert rows.Keys == {r1.name, r2.name};
    assert ValuesOf(rows)[r2.name] == rows[r2.name].Values();
  }

  lemma ExampleCount(rows: map<string, Fund>)
    requires Upserted(map[], rows, [FirstRecord, SecondRecord])
    ensures |rows| == 2
    ensures FirstRecord.name in rows && SecondRecord.name in rows
    ensures rows[SecondRecord.name].aum == None && rows[SecondRecord.name].inceptionDate == None
  {
    assert |FirstRecord.name| != |SecondRecord.name| || FirstRecord.name[1] != SecondRecord.name[1];
    TwoNewRecords(rows, FirstRecord, SecondRecord);
  }

  /**
   * `test_upload` and `test_upload_twice`: into an empty table the file
   * uploads two funds, one of them with a NULL aum, and uploading it again
   * still leaves two.
   */
  method UploadExampleTwice(file: seq<bv8>, conv: Conversions)
    returns (first: Outcome<UploadError>, countAfterFirst: nat, second: Outcome<UploadError>, countAfterSecond: nat,
             secondAum: Option<int>)
    requires conv.decodeUtf8(file) == Some(ExampleText())
    requires conv.toAum("355000000") == Some(355000000)
    requires conv.toDate("2011-03-10") == Some(Date(2011, 3, 10))
    ensures first == Pass && countAfterFirst == 2
    ensures second == Pass && countAfterSecond == 2
    ensures secondAum == None
  {
    ExampleBatch(file, conv);
    var table := new FundTable();
    first := table.UploadFunds(file, conv);
    ExampleCount(table.rows);
    countAfterFirst := |table.rows|;
    ghost var once := table.rows;
    second := table.UploadFunds(file, conv);
    UploadTwice(map[], once, table.rows, [FirstRecord, SecondRecord]);
    countAfterSecond := |table.rows|;
    secondAum := table.rows[SecondRecord.name].aum;
  }
}
