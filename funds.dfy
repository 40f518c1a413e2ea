/**
 * The values of `funds/models.py`: the Strategy enumeration, the Fund row, and
 * the pipeline `Fund.upload_funds` runs from the uploaded bytes to the batch it
 * hands to `bulk_create` (decode, split, drop the header, map fields by
 * position, clean, build Fund objects, prepare the SQL values, NOT NULL), with
 * the upsert that batch performs stated on the table's values.
 */
module Funds {
  import opened Base
  import opened CsvReading

  /** The investment strategies, in declaration order. */
  datatype Strategy = LongShortEquity | GlobalMacro | Arbitrage {
    function Value(): string {
      match this
      case LongShortEquity => "Long/Short Equity"
      case GlobalMacro => "Global Macro"
      case Arbitrage => "Arbitrage"
    }
  }

  const Strategies: seq<Strategy> := [LongShortEquity, GlobalMacro, Arbitrage]

  /** Every strategy appears once in `Strategies`, under a value no other has. */
  lemma StrategiesEnumerated()
    ensures forall s: Strategy :: s in Strategies
    ensures forall i, j :: 0 <= i < j < |Strategies| ==> Strategies[i].Value() != Strategies[j].Value()
  {
    assert |LongShortEquity.Value()| == 17;
    assert |GlobalMacro.Value()| == 12;
    assert |Arbitrage.Value()| == 9;
    forall s: Strategy ensures s in Strategies {
      assert s == Strategies[0] || s == Strategies[1] || s == Strategies[2];
    }
  }

  datatype Date = Date(year: int, month: int, day: int)

  /** The primary key. The source draws a random UUID; the model only needs it to be new. */
  type Id = nat

  /**
   * The conversions the core calls but does not define: UTF-8 decoding of the
   * uploaded bytes, and the database's coercion of the `aum` text to an integer
   * and of the `inception_date` text to a date. `None` means the conversion
   * raised.
   */
  datatype Conversions = Conversions(
    decodeUtf8: seq<bv8> -> Option<string>,
    toAum: string -> Option<int>,
    toDate: string -> Option<Date>)

  /** Why an upload fails, with the offending text where the message shows it. */
  datatype UploadError =
    | DecodeError                           // the bytes are not UTF-8
    | MissingHeader                         // no non-empty line: `next(reader)` raises StopIteration
    | ExtraFields                           // a row with more than four fields: `Fund(**d)` gets the key None
    | InvalidAum(aumText: string)           // the aum text is not an integer
    | InvalidInceptionDate(dateText: string) // the inception date text is not a date
    | NullName                              // NOT NULL constraint on `name`
    | NullStrategy                          // NOT NULL constraint on `strategy`

  // ---------------------------------------------------------------------------
  // One row, from DictReader to candidate record

  /** The field names `upload_funds` gives the reader, in column order. */
  datatype Column = NameColumn | StrategyColumn | AumColumn | InceptionDateColumn

  const FieldNames: seq<Column> := [NameColumn, StrategyColumn, AumColumn, InceptionDateColumn]

  /** A key of the reader's dict: a field name, or None (the reader's restkey). */
  datatype Key = ColumnKey(column: Column) | RestKey

  /** A value of the reader's dict: None, one field's text, or the list of surplus fields. */
  datatype Cell = Null | Text(text: string) | Rest(surplus: seq<string>)

  function CellAt(row: seq<string>, i: nat): Cell {
    if i < |row| then Text(row[i]) else Null
  }

  /**
   * The dict `csv.DictReader` yields for a row: position i under the i-th field
   * name, None (the restval) for each missing trailing position, and the fields
   * past the fourth as a list under the key None.
   */
  function RowDict(row: seq<string>): (d: map<Key, Cell>)
    ensures forall i :: 0 <= i < |FieldNames| ==>
      ColumnKey(FieldNames[i]) in d && d[ColumnKey(FieldNames[i])] == if i < |row| then Text(row[i]) else Null
    ensures RestKey in d <==> |row| > |FieldNames|
    ensures RestKey in d ==> d[RestKey] == Rest(row[|FieldNames|..])
  {
    var columns := map[
      ColumnKey(NameColumn) := CellAt(row, 0),
      ColumnKey(StrategyColumn) := CellAt(row, 1),
      ColumnKey(AumColumn) := CellAt(row, 2),
      ColumnKey(InceptionDateColumn) := CellAt(row, 3)];
    if |row| > 4 then columns[RestKey := Rest(row[4..])] else columns
  }

  /** Python truthiness: None, the empty string and the empty list are false. */
  predicate Falsy(c: Cell) {
    c.Null? || c == Text("") || c == Rest([])
  }

  /**
   * `_clean_fund_data`: over the same keys, every false value becomes None and
   * every other value is kept, so no empty string is left.
   */
  function Clean(d: map<Key, Cell>): (r: map<Key, Cell>)
    ensures r.Keys == d.Keys
    ensures forall k :: k in r ==> (r[k] == Null <==> Falsy(d[k]))
    ensures forall k :: k in r && r[k] != Null ==> r[k] == d[k]
    ensures forall k :: k in r ==> !Falsy(r[k]) || r[k] == Null
  {
    map k | k in d :: if Falsy(d[k]) then Null else d[k]
  }

  /** Cleaning a cleaned dict changes nothing. */
  lemma CleanIdempotent(d: map<Key, Cell>)
    ensures Clean(Clean(d)) == Clean(d)
  {
    assert forall k :: k in d ==> Clean(Clean(d))[k] == Clean(d)[k];
  }

  /** A candidate record: the keyword arguments of one `Fund(...)`, as text. */
  datatype Candidate = Candidate(
    name: Option<string>,
    strategy: Option<string>,
    aum: Option<string>,
    inceptionDate: Option<string>)
  {
    /** The keyword argument bound to a column's field name. */
    function FieldFor(column: Column): Option<string> {
      match column
      case NameColumn => name
      case StrategyColumn => strategy
      case AumColumn => aum
      case InceptionDateColumn => inceptionDate
    }
  }

  function TextOf(d: map<Key, Cell>, c: Column): Option<string> {
    if ColumnKey(c) in d && d[ColumnKey(c)].Text? then Some(d[ColumnKey(c)].text) else None
  }

  /** `Fund(**d)`: keyword names must be strings, so the key None raises TypeError. */
  function FromKwargs(d: map<Key, Cell>): (r: Result<Candidate, UploadError>)
    ensures r.Failure? <==> RestKey in d
    ensures r.Failure? ==> r.error == ExtraFields
    ensures r.Success? ==> forall column: Column ::
      (r.value.FieldFor(column).Some? <==> ColumnKey(column) in d && d[ColumnKey(column)].Text?)
      && (r.value.FieldFor(column).Some? ==> r.value.FieldFor(column).value == d[ColumnKey(column)].text)
  {
    if RestKey in d then Failure(ExtraFields)
    else Success(Candidate(
      TextOf(d, NameColumn), TextOf(d, StrategyColumn), TextOf(d, AumColumn), TextOf(d, InceptionDateColumn)))
  }

  /** Field i of a row after cleaning: None when it is missing or empty. */
  function Field(row: seq<string>, i: nat): Option<string> {
    if i < |row| && row[i] != "" then Some(row[i]) else None
  }

  /**
   * One data row through the reader's dict, cleaning and `Fund(...)`: fields map
   * by position to name, strategy, aum and inception date, missing or empty
   * fields become None, and more than four fields is an error.
   */
  function CandidateOf(row: seq<string>): (r: Result<Candidate, UploadError>)
    ensures r == if |row| > 4 then Failure(ExtraFields)
                 else Success(Candidate(Field(row, 0), Field(row, 1), Field(row, 2), Field(row, 3)))
  {
    var d := RowDict(row);
    assert FieldNames[0] == NameColumn && FieldNames[1] == StrategyColumn;
    assert FieldNames[2] == AumColumn && FieldNames[3] == InceptionDateColumn;
    FromKwargs(Clean(d))
  }

  // ---------------------------------------------------------------------------
  // The batch

  /**
   * Applies `f` to every element in order and stops at the first error, as
   * building a list from a generator stops at the first exception.
   */
  function MapAll<A, B, E>(xs: seq<A>, f: A -> Result<B, E>): (r: Result<seq<B>, E>)
    ensures r.Success? <==> forall i :: 0 <= i < |xs| ==> f(xs[i]).Success?
    ensures r.Success? ==> |r.value| == |xs| && forall i :: 0 <= i < |xs| ==> f(xs[i]) == Success(r.value[i])
    ensures r.Failure? ==> exists i :: 0 <= i < |xs| && f(xs[i]) == Failure(r.error)
                                       && forall j :: 0 <= j < i ==> f(xs[j]).Success?
  {
    if xs == [] then Success([])
    else
      match f(xs[0])
      case Failure(e) => Failure(e)
      case Success(y) =>
        var rest := MapAll(xs[1..], f);
        assert forall i :: 1 <= i < |xs| ==> xs[i] == xs[1..][i - 1];
        match rest
        case Failure(e) =>
          assert exists i :: 1 <= i < |xs| && f(xs[i]) == Failure(e) && forall j :: 0 <= j < i ==> f(xs[j]).Success? by {
            var i' :| 0 <= i' < |xs| - 1 && f(xs[1..][i']) == Failure(e)
                      && forall j :: 0 <= j < i' ==> f(xs[1..][j]).Success?;
            assert f(xs[i' + 1]) == Failure(e);
            assert forall j :: 1 <= j < i' + 1 ==> f(xs[j]).Success? by {
              forall j | 1 <= j < i' + 1 ensures f(xs[j]).Success? {
                assert xs[j] == xs[1..][j - 1];
              }
            }
          }
          Failure(e)
        case Success(ys) => Success([y] + ys)
  }

  /** A candidate with its values as the database stores them. */
  datatype Prepared = Prepared(
    name: Option<string>,
    strategy: Option<string>,
    aum: Option<int>,
    inceptionDate: Option<Date>)

  /**
   * The SQL preparation of one Fund object: None stays NULL, a text is coerced
   * to the column's type, aum before inception date.
   */
  function Prepare(c: Candidate, conv: Conversions): (r: Result<Prepared, UploadError>)
    ensures r.Success? <==> (c.aum.Some? ==> conv.toAum(c.aum.value).Some?)
                            && (c.inceptionDate.Some? ==> conv.toDate(c.inceptionDate.value).Some?)
    ensures c.aum.Some? && conv.toAum(c.aum.value).None? ==> r == Failure(InvalidAum(c.aum.value))
    ensures r.Success? ==> r.value.name == c.name && r.value.strategy == c.strategy
    ensures r.Success? ==> (r.value.aum.None? <==> c.aum.None?) && (r.value.inceptionDate.None? <==> c.inceptionDate.None?)
    ensures r.Success? ==> r.value.aum == (if c.aum.Some? then conv.toAum(c.aum.value) else None)
                           && r.value.inceptionDate == (if c.inceptionDate.Some? then conv.toDate(c.inceptionDate.value) else None)
    ensures (c.aum.None? || conv.toAum(c.aum.value).Some?) && c.inceptionDate.Some? && conv.toDate(c.inceptionDate.value).None?
            ==> r == Failure(InvalidInceptionDate(c.inceptionDate.value))
  {
    var aum :- match c.aum
      case None => Success(None)
      case Some(t) => if conv.toAum(t).Some? then Success(conv.toAum(t)) else Failure(InvalidAum(t));
    var date :- match c.inceptionDate
      case None => Success(None)
      case Some(t) => if conv.toDate(t).Some? then Success(conv.toDate(t)) else Failure(InvalidInceptionDate(t));
    Success(Prepared(c.name, c.strategy, aum, date))
  }

  function PrepareWith(conv: Conversions): Candidate -> Result<Prepared, UploadError> {
    c => Prepare(c, conv)
  }

  /** The values the table keeps for a fund besides its id and name. */
  datatype FundValues = FundValues(strategy: string, aum: Option<int>, inceptionDate: Option<Date>)

  /** One element of the batch: a name and the values to store under it. */
  datatype Record = Record(name: string, values: FundValues)

  /** The NOT NULL constraints on `name` and `strategy`, checked at execution. */
  function NotNull(p: Prepared): (r: Result<Record, UploadError>)
    ensures r.Success? <==> p.name.Some? && p.strategy.Some?
    ensures p.name.None? ==> r == Failure(NullName)
    ensures p.name.Some? && p.strategy.None? ==> r == Failure(NullStrategy)
    ensures r.Success? ==> r.value.name == p.name.value && r.value.values.strategy == p.strategy.value
                           && r.value.values.aum == p.aum && r.value.values.inceptionDate == p.inceptionDate
  {
    if p.name.None? then Failure(NullName)
    else if p.strategy.None? then Failure(NullStrategy)
    else Success(Record(p.name.value, FundValues(p.strategy.value, p.aum, p.inceptionDate)))
  }

  /**
   * The batch `upload_funds` upserts, or the error it raises first: decoding,
   * the missing header, a row with surplus fields (while the Fund objects are
   * built), a value the database cannot coerce (while the statement is
   * prepared), then a NULL name or strategy (when it runs).
   */
  function Batch(file: seq<bv8>, conv: Conversions): (r: Result<seq<Record>, UploadError>)
    ensures conv.decodeUtf8(file).None? ==> r == Failure(DecodeError)
    ensures conv.decodeUtf8(file).Some? && RowsAfterHeader(SplitLines(conv.decodeUtf8(file).value)).None?
            ==> r == Failure(MissingHeader)
  {
    match conv.decodeUtf8(file)
    case None => Failure(DecodeError)
    case Some(text) =>
      match RowsAfterHeader(SplitLines(text))
      case None => Failure(MissingHeader)
      case Some(rows) =>
        var candidates :- MapAll(rows, CandidateOf);
        var prepared :- MapAll(candidates, PrepareWith(conv));
        MapAll(prepared, NotNull)
  }

  /** A data row the upload accepts, stated on the row's fields directly. */
  ghost predicate RowAccepted(row: seq<string>, conv: Conversions) {
    && |row| <= 4
    && Field(row, 0).Some?
    && Field(row, 1).Some?
    && (Field(row, 2).Some? ==> conv.toAum(row[2]).Some?)
    && (Field(row, 3).Some? ==> conv.toDate(row[3]).Some?)
  }

  /** The record an accepted data row becomes. */
  ghost function RecordOf(row: seq<string>, conv: Conversions): Record
    requires RowAccepted(row, conv)
  {
    Record(row[0], FundValues(
      row[1],
      if Field(row, 2).Some? then conv.toAum(row[2]) else None,
      if Field(row, 3).Some? then conv.toDate(row[3]) else None))
  }

  lemma RowPipeline(row: seq<string>, conv: Conversions)
    ensures (CandidateOf(row).Success? && Prepare(CandidateOf(row).value, conv).Success?
             && NotNull(Prepare(CandidateOf(row).value, conv).value).Success?) <==> RowAccepted(row, conv)
    ensures RowAccepted(row, conv) ==> NotNull(Prepare(CandidateOf(row).value, conv).value).value == RecordOf(row, conv)
  {
  }

  /**
   * Once the text is decoded and has a header, the upload goes through exactly
   * when every data row is accepted, and then the batch holds one record per
   * data row, in file order, built from that row's fields by position.
   */
  lemma BatchOfRows(file: seq<bv8>, conv: Conversions, text: string, rows: seq<seq<string>>)
    requires conv.decodeUtf8(file) == Some(text)
    requires RowsAfterHeader(SplitLines(text)) == Some(rows)
    ensures Batch(file, conv).Success? <==> forall i :: 0 <= i < |rows| ==> RowAccepted(rows[i], conv)
    ensures Batch(file, conv).Success? ==>
      |Batch(file, conv).value| == |rows|
      && forall i :: 0 <= i < |rows| ==> Batch(file, conv).value[i] == RecordOf(rows[i], conv)
  {
    var cs := MapAll(rows, CandidateOf);
    forall i | 0 <= i < |rows| {
      RowPipeline(rows[i], conv);
    }
    if cs.Success? {
      PreparedRows(file, conv, text, rows, cs.value);
    } else {
      var i :| 0 <= i < |rows| && CandidateOf(rows[i]).Failure?;
      assert !RowAccepted(rows[i], conv);
    }
  }

  lemma PreparedRows(file: seq<bv8>, conv: Conversions, text: string, rows: seq<seq<string>>, cs: seq<Candidate>)
    requires conv.decodeUtf8(file) == Some(text)
    requires RowsAfterHeader(SplitLines(text)) == Some(rows)
    requires MapAll(rows, CandidateOf) == Success(cs)
    ensures Batch(file, conv).Success? <==> forall i :: 0 <= i < |rows| ==> RowAccepted(rows[i], conv)
    ensures Batch(file, conv).Success? ==>
      |Batch(file, conv).value| == |rows|
      && forall i :: 0 <= i < |rows| ==> Batch(file, conv).value[i] == RecordOf(rows[i], conv)
  {
    var ps := MapAll(cs, PrepareWith(conv));
    if ps.Success? {
      assert Batch(file, conv) == MapAll(ps.value, NotNull);
      CheckedRows(rows, cs, ps.value, conv);
    } else {
      assert Batch(file, conv) == Failure(ps.error);
      var i :| 0 <= i < |cs| && PrepareWith(conv)(cs[i]).Failure?;
      RowPipeline(rows[i], conv);
    }
  }

  lemma CheckedRows(rows: seq<seq<string>>, cs: seq<Candidate>, ps: seq<Prepared>, conv: Conversions)
    requires MapAll(rows, CandidateOf) == Success(cs)
    requires MapAll(cs, PrepareWith(conv)) == Success(ps)
    ensures MapAll(ps, NotNull).Success? <==> forall i :: 0 <= i < |rows| ==> RowAccepted(rows[i], conv)
    ensures MapAll(ps, NotNull).Success? ==>
      |MapAll(ps, NotNull).value| == |rows|
      && forall i :: 0 <= i < |rows| ==> MapAll(ps, NotNull).value[i] == RecordOf(rows[i], conv)
  {
    EachRowChecked(rows, cs, ps, conv);
    var rs := MapAll(ps, NotNull);
    if rs.Success? {
      assert forall i :: 0 <= i < |rows| ==> NotNull(ps[i]) == Success(rs.value[i]);
    }
  }

  lemma EachRowChecked(rows: seq<seq<string>>, cs: seq<Candidate>, ps: seq<Prepared>, conv: Conversions)
    requires MapAll(rows, CandidateOf) == Success(cs)
    requires MapAll(cs, PrepareWith(conv)) == Success(ps)
    ensures |ps| == |rows|
    ensures forall i :: 0 <= i < |rows| ==> (RowAccepted(rows[i], conv) <==> NotNull(ps[i]).Success?)
    ensures forall i :: 0 <= i < |rows| && RowAccepted(rows[i], conv) ==> NotNull(ps[i]).value == RecordOf(rows[i], conv)
  {
    forall i | 0 <= i < |rows|
      ensures RowAccepted(rows[i], conv) <==> NotNull(ps[i]).Success?
      ensures RowAccepted(rows[i], conv) ==> NotNull(ps[i]).value == RecordOf(rows[i], conv)
    {
      assert CandidateOf(rows[i]) == Success(cs[i]);
      assert PrepareWith(conv)(cs[i]) == Success(ps[i]);
      RowChain(rows[i], cs[i], ps[i], conv);
    }
  }

  /** A row that has become a prepared value is accepted exactly when neither name nor strategy is NULL. */
  lemma RowChain(row: seq<string>, c: Candidate, p: Prepared, conv: Conversions)
    requires CandidateOf(row) == Success(c) && Prepare(c, conv) == Success(p)
    ensures RowAccepted(row, conv) <==> NotNull(p).Success?
    ensures RowAccepted(row, conv) ==> NotNull(p).value == RecordOf(row, conv)
  {
  }

  /** A data row whose name or strategy is missing or empty makes the upload fail. */
  lemma EmptyNameOrStrategyFails(file: seq<bv8>, conv: Conversions, text: string, rows: seq<seq<string>>, i: nat)
    requires conv.decodeUtf8(file) == Some(text)
    requires RowsAfterHeader(SplitLines(text)) == Some(rows)
    requires i < |rows| && (Field(rows[i], 0).None? || Field(rows[i], 1).None?)
    ensures Batch(file, conv).Failure?
  {
    BatchOfRows(file, conv, text, rows);
  }

  // ---------------------------------------------------------------------------
  // The upsert, on the values the table holds per name

  /**
   * The values held per name after upserting `batch` record by record: a new
   * name is added, a known name has its values overwritten, so of two records
   * with one name the later wins.
   */
  function ApplyBatch(m: map<string, FundValues>, batch: seq<Record>): (r: map<string, FundValues>)
    ensures m.Keys <= r.Keys
    ensures batch != [] ==> batch[|batch| - 1].name in r && r[batch[|batch| - 1].name] == batch[|batch| - 1].values
    decreases |batch|
  {
    if batch == [] then m
    else
      var last := batch[|batch| - 1];
      ApplyBatch(m, batch[..|batch| - 1])[last.name := last.values]
  }

  /** The values of the last record for `name` in `batch`, if there is one. */
  function LastFor(batch: seq<Record>, name: string): (r: Option<FundValues>)
    ensures r.None? <==> forall i :: 0 <= i < |batch| ==> batch[i].name != name
    decreases |batch|
  {
    if batch == [] then None
    else
      var k := |batch| - 1;
      if batch[k].name == name then Some(batch[k].values)
      else
        var front := batch[..k];
        assert forall i :: 0 <= i < k ==> front[i] == batch[i];
        LastFor(front, name)
  }

  /** A value `LastFor` finds is that of a record for the name at index `i`, with no later one. */
  lemma {:induction false} LastForIsLast(batch: seq<Record>, name: string) returns (i: nat)
    requires LastFor(batch, name).Some?
    ensures i < |batch| && batch[i] == Record(name, LastFor(batch, name).value)
    ensures forall j :: i < j < |batch| ==> batch[j].name != name
    decreases |batch|
  {
    var k := |batch| - 1;
    if batch[k].name == name {
      i := k;
    } else {
      var front := batch[..k];
      i := LastForIsLast(front, name);
      assert batch[i] == front[i];
      assert forall j :: i < j < k ==> batch[j] == front[j];
    }
  }

  function Names(batch: seq<Record>): set<string> {
    set i | 0 <= i < |batch| :: batch[i].name
  }

  lemma NamesSnoc(front: seq<Record>, last: Record)
    ensures Names(front + [last]) == Names(front) + {last.name}
  {
    var batch := front + [last];
    forall n | n in Names(batch) ensures n in Names(front) + {last.name} {
      var i :| 0 <= i < |batch| && batch[i].name == n;
      if i < |front| { assert front[i] == batch[i]; }
    }
    forall n | n in Names(front) ensures n in Names(batch) {
      var i :| 0 <= i < |front| && front[i].name == n;
      assert batch[i] == front[i];
    }
    assert batch[|front|] == last;
  }

  /**
   * After the upsert the names are the old names plus the batch's; a name in
   * the batch holds its last record's values and every other name keeps its
   * old values.
   */
  lemma {:induction false} ApplyBatchValues(m: map<string, FundValues>, batch: seq<Record>)
    ensures ApplyBatch(m, batch).Keys == m.Keys + Names(batch)
    ensures forall n :: n in ApplyBatch(m, batch) ==>
      ApplyBatch(m, batch)[n] == match LastFor(batch, n) case Some(v) => v case None => m[n]
    decreases |batch|
  {
    if batch != [] {
      var k := |batch| - 1;
      var front, last := batch[..k], batch[k];
      ApplyBatchValues(m, front);
      assert batch == front + [last];
      NamesSnoc(front, last);
      var before, after := ApplyBatch(m, front), ApplyBatch(m, batch);
      assert after == before[last.name := last.values];
      forall n | n in after && n != last.name
        ensures after[n] == match LastFor(batch, n) case Some(v) => v case None => m[n]
      {
        assert LastFor(batch, n) == LastFor(front, n);
      }
    }
  }

  /**
   * The upsert by name: every name of the batch ends up holding its last
   * record's values, and every other name keeps what it had.
   */
  lemma UpsertedValues(vb: map<string, FundValues>, va: map<string, FundValues>, batch: seq<Record>)
    requires va == ApplyBatch(vb, batch)
    ensures va.Keys == vb.Keys + Names(batch)
    ensures forall n :: n in Names(batch) ==> LastFor(batch, n).Some? && va[n] == LastFor(batch, n).value
    ensures forall n :: n in vb && n !in Names(batch) ==> va[n] == vb[n]
  {
    ApplyBatchValues(vb, batch);
    forall n | n in Names(batch) ensures LastFor(batch, n).Some? {
      var i :| 0 <= i < |batch| && batch[i].name == n;
    }
  }

  /** Upserting the same batch twice leaves the values the first upsert left. */
  lemma ApplyBatchIdempotent(m: map<string, FundValues>, batch: seq<Record>)
    ensures ApplyBatch(ApplyBatch(m, batch), batch) == ApplyBatch(m, batch)
  {
    var once := ApplyBatch(m, batch);
    ApplyBatchValues(m, batch);
    ApplyBatchValues(once, batch);
  }
}
