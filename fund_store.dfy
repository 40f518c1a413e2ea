/**
 * The Fund table of `funds/models.py` and `Fund.upload_funds`, which upserts
 * the whole batch in one `bulk_create` statement keyed on the unique name.
 */
module FundStore {
  import opened Base
  import opened Funds

  /** A row of the Fund table. */
  datatype Fund = Fund(id: Id, name: string, strategy: string, aum: Option<int>, inceptionDate: Option<Date>) {
    function Values(): FundValues {
      FundValues(strategy, aum, inceptionDate)
    }
  }

  /**
   * The table's invariant: each row sits under its own name, so names are
   * unique, and no two rows share an id.
   */
  ghost predicate WellFormed(rows: map<string, Fund>) {
    && (forall n :: n in rows ==> rows[n].name == n)
    && (forall n, n' :: n in rows && n' in rows && n != n' ==> rows[n].id != rows[n'].id)
  }

  function ValuesOf(rows: map<string, Fund>): map<string, FundValues> {
    map n | n in rows :: rows[n].Values()
  }

  function IdsOf(rows: map<string, Fund>): set<Id> {
    set n | n in rows :: rows[n].id
  }

  /**
   * What a successful upload of `batch` turns `before` into: the invariant
   * holds, the values are those of the upsert, a name that was there keeps its
   * id, and a new name has an id no earlier row had.
   */
  ghost predicate Upserted(before: map<string, Fund>, after: map<string, Fund>, batch: seq<Record>) {
    && WellFormed(after)
    && ValuesOf(after) == ApplyBatch(ValuesOf(before), batch)
    && (forall n :: n in before ==> n in after && after[n].id == before[n].id)
    && (forall n :: n in after && n !in before ==> after[n].id !in IdsOf(before))
  }

  /**
   * An upsert stated on the table's rows: the names are the old ones plus the
   * file's; a name in the file holds its last record's values; a name not in
   * the file keeps its whole row, id included; and an old name keeps its id.
   */
  lemma UpsertedRows(before: map<string, Fund>, after: map<string, Fund>, batch: seq<Record>)
    requires WellFormed(before) && Upserted(before, after, batch)
    ensures after.Keys == before.Keys + Names(batch)
    ensures forall n :: n in Names(batch) ==> LastFor(batch, n).Some? && after[n].Values() == LastFor(batch, n).value
    ensures forall n :: n in before && n !in Names(batch) ==> after[n] == before[n]
  {
    var vb := ValuesOf(before);
    UpsertedValues(vb, ValuesOf(after), batch);
    assert after.Keys == ValuesOf(after).Keys;
    forall n | n in Names(batch)
      ensures LastFor(batch, n).Some? && after[n].Values() == LastFor(batch, n).value
    {
      assert after[n].Values() == ValuesOf(after)[n];
    }
    forall n | n in before && n !in Names(batch) ensures after[n] == before[n] {
      assert after[n].Values() == ValuesOf(after)[n] == vb[n] == before[n].Values();
      assert after[n].id == before[n].id && after[n].name == before[n].name;
    }
  }

  lemma {:induction false} UpperBound(ids: set<Id>) returns (b: Id)
    ensures forall id :: id in ids ==> id < b
    decreases ids
  {
    if ids == {} {
      b := 0;
    } else {
      var x :| x in ids;
      var b' := UpperBound(ids - {x});
      b := if b' > x then b' else x + 1;
      assert forall id :: id in ids ==> id == x || id in ids - {x};
    }
  }

  /**
   * Uploading a file twice leaves the table as the first upload left it: the
   * same rows, with the same ids and values, and so the same count.
   */
  lemma UploadTwice(s0: map<string, Fund>, s1: map<string, Fund>, s2: map<string, Fund>, batch: seq<Record>)
    requires Upserted(s0, s1, batch) && Upserted(s1, s2, batch)
    ensures s2 == s1
    ensures |s2| == |s1|
  {
    ApplyBatchIdempotent(ValuesOf(s0), batch);
    assert ValuesOf(s2) == ValuesOf(s1);
    assert s2.Keys == ValuesOf(s2).Keys;
    forall n | n in s1 ensures s2[n] == s1[n] {
      assert ValuesOf(s2)[n] == ValuesOf(s1)[n];
    }
  }

  /** The row an upserted record becomes under the id it ends up with. */
  function RowOf(id: Id, r: Record): Fund {
    Fund(id, r.name, r.values.strategy, r.values.aum, r.values.inceptionDate)
  }

  /**
   * Upserting one more record of the batch, under the existing row's id or a
   * new one, keeps what the upload loop maintains.
   */
  lemma UpsertStep(start: map<string, Fund>, work: map<string, Fund>, batch: seq<Record>, i: nat, id: Id)
    requires i < |batch|
    requires WellFormed(work)
    requires ValuesOf(work) == ApplyBatch(ValuesOf(start), batch[..i])
    requires forall n :: n in start ==> n in work && work[n].id == start[n].id
    requires forall n :: n in work && n !in start ==> work[n].id !in IdsOf(start)
    requires batch[i].name in work ==> id == work[batch[i].name].id
    requires batch[i].name !in work ==> id !in IdsOf(work)
    ensures var work' := work[batch[i].name := RowOf(id, batch[i])];
      && WellFormed(work')
      && ValuesOf(work') == ApplyBatch(ValuesOf(start), batch[..i + 1])
      && (forall n :: n in start ==> n in work' && work'[n].id == start[n].id)
      && (forall n :: n in work' && n !in start ==> work'[n].id !in IdsOf(start))
  {
    UpsertValues(start, work, batch, i, id);
    UpsertIds(start, work, batch[i], id);
  }

  /** The id part of the step: names stay unique, ids distinct, old ids kept. */
  lemma UpsertIds(start: map<string, Fund>, work: map<string, Fund>, r: Record, id: Id)
    requires WellFormed(work)
    requires forall n :: n in start ==> n in work && work[n].id == start[n].id
    requires forall n :: n in work && n !in start ==> work[n].id !in IdsOf(start)
    requires r.name in work ==> id == work[r.name].id
    requires r.name !in work ==> id !in IdsOf(work)
    ensures var work' := work[r.name := RowOf(id, r)];
      && WellFormed(work')
      && (forall n :: n in start ==> n in work' && work'[n].id == start[n].id)
      && (forall n :: n in work' && n !in start ==> work'[n].id !in IdsOf(start))
  {
    if r.name !in work {
      assert forall n :: n in start ==> start[n].id in IdsOf(work) by {
        forall n | n in start ensures start[n].id in IdsOf(work) {
          assert work[n].id == start[n].id;
        }
      }
      assert forall n :: n in work ==> work[n].id in IdsOf(work);
    }
  }

  /** The value part of the step: one more record of the batch is applied. */
  lemma UpsertValues(start: map<string, Fund>, work: map<string, Fund>, batch: seq<Record>, i: nat, id: Id)
    requires i < |batch|
    requires ValuesOf(work) == ApplyBatch(ValuesOf(start), batch[..i])
    ensures ValuesOf(work[batch[i].name := RowOf(id, batch[i])]) == ApplyBatch(ValuesOf(start), batch[..i + 1])
  {
    var r := batch[i];
    assert batch[..i + 1][..i] == batch[..i];
    assert ValuesOf(work[r.name := RowOf(id, r)]) == ValuesOf(work)[r.name := r.values];
  }

  /** The Fund table. */
  class FundTable {
    var rows: map<string, Fund>

    ghost predicate Valid()
      reads this
    {
      WellFormed(rows)
    }

    constructor ()
      ensures Valid() && rows == map[]
    {
      rows := map[];
    }

    /**
     * `Fund.upload_funds`: builds the batch from the file and upserts it record
     * by record into a working copy, which replaces the table at the end, so a
     * failure leaves the table as it was.
     */
    method UploadFunds(file: seq<bv8>, conv: Conversions) returns (outcome: Outcome<UploadError>)
      requires Valid()
      modifies this
      ensures Valid()
      ensures Batch(file, conv).Failure? ==> outcome == Fail(Batch(file, conv).error) && rows == old(rows)
      ensures Batch(file, conv).Success? ==> outcome == Pass && Upserted(old(rows), rows, Batch(file, conv).value)
    {
      var prepared := Batch(file, conv);
      if prepared.Failure? {
        return Fail(prepared.error);
      }
      var batch := prepared.value;
      var start := rows;
      var work := rows;
      var i := 0;
      while i < |batch|
        invariant 0 <= i <= |batch|
        invariant WellFormed(work)
        invariant ValuesOf(work) == ApplyBatch(ValuesOf(start), batch[..i])
        invariant forall n :: n in start ==> n in work && work[n].id == start[n].id
        invariant forall n :: n in work && n !in start ==> work[n].id !in IdsOf(start)
      {
        var r := batch[i];
        var id;
        if r.name in work {
          id := work[r.name].id;
        } else {
          var bound := UpperBound(IdsOf(work));
          assert bound !in IdsOf(work);
          id :| id !in IdsOf(work);
        }
        UpsertStep(start, work, batch, i, id);
        work := work[r.name := RowOf(id, r)];
        i := i + 1;
      }
      assert batch[..|batch|] == batch;
      rows := work;
      outcome := Pass;
    }
  }
}
