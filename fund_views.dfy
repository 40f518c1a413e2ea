/**
 * The list page and the upload handler of `funds/views.py`: `IndexView`'s
 * query (optional exact strategy filter, ordered by name) and its context
 * (strategy options, total AUM), and the two branches of
 * `UploadFileView.post`.
 */
module FundViews {
  import opened Base
  import opened Funds
  import opened FundStore

  // ---------------------------------------------------------------------------
  // The query

  /** `if selected:` — the strategy parameter is present and not empty. */
  predicate Filtering(selected: Option<string>) {
    selected.Some? && selected.value != ""
  }

  /** `filter(strategy=s)`: the funds whose strategy is exactly `s`, each as often as in `funds`. */
  function WithStrategy(funds: seq<Fund>, s: string): (r: seq<Fund>)
    ensures forall f :: multiset(r)[f] == if f.strategy == s then multiset(funds)[f] else 0
  {
    if funds == [] then []
    else
      var rest := WithStrategy(funds[1..], s);
      assert funds == [funds[0]] + funds[1..];
      if funds[0].strategy == s then [funds[0]] + rest else rest
  }

  /** The funds the page lists before ordering. */
  function Selection(funds: seq<Fund>, selected: Option<string>): seq<Fund> {
    if Filtering(selected) then WithStrategy(funds, selected.value) else funds
  }

  /** Text ordering by character code, as the database's binary collation compares names. */
  predicate NameLe(a: string, b: string)
    decreases |a|
  {
    a == [] || (b != [] && (a[0] < b[0] || (a[0] == b[0] && NameLe(a[1..], b[1..]))))
  }

  lemma {:induction false} NameLeTotal(a: string, b: string)
    ensures NameLe(a, b) || NameLe(b, a)
    decreases |a|
  {
    if a != [] && b != [] && a[0] == b[0] {
      NameLeTotal(a[1..], b[1..]);
    }
  }

  lemma {:induction false} NameLeTransitive(a: string, b: string, c: string)
    requires NameLe(a, b) && NameLe(b, c)
    ensures NameLe(a, c)
    decreases |a|
  {
    if a != [] && a[0] == b[0] && b[0] == c[0] {
      NameLeTransitive(a[1..], b[1..], c[1..]);
    }
  }

  lemma {:induction false} NameLeAntisymmetric(a: string, b: string)
    requires NameLe(a, b) && NameLe(b, a)
    ensures a == b
    decreases |a|
  {
    if a != [] {
      NameLeAntisymmetric(a[1..], b[1..]);
      assert a == [a[0]] + a[1..] && b == [b[0]] + b[1..];
    }
  }

  predicate SortedByName(funds: seq<Fund>) {
    forall i, j :: 0 <= i < j < |funds| ==> NameLe(funds[i].name, funds[j].name)
  }

  function InsertByName(f: Fund, sorted: seq<Fund>): (r: seq<Fund>)
    ensures multiset(r) == multiset(sorted) + multiset{f}
  {
    if sorted == [] then [f]
    else if NameLe(f.name, sorted[0].name) then [f] + sorted
    else
      assert sorted == [sorted[0]] + sorted[1..];
      [sorted[0]] + InsertByName(f, sorted[1..])
  }

  /** Inserting into a name-sorted list keeps it sorted. */
  lemma {:induction false} InsertSorted(f: Fund, sorted: seq<Fund>)
    requires SortedByName(sorted)
    ensures SortedByName(InsertByName(f, sorted))
    decreases |sorted|
  {
    if sorted == [] {
    } else if NameLe(f.name, sorted[0].name) {
      forall j | 0 < j < |sorted| ensures NameLe(f.name, sorted[j].name) {
        NameLeTransitive(f.name, sorted[0].name, sorted[j].name);
      }
    } else {
      NameLeTotal(f.name, sorted[0].name);
      var tail := sorted[1..];
      InsertSorted(f, tail);
      var rest := InsertByName(f, tail);
      assert sorted == [sorted[0]] + tail;
      forall j | 0 <= j < |rest| ensures NameLe(sorted[0].name, rest[j].name) {
        assert rest[j] in multiset(rest);
        if rest[j] != f {
          assert rest[j] in multiset(tail);
          var k :| 0 <= k < |tail| && tail[k] == rest[j];
          assert sorted[k + 1] == tail[k];
        }
      }
    }
  }

  /** `order_by("name")`: the same funds, sorted by name. */
  function OrderByName(funds: seq<Fund>): (r: seq<Fund>)
    ensures SortedByName(r)
    ensures multiset(r) == multiset(funds)
  {
    if funds == [] then []
    else
      assert funds == [funds[0]] + funds[1..];
      InsertSorted(funds[0], OrderByName(funds[1..]));
      InsertByName(funds[0], OrderByName(funds[1..]))
  }

  /**
   * `IndexView.get_queryset`: sorted by name, and holding each fund exactly as
   * often as the table does when it passes the filter, and never otherwise.
   */
  function Queryset(funds: seq<Fund>, selected: Option<string>): (r: seq<Fund>)
    ensures SortedByName(r)
    ensures forall f :: multiset(r)[f] ==
                        (if !Filtering(selected) || f.strategy == selected.value then multiset(funds)[f] else 0)
  {
    OrderByName(Selection(funds, selected))
  }

  /**
   * The filter, both ways: with a non-empty selection a fund is listed exactly
   * when it is in the table with that strategy, and without one every fund in
   * the table is listed.
   */
  lemma QuerysetMembers(funds: seq<Fund>, selected: Option<string>)
    ensures Filtering(selected) ==> forall f :: f in Queryset(funds, selected) <==> f in funds && f.strategy == selected.value
    ensures !Filtering(selected) ==> forall f :: f in Queryset(funds, selected) <==> f in funds
  {
    var r := Queryset(funds, selected);
    assert forall f :: f in r <==> multiset(r)[f] > 0;
    assert forall f :: f in funds <==> multiset(funds)[f] > 0;
  }

  /** Two name-sorted lists holding the same funds, names distinct, start with the same fund. */
  lemma SortedHeadsEqual(a: seq<Fund>, b: seq<Fund>)
    requires a != [] && SortedByName(a) && SortedByName(b)
    requires multiset(a) == multiset(b)
    requires forall i, j :: 0 <= i < j < |a| ==> a[i].name != a[j].name
    ensures b != [] && a[0] == b[0]
  {
    assert a[0] in multiset(b);
    assert b[0] in multiset(a);
    var i :| 0 <= i < |a| && a[i] == b[0];
    var j :| 0 <= j < |b| && b[j] == a[0];
    if i != 0 && j != 0 {
      NameLeAntisymmetric(a[0].name, a[i].name);
      assert false;
    }
  }

  lemma TailsSameFunds(a: seq<Fund>, b: seq<Fund>)
    requires a != [] && b != [] && a[0] == b[0]
    requires multiset(a) == multiset(b)
    ensures multiset(a[1..]) == multiset(b[1..])
  {
    assert a == [a[0]] + a[1..] && b == [b[0]] + b[1..];
    assert multiset(a[1..]) == multiset(a) - multiset{a[0]};
    assert multiset(b[1..]) == multiset(b) - multiset{b[0]};
  }

  /** Dropping the first fund keeps a list sorted and its names distinct. */
  lemma SortedTail(a: seq<Fund>)
    requires a != [] && SortedByName(a)
    ensures SortedByName(a[1..])
    ensures (forall i, j :: 0 <= i < j < |a| ==> a[i].name != a[j].name) ==>
            forall i, j :: 0 <= i < j < |a[1..]| ==> a[1..][i].name != a[1..][j].name
  {
    assert forall i :: 0 <= i < |a[1..]| ==> a[1..][i] == a[i + 1];
  }

  /**
   * With the table's names unique, the page's list is fully determined: two
   * name-sorted lists holding the same funds are equal.
   */
  lemma {:induction false} SortedPermutationUnique(a: seq<Fund>, b: seq<Fund>)
    requires SortedByName(a) && SortedByName(b)
    requires multiset(a) == multiset(b)
    requires forall i, j :: 0 <= i < j < |a| ==> a[i].name != a[j].name
    ensures a == b
    decreases |a|
  {
    if a == [] {
      assert |b| == |multiset(b)| == 0;
    } else {
      SortedHeadsEqual(a, b);
      TailsSameFunds(a, b);
      var a', b' := a[1..], b[1..];
      SortedTail(a);
      SortedTail(b);
      SortedPermutationUnique(a', b');
      assert a == [a[0]] + a' && b == [b[0]] + b';
    }
  }

  /** `funds` lists the rows of a table, each exactly once. */
  ghost predicate ListsRows(funds: seq<Fund>, rows: map<string, Fund>) {
    forall f :: multiset(funds)[f] == if f in rows.Values then 1 else 0
  }

  /** A list in which no fund occurs twice has its elements at distinct positions distinct. */
  lemma SingleOccurrences(s: seq<Fund>)
    requires forall f :: multiset(s)[f] <= 1
    ensures forall i, j :: 0 <= i < j < |s| ==> s[i] != s[j]
  {
    forall i, j | 0 <= i < j < |s| ensures s[i] != s[j] {
      assert s == s[..j] + s[j..];
      assert s[..j][i] == s[i];
      assert s[j..][0] == s[j];
      assert multiset(s)[s[i]] == multiset(s[..j])[s[i]] + multiset(s[j..])[s[i]];
    }
  }

  /** Funds taken from a well-formed table, none twice, have distinct names. */
  lemma DistinctNames(rows: map<string, Fund>, s: seq<Fund>)
    requires WellFormed(rows)
    requires forall f :: multiset(s)[f] <= 1
    requires forall i :: 0 <= i < |s| ==> s[i] in rows.Values
    ensures forall i, j :: 0 <= i < j < |s| ==> s[i].name != s[j].name
  {
    SingleOccurrences(s);
    forall i | 0 <= i < |s| ensures s[i].name in rows && rows[s[i].name] == s[i] {
      assert s[i] in rows.Values;
      var n :| n in rows && rows[n] == s[i];
    }
  }

  /** A list of a well-formed table's rows, each once, has distinct names. */
  lemma ListedNamesDistinct(rows: map<string, Fund>, funds: seq<Fund>)
    requires WellFormed(rows) && ListsRows(funds, rows)
    ensures forall i, j :: 0 <= i < j < |funds| ==> funds[i].name != funds[j].name
  {
    forall i | 0 <= i < |funds| ensures funds[i] in rows.Values {
      assert funds[i] in multiset(funds);
    }
    DistinctNames(rows, funds);
  }

  /**
   * For a list of a well-formed table's rows, the page's list is the only
   * name-sorted list holding the funds the filter keeps.
   */
  lemma QuerysetDetermined(rows: map<string, Fund>, funds: seq<Fund>, selected: Option<string>, other: seq<Fund>)
    requires WellFormed(rows) && ListsRows(funds, rows)
    requires SortedByName(other) && multiset(other) == multiset(Queryset(funds, selected))
    ensures other == Queryset(funds, selected)
  {
    var q := Queryset(funds, selected);
    forall i | 0 <= i < |q| ensures q[i] in rows.Values {
      assert q[i] in multiset(q);
    }
    DistinctNames(rows, q);
    SortedPermutationUnique(q, other);
  }

  // ---------------------------------------------------------------------------
  // The context

  /** `[(s.value, s.value == selected) for s in Strategy]`. */
  function StrategyOptions(selected: Option<string>): (r: seq<(string, bool)>)
    ensures |r| == |Strategies|
    ensures forall i :: 0 <= i < |r| ==> r[i] == (Strategies[i].Value(), selected == Some(Strategies[i].Value()))
  {
    seq(|Strategies|, i requires 0 <= i < |Strategies| => (Strategies[i].Value(), selected == Some(Strategies[i].Value())))
  }

  /**
   * The option flags: a selection naming a strategy flags that entry and no
   * other one; any other selection flags none.
   */
  lemma OptionFlags(selected: Option<string>)
    ensures forall i :: 0 <= i < |Strategies| && selected == Some(Strategies[i].Value()) ==>
      StrategyOptions(selected)[i].1 && forall j :: 0 <= j < |Strategies| && j != i ==> !StrategyOptions(selected)[j].1
    ensures (forall s: Strategy :: selected != Some(s.Value())) ==>
      forall i :: 0 <= i < |Strategies| ==> !StrategyOptions(selected)[i].1
  {
    StrategiesEnumerated();
  }

  /** The sum of the funds' aum, a NULL aum counting nothing. */
  function AumSum(funds: seq<Fund>): (r: int)
    ensures (forall i :: 0 <= i < |funds| ==> funds[i].aum.None?) ==> r == 0
  {
    if funds == [] then 0
    else
      assert forall i :: 1 <= i < |funds| ==> funds[i] == funds[1..][i - 1];
      funds[0].aum.GetOr(0) + AumSum(funds[1..])
  }

  /**
   * SQL `SUM(aum)`: NULL values are skipped and the sum of no values is NULL,
   * so the result is NULL exactly when no fund has an aum.
   */
  function TotalAum(funds: seq<Fund>): (r: Option<int>)
    ensures r.None? <==> forall i :: 0 <= i < |funds| ==> funds[i].aum.None?
    ensures r.Some? ==> r.value == AumSum(funds)
  {
    if funds == [] then None
    else
      var rest := TotalAum(funds[1..]);
      assert forall i :: 1 <= i < |funds| ==> funds[i] == funds[1..][i - 1];
      match funds[0].aum
      case None => rest
      case Some(a) => Some(a + rest.GetOr(0))
  }

  lemma {:induction false} AumSumRemove(funds: seq<Fund>, k: nat)
    requires k < |funds|
    ensures AumSum(funds) == funds[k].aum.GetOr(0) + AumSum(funds[..k] + funds[k + 1..])
    decreases |funds|
  {
    if k > 0 {
      AumSumRemove(funds[1..], k - 1);
      assert funds[1..][..k - 1] + funds[1..][k..] == (funds[..k] + funds[k + 1..])[1..];
    } else {
      assert funds[..0] + funds[1..] == funds[1..];
    }
  }

  lemma MultisetWithout(s: seq<Fund>, k: nat)
    requires k < |s|
    ensures multiset(s[..k] + s[k + 1..]) == multiset(s) - multiset{s[k]}
  {
    assert s == s[..k] + [s[k]] + s[k + 1..];
    assert multiset(s) == multiset(s[..k]) + multiset{s[k]} + multiset(s[k + 1..]);
  }

  /** Taking the same fund out of two lists holding the same funds leaves lists holding the same funds. */
  lemma PermutationTails(a: seq<Fund>, b: seq<Fund>, k: nat)
    requires a != [] && k < |b| && b[k] == a[0]
    requires multiset(a) == multiset(b)
    ensures multiset(a[1..]) == multiset(b[..k] + b[k + 1..])
  {
    MultisetWithout(a, 0);
    MultisetWithout(b, k);
    assert a[..0] + a[1..] == a[1..];
    assert multiset{a[0]} == multiset{b[k]};
  }

  /** The sum does not depend on the order of the funds. */
  lemma {:induction false} AumSumPermutation(a: seq<Fund>, b: seq<Fund>)
    requires multiset(a) == multiset(b)
    ensures AumSum(a) == AumSum(b)
    decreases |a|
  {
    if a != [] {
      assert a[0] in multiset(b);
      var k :| 0 <= k < |b| && b[k] == a[0];
      var b' := b[..k] + b[k + 1..];
      PermutationTails(a, b, k);
      AumSumRemove(b, k);
      AumSumPermutation(a[1..], b');
      assert AumSum(a) == a[0].aum.GetOr(0) + AumSum(a[1..]);
    }
  }

  /** The list page's context. */
  datatype IndexContext = IndexContext(
    funds: seq<Fund>,
    strategies: seq<(string, bool)>,
    totalAum: Option<int>)

  /**
   * `IndexView.get_context_data`: the ordered list, the strategy options, and
   * the total AUM over the funds the filter keeps, which the ordering does not
   * change.
   */
  function IndexContextOf(funds: seq<Fund>, selected: Option<string>): (c: IndexContext)
    ensures c.funds == Queryset(funds, selected)
    ensures c.strategies == StrategyOptions(selected)
    ensures c.totalAum.None? <==> forall f :: f in Selection(funds, selected) ==> f.aum.None?
    ensures c.totalAum.Some? ==> c.totalAum.value == AumSum(Selection(funds, selected))
  {
    var listed := Queryset(funds, selected);
    var chosen := Selection(funds, selected);
    assert multiset(listed) == multiset(chosen);
    AumSumPermutation(listed, chosen);
    assert forall f :: f in listed <==> f in chosen by {
      assert forall f :: f in listed <==> f in multiset(listed);
    }
    IndexContext(listed, StrategyOptions(selected), TotalAum(listed))
  }

  /** A selected strategy no fund has gives an empty list and no total. */
  lemma UnknownStrategyIsEmpty(funds: seq<Fund>, selected: Option<string>)
    requires Filtering(selected)
    requires forall f :: f in funds ==> f.strategy != selected.value
    ensures IndexContextOf(funds, selected).funds == []
    ensures IndexContextOf(funds, selected).totalAum == None
  {
    var r := Queryset(funds, selected);
    forall f: Fund ensures multiset(r)[f] == 0 {
      if f.strategy == selected.value {
        assert f !in funds;
      }
    }
    assert multiset(r) == multiset{};
    assert |r| == |multiset(r)|;
  }

  // ---------------------------------------------------------------------------
  // The upload handler

  datatype Response = Redirect(location: string) | UploadPage(error: Option<UploadError>)

  /**
   * `UploadFileView.post`: an invalid form shows the upload page again; a
   * failed upload shows it with the error and leaves the table as it was; a
   * successful one redirects to the list.
   */
  method Post(table: FundTable, formValid: bool, file: seq<bv8>, conv: Conversions) returns (response: Response)
    requires table.Valid()
    modifies table
    ensures table.Valid()
    ensures !formValid ==> response == UploadPage(None) && table.rows == old(table.rows)
    ensures formValid && Batch(file, conv).Failure? ==>
      response == UploadPage(Some(Batch(file, conv).error)) && table.rows == old(table.rows)
    ensures formValid && Batch(file, conv).Success? ==>
      response == Redirect("../list/") && Upserted(old(table.rows), table.rows, Batch(file, conv).value)
  {
    if !formValid {
      return UploadPage(None);
    }
    var outcome := table.UploadFunds(file, conv);
    match outcome
    case Fail(e) => response := UploadPage(Some(e));
    case Pass => response := Redirect("../list/");
  }
}
