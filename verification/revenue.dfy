/**
 `Analytics.calculate_total_revenue` (Analytics.py:65-99). Purchase hits are those
 whose `event_list` is exactly `'1'`; each one's `product_list` is split on `,` into
 entries, each entry on `;`, and field 3 of every entry is read as a `Decimal` and
 added to a running total. Rows whose revenue is not positive are dropped.

 As written, the loop deletes `temp['split_product_list']` on every pass, so the
 second entry of a product list raises `KeyError` and aborts the job: mode
 `AsWritten` models that code, mode `Intended` the evidently intended one row per
 purchase carrying the sum over all of its entries.
 */
module Revenue {
  import opened Wrappers
  import opened Strings
  import opened Decimals
  import opened Records

  /** The exceptions that abort the computation, and with it the whole job. */
  datatype RevenueError =
    | NullProductList                     // `len(None)` raises TypeError
    | MissingRevenueField(entry: string)  // `split(';')[3]` raises IndexError
    | InvalidDecimal(text: string)        // `Decimal(text)` raises InvalidOperation
    | ProductListKeyDeleted               // the second `del temp['split_product_list']` raises KeyError

  datatype RevenueMode = AsWritten | Intended

  const PurchaseEvent := "1"
  const EntrySeparator := ","
  const FieldSeparator := ";"
  /** Index of the revenue field within a `;`-separated product entry. */
  const RevenueField := 3

  /** `where event_list = '1'`: a null `event_list` never matches. */
  predicate IsPurchase(h: Hit)
  {
    h.eventList == Some(PurchaseEvent)
  }

  /**
   `Decimal(p_list.split(';')[3])` for one product entry: it yields a value exactly when
   the entry has a fourth field that is a decimal literal, and then the value of that
   literal; an entry with fewer than four fields raises `IndexError`, an unreadable
   fourth field raises `InvalidOperation`.
   */
  function EntryRevenue(entry: string): (r: Result<real, RevenueError>)
    ensures var fields := Split(entry, FieldSeparator);
      && (r.Success? <==> |fields| > RevenueField && Parse(fields[RevenueField]).Some?)
      && (r.Success? ==> WellFormed(Parse(fields[RevenueField]).value)
                         && Render(Parse(fields[RevenueField]).value) == fields[RevenueField]
                         && r.value == Value(Parse(fields[RevenueField]).value))
      && (|fields| <= RevenueField ==> r == Failure(MissingRevenueField(entry)))
      && (|fields| > RevenueField && Parse(fields[RevenueField]).None? ==>
            r == Failure(InvalidDecimal(fields[RevenueField])))
  {
    match At(Split(entry, FieldSeparator), RevenueField)
    case None => Failure(MissingRevenueField(entry))
    case Some(text) =>
      match Parse(text)
      case None => Failure(InvalidDecimal(text))
      case Some(d) => Success(Value(d))
  }

  /** The revenue each product entry yields or the error it raises, entry by entry. */
  function EntryRevenues(entries: seq<string>): (r: seq<Result<real, RevenueError>>)
    ensures |r| == |entries|
    ensures forall i :: 0 <= i < |entries| ==> r[i] == EntryRevenue(entries[i])
  {
    seq(|entries|, i requires 0 <= i < |entries| => EntryRevenue(entries[i]))
  }

  /**
   Fail-fast evaluation of steps taken in order: every step's value when all of them
   succeed, otherwise the error of the first step that fails.
   */
  function AllValues<T(==)>(steps: seq<Result<T, RevenueError>>): (r: Result<seq<T>, RevenueError>)
    ensures r.Success? <==> forall i :: 0 <= i < |steps| ==> steps[i].Success?
    ensures r.Success? ==> |r.value| == |steps|
    ensures r.Success? ==> forall i :: 0 <= i < |steps| ==> steps[i] == Success(r.value[i])
    ensures r.Failure? ==> exists i :: (0 <= i < |steps| && steps[i] == Failure(r.error)
      && forall j :: 0 <= j < i ==> steps[j].Success?)
  {
    if |steps| == 0 then Success([])
    else
      assert forall i :: 1 <= i < |steps| ==> steps[i] == steps[1..][i - 1];
      match steps[0]
      case Failure(e) => Failure(e)
      case Success(v) =>
        var rest := AllValues(steps[1..]);
        if rest.Failure? then
          var i :| (0 <= i < |steps| - 1 && steps[1..][i] == Failure(rest.error)
            && forall j :: 0 <= j < i ==> steps[1..][j].Success?);
          assert steps[i + 1] == Failure(rest.error);
          Failure(rest.error)
        else
          Success([v] + rest.value)
  }

  /** Exact sum of a sequence of decimal values. */
  function Sum(values: seq<real>): real
  {
    if |values| == 0 then 0.0 else values[0] + Sum(values[1..])
  }

  /**
   Lines 80-83 as a fold: `total_revenue += Decimal(...)` over the entries' revenues,
   starting from `total` and stopping at the first entry that raises.
   */
  function RunningTotal(steps: seq<Result<real, RevenueError>>, total: real): Result<real, RevenueError>
  {
    if |steps| == 0 then Success(total)
    else
      match steps[0]
      case Failure(e) => Failure(e)
      case Success(v) => RunningTotal(steps[1..], total + v)
  }

  /** The fold adds exactly the entries' revenues to its start value, or fails with their first error. */
  lemma {:induction false} RunningTotalIsSum(steps: seq<Result<real, RevenueError>>, total: real)
    ensures AllValues(steps).Success? ==>
      RunningTotal(steps, total) == Success(total + Sum(AllValues(steps).value))
    ensures AllValues(steps).Failure? ==>
      RunningTotal(steps, total) == Failure(AllValues(steps).error)
  {
    if |steps| > 0 {
      match steps[0]
      case Failure(e) =>
      case Success(v) =>
        RunningTotalIsSum(steps[1..], total + v);
        if AllValues(steps[1..]).Success? {
          var vs := AllValues(steps[1..]).value;
          assert AllValues(steps).value == [v] + vs;
          assert ([v] + vs)[1..] == vs;
        }
    }
  }

  /**
   The running total after `k` entries is the exact decimal sum of field 3 of the
   first `k` entries, whenever those `k` entries are readable, whatever follows them.
   */
  lemma RunningTotalAfter(entries: seq<string>, k: nat)
    requires k <= |entries|
    requires forall i :: 0 <= i < k ==> EntryRevenue(entries[i]).Success?
    ensures var vs := AllValues(EntryRevenues(entries)[..k]);
      && vs.Success?
      && (forall i :: 0 <= i < k ==> EntryRevenue(entries[i]) == Success(vs.value[i]))
      && RunningTotal(EntryRevenues(entries)[..k], 0.0) == Success(Sum(vs.value))
  {
    PrefixTotal(EntryRevenues(entries), k);
  }

  /** A prefix of steps that all succeed totals to the sum of their values. */
  lemma PrefixTotal(steps: seq<Result<real, RevenueError>>, k: nat)
    requires k <= |steps|
    requires forall i :: 0 <= i < k ==> steps[i].Success?
    ensures var vs := AllValues(steps[..k]);
      && vs.Success?
      && (forall i :: 0 <= i < k ==> steps[i] == Success(vs.value[i]))
      && RunningTotal(steps[..k], 0.0) == Success(Sum(vs.value))
  {
    assert forall i :: 0 <= i < k ==> steps[..k][i] == steps[i];
    RunningTotalIsSum(steps[..k], 0.0);
  }

  /**
   Lines 81-86 for one purchase row, as written. `temp` is created once per row
   (line 79) and `del temp['split_product_list']` runs on each pass; `keyPresent`
   says whether the key is still there. `appended` holds what `result.append(temp)`
   added (the same dict each time, but the loop never reaches a second append).
   */
  function AsWrittenLoop(ip: string, steps: seq<Result<real, RevenueError>>, i: nat, total: real,
                         keyPresent: bool, appended: seq<RevenueRow>): (r: Result<seq<RevenueRow>, RevenueError>)
    requires i <= |steps|
    ensures r.Success? <==> i == |steps| || (keyPresent && i + 1 == |steps| && steps[i].Success?)
    ensures r.Success? && i == |steps| ==> r.value == appended
    ensures r.Success? && i < |steps| ==> r.value == appended + [RevenueRow(ip, total + steps[i].value)]
    ensures i < |steps| && steps[i].Failure? ==> r == Failure(steps[i].error)
    ensures i < |steps| && steps[i].Success? && !keyPresent ==> r == Failure(ProductListKeyDeleted)
    ensures i + 1 < |steps| && steps[i].Success? && steps[i + 1].Success? ==> r == Failure(ProductListKeyDeleted)
    decreases |steps| - i
  {
    if i == |steps| then Success(appended)
    else
      match steps[i]
      case Failure(e) => Failure(e)
      case Success(v) =>
        var t := total + v;
        if !keyPresent then Failure(ProductListKeyDeleted)
        else AsWrittenLoop(ip, steps, i + 1, t, false, appended + [RevenueRow(ip, t)])
  }

  /** The rows one purchase with the given product entries yields, or the error it raises. */
  function EntriesRevenue(mode: RevenueMode, ip: string, entries: seq<string>): Result<seq<RevenueRow>, RevenueError>
  {
    var steps := EntryRevenues(entries);
    match mode
    case AsWritten => AsWrittenLoop(ip, steps, 0, 0.0, true, [])
    case Intended =>
      var total :- RunningTotal(steps, 0.0);
      Success([RevenueRow(ip, total)])
  }

  /** The revenue rows one purchase hit contributes, or the error it raises. */
  function RowRevenue(mode: RevenueMode, h: Hit): Result<seq<RevenueRow>, RevenueError>
  {
    match h.productList
    case None => Failure(NullProductList)
    case Some(productList) => EntriesRevenue(mode, h.ip, Split(productList, EntrySeparator))
  }

  /**
   The corrected row: one revenue row per purchase, carrying the exact sum of all its
   entries' revenues; it fails exactly when some entry has no readable revenue, with
   the first such error.
   */
  lemma IntendedRowIsSum(ip: string, entries: seq<string>)
    ensures var vs := AllValues(EntryRevenues(entries));
      && (vs.Success? ==> EntriesRevenue(Intended, ip, entries) == Success([RevenueRow(ip, Sum(vs.value))]))
      && (vs.Failure? ==> EntriesRevenue(Intended, ip, entries) == Failure(vs.error))
  {
    RunningTotalIsSum(EntryRevenues(entries), 0.0);
  }

  /**
   The code as written succeeds on a product list exactly when it has a single entry
   with a readable revenue, and then yields that one row; a first entry without one
   raises its own error, and two readable entries raise `KeyError`.
   */
  lemma AsWrittenRow(ip: string, entries: seq<string>)
    requires |entries| > 0
    ensures var r := EntriesRevenue(AsWritten, ip, entries);
      var first := EntryRevenue(entries[0]);
      && (r.Success? <==> |entries| == 1 && first.Success?)
      && (r.Success? ==> r.value == [RevenueRow(ip, first.value)])
      && (first.Failure? ==> r == Failure(first.error))
      && (|entries| >= 2 && first.Success? && EntryRevenue(entries[1]).Success? ==>
            r == Failure(ProductListKeyDeleted))
  {
    var steps := EntryRevenues(entries);
    var first := EntryRevenue(entries[0]);
    if first.Success? {
      var t := 0.0 + first.value;
      assert [] + [RevenueRow(ip, t)] == [RevenueRow(ip, t)];
      assert EntriesRevenue(AsWritten, ip, entries) == AsWrittenLoop(ip, steps, 1, t, false, [RevenueRow(ip, t)]);
      if |entries| >= 2 {
        assert steps[1] == EntryRevenue(entries[1]);
      }
    }
  }

  /** Where the code as written succeeds it agrees with the corrected row. */
  lemma AsWrittenAgreesWhenItSucceeds(ip: string, entries: seq<string>)
    requires |entries| > 0
    requires EntriesRevenue(AsWritten, ip, entries).Success?
    ensures EntriesRevenue(Intended, ip, entries) == EntriesRevenue(AsWritten, ip, entries)
  {
    AsWrittenRow(ip, entries);
    var steps := EntryRevenues(entries);
    assert steps[1..] == [];
    assert RunningTotal(steps, 0.0) == RunningTotal(steps[1..], 0.0 + steps[0].value);
  }

  /** Two readable entries: the code as written raises `KeyError`, the corrected row sums both. */
  lemma TwoReadableEntries(ip: string, entries: seq<string>)
    requires |entries| == 2
    requires EntryRevenue(entries[0]).Success? && EntryRevenue(entries[1]).Success?
    ensures EntriesRevenue(AsWritten, ip, entries) == Failure(ProductListKeyDeleted)
    ensures EntriesRevenue(Intended, ip, entries)
      == Success([RevenueRow(ip, EntryRevenue(entries[0]).value + EntryRevenue(entries[1]).value)])
  {
    AsWrittenRow(ip, entries);
    IntendedRowIsSum(ip, entries);
    var steps := EntryRevenues(entries);
    var a := steps[0].value;
    var b := steps[1].value;
    var vs := AllValues(steps).value;
    assert vs == [a, b];
    assert Sum([b]) == b by {
      assert [b][1..] == [];
    }
    assert Sum([a, b]) == a + Sum([b]) by {
      assert [a, b][1..] == [b];
    }
  }

  /**
   The discrepancy: a purchase whose product list has two entries with readable
   revenues, such as `"a;b;c;12.00,d;e;f;8.00"`, aborts the job as written, while the
   corrected row carries the sum of both revenues.
   */
  lemma TwoEntriesAbortAsWritten(ip: string, first: string, second: string, referrer: Option<string>)
    requires !Contains(first, EntrySeparator) && !Contains(second, EntrySeparator)
    requires EntryRevenue(first).Success? && EntryRevenue(second).Success?
    ensures var h := Hit(Some(first + EntrySeparator + second), ip, referrer, Some(PurchaseEvent));
      && IsPurchase(h)
      && RowRevenue(AsWritten, h) == Failure(ProductListKeyDeleted)
      && RowRevenue(Intended, h)
           == Success([RevenueRow(ip, EntryRevenue(first).value + EntryRevenue(second).value)])
  {
    var h := Hit(Some(first + EntrySeparator + second), ip, referrer, Some(PurchaseEvent));
    var entries := [first, second];
    SplitTwo(first, EntrySeparator, second);
    assert Split(h.productList.value, EntrySeparator) == entries;
    TwoReadableEntries(ip, entries);
    assert RowRevenue(AsWritten, h) == EntriesRevenue(AsWritten, ip, entries);
    assert RowRevenue(Intended, h) == EntriesRevenue(Intended, ip, entries);
  }

  /** What one hit contributes: its rows when it is a purchase, nothing otherwise. */
  function HitRevenue(mode: RevenueMode, h: Hit): Result<seq<RevenueRow>, RevenueError>
  {
    if IsPurchase(h) then RowRevenue(mode, h) else Success([])
  }

  /** Concatenation of a sequence of sequences. */
  function Flatten(groups: seq<seq<RevenueRow>>): (r: seq<RevenueRow>)
    ensures forall x :: x in r <==> exists i :: 0 <= i < |groups| && x in groups[i]
  {
    if |groups| == 0 then []
    else
      assert forall i :: 1 <= i < |groups| ==> groups[i] == groups[1..][i - 1];
      groups[0] + Flatten(groups[1..])
  }

  /**
   The loop over the collected purchase rows (line 78), hit by hit: the rows of all
   hits, or the error of the first purchase hit that raises.
   */
  function CollectRevenue(mode: RevenueMode, hits: seq<Hit>): Result<seq<RevenueRow>, RevenueError>
  {
    var perHit := AllValues(seq(|hits|, i requires 0 <= i < |hits| => HitRevenue(mode, hits[i])));
    if perHit.Failure? then Failure(perHit.error) else Success(Flatten(perHit.value))
  }

  /** `where(Revenue > 0)`: exactly the rows with positive revenue, in order. */
  function Positive(rows: seq<RevenueRow>): (r: seq<RevenueRow>)
    ensures forall x :: x in r <==> x in rows && x.revenue > 0.0
    ensures forall k :: 0 <= k < |r| ==> r[k].revenue > 0.0
    ensures forall x :: multiset(r)[x] == if x.revenue > 0.0 then multiset(rows)[x] else 0
  {
    if |rows| == 0 then []
    else
      assert rows == [rows[0]] + rows[1..];
      (if rows[0].revenue > 0.0 then [rows[0]] else []) + Positive(rows[1..])
  }

  /** How many times the hits' revenue rows, taken together, contain `x`. */
  function RowCount(mode: RevenueMode, hits: seq<Hit>, x: RevenueRow): nat
  {
    if |hits| == 0 then 0
    else
      (match HitRevenue(mode, hits[0])
       case Success(rows) => multiset(rows)[x]
       case Failure(_) => 0)
      + RowCount(mode, hits[1..], x)
  }

  /** Collecting keeps every row of every hit, as many times as the hits yield it. */
  lemma {:induction false} CollectCount(mode: RevenueMode, hits: seq<Hit>, x: RevenueRow)
    requires CollectRevenue(mode, hits).Success?
    ensures multiset(CollectRevenue(mode, hits).value)[x] == RowCount(mode, hits, x)
  {
    if |hits| > 0 {
      var steps := seq(|hits|, i requires 0 <= i < |hits| => HitRevenue(mode, hits[i]));
      var t := hits[1..];
      var tail := seq(|t|, i requires 0 <= i < |t| => HitRevenue(mode, t[i]));
      assert steps[1..] == tail;
      var v := steps[0].value;
      var rest := AllValues(tail);
      assert rest.Success?;
      assert AllValues(steps).value == [v] + rest.value;
      assert ([v] + rest.value)[1..] == rest.value;
      assert CollectRevenue(mode, hits).value == v + Flatten(rest.value);
      CollectCount(mode, t, x);
      assert multiset(v + Flatten(rest.value)) == multiset(v) + multiset(Flatten(rest.value));
    }
  }

  /**
   `calculate_total_revenue`: succeeds exactly when no purchase hit raises, and then
   every returned row has strictly positive revenue and is one of the rows of a
   purchase hit, and each positive row occurs exactly as often as the purchase hits
   yield it (two purchases of the same `ip` and revenue give two rows); a failure is
   the error of the first purchase hit that raises.
   */
  function CalculateTotalRevenue(mode: RevenueMode, hits: seq<Hit>): (r: Result<seq<RevenueRow>, RevenueError>)
    ensures r.Success? <==> forall i :: 0 <= i < |hits| && IsPurchase(hits[i]) ==> RowRevenue(mode, hits[i]).Success?
    ensures r.Success? ==> forall k :: 0 <= k < |r.value| ==> r.value[k].revenue > 0.0
    ensures r.Success? ==> forall x :: x in r.value ==>
      x.revenue > 0.0 && exists i :: 0 <= i < |hits| && IsPurchase(hits[i]) && x in RowRevenue(mode, hits[i]).value
    ensures r.Success? ==> forall i, x :: 0 <= i < |hits| && IsPurchase(hits[i]) && x in RowRevenue(mode, hits[i]).value && x.revenue > 0.0 ==> x in r.value
    ensures r.Success? ==> forall x :: multiset(r.value)[x] == if x.revenue > 0.0 then RowCount(mode, hits, x) else 0
    ensures r.Failure? ==> exists i :: (0 <= i < |hits| && IsPurchase(hits[i]) && RowRevenue(mode, hits[i]) == Failure(r.error)
      && forall j :: 0 <= j < i && IsPurchase(hits[j]) ==> RowRevenue(mode, hits[j]).Success?)
  {
    var perHit := seq(|hits|, i requires 0 <= i < |hits| => HitRevenue(mode, hits[i]));
    assert forall i :: 0 <= i < |hits| ==> perHit[i] == HitRevenue(mode, hits[i]);
    var rows :- CollectRevenue(mode, hits);
    var all := AllValues(perHit).value;
    assert forall i :: 0 <= i < |hits| ==> HitRevenue(mode, hits[i]) == Success(all[i]);
    assert forall x :: multiset(rows)[x] == RowCount(mode, hits, x) by {
      forall x {
        CollectCount(mode, hits, x);
      }
    }
    Success(Positive(rows))
  }

  /**
   As written, the job gets past revenue only when every purchase hit has a product
   list with exactly one entry.
   */
  lemma AsWrittenNeedsSingleEntries(hits: seq<Hit>, i: nat)
    requires CalculateTotalRevenue(AsWritten, hits).Success?
    requires i < |hits| && IsPurchase(hits[i])
    ensures hits[i].productList.Some?
    ensures |Split(hits[i].productList.value, EntrySeparator)| == 1
  {
    assert RowRevenue(AsWritten, hits[i]).Success?;
    AsWrittenRow(hits[i].ip, Split(hits[i].productList.value, EntrySeparator));
  }

  /** The product list is present and every one of its entries has a readable revenue. */
  predicate AllEntriesReadable(h: Hit)
  {
    && h.productList.Some?
    && var entries := Split(h.productList.value, EntrySeparator);
       forall k :: 0 <= k < |entries| ==> EntryRevenue(entries[k]).Success?
  }

  /** The product list is present and is one entry with a readable revenue. */
  predicate SingleReadableEntry(h: Hit)
  {
    && h.productList.Some?
    && var entries := Split(h.productList.value, EntrySeparator);
       |entries| == 1 && EntryRevenue(entries[0]).Success?
  }

  /** The corrected row of a hit succeeds exactly when all its entries are readable. */
  lemma IntendedRowSucceeds(h: Hit)
    ensures RowRevenue(Intended, h).Success? <==> AllEntriesReadable(h)
  {
    if h.productList.Some? {
      var entries := Split(h.productList.value, EntrySeparator);
      IntendedRowIsSum(h.ip, entries);
    }
  }

  /** The row as written succeeds exactly when the product list is one readable entry. */
  lemma AsWrittenRowSucceeds(h: Hit)
    ensures RowRevenue(AsWritten, h).Success? <==> SingleReadableEntry(h)
  {
    if h.productList.Some? {
      AsWrittenRow(h.ip, Split(h.productList.value, EntrySeparator));
    }
  }
}
