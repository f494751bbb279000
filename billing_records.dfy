/**
  The `billing_records` table and Eloquent's `updateOrCreate` on it, keyed by
  customer and `Y-m` month. The table has only a non-unique index on that
  pair, so at most one record per key is a consequence of always writing
  through `updateOrCreate`, which updates the first matching record, or
  appends a new one with the next id when there is none.
*/
module BillingRecords {
  import opened Wrappers

  /** The usage report fetched for one MikroTik user (`$usageData`). */
  datatype UsageReport = UsageReport(
    username: string,
    totalBytes: int,
    downloadBytes: int,
    uploadBytes: int,
    sessionTime: int,
    lastSeen: string,
    ipAddress: string,
    macAddress: string,
    connectionTime: int,
    status: string)

  datatype BillingStatus = Pending | Paid | Overdue

  /** One row; times are seconds since the epoch. */
  datatype BillingRecord = BillingRecord(
    id: nat,
    customerId: nat,
    periodMonth: string,
    amount: real,
    usageMb: real,
    status: BillingStatus,
    dueDate: int,
    paidAt: Option<int>,
    mikrotikData: UsageReport)

  /** The values `updateOrCreate` writes, besides the key. */
  datatype Charge = Charge(usageMb: real, report: UsageReport, amount: real, dueDate: int)

  /** The rows and the next auto-increment id. */
  datatype Table = Table(records: seq<BillingRecord>, nextId: nat)

  predicate HasKey(r: BillingRecord, customerId: nat, month: string) {
    r.customerId == customerId && r.periodMonth == month
  }

  /** Whether a row carries exactly the given values. */
  predicate Carries(r: BillingRecord, c: Charge) {
    r.usageMb == c.usageMb && r.mikrotikData == c.report && r.amount == c.amount && r.dueDate == c.dueDate
  }

  /** The first row with the key, as `where(...)->first()` finds it. */
  function FindKey(records: seq<BillingRecord>, customerId: nat, month: string): (r: Option<nat>)
    ensures r.Some? ==> r.value < |records| && HasKey(records[r.value], customerId, month)
    ensures r.Some? ==> forall j :: 0 <= j < r.value ==> !HasKey(records[j], customerId, month)
    ensures r.None? <==> forall j :: 0 <= j < |records| ==> !HasKey(records[j], customerId, month)
  {
    if records == [] then None
    else if HasKey(records[0], customerId, month) then Some(0)
    else match FindKey(records[1..], customerId, month)
      case None => None
      case Some(k) => Some(k + 1)
  }

  /** The number of rows with the key. */
  function CountKey(records: seq<BillingRecord>, customerId: nat, month: string): (n: nat)
    ensures n <= |records|
    ensures n == 0 <==> forall j :: 0 <= j < |records| ==> !HasKey(records[j], customerId, month)
  {
    if records == [] then 0
    else (if HasKey(records[|records| - 1], customerId, month) then 1 else 0)
         + CountKey(records[..|records| - 1], customerId, month)
  }

  /** The rows of other months, in order. */
  function OtherMonths(records: seq<BillingRecord>, month: string): (rs: seq<BillingRecord>)
    ensures |rs| <= |records|
  {
    if records == [] then []
    else OtherMonths(records[..|records| - 1], month)
         + (if records[|records| - 1].periodMonth != month then [records[|records| - 1]] else [])
  }

  /** `OtherMonths` keeps exactly the rows of other months. */
  lemma {:induction false} OtherMonthsMembers(records: seq<BillingRecord>, month: string)
    ensures forall r :: r in OtherMonths(records, month) <==> r in records && r.periodMonth != month
  {
    if records != [] {
      var n := |records| - 1;
      OtherMonthsMembers(records[..n], month);
      assert records == records[..n] + [records[n]];
    }
  }

  /** Filling an existing row: the key, id, status and payment are kept. */
  function Fill(r: BillingRecord, c: Charge): (f: BillingRecord)
    ensures Carries(f, c)
    ensures f.id == r.id && f.customerId == r.customerId && f.periodMonth == r.periodMonth
    ensures f.status == r.status && f.paidAt == r.paidAt
  {
    r.(usageMb := c.usageMb, mikrotikData := c.report, amount := c.amount, dueDate := c.dueDate)
  }

  /** A created row: the column defaults give status `pending` and no payment. */
  function NewRecord(id: nat, customerId: nat, month: string, c: Charge): (r: BillingRecord)
    ensures Carries(r, c) && HasKey(r, customerId, month) && r.id == id
    ensures r.status == Pending && r.paidAt == None
  {
    BillingRecord(id, customerId, month, c.amount, c.usageMb, Pending, c.dueDate, None, c.report)
  }

  /** `BillingRecord::updateOrCreate(['customer_id' => .., 'period_month' => ..], values)`. */
  function Upsert(t: Table, customerId: nat, month: string, c: Charge): (u: Table)
    ensures FindKey(t.records, customerId, month).Some? ==> |u.records| == |t.records| && u.nextId == t.nextId
    ensures FindKey(t.records, customerId, month).None? ==>
              |u.records| == |t.records| + 1 && u.nextId == t.nextId + 1 && HasKey(u.records[|t.records|], customerId, month)
    ensures forall i :: 0 <= i < |t.records| ==>
              HasKey(u.records[i], t.records[i].customerId, t.records[i].periodMonth)
  {
    match FindKey(t.records, customerId, month)
    case Some(i) => Table(t.records[i := Fill(t.records[i], c)], t.nextId)
    case None => Table(t.records + [NewRecord(t.nextId, customerId, month, c)], t.nextId + 1)
  }

  /** Every id is below the next id, and no two rows share one. */
  ghost predicate IdsValid(t: Table) {
    && (forall i :: 0 <= i < |t.records| ==> t.records[i].id < t.nextId)
    && (forall i, j :: 0 <= i < j < |t.records| ==> t.records[i].id != t.records[j].id)
  }

  /** Upserting keeps the ids valid. */
  lemma UpsertKeepsIds(t: Table, customerId: nat, month: string, c: Charge)
    requires IdsValid(t)
    ensures IdsValid(Upsert(t, customerId, month, c))
  {
  }

  lemma {:induction false} CountAppend(records: seq<BillingRecord>, r: BillingRecord, customerId: nat, month: string)
    ensures CountKey(records + [r], customerId, month) ==
              CountKey(records, customerId, month) + (if HasKey(r, customerId, month) then 1 else 0)
  {
    assert (records + [r])[..|records|] == records;
  }

  /** Replacing a row by one with the same key keeps the count of every key. */
  lemma {:induction false} CountReplace(records: seq<BillingRecord>, i: nat, r: BillingRecord, customerId: nat, month: string)
    requires i < |records|
    requires r.customerId == records[i].customerId && r.periodMonth == records[i].periodMonth
    ensures CountKey(records[i := r], customerId, month) == CountKey(records, customerId, month)
  {
    var n := |records| - 1;
    var s := records[i := r];
    if i == n {
      assert s[..n] == records[..n];
    } else {
      assert s[..n] == records[..n][i := r];
      CountReplace(records[..n], i, r, customerId, month);
    }
  }

  /** After an upsert the key has one row if it had none, and as many as
      before otherwise: a key with at most one row keeps exactly one. */
  lemma UpsertCount(t: Table, customerId: nat, month: string, c: Charge)
    ensures CountKey(Upsert(t, customerId, month, c).records, customerId, month) ==
              if CountKey(t.records, customerId, month) == 0 then 1 else CountKey(t.records, customerId, month)
  {
    match FindKey(t.records, customerId, month)
    case Some(i) =>
      CountReplace(t.records, i, Fill(t.records[i], c), customerId, month);
    case None =>
      CountAppend(t.records, NewRecord(t.nextId, customerId, month, c), customerId, month);
  }

  /** After an upsert the first row of the key carries the new values; an
      updated row keeps its id, status and payment. */
  lemma UpsertStores(t: Table, customerId: nat, month: string, c: Charge)
    ensures var u := Upsert(t, customerId, month, c);
            && FindKey(u.records, customerId, month).Some?
            && Carries(u.records[FindKey(u.records, customerId, month).value], c)
    ensures var u := Upsert(t, customerId, month, c);
            FindKey(t.records, customerId, month).Some? ==>
              FindKey(u.records, customerId, month) == FindKey(t.records, customerId, month)
              && var i := FindKey(t.records, customerId, month).value;
                 u.records[i].id == t.records[i].id && u.records[i].status == t.records[i].status
                 && u.records[i].paidAt == t.records[i].paidAt
    ensures var u := Upsert(t, customerId, month, c);
            FindKey(t.records, customerId, month).None? ==>
              u.records[FindKey(u.records, customerId, month).value] == NewRecord(t.nextId, customerId, month, c)
  {
    var u := Upsert(t, customerId, month, c);
    match FindKey(t.records, customerId, month)
    case Some(i) =>
      FirstMatch(u.records, customerId, month, i);
    case None =>
      FirstMatch(u.records, customerId, month, |t.records|);
  }

  /** An index holding the key with none before it is what `FindKey` finds. */
  lemma FirstMatch(records: seq<BillingRecord>, customerId: nat, month: string, i: nat)
    requires i < |records| && HasKey(records[i], customerId, month)
    requires forall j :: 0 <= j < i ==> !HasKey(records[j], customerId, month)
    ensures FindKey(records, customerId, month) == Some(i)
  {
    var r := FindKey(records, customerId, month);
    assert r.Some?;
    assert !(r.value < i) && !(i < r.value);
  }

  /** Repeating an upsert with the same values changes nothing: a second
      sync in the same month overwrites rather than duplicates. */
  lemma UpsertIdempotent(t: Table, customerId: nat, month: string, c: Charge)
    ensures var u := Upsert(t, customerId, month, c);
            Upsert(u, customerId, month, c) == u
  {
    var u := Upsert(t, customerId, month, c);
    UpsertStores(t, customerId, month, c);
    var i := FindKey(u.records, customerId, month).value;
    assert Fill(u.records[i], c) == u.records[i];
    assert u.records[i := u.records[i]] == u.records;
  }

  lemma {:induction false} OtherMonthsAppend(records: seq<BillingRecord>, r: BillingRecord, month: string)
    requires r.periodMonth == month
    ensures OtherMonths(records + [r], month) == OtherMonths(records, month)
  {
    assert (records + [r])[..|records|] == records;
  }

  lemma {:induction false} OtherMonthsReplace(records: seq<BillingRecord>, i: nat, r: BillingRecord, month: string)
    requires i < |records| && records[i].periodMonth == month && r.periodMonth == month
    ensures OtherMonths(records[i := r], month) == OtherMonths(records, month)
  {
    var n := |records| - 1;
    var s := records[i := r];
    if i == n {
      assert s[..n] == records[..n];
      assert OtherMonths(s, month) == OtherMonths(s[..n], month);
    } else {
      assert s[..n] == records[..n][i := r];
      OtherMonthsReplace(records[..n], i, r, month);
      assert s[n] == records[n];
    }
  }

  /** An upsert leaves the rows of every other month as they were. */
  lemma UpsertKeepsOtherMonths(t: Table, customerId: nat, month: string, c: Charge)
    ensures OtherMonths(Upsert(t, customerId, month, c).records, month) == OtherMonths(t.records, month)
  {
    match FindKey(t.records, customerId, month)
    case Some(i) =>
      OtherMonthsReplace(t.records, i, Fill(t.records[i], c), month);
    case None =>
      OtherMonthsAppend(t.records, NewRecord(t.nextId, customerId, month, c), month);
  }

  /** An upsert keeps every row of every other key where it was, and adds at
      most one row at the end. */
  lemma UpsertKeepsOtherKeys(t: Table, customerId: nat, month: string, c: Charge)
    ensures var u := Upsert(t, customerId, month, c);
            && |t.records| <= |u.records| <= |t.records| + 1
            && forall j :: 0 <= j < |t.records| && !HasKey(t.records[j], customerId, month) ==>
                 u.records[j] == t.records[j]
  {
  }

  /** No two rows share a key, as holds when every write goes through
      `updateOrCreate`. */
  predicate KeysUnique(records: seq<BillingRecord>) {
    forall i, j :: 0 <= i < j < |records| ==>
      !HasKey(records[j], records[i].customerId, records[i].periodMonth)
  }

  /** With unique keys every key has at most one row. */
  lemma {:induction false} UniqueCount(records: seq<BillingRecord>, customerId: nat, month: string)
    requires KeysUnique(records)
    ensures CountKey(records, customerId, month) <= 1
  {
    if records != [] {
      var n := |records| - 1;
      var init := records[..n];
      assert KeysUnique(init);
      UniqueCount(init, customerId, month);
      if HasKey(records[n], customerId, month) {
        assert forall j :: 0 <= j < n ==> !HasKey(init[j], customerId, month);
      }
    }
  }

  /** An upsert keeps keys unique, and leaves exactly one row for its key. */
  lemma UpsertKeepsUnique(t: Table, customerId: nat, month: string, c: Charge)
    requires KeysUnique(t.records)
    ensures KeysUnique(Upsert(t, customerId, month, c).records)
    ensures CountKey(Upsert(t, customerId, month, c).records, customerId, month) == 1
  {
    var u := Upsert(t, customerId, month, c);
    assert KeysUnique(u.records);
    UpsertCount(t, customerId, month, c);
    UniqueCount(t.records, customerId, month);
  }

  /** An upsert never loses a key: a key with a row keeps one. */
  lemma UpsertKeepsKeys(t: Table, customerId: nat, month: string, c: Charge, otherId: nat, otherMonth: string)
    requires FindKey(t.records, otherId, otherMonth).Some?
    ensures FindKey(Upsert(t, customerId, month, c).records, otherId, otherMonth).Some?
  {
    var i := FindKey(t.records, otherId, otherMonth).value;
    var u := Upsert(t, customerId, month, c);
    assert HasKey(u.records[i], otherId, otherMonth);
  }

  /** The `billing_records` table. */
  class BillingTable {
    var records: seq<BillingRecord>
    var nextId: nat

    function State(): Table
      reads this
    {
      Table(records, nextId)
    }

    ghost predicate Valid()
      reads this
    {
      IdsValid(State())
    }

    /** An empty table whose first id is 1. */
    constructor Empty()
      ensures Valid() && State() == Table([], 1)
    {
      records := [];
      nextId := 1;
    }

    /** `updateOrCreate`: returns the row written. */
    method UpdateOrCreate(customerId: nat, month: string, c: Charge) returns (record: BillingRecord)
      requires Valid()
      modifies this
      ensures Valid()
      ensures State() == Upsert(old(State()), customerId, month, c)
      ensures FindKey(records, customerId, month).Some?
      ensures record == records[FindKey(records, customerId, month).value] && Carries(record, c)
    {
      UpsertKeepsIds(State(), customerId, month, c);
      UpsertStores(State(), customerId, month, c);
      var u := Upsert(State(), customerId, month, c);
      records, nextId := u.records, u.nextId;
      record := records[FindKey(records, customerId, month).value];
    }
  }
}
