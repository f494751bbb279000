/**
  MikroTikService: syncing customers' usage from the router, recording the
  month's charge, and enabling, disabling or suspending accounts. The router
  is not called here: the report a customer's sync would fetch is an input
  (`reports`, keyed by MikroTik username; a missing entry is a failed fetch),
  and the current time and `Y-m` month are parameters.
*/
module MikroTikService {
  import opened Wrappers
  import opened BillingAmount
  import opened BillingRecords

  datatype CustomerStatus = Active | Inactive | Suspended

  /** A customer row. The service only ever writes `status` and
      `last_usage_sync`. */
  class Customer {
    const id: nat
    const name: string
    const email: string
    const mikrotikUsername: Option<string>
    const package: Option<string>
    var status: CustomerStatus
    var lastUsageSync: Option<int>

    constructor Create(id: nat, name: string, email: string, mikrotikUsername: Option<string>,
                       package: Option<string>, status: CustomerStatus, lastUsageSync: Option<int>)
      ensures this.id == id && this.name == name && this.email == email
      ensures this.mikrotikUsername == mikrotikUsername && this.package == package
      ensures this.status == status && this.lastUsageSync == lastUsageSync
    {
      this.id := id;
      this.name := name;
      this.email := email;
      this.mikrotikUsername := mikrotikUsername;
      this.package := package;
      this.status := status;
      this.lastUsageSync := lastUsageSync;
    }
  }

  /** The value of the `status` column. */
  function StatusName(s: CustomerStatus): string {
    match s
    case Active => "active"
    case Inactive => "inactive"
    case Suspended => "suspended"
  }

  /** `!$customer->mikrotik_username` is false: PHP treats null, "" and "0"
      as false. */
  predicate HasUsername(username: Option<string>): (h: bool)
    ensures h ==> username.Some? && |username.value| >= 1
    ensures username.Some? && |username.value| >= 2 ==> h
  {
    username.Some? && username.value != "" && username.value != "0"
  }

  const SecondsPerDay: int := 86400

  /** The report the router returns for a customer's username, if the fetch
      succeeds. */
  function Fetch(reports: map<string, UsageReport>, c: Customer): Option<UsageReport> {
    if c.mikrotikUsername.Some? && c.mikrotikUsername.value in reports
    then Some(reports[c.mikrotikUsername.value]) else None
  }

  /** Whether syncing a customer yields a report. */
  predicate Syncs(reports: map<string, UsageReport>, c: Customer) {
    HasUsername(c.mikrotikUsername) && Fetch(reports, c).Some?
  }

  /** The values `updateBillingRecord` writes: usage in MB, the report, the
      amount for the customer's package, and a due date 30 days on. */
  function ChargeFor(package: Option<string>, usage: UsageReport, now: int): (c: Charge)
    ensures c.usageMb * BytesPerMb as real == usage.totalBytes as real
    ensures c.amount >= BaseRate(package)
    ensures c.amount == BaseRate(package) <==> usage.totalBytes <= Limit(package) * BytesPerGb
    ensures c.report == usage && c.dueDate == now + 30 * SecondsPerDay
  {
    Charge(usage.totalBytes as real / BytesPerMb as real, usage, Amount(package, usage.totalBytes),
           now + 30 * SecondsPerDay)
  }

  /** `syncCustomerUsage`: nothing happens without a usable username or when
      the fetch fails; otherwise `last_usage_sync` becomes `now` and the report
      is returned. */
  method SyncCustomerUsage(customer: Customer, fetched: Option<UsageReport>, now: int) returns (usage: Option<UsageReport>)
    modifies customer
    ensures usage == (if HasUsername(customer.mikrotikUsername) then fetched else None)
    ensures customer.status == old(customer.status)
    ensures customer.lastUsageSync == (if usage.Some? then Some(now) else old(customer.lastUsageSync))
  {
    if !HasUsername(customer.mikrotikUsername) {
      return None;
    }
    if fetched.None? {
      return None;
    }
    customer.lastUsageSync := Some(now);
    usage := fetched;
  }

  /** `updateBillingRecord`: upsert the charge under (customer id, month). */
  method UpdateBillingRecord(table: BillingTable, customer: Customer, usage: UsageReport, now: int, month: string)
    returns (record: BillingRecord)
    requires table.Valid()
    modifies table
    ensures table.Valid()
    ensures table.State() == Upsert(old(table.State()), customer.id, month, ChargeFor(customer.package, usage, now))
    ensures HasKey(record, customer.id, month)
    ensures record.usageMb * BytesPerMb as real == usage.totalBytes as real
    ensures record.amount == Amount(customer.package, usage.totalBytes)
    ensures record.dueDate == now + 30 * SecondsPerDay && record.mikrotikData == usage
  {
    record := table.UpdateOrCreate(customer.id, month, ChargeFor(customer.package, usage, now));
  }

  /** `Customer::whereNotNull('mikrotik_username')`, in table order. */
  function WithUsername(all: seq<Customer>): (cs: seq<Customer>)
    ensures |cs| <= |all|
    ensures forall i :: 0 <= i < |cs| ==> cs[i] in all && cs[i].mikrotikUsername.Some?
    ensures forall i :: 0 <= i < |all| && all[i].mikrotikUsername.Some? ==> all[i] in cs
  {
    if all == [] then []
    else WithUsername(all[..|all| - 1])
         + (if all[|all| - 1].mikrotikUsername.Some? then [all[|all| - 1]] else [])
  }

  /** Selecting splits over concatenation, so the selection keeps the
      table's order. */
  lemma {:induction false} WithUsernameAppend(a: seq<Customer>, b: seq<Customer>)
    ensures WithUsername(a + b) == WithUsername(a) + WithUsername(b)
  {
    if b == [] {
      assert a + b == a;
    } else {
      var n := |b| - 1;
      var ab := a + b;
      var last := if b[n].mikrotikUsername.Some? then [b[n]] else [];
      WithUsernameAppend(a, b[..n]);
      assert ab[..|ab| - 1] == a + b[..n];
      assert ab[|ab| - 1] == b[n];
      calc {
        WithUsername(ab);
        WithUsername(a + b[..n]) + last;
        WithUsername(a) + WithUsername(b[..n]) + last;
        WithUsername(a) + (WithUsername(b[..n]) + last);
      }
    }
  }

  /** Each customer with a username is selected exactly as often as it
      occurs, and no other customer is. */
  lemma {:induction false} WithUsernameMultiset(all: seq<Customer>)
    ensures forall c: Customer :: multiset(WithUsername(all))[c] == if c.mikrotikUsername.Some? then multiset(all)[c] else 0
  {
    if all != [] {
      var n := |all| - 1;
      WithUsernameMultiset(all[..n]);
      assert all == all[..n] + [all[n]];
    }
  }

  /** How many of the customers sync. */
  function CountSynced(cs: seq<Customer>, reports: map<string, UsageReport>): (n: nat)
    ensures n <= |cs|
  {
    if cs == [] then 0
    else CountSynced(cs[..|cs| - 1], reports) + (if Syncs(reports, cs[|cs| - 1]) then 1 else 0)
  }

  /** Every customer counts as a success exactly when each one syncs, and
      none does exactly when no one syncs. */
  lemma {:induction false} CountSyncedExtremes(cs: seq<Customer>, reports: map<string, UsageReport>)
    ensures CountSynced(cs, reports) == |cs| <==> forall i :: 0 <= i < |cs| ==> Syncs(reports, cs[i])
    ensures CountSynced(cs, reports) == 0 <==> forall i :: 0 <= i < |cs| ==> !Syncs(reports, cs[i])
  {
    if cs != [] {
      var init := cs[..|cs| - 1];
      CountSyncedExtremes(init, reports);
      assert forall i :: 0 <= i < |init| ==> init[i] == cs[i];
    }
  }

  /** The billing table after syncing `cs` in order: one upsert for each
      customer that syncs, none for the others. */
  function SyncBilling(t: Table, cs: seq<Customer>, reports: map<string, UsageReport>, now: int, month: string): (r: Table)
    ensures |t.records| <= |r.records| <= |t.records| + |cs|
    ensures t.nextId <= r.nextId
  {
    if cs == [] then t
    else
      var prev := SyncBilling(t, cs[..|cs| - 1], reports, now, month);
      var c := cs[|cs| - 1];
      if Syncs(reports, c) then Upsert(prev, c.id, month, ChargeFor(c.package, Fetch(reports, c).value, now))
      else prev
  }

  /** Every customer that syncs ends up with a billing row for the month. */
  lemma {:induction false} SyncedHaveRecords(t: Table, cs: seq<Customer>, reports: map<string, UsageReport>,
                                             now: int, month: string, j: nat)
    requires j < |cs| && Syncs(reports, cs[j])
    ensures FindKey(SyncBilling(t, cs, reports, now, month).records, cs[j].id, month).Some?
  {
    var n := |cs| - 1;
    var c := cs[n];
    var prev := SyncBilling(t, cs[..n], reports, now, month);
    if j == n {
      UpsertStores(prev, c.id, month, ChargeFor(c.package, Fetch(reports, c).value, now));
    } else {
      SyncedHaveRecords(t, cs[..n], reports, now, month, j);
      if Syncs(reports, c) {
        UpsertKeepsKeys(prev, c.id, month, ChargeFor(c.package, Fetch(reports, c).value, now), cs[j].id, month);
      }
    }
  }

  /** Syncing never moves or rekeys a row that was already there. */
  lemma {:induction false} SyncKeepsRowKeys(t: Table, cs: seq<Customer>, reports: map<string, UsageReport>,
                                            now: int, month: string, i: nat)
    requires i < |t.records|
    ensures HasKey(SyncBilling(t, cs, reports, now, month).records[i], t.records[i].customerId, t.records[i].periodMonth)
  {
    if cs != [] {
      SyncKeepsRowKeys(t, cs[..|cs| - 1], reports, now, month, i);
    }
  }

  /** Syncing writes only the given month: other months' rows stay as they
      were, in order. */
  lemma {:induction false} SyncKeepsOtherMonths(t: Table, cs: seq<Customer>, reports: map<string, UsageReport>,
                                                now: int, month: string)
    ensures OtherMonths(SyncBilling(t, cs, reports, now, month).records, month) == OtherMonths(t.records, month)
  {
    if cs != [] {
      var n := |cs| - 1;
      var c := cs[n];
      SyncKeepsOtherMonths(t, cs[..n], reports, now, month);
      if Syncs(reports, c) {
        UpsertKeepsOtherMonths(SyncBilling(t, cs[..n], reports, now, month), c.id, month,
                               ChargeFor(c.package, Fetch(reports, c).value, now));
      }
    }
  }

  /** Syncing keeps at most one row per customer and month, however often a
      month is synced; it adds no more rows than there are successes. */
  lemma {:induction false} SyncKeepsUnique(t: Table, cs: seq<Customer>, reports: map<string, UsageReport>,
                                           now: int, month: string)
    requires KeysUnique(t.records)
    ensures KeysUnique(SyncBilling(t, cs, reports, now, month).records)
    ensures |SyncBilling(t, cs, reports, now, month).records| <= |t.records| + CountSynced(cs, reports)
  {
    if cs != [] {
      var n := |cs| - 1;
      var c := cs[n];
      var prev := SyncBilling(t, cs[..n], reports, now, month);
      SyncKeepsUnique(t, cs[..n], reports, now, month);
      if Syncs(reports, c) {
        var charge := ChargeFor(c.package, Fetch(reports, c).value, now);
        UpsertKeepsUnique(prev, c.id, month, charge);
        UpsertKeepsOtherKeys(prev, c.id, month, charge);
      }
    }
  }

  /** When no customer syncs, the billing table is untouched. */
  lemma {:induction false} NoSyncNoBilling(t: Table, cs: seq<Customer>, reports: map<string, UsageReport>,
                                           now: int, month: string)
    requires CountSynced(cs, reports) == 0
    ensures SyncBilling(t, cs, reports, now, month) == t
  {
    if cs != [] {
      NoSyncNoBilling(t, cs[..|cs| - 1], reports, now, month);
    }
  }

  /** The counters `syncAllCustomers` returns. */
  datatype SyncResults = SyncResults(success: nat, failed: nat, total: nat)

  /** One turn of the `syncAllCustomers` loop: sync the customer and, when
      a report comes back, upsert the month's billing record. */
  method SyncOne(customer: Customer, reports: map<string, UsageReport>, now: int, month: string,
                 table: BillingTable) returns (synced: bool)
    requires table.Valid()
    modifies customer, table
    ensures table.Valid()
    ensures synced == Syncs(reports, customer)
    ensures customer.status == old(customer.status)
    ensures customer.lastUsageSync == if synced then Some(now) else old(customer.lastUsageSync)
    ensures table.State() ==
              if synced then Upsert(old(table.State()), customer.id, month,
                                    ChargeFor(customer.package, Fetch(reports, customer).value, now))
              else old(table.State())
  {
    var usage := SyncCustomerUsage(customer, Fetch(reports, customer), now);
    synced := usage.Some?;
    if synced {
      var _ := UpdateBillingRecord(table, customer, usage.value, now, month);
    }
  }

  /** The `foreach` of `syncAllCustomers`, over the customers it selected. */
  method SyncEach(customers: seq<Customer>, reports: map<string, UsageReport>, now: int, month: string,
                  table: BillingTable) returns (success: nat, failed: nat)
    requires table.Valid()
    modifies table, customers
    ensures table.Valid()
    ensures success == CountSynced(customers, reports)
    ensures success + failed == |customers|
    ensures table.State() == SyncBilling(old(table.State()), customers, reports, now, month)
    ensures forall c :: c in customers ==> c.status == old(c.status)
    ensures forall c :: c in customers ==>
              c.lastUsageSync == if Syncs(reports, c) then Some(now) else old(c.lastUsageSync)
  {
    success, failed := 0, 0;
    var i := 0;
    while i < |customers|
      invariant 0 <= i <= |customers|
      invariant table.Valid()
      invariant success == CountSynced(customers[..i], reports)
      invariant success + failed == i
      invariant table.State() == SyncBilling(old(table.State()), customers[..i], reports, now, month)
      invariant forall c :: c in customers ==> c.status == old(c.status)
      invariant forall c :: c in customers && !Syncs(reports, c) ==> c.lastUsageSync == old(c.lastUsageSync)
      invariant forall j :: 0 <= j < i && Syncs(reports, customers[j]) ==> customers[j].lastUsageSync == Some(now)
    {
      SyncStep(old(table.State()), customers, i, reports, now, month);
      var synced := SyncOne(customers[i], reports, now, month, table);
      if synced {
        success := success + 1;
      } else {
        failed := failed + 1;
      }
      i := i + 1;
    }
    assert customers[..i] == customers;
  }

  /** Extending the synced prefix by one customer adds one upsert and one
      success exactly when that customer syncs. */
  lemma SyncStep(t: Table, cs: seq<Customer>, i: nat, reports: map<string, UsageReport>, now: int, month: string)
    requires i < |cs|
    ensures SyncBilling(t, cs[..i + 1], reports, now, month) ==
              if Syncs(reports, cs[i])
              then Upsert(SyncBilling(t, cs[..i], reports, now, month), cs[i].id, month,
                          ChargeFor(cs[i].package, Fetch(reports, cs[i]).value, now))
              else SyncBilling(t, cs[..i], reports, now, month)
    ensures CountSynced(cs[..i + 1], reports) == CountSynced(cs[..i], reports) + if Syncs(reports, cs[i]) then 1 else 0
  {
    assert cs[..i + 1][..i] == cs[..i];
  }

  /** `syncAllCustomers`: every customer with a non-null username is synced
      in turn; those that yield a report count as successes and get their
      billing record upserted, the rest count as failures. */
  method SyncAllCustomers(all: seq<Customer>, reports: map<string, UsageReport>, now: int, month: string,
                          table: BillingTable) returns (results: SyncResults)
    requires table.Valid()
    modifies table, all
    ensures table.Valid()
    ensures results.total == |WithUsername(all)|
    ensures results.success == CountSynced(WithUsername(all), reports)
    ensures results.success + results.failed == results.total
    ensures table.State() == SyncBilling(old(table.State()), WithUsername(all), reports, now, month)
    ensures forall c :: c in all ==> c.status == old(c.status)
    ensures forall c :: c in all ==>
              c.lastUsageSync == if Syncs(reports, c) then Some(now) else old(c.lastUsageSync)
  {
    var customers := WithUsername(all);
    var success, failed := SyncEach(customers, reports, now, month, table);
    results := SyncResults(success, failed, |customers|);
  }

  /** The status each account action sets; other actions set none. */
  function ActionStatus(action: string): (s: Option<CustomerStatus>)
    ensures s.Some? <==> action in {"enable", "disable", "suspend"}
  {
    match action
    case "enable" => Some(Active)
    case "disable" => Some(Inactive)
    case "suspend" => Some(Suspended)
    case _ => None
  }

  /** `enable`, `disable` and `suspend` store `active`, `inactive` and
      `suspended`, three different statuses. */
  lemma ActionStatusNames()
    ensures StatusName(ActionStatus("enable").value) == "active"
    ensures StatusName(ActionStatus("disable").value) == "inactive"
    ensures StatusName(ActionStatus("suspend").value) == "suspended"
  {
  }

  /** `manageCustomerAccount`: false and no change without a usable
      username; otherwise true, with the action's status stored when the
      action is one of the three. */
  method ManageCustomerAccount(customer: Customer, action: string) returns (ok: bool)
    modifies customer
    ensures ok <==> HasUsername(customer.mikrotikUsername)
    ensures customer.lastUsageSync == old(customer.lastUsageSync)
    ensures customer.status == if ok && ActionStatus(action).Some? then ActionStatus(action).value else old(customer.status)
  {
    if !HasUsername(customer.mikrotikUsername) {
      return false;
    }
    ok := true;
    if ActionStatus(action).Some? {
      customer.status := ActionStatus(action).value;
    }
  }
}
