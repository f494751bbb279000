/**
  The monthly charge of MikroTikService::calculateBillingAmount: a base rate
  and an included allowance in GB, both looked up by package name with a
  fallback, plus 2000 per GB beyond the allowance. Amounts are exact
  rationals (`real`); a usage of `b` bytes is `b / 2^30` GB.
*/
module BillingAmount {
  import opened Wrappers

  const BytesPerMb: nat := 1048576
  const BytesPerGb: nat := 1073741824

  /** Base rate of each package, per month. */
  const PackageRates: map<string, real> := map[
    "Basic 10Mbps" := 150000.0,
    "Standard 25Mbps" := 250000.0,
    "Premium 50Mbps" := 400000.0,
    "Enterprise 100Mbps" := 750000.0
  ]

  /** Included usage of each package, in GB. */
  const PackageLimits: map<string, nat> := map[
    "Basic 10Mbps" := 100,
    "Standard 25Mbps" := 250,
    "Premium 50Mbps" := 500,
    "Enterprise 100Mbps" := 1000
  ]

  const DefaultRate: real := 200000.0
  const DefaultLimit: nat := 200

  /** Charge per GB beyond the allowance. */
  const OverageRate: real := 2000.0

  /** The array key a package name indexes with: PHP turns a null key into "". */
  function PackageKey(package: Option<string>): string {
    package.GetOr("")
  }

  /** `$packageRates[$customer->package] ?? 200000`. */
  function BaseRate(package: Option<string>): (rate: real)
    ensures PackageKey(package) in PackageRates ==> rate == PackageRates[PackageKey(package)]
    ensures PackageKey(package) !in PackageRates ==> rate == DefaultRate
    ensures rate > 0.0
  {
    var key := PackageKey(package);
    if key in PackageRates then PackageRates[key] else DefaultRate
  }

  /** `$packageLimits[$customer->package] ?? 200`. */
  function Limit(package: Option<string>): (gb: nat)
    ensures PackageKey(package) in PackageLimits ==> gb == PackageLimits[PackageKey(package)]
    ensures PackageKey(package) !in PackageLimits ==> gb == DefaultLimit
  {
    var key := PackageKey(package);
    if key in PackageLimits then PackageLimits[key] else DefaultLimit
  }

  /** `total_bytes / (1024 * 1024 * 1024)`. */
  function UsageGb(totalBytes: int): real {
    totalBytes as real / BytesPerGb as real
  }

  /** Whether a usage exceeds the allowance, decided on whole bytes. */
  predicate OverLimit(package: Option<string>, totalBytes: int) {
    totalBytes > Limit(package) * BytesPerGb
  }

  /** The amount `calculateBillingAmount` returns. It is the base rate exactly
      when the usage in bytes is within the allowance, and more than the base
      rate otherwise. */
  function Amount(package: Option<string>, totalBytes: int): (amount: real)
    ensures amount >= BaseRate(package)
    ensures amount == BaseRate(package) <==> !OverLimit(package, totalBytes)
  {
    GbComparison(package, totalBytes);
    var base := BaseRate(package);
    var usage := UsageGb(totalBytes);
    var limit := Limit(package) as real;
    if usage > limit then base + (usage - limit) * OverageRate else base
  }

  /** Comparing in GB and comparing in bytes agree. */
  lemma GbComparison(package: Option<string>, totalBytes: int)
    ensures UsageGb(totalBytes) > Limit(package) as real <==> OverLimit(package, totalBytes)
  {
    var g := BytesPerGb as real;
    var limit := Limit(package);
    assert (limit * BytesPerGb) as real == limit as real * g;
    assert UsageGb(totalBytes) * g == totalBytes as real;
  }

  /** Beyond the allowance the charge grows by 2000 for each 2^30 bytes:
      `amount = base + (bytes - limit * 2^30) * 2000 / 2^30`. */
  lemma OverageInBytes(package: Option<string>, totalBytes: int)
    requires OverLimit(package, totalBytes)
    ensures Amount(package, totalBytes) ==
              BaseRate(package) + (totalBytes - Limit(package) * BytesPerGb) as real * OverageRate / BytesPerGb as real
  {
    GbComparison(package, totalBytes);
    var g := BytesPerGb as real;
    var limit := Limit(package);
    assert (limit * BytesPerGb) as real == limit as real * g;
    assert (UsageGb(totalBytes) - limit as real) * g == (totalBytes - limit * BytesPerGb) as real;
  }

  /** The four packages and their rates and allowances; both tables name the
      same packages. */
  lemma PackageTable()
    ensures PackageRates.Keys == PackageLimits.Keys
    ensures BaseRate(Some("Basic 10Mbps")) == 150000.0 && Limit(Some("Basic 10Mbps")) == 100
    ensures BaseRate(Some("Standard 25Mbps")) == 250000.0 && Limit(Some("Standard 25Mbps")) == 250
    ensures BaseRate(Some("Premium 50Mbps")) == 400000.0 && Limit(Some("Premium 50Mbps")) == 500
    ensures BaseRate(Some("Enterprise 100Mbps")) == 750000.0 && Limit(Some("Enterprise 100Mbps")) == 1000
  {
  }

  /** A null package or a name outside the tables is charged 200000 with
      200 GB included. */
  lemma UnknownPackageDefaults(package: Option<string>)
    requires package.None? || package.value !in PackageRates
    ensures BaseRate(package) == 200000.0 && Limit(package) == 200
  {
    assert "" !in PackageRates;
    assert PackageRates.Keys == PackageLimits.Keys;
  }

  /** Standard 25Mbps at 300 GB: 50 GB over, so 250000 + 50 * 2000. */
  lemma StandardAt300Gb()
    ensures Amount(Some("Standard 25Mbps"), 300 * BytesPerGb) == 350000.0
  {
    PackageTable();
    OverageInBytes(Some("Standard 25Mbps"), 300 * BytesPerGb);
  }

  /** The amount never decreases as the usage grows. */
  lemma AmountMonotone(package: Option<string>, fewer: int, more: int)
    requires fewer <= more
    ensures Amount(package, fewer) <= Amount(package, more)
  {
    var g := BytesPerGb as real;
    assert UsageGb(fewer) * g == fewer as real && UsageGb(more) * g == more as real;
    assert UsageGb(fewer) <= UsageGb(more);
  }

  /** Once at or over the allowance, each further GB costs exactly 2000. */
  lemma OneMoreGb(package: Option<string>, totalBytes: int)
    requires totalBytes >= Limit(package) * BytesPerGb
    ensures Amount(package, totalBytes + BytesPerGb) == Amount(package, totalBytes) + OverageRate
  {
    var g := BytesPerGb as real;
    var limit := Limit(package);
    OverageInBytes(package, totalBytes + BytesPerGb);
    if OverLimit(package, totalBytes) {
      OverageInBytes(package, totalBytes);
    } else {
      assert totalBytes == limit * BytesPerGb;
    }
    assert (totalBytes + BytesPerGb - limit * BytesPerGb) as real ==
           (totalBytes - limit * BytesPerGb) as real + g;
  }
}
