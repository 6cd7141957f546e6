/** Which manifest-owned tenants and global keys each live integration suite may use: consecutive slots,
    a suite's first slot being the sum of what the suites before it take. */
module FixtureSlots {
  import opened Common
  import opened Text

  datatype Kind = PlanId | PlanKey | StripeEvent | Authorisation | ProviderApp | SharedStoreNamespace

  const KINDS := [PlanId, PlanKey, StripeEvent, Authorisation, ProviderApp, SharedStoreNamespace]

  function KindName(kind: Kind): string {
    match kind
    case PlanId => "plan_id"
    case PlanKey => "plan_key"
    case StripeEvent => "stripe_event"
    case Authorisation => "authorisation"
    case ProviderApp => "provider_app"
    case SharedStoreNamespace => "shared_store_namespace"
  }

  function Prefix(kind: Kind): string {
    KindName(kind) + ":"
  }

  /** One entry of the suite table. */
  datatype Suite = Suite(name: string, tenants: nat, globalKeys: map<Kind, nat>)

  datatype Ownership = Ownership(clerkOrgIds: seq<string>, organisationIds: seq<string>, globalKeys: seq<string>)

  datatype Manifest = Manifest(runId: string, namespace: string, owned: Ownership)

  datatype Tenant = Tenant(clerkOrgId: string, organisationId: string)

  datatype Error =
    | InvalidNamespace
    | UnknownSuite
    | SlotsNotUnique
    | TooFewTenants
    | TooFewKeys(kind: Kind)
    | KeyNotOwned

  function KeyCount(suite: Suite, kind: Kind): nat {
    if kind in suite.globalKeys then suite.globalKeys[kind] else 0
  }

  /** key.slice(kind.length + 1) */
  function WithoutKind(key: string, kind: Kind): string {
    if |key| < |Prefix(kind)| then "" else key[|Prefix(kind)|..]
  }

  // ----- prefix sums -------------------------------------------------------------------------

  function Sum(counts: seq<nat>): nat {
    if counts == [] then 0 else Sum(counts[..|counts| - 1]) + counts[|counts| - 1]
  }

  function TenantCounts(table: seq<Suite>): seq<nat> {
    seq(|table|, i requires 0 <= i < |table| => table[i].tenants)
  }

  function KeyCounts(table: seq<Suite>, kind: Kind): seq<nat> {
    seq(|table|, i requires 0 <= i < |table| => KeyCount(table[i], kind))
  }

  /** The slots before those of entry i. */
  function Offset(counts: seq<nat>, i: nat): nat
    requires i <= |counts|
  {
    Sum(counts[..i])
  }

  lemma OffsetStep(counts: seq<nat>, i: nat)
    requires i < |counts|
    ensures Offset(counts, i + 1) == Offset(counts, i) + counts[i]
  {
    assert counts[..i + 1][..i] == counts[..i];
  }

  lemma {:induction false} OffsetsIncrease(counts: seq<nat>, i: nat, j: nat)
    requires i <= j <= |counts|
    ensures Offset(counts, i) <= Offset(counts, j)
    decreases j - i
  {
    if i < j {
      OffsetStep(counts, j - 1);
      OffsetsIncrease(counts, i, j - 1);
    }
  }

  /** Entry i takes this slot. */
  predicate Takes(counts: seq<nat>, i: nat, slot: nat) {
    i < |counts| && Offset(counts, i) <= slot < Offset(counts, i) + counts[i]
  }

  /** A slot below the total belongs to exactly one entry. */
  lemma SlotHasOneOwner(counts: seq<nat>, slot: nat)
    requires slot < Sum(counts)
    ensures exists i: nat :: Takes(counts, i, slot)
    ensures forall i: nat, j: nat :: Takes(counts, i, slot) && Takes(counts, j, slot) ==> i == j
  {
    hide Offset;
    WholeSum(counts);
    SomeOwner(counts, |counts|, slot);
    forall i: nat, j: nat | Takes(counts, i, slot) && Takes(counts, j, slot)
      ensures i == j
    {
      OffsetStep(counts, i);
      OffsetStep(counts, j);
      if i < j { OffsetsIncrease(counts, i + 1, j); }
      if j < i { OffsetsIncrease(counts, j + 1, i); }
    }
  }

  lemma {:induction false} SomeOwner(counts: seq<nat>, n: nat, slot: nat)
    requires n <= |counts| && slot < Offset(counts, n)
    ensures exists i: nat :: i < n && Takes(counts, i, slot)
  {
    assert n > 0;
    OffsetStep(counts, n - 1);
    if slot < Offset(counts, n - 1) {
      SomeOwner(counts, n - 1, slot);
    } else {
      assert Takes(counts, n - 1, slot);
    }
  }

  // ----- allocation --------------------------------------------------------------------------

  predicate IsUnique(s: seq<string>) {
    forall i, j :: 0 <= i < j < |s| ==> s[i] != s[j]
  }

  /** findIndex of the suite by name. */
  function IndexOfSuite(table: seq<Suite>, name: string): (i: int)
    ensures -1 <= i < |table|
    ensures i >= 0 ==> table[i].name == name && forall j :: 0 <= j < i ==> table[j].name != name
    ensures i == -1 ==> forall j :: 0 <= j < |table| ==> table[j].name != name
  {
    if table == [] then -1
    else if table[0].name == name then 0
    else
      var rest := IndexOfSuite(table[1..], name);
      if rest == -1 then
        assert forall j :: 1 <= j < |table| ==> table[j] == table[1..][j - 1];
        -1
      else
        assert forall j :: 1 <= j < |table| ==> table[j] == table[1..][j - 1];
        rest + 1
  }

  predicate HasKind(key: string, kind: Kind) {
    Prefix(kind) <= key
  }

  /** manifest.owned.globalKeys.filter(...) */
  function KeysOfKind(keys: seq<string>, kind: Kind): (kept: seq<string>)
    ensures forall k :: k in kept <==> k in keys && HasKind(k, kind)
  {
    if keys == [] then []
    else (if HasKind(keys[0], kind) then [keys[0]] else []) + KeysOfKind(keys[1..], kind)
  }

  lemma {:induction false} KeysOfKindUnique(keys: seq<string>, kind: Kind)
    requires IsUnique(keys)
    ensures IsUnique(KeysOfKind(keys, kind))
  {
    hide HasKind;
    if keys != [] {
      KeysOfKindUnique(keys[1..], kind);
      forall k | k in KeysOfKind(keys[1..], kind) ensures k != keys[0] {
        var i :| 0 <= i < |keys[1..]| && keys[1..][i] == k;
        assert keys[i + 1] == k;
      }
    }
  }

  predicate HasEnoughKeys(table: seq<Suite>, keys: seq<string>, kind: Kind) {
    |KeysOfKind(keys, kind)| >= Sum(KeyCounts(table, kind))
  }

  /** The first kind, in order, that has too few keys. */
  function MissingKind(table: seq<Suite>, keys: seq<string>, kinds: seq<Kind>): (missing: seq<Kind>)
    ensures missing == [] <==> forall kind :: kind in kinds ==> HasEnoughKeys(table, keys, kind)
    ensures missing != [] ==> missing[0] in kinds && !HasEnoughKeys(table, keys, missing[0])
  {
    if kinds == [] then [] else if !HasEnoughKeys(table, keys, kinds[0]) then [kinds[0]] else MissingKind(table, keys, kinds[1..])
  }

  /** What does not depend on the suite: the first complaint about a manifest. */
  predicate IsSufficient(table: seq<Suite>, manifest: Manifest) {
    var owned := manifest.owned;
    && manifest.namespace == "release:run:" + manifest.runId
    && IsUnique(owned.clerkOrgIds) && IsUnique(owned.globalKeys) && IsUnique(owned.organisationIds)
    && |owned.clerkOrgIds| >= Sum(TenantCounts(table)) && |owned.organisationIds| >= Sum(TenantCounts(table))
    && forall kind :: kind in KINDS ==> HasEnoughKeys(table, owned.globalKeys, kind)
  }

  /** The tenants of entry i. */
  function TenantsAt(table: seq<Suite>, owned: Ownership, i: nat): seq<Tenant>
    requires i < |table|
    requires |owned.clerkOrgIds| >= Sum(TenantCounts(table)) && |owned.organisationIds| >= Sum(TenantCounts(table))
  {
    var offset := Offset(TenantCounts(table), i);
    WithinTotal(TenantCounts(table), i);
    seq(table[i].tenants, k requires 0 <= k < table[i].tenants => Tenant(owned.clerkOrgIds[offset + k], owned.organisationIds[offset + k]))
  }

  lemma WithinTotal(counts: seq<nat>, i: nat)
    requires i < |counts|
    ensures Offset(counts, i) + counts[i] <= Sum(counts)
  {
    OffsetStep(counts, i);
    OffsetsIncrease(counts, i + 1, |counts|);
    assert counts[..|counts|] == counts;
  }

  /** allocateLiveTestFixture: the tenants of a suite, or the first complaint. */
  function AllocateLiveTestFixture(table: seq<Suite>, manifest: Manifest, suite: string): Result<seq<Tenant>, Error> {
    var owned := manifest.owned;
    if manifest.namespace != "release:run:" + manifest.runId then Failed(InvalidNamespace)
    else
      var i := IndexOfSuite(table, suite);
      if i < 0 then Failed(UnknownSuite)
      else if !(IsUnique(owned.clerkOrgIds) && IsUnique(owned.globalKeys) && IsUnique(owned.organisationIds)) then
        Failed(SlotsNotUnique)
      else if |owned.clerkOrgIds| < Sum(TenantCounts(table)) || |owned.organisationIds| < Sum(TenantCounts(table)) then
        Failed(TooFewTenants)
      else
        var missing := MissingKind(table, owned.globalKeys, KINDS);
        if missing != [] then Failed(TooFewKeys(missing[0])) else Ok(TenantsAt(table, owned, i))
  }

  /** fixture.globalKey(kind, index) of an allocated suite: the key without its kind. */
  function GlobalKey(table: seq<Suite>, owned: Ownership, i: nat, kind: Kind, index: int): Result<string, Error>
    requires i < |table| && HasEnoughKeys(table, owned.globalKeys, kind)
  {
    if !(0 <= index < KeyCount(table[i], kind)) then Failed(KeyNotOwned)
    else
      WithinTotal(KeyCounts(table, kind), i);
      Ok(WithoutKind(KeysOfKind(owned.globalKeys, kind)[Offset(KeyCounts(table, kind), i) + index], kind))
  }

  // ----- disjoint and complete ---------------------------------------------------------------

  /** A manifest serves every suite of the table or none. */
  lemma AllocatesForAll(table: seq<Suite>, manifest: Manifest, suite: string)
    ensures AllocateLiveTestFixture(table, manifest, suite).Ok? <==>
              IsSufficient(table, manifest) && exists i :: 0 <= i < |table| && table[i].name == suite
  {
    hide TenantsAt, HasEnoughKeys;
  }

  /** The first complaint about a manifest or a suite, in the order of the checks. */
  lemma AllocationFaults(table: seq<Suite>, manifest: Manifest, suite: string)
    ensures var owned, total := manifest.owned, Sum(TenantCounts(table));
            var result := AllocateLiveTestFixture(table, manifest, suite);
            if manifest.namespace != "release:run:" + manifest.runId then result == Failed(InvalidNamespace)
            else if forall i :: 0 <= i < |table| ==> table[i].name != suite then result == Failed(UnknownSuite)
            else if !IsUnique(owned.clerkOrgIds) || !IsUnique(owned.globalKeys) || !IsUnique(owned.organisationIds) then
              result == Failed(SlotsNotUnique)
            else if |owned.clerkOrgIds| < total || |owned.organisationIds| < total then result == Failed(TooFewTenants)
            else
              (exists kind :: kind in KINDS && !HasEnoughKeys(table, owned.globalKeys, kind)) <==>
                result.Failed? && result.error.TooFewKeys? && result.error.kind in KINDS
                && !HasEnoughKeys(table, owned.globalKeys, result.error.kind)
  {
    hide TenantsAt, HasEnoughKeys, IsUnique;
  }

  /** The tenants of the first n entries, one entry after the other. */
  function TenantsOfFirst(table: seq<Suite>, owned: Ownership, n: nat): seq<Tenant>
    requires n <= |table|
    requires |owned.clerkOrgIds| >= Sum(TenantCounts(table)) && |owned.organisationIds| >= Sum(TenantCounts(table))
  {
    if n == 0 then [] else TenantsOfFirst(table, owned, n - 1) + TenantsAt(table, owned, n - 1)
  }

  /** Together the suites get each required tenant slot exactly once, in the manifest's order. */
  lemma {:induction false} TenantsCover(table: seq<Suite>, owned: Ownership, n: nat)
    requires n <= |table|
    requires |owned.clerkOrgIds| >= Sum(TenantCounts(table)) && |owned.organisationIds| >= Sum(TenantCounts(table))
    ensures Offset(TenantCounts(table), n) <= Sum(TenantCounts(table))
    ensures TenantsOfFirst(table, owned, n) ==
              seq(Offset(TenantCounts(table), n), k requires 0 <= k < Offset(TenantCounts(table), n) =>
                Tenant(owned.clerkOrgIds[k], owned.organisationIds[k]))
  {
    hide TenantCounts, Sum;
    var counts := TenantCounts(table);
    TenantCountsAt(table);
    if n == 0 {
      assert counts[..0] == [];
      NoSlots(counts);
    } else {
      TenantsCover(table, owned, n - 1);
      WithinTotal(counts, n - 1);
      OffsetStep(counts, n - 1);
    }
  }

  lemma NoSlots(counts: seq<nat>)
    ensures Offset(counts, 0) == 0
  {
  }

  lemma TenantCountsAt(table: seq<Suite>)
    ensures |TenantCounts(table)| == |table|
    ensures forall i :: 0 <= i < |table| ==> TenantCounts(table)[i] == table[i].tenants
  {
  }

  /** Different suites never share a Clerk organisation or an organisation. */
  lemma TenantsDisjoint(table: seq<Suite>, owned: Ownership, i: nat, j: nat, k: nat, l: nat)
    requires i < |table| && j < |table| && i != j
    requires |owned.clerkOrgIds| >= Sum(TenantCounts(table)) && |owned.organisationIds| >= Sum(TenantCounts(table))
    requires IsUnique(owned.clerkOrgIds) && IsUnique(owned.organisationIds)
    requires k < |TenantsAt(table, owned, i)| && l < |TenantsAt(table, owned, j)|
    ensures TenantsAt(table, owned, i)[k].clerkOrgId != TenantsAt(table, owned, j)[l].clerkOrgId
    ensures TenantsAt(table, owned, i)[k].organisationId != TenantsAt(table, owned, j)[l].organisationId
  {
    hide Sum, TenantCounts, Offset;
    var counts := TenantCounts(table);
    TenantCountsAt(table);
    WithinTotal(counts, i);
    WithinTotal(counts, j);
    SlotsApart(counts, i, j, k, l);
  }

  /** Two allocations of different suites never share a Clerk organisation or an organisation. */
  lemma AllocationsDisjoint(table: seq<Suite>, manifest: Manifest, a: string, b: string, k: nat, l: nat)
    requires a != b
    requires AllocateLiveTestFixture(table, manifest, a).Ok? && AllocateLiveTestFixture(table, manifest, b).Ok?
    requires k < |AllocateLiveTestFixture(table, manifest, a).value| && l < |AllocateLiveTestFixture(table, manifest, b).value|
    ensures var x, y := AllocateLiveTestFixture(table, manifest, a).value[k], AllocateLiveTestFixture(table, manifest, b).value[l];
            x.clerkOrgId != y.clerkOrgId && x.organisationId != y.organisationId
  {
    hide TenantsAt, IsUnique, MissingKind, Sum, TenantCounts;
    TenantsDisjoint(table, manifest.owned, IndexOfSuite(table, a), IndexOfSuite(table, b), k, l);
  }

  predicate HasDistinctNames(table: seq<Suite>) {
    forall i, j :: 0 <= i < j < |table| ==> table[i].name != table[j].name
  }

  /** What the allocations of the first n suites of the table return, one after the other. */
  function Allocated(table: seq<Suite>, manifest: Manifest, n: nat): seq<Tenant>
    requires n <= |table|
  {
    if n == 0 then []
    else
      Allocated(table, manifest, n - 1)
      + match AllocateLiveTestFixture(table, manifest, table[n - 1].name)
        case Ok(tenants) => tenants
        case Failed(_) => []
  }

  /** Together the allocations return each required slot exactly once, in the manifest's order, and each suite as
      many as the table gives it. */
  lemma {:induction false} AllocationsCover(table: seq<Suite>, manifest: Manifest, n: nat)
    requires n <= |table| && HasDistinctNames(table) && IsSufficient(table, manifest)
    ensures Offset(TenantCounts(table), n) <= Sum(TenantCounts(table))
    ensures Allocated(table, manifest, n) ==
              seq(Offset(TenantCounts(table), n), k requires 0 <= k < Offset(TenantCounts(table), n) =>
                Tenant(manifest.owned.clerkOrgIds[k], manifest.owned.organisationIds[k]))
    ensures n > 0 ==>
              && AllocateLiveTestFixture(table, manifest, table[n - 1].name).Ok?
              && |AllocateLiveTestFixture(table, manifest, table[n - 1].name).value| == table[n - 1].tenants
  {
    hide TenantCounts, Sum, IsUnique, MissingKind, HasEnoughKeys;
    TenantsCover(table, manifest.owned, n);
    AllocatedIsTenants(table, manifest, n);
    if n > 0 {
      AllocatesForAll(table, manifest, table[n - 1].name);
      assert IndexOfSuite(table, table[n - 1].name) == n - 1;
    }
  }

  lemma {:induction false} AllocatedIsTenants(table: seq<Suite>, manifest: Manifest, n: nat)
    requires n <= |table| && HasDistinctNames(table) && IsSufficient(table, manifest)
    ensures Allocated(table, manifest, n) == TenantsOfFirst(table, manifest.owned, n)
  {
    hide TenantCounts, Sum, IsUnique, MissingKind, HasEnoughKeys, TenantsAt;
    if n > 0 {
      AllocatedIsTenants(table, manifest, n - 1);
      AllocatesForAll(table, manifest, table[n - 1].name);
      assert IndexOfSuite(table, table[n - 1].name) == n - 1;
    }
  }

  lemma SlotsApart(counts: seq<nat>, i: nat, j: nat, k: nat, l: nat)
    requires i < |counts| && j < |counts| && i != j && k < counts[i] && l < counts[j]
    ensures Offset(counts, i) + k != Offset(counts, j) + l
  {
    OffsetStep(counts, i);
    OffsetStep(counts, j);
    if i < j { OffsetsIncrease(counts, i + 1, j); } else { OffsetsIncrease(counts, j + 1, i); }
  }

  /** Nor do they share a global key of a kind; nor does one suite get a key twice. */
  lemma GlobalKeysDisjoint(table: seq<Suite>, owned: Ownership, kind: Kind, i: nat, j: nat, k: nat, l: nat)
    requires i < |table| && j < |table| && (i != j || k != l)
    requires IsUnique(owned.globalKeys) && HasEnoughKeys(table, owned.globalKeys, kind)
    requires k < KeyCount(table[i], kind) && l < KeyCount(table[j], kind)
    ensures GlobalKey(table, owned, i, kind, k).Ok? && GlobalKey(table, owned, j, kind, l).Ok?
    ensures GlobalKey(table, owned, i, kind, k) != GlobalKey(table, owned, j, kind, l)
  {
    hide Sum, Offset, KeyCount, KeysOfKind, Prefix, IsUnique, HasKind, WithoutKind;
    var counts := KeyCounts(table, kind);
    WithinTotal(counts, i);
    WithinTotal(counts, j);
    if i != j { SlotsApart(counts, i, j, k, l); }
    KeysDiffer(owned.globalKeys, kind, Offset(counts, i) + k, Offset(counts, j) + l);
  }

  lemma KeysDiffer(globalKeys: seq<string>, kind: Kind, a: nat, b: nat)
    requires IsUnique(globalKeys) && a != b
    requires a < |KeysOfKind(globalKeys, kind)| && b < |KeysOfKind(globalKeys, kind)|
    ensures WithoutKind(KeysOfKind(globalKeys, kind)[a], kind) != WithoutKind(KeysOfKind(globalKeys, kind)[b], kind)
  {
    hide KeysOfKind, Prefix;
    var keys := KeysOfKind(globalKeys, kind);
    KeysOfKindUnique(globalKeys, kind);
    assert keys[a] in keys && keys[b] in keys && HasKind(keys[a], kind) && HasKind(keys[b], kind);
    assert keys[a] == Prefix(kind) + WithoutKind(keys[a], kind) && keys[b] == Prefix(kind) + WithoutKind(keys[b], kind);
  }

  /** Every required key of a kind is the key of some suite: none below the total is left over. */
  lemma GlobalKeysCover(table: seq<Suite>, owned: Ownership, kind: Kind, slot: nat)
    requires HasEnoughKeys(table, owned.globalKeys, kind) && slot < Sum(KeyCounts(table, kind))
    ensures exists i: nat, k: nat :: i < |table| && k < KeyCount(table[i], kind)
              && GlobalKey(table, owned, i, kind, k) == Ok(WithoutKind(KeysOfKind(owned.globalKeys, kind)[slot], kind))
  {
    hide Sum, Offset, KeyCount, KeysOfKind, Prefix;
    var counts := KeyCounts(table, kind);
    SlotHasOneOwner(counts, slot);
    var i: nat :| Takes(counts, i, slot);
    var k := slot - Offset(counts, i);
    assert GlobalKey(table, owned, i, kind, k) == Ok(WithoutKind(KeysOfKind(owned.globalKeys, kind)[slot], kind));
  }

  lemma WholeSum(counts: seq<nat>)
    ensures Offset(counts, |counts|) == Sum(counts)
  {
    assert counts[..|counts|] == counts;
  }

  // ----- the manifest built for a run --------------------------------------------------------

  /** runId.replaceAll("-", "") */
  function RunMarker(runId: string): string {
    if runId == [] then [] else (if runId[0] == '-' then [] else [runId[0]]) + RunMarker(runId[1..])
  }

  /** The marker is the run id without its hyphens. */
  lemma {:induction false} RunMarkerMeaning(runId: string)
    ensures '-' !in RunMarker(runId)
    ensures forall c :: c != '-' ==> multiset(RunMarker(runId))[c] == multiset(runId)[c]
  {
    if runId != [] {
      RunMarkerMeaning(runId[1..]);
      assert runId == [runId[0]] + runId[1..];
    }
  }

  /** String(n).padStart(width, "0") */
  function Padded(n: nat, width: nat): string {
    PadZeros(Decimal(n), width)
  }

  predicate DrawsUuids(kind: Kind) {
    kind == PlanId || kind == Authorisation
  }

  /** valueFor: the uuid of call `call`, or a numbered name. */
  function ValueFor(kind: Kind, index: nat, marker: string, uuid: nat -> string, call: nat): string {
    match kind
    case PlanId => uuid(call)
    case Authorisation => uuid(call)
    case PlanKey => "release_plan_" + marker + "_" + Padded(index + 1, 2)
    case StripeEvent => "evt_release_" + marker + "_" + Padded(index + 1, 2)
    case ProviderApp => "release_provider_app_" + marker + "_" + Padded(index + 1, 2)
    case SharedStoreNamespace => "release_shared_store_" + marker + "_" + Padded(index + 1, 2)
  }

  function ClerkOrgId(marker: string, index: nat): string {
    "org_release_" + marker + "_" + Padded(index + 1, 3)
  }

  /** The keys of one kind, the uuid generator having been called `calls` times before. */
  function KindKeys(table: seq<Suite>, kind: Kind, marker: string, uuid: nat -> string, calls: nat): seq<string> {
    seq(Sum(KeyCounts(table, kind)), i requires 0 <= i => Prefix(kind) + ValueFor(kind, i, marker, uuid, calls + i))
  }

  /** KINDS.flatMap(...): only plan_id and authorisation draw uuids. */
  function AllKeys(table: seq<Suite>, kinds: seq<Kind>, marker: string, uuid: nat -> string, calls: nat): seq<string> {
    if kinds == [] then []
    else
      var drawn := if DrawsUuids(kinds[0]) then Sum(KeyCounts(table, kinds[0])) else 0;
      KindKeys(table, kinds[0], marker, uuid, calls) + AllKeys(table, kinds[1..], marker, uuid, calls + drawn)
  }

  function CreateLiveManifestOwnership(table: seq<Suite>, runId: string, uuid: nat -> string): Ownership {
    var marker, total := RunMarker(runId), Sum(TenantCounts(table));
    Ownership(
      seq(total, i requires 0 <= i => ClerkOrgId(marker, i)),
      seq(total, i requires 0 <= i => uuid(i)),
      AllKeys(table, KINDS, marker, uuid, total))
  }

  lemma {:induction false} LeadingZerosCountNothing(n: nat, s: string)
    requires AllDigits(s)
    ensures AllDigits(seq(n, _ => '0') + s) && Value(seq(n, _ => '0') + s) == Value(s)
    decreases n + |s|
  {
    var zeros := seq(n, _ => '0');
    if s != [] {
      assert (zeros + s)[..|zeros + s| - 1] == zeros + s[..|s| - 1];
      LeadingZerosCountNothing(n, s[..|s| - 1]);
    } else if n > 0 {
      assert zeros + s == zeros && zeros[..n - 1] == seq(n - 1, _ => '0');
      assert seq(n - 1, _ => '0') + s == zeros[..n - 1];
      LeadingZerosCountNothing(n - 1, s);
    }
  }

  lemma PaddedInjective(m: nat, n: nat, width: nat)
    requires Padded(m, width) == Padded(n, width)
    ensures m == n
  {
    hide Decimal, Value;
    PaddedValue(m, width);
    PaddedValue(n, width);
  }

  lemma PaddedValue(n: nat, width: nat)
    ensures AllDigits(Padded(n, width)) && Value(Padded(n, width)) == n
  {
    hide Decimal, Value;
    ValueOfDecimal(n);
    if |Decimal(n)| < width {
      LeadingZerosCountNothing(width - |Decimal(n)|, Decimal(n));
    }
  }

  lemma NumberedDiffer(stem: string, i: nat, j: nat, width: nat)
    requires i != j
    ensures stem + Padded(i + 1, width) != stem + Padded(j + 1, width)
  {
    hide Padded;
    var a, b := Padded(i + 1, width), Padded(j + 1, width);
    assert (stem + a)[|stem|..] == a && (stem + b)[|stem|..] == b;
    if a == b { PaddedInjective(i + 1, j + 1, width); }
  }

  /** The first n uuids drawn are different. */
  ghost predicate AreDistinct(uuid: nat -> string, n: nat) {
    forall a: nat, b: nat :: a < n && b < n && uuid(a) == uuid(b) ==> a == b
  }

  /** How many uuids the keys of these kinds draw. */
  function Drawn(table: seq<Suite>, kinds: seq<Kind>): nat {
    if kinds == [] then 0
    else (if DrawsUuids(kinds[0]) then Sum(KeyCounts(table, kinds[0])) else 0) + Drawn(table, kinds[1..])
  }

  lemma ValuesDiffer(kind: Kind, i: nat, j: nat, marker: string, uuid: nat -> string, calls: nat)
    requires i != j && (DrawsUuids(kind) ==> uuid(calls + i) != uuid(calls + j))
    ensures ValueFor(kind, i, marker, uuid, calls + i) != ValueFor(kind, j, marker, uuid, calls + j)
  {
    hide Padded;
    var stem :=
      match kind
      case PlanKey => "release_plan_" + marker + "_"
      case StripeEvent => "evt_release_" + marker + "_"
      case ProviderApp => "release_provider_app_" + marker + "_"
      case _ => "release_shared_store_" + marker + "_";
    NumberedDiffer(stem, i, j, 2);
  }

  lemma KindKeysUnique(table: seq<Suite>, kind: Kind, marker: string, uuid: nat -> string, calls: nat, n: nat)
    requires AreDistinct(uuid, n) && (DrawsUuids(kind) ==> calls + Sum(KeyCounts(table, kind)) <= n)
    ensures IsUnique(KindKeys(table, kind, marker, uuid, calls))
  {
    hide ValueFor, Prefix, Sum;
    var keys := KindKeys(table, kind, marker, uuid, calls);
    forall i, j | 0 <= i < j < |keys|
      ensures keys[i] != keys[j]
    {
      ValuesDiffer(kind, i, j, marker, uuid, calls);
      var p := Prefix(kind);
      assert keys[i][|p|..] == ValueFor(kind, i, marker, uuid, calls + i);
      assert keys[j][|p|..] == ValueFor(kind, j, marker, uuid, calls + j);
    }
  }

  /** A key carries one kind: the first, second and sixth characters of the names already differ. */
  lemma OneKindPerKey(key: string, a: Kind, b: Kind)
    requires HasKind(key, a) && HasKind(key, b)
    ensures a == b
  {
    Telltale(key, a);
    Telltale(key, b);
  }

  lemma Telltale(key: string, kind: Kind)
    requires HasKind(key, kind)
    ensures |key| > 5
    ensures (key[0], key[1], key[5]) ==
              match kind
              case PlanId => ('p', 'l', 'i')
              case PlanKey => ('p', 'l', 'k')
              case StripeEvent => ('s', 't', 'e')
              case Authorisation => ('a', 'u', 'r')
              case ProviderApp => ('p', 'r', 'd')
              case SharedStoreNamespace => ('s', 'h', 'd')
  {
    var p := Prefix(kind);
    assert key[0] == p[0] && key[1] == p[1] && key[5] == p[5];
  }

  lemma {:induction false} KeysOfKindConcat(a: seq<string>, b: seq<string>, kind: Kind)
    ensures KeysOfKind(a + b, kind) == KeysOfKind(a, kind) + KeysOfKind(b, kind)
  {
    hide HasKind;
    if a == [] {
      assert a + b == b;
    } else {
      assert (a + b)[1..] == a[1..] + b;
      KeysOfKindConcat(a[1..], b, kind);
    }
  }

  lemma {:induction false} FilterKindKeys(keys: seq<string>, kind: Kind, wanted: Kind)
    requires forall i :: 0 <= i < |keys| ==> HasKind(keys[i], kind)
    ensures KeysOfKind(keys, wanted) == if kind == wanted then keys else []
  {
    hide HasKind;
    if keys != [] {
      FilterKindKeys(keys[1..], kind, wanted);
      if HasKind(keys[0], wanted) { OneKindPerKey(keys[0], kind, wanted); }
    }
  }

  lemma KindKeysHaveKind(table: seq<Suite>, kind: Kind, marker: string, uuid: nat -> string, calls: nat)
    ensures var keys := KindKeys(table, kind, marker, uuid, calls);
            |keys| == Sum(KeyCounts(table, kind)) && forall i :: 0 <= i < |keys| ==> HasKind(keys[i], kind)
  {
    hide ValueFor, Prefix;
  }

  lemma {:induction false} AllKeysOfKind(table: seq<Suite>, kinds: seq<Kind>, marker: string, uuid: nat -> string, calls: nat, kind: Kind)
    requires forall i, j :: 0 <= i < j < |kinds| ==> kinds[i] != kinds[j]
    ensures |KeysOfKind(AllKeys(table, kinds, marker, uuid, calls), kind)| ==
              if kind in kinds then Sum(KeyCounts(table, kind)) else 0
  {
    hide KindKeys, KeysOfKind, HasKind;
    if kinds == [] {
      FilterKindKeys([], kind, kind);
    } else {
      var drawn := if DrawsUuids(kinds[0]) then Sum(KeyCounts(table, kinds[0])) else 0;
      var first, rest := KindKeys(table, kinds[0], marker, uuid, calls), AllKeys(table, kinds[1..], marker, uuid, calls + drawn);
      AllKeysOfKind(table, kinds[1..], marker, uuid, calls + drawn, kind);
      KindKeysHaveKind(table, kinds[0], marker, uuid, calls);
      FilterKindKeys(first, kinds[0], kind);
      KeysOfKindConcat(first, rest, kind);
    }
  }

  lemma {:induction false} AllKeysUnique(table: seq<Suite>, kinds: seq<Kind>, marker: string, uuid: nat -> string, calls: nat, n: nat)
    requires forall i, j :: 0 <= i < j < |kinds| ==> kinds[i] != kinds[j]
    requires AreDistinct(uuid, n) && calls + Drawn(table, kinds) <= n
    ensures IsUnique(AllKeys(table, kinds, marker, uuid, calls))
    ensures forall k :: k in AllKeys(table, kinds, marker, uuid, calls) ==> exists kind :: kind in kinds && HasKind(k, kind)
  {
    hide KindKeys, HasKind, AreDistinct;
    if kinds != [] {
      var drawn := if DrawsUuids(kinds[0]) then Sum(KeyCounts(table, kinds[0])) else 0;
      var first, rest := KindKeys(table, kinds[0], marker, uuid, calls), AllKeys(table, kinds[1..], marker, uuid, calls + drawn);
      AllKeysUnique(table, kinds[1..], marker, uuid, calls + drawn, n);
      KindKeysUnique(table, kinds[0], marker, uuid, calls, n);
      KindKeysHaveKind(table, kinds[0], marker, uuid, calls);
      forall i, j | 0 <= i < |first| && 0 <= j < |rest|
        ensures first[i] != rest[j]
      {
        assert rest[j] in rest;
        var kind :| kind in kinds[1..] && HasKind(rest[j], kind);
        if first[i] == rest[j] { OneKindPerKey(rest[j], kind, kinds[0]); }
      }
      assert kinds[0] in kinds;
      forall k | k in first + rest
        ensures exists kind :: kind in kinds && HasKind(k, kind)
      {
        if k in rest {
          var kind :| kind in kinds[1..] && HasKind(k, kind);
          assert kind in kinds;
        }
      }
    }
  }

  /** A manifest for which distinct uuids were drawn never runs out: it serves every suite of the table. */
  lemma BuiltManifestSuffices(table: seq<Suite>, runId: string, uuid: nat -> string)
    requires AreDistinct(uuid, Sum(TenantCounts(table)) + Drawn(table, KINDS))
    ensures IsSufficient(table, Manifest(runId, "release:run:" + runId, CreateLiveManifestOwnership(table, runId, uuid)))
  {
    hide AllKeys, ClerkOrgId, Sum, HasEnoughKeys, Drawn;
    var owned := CreateLiveManifestOwnership(table, runId, uuid);
    var marker, total := RunMarker(runId), Sum(TenantCounts(table));
    forall i, j | 0 <= i < j < |owned.clerkOrgIds|
      ensures owned.clerkOrgIds[i] != owned.clerkOrgIds[j]
    {
      ClerkOrgIdsDiffer(marker, i, j);
    }
    AllKeysUnique(table, KINDS, marker, uuid, total, total + Drawn(table, KINDS));
    forall kind | kind in KINDS
      ensures HasEnoughKeys(table, owned.globalKeys, kind)
    {
      AllKeysOfKind(table, KINDS, marker, uuid, total, kind);
      Enough(table, owned.globalKeys, kind);
    }
  }

  lemma Enough(table: seq<Suite>, keys: seq<string>, kind: Kind)
    requires |KeysOfKind(keys, kind)| == Sum(KeyCounts(table, kind))
    ensures HasEnoughKeys(table, keys, kind)
  {
  }

  lemma ClerkOrgIdsDiffer(marker: string, i: nat, j: nat)
    requires i != j
    ensures ClerkOrgId(marker, i) != ClerkOrgId(marker, j)
  {
    hide Padded;
    NumberedDiffer("org_release_" + marker + "_", i, j, 3);
  }

  /** allocateLocalTestFixture numbers its tenants by the same slots, so different suites differ there too. */
  function LocalClerkOrgId(table: seq<Suite>, i: nat, k: nat): string
    requires i < |table|
  {
    "org_test_local_" + Padded(Offset(TenantCounts(table), i) + k + 1, 3)
  }

  lemma LocalTenantsDisjoint(table: seq<Suite>, i: nat, j: nat, k: nat, l: nat)
    requires i < |table| && j < |table| && i != j && k < table[i].tenants && l < table[j].tenants
    ensures LocalClerkOrgId(table, i, k) != LocalClerkOrgId(table, j, l)
  {
    hide Padded, Offset;
    var counts := TenantCounts(table);
    SlotsApart(counts, i, j, k, l);
    NumberedDiffer("org_test_local_", Offset(counts, i) + k, Offset(counts, j) + l, 3);
  }

  /** How the local global keys that are not hashed begin. */
  function LocalStem(kind: Kind): string {
    match kind
    case PlanKey => "local_plan_"
    case ProviderApp => "local_provider_app_"
    case SharedStoreNamespace => "local_shared_store_"
    case _ => "evt_local_"
  }

  /** globalKey(kind, index) of the local fixture of entry i, but for the two kinds that hash their slot. */
  function LocalGlobalKey(table: seq<Suite>, i: nat, kind: Kind, index: nat): string
    requires i < |table|
  {
    LocalStem(kind) + Decimal(Offset(KeyCounts(table, kind), i) + index + 1)
  }

  /** No two of these keys are the same, within a kind or across kinds. */
  lemma LocalKeysDisjoint(table: seq<Suite>, i: nat, j: nat, kind: Kind, other: Kind, k: nat, l: nat)
    requires i < |table| && j < |table| && k < KeyCount(table[i], kind) && l < KeyCount(table[j], other)
    requires !DrawsUuids(kind) && !DrawsUuids(other) && (i, kind, k) != (j, other, l)
    ensures LocalGlobalKey(table, i, kind, k) != LocalGlobalKey(table, j, other, l)
  {
    hide Decimal, Offset, KeyCount;
    var a, b := LocalGlobalKey(table, i, kind, k), LocalGlobalKey(table, j, other, l);
    if kind == other {
      var counts := KeyCounts(table, kind);
      if i != j { SlotsApart(counts, i, j, k, l); }
      var m, n := Offset(counts, i) + k + 1, Offset(counts, j) + l + 1;
      DecimalInjective(m, n);
      assert a[|LocalStem(kind)|..] == Decimal(m) && b[|LocalStem(kind)|..] == Decimal(n);
    } else {
      StemsDiffer(kind, other, a, b);
    }
  }

  lemma StemsDiffer(kind: Kind, other: Kind, a: string, b: string)
    requires !DrawsUuids(kind) && !DrawsUuids(other) && kind != other
    requires LocalStem(kind) <= a && LocalStem(other) <= b
    ensures a != b
  {
    var p, q := LocalStem(kind), LocalStem(other);
    assert (a[0], a[6], a[7]) == (p[0], p[6], p[7]) && (b[0], b[6], b[7]) == (q[0], q[6], q[7]);
  }
}
