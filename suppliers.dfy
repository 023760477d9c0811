/**
 * The supplier registry (`src/provider/suppliers/suppliers.strategy.ts`):
 * a fixed name-to-adapter map, a settle-all run over the three suppliers,
 * and the lookup that fails for an unknown name.
 *
 * An adapter's `fetchData` (network fetch, transform and persist) is not
 * part of this component: its outcome is the parameter `fetch`, a function
 * of the adapter and the number of `fetchData` invocations made before it,
 * so that two invocations of the same adapter may settle differently.
 */
module Suppliers {
  import opened Entities

  /** The three supplier adapters. */
  datatype Adapter = AcmeAdapter | PaperfliesAdapter | PatagoniaAdapter

  /** How a promise settled: `PromiseSettledResult`. */
  datatype Settlement = Fulfilled(hotels: seq<Hotel>) | Rejected(reason: string)

  const SupplierNotFound: string := "Supplier not found"

  /** The supplier names `fetchData` runs, in order. */
  const SupplierNames: seq<string> := ["acme", "paperflies", "patagonia"]

  /** The registry the constructor builds. */
  function Registry(): map<string, Adapter> {
    map["acme" := AcmeAdapter, "paperflies" := PaperfliesAdapter, "patagonia" := PatagoniaAdapter]
  }

  /** The adapters whose `fetchData` `processSuplier(name)` invokes: the same one twice, or none. */
  function ProcessInvocations(registry: map<string, Adapter>, name: string): seq<Adapter> {
    if name in registry then [registry[name], registry[name]] else []
  }

  /**
   * How `processSuplier(name)` settles after `n` earlier invocations: with
   * the second of its two invocations, or with "Supplier not found".
   */
  function ProcessOutcome(registry: map<string, Adapter>, name: string, fetch: (Adapter, nat) -> Settlement, n: nat): Settlement {
    if name in registry then fetch(registry[name], n + 1) else Rejected(SupplierNotFound)
  }

  /** The invocations made by `processSuplier` over `names`, in order. */
  function InvocationsOf(registry: map<string, Adapter>, names: seq<string>): seq<Adapter>
    decreases |names|
  {
    if names == [] then []
    else InvocationsOf(registry, names[..|names| - 1]) + ProcessInvocations(registry, names[|names| - 1])
  }

  /** `Promise.allSettled(names.map(processSuplier))` after `n` earlier invocations. */
  function SettleAll(registry: map<string, Adapter>, names: seq<string>, fetch: (Adapter, nat) -> Settlement, n: nat): (r: seq<Settlement>)
    ensures |r| == |names|
    decreases |names|
  {
    if names == [] then []
    else
      var k := |names| - 1;
      SettleAll(registry, names[..k], fetch, n) + [ProcessOutcome(registry, names[k], fetch, n + |InvocationsOf(registry, names[..k])|)]
  }

  /** `SuppliersStrategy`; `invocations` records every adapter `fetchData` call in order. */
  class SuppliersStrategy {
    var strategyMap: map<string, Adapter>
    var invocations: seq<Adapter>

    constructor()
      ensures strategyMap == Registry()
      ensures invocations == []
    {
      strategyMap := map[];
      invocations := [];
      new;
      strategyMap := strategyMap["acme" := AcmeAdapter];
      strategyMap := strategyMap["paperflies" := PaperfliesAdapter];
      strategyMap := strategyMap["patagonia" := PatagoniaAdapter];
    }

    /** One call of an adapter's `fetchData`. */
    method Invoke(adapter: Adapter, fetch: (Adapter, nat) -> Settlement) returns (s: Settlement)
      modifies this
      ensures s == fetch(adapter, |old(invocations)|)
      ensures invocations == old(invocations) + [adapter]
      ensures strategyMap == old(strategyMap)
    {
      s := fetch(adapter, |invocations|);
      invocations := invocations + [adapter];
    }

    /**
     * `processSuplier(name)`: a registered adapter's `fetchData` is invoked
     * once for the log line and once more for the result.
     */
    method ProcessSupplier(name: string, fetch: (Adapter, nat) -> Settlement) returns (s: Settlement)
      modifies this
      ensures s == ProcessOutcome(old(strategyMap), name, fetch, |old(invocations)|)
      ensures invocations == old(invocations) + ProcessInvocations(old(strategyMap), name)
      ensures strategyMap == old(strategyMap)
    {
      if name in strategyMap {
        var logged := Invoke(strategyMap[name], fetch);
        s := Invoke(strategyMap[name], fetch);
        return;
      }
      s := Rejected(SupplierNotFound);
    }

    /** `fetchData()`: every supplier is processed in order and each outcome is kept. */
    method FetchData(fetch: (Adapter, nat) -> Settlement) returns (settlements: seq<Settlement>)
      modifies this
      ensures settlements == SettleAll(old(strategyMap), SupplierNames, fetch, |old(invocations)|)
      ensures invocations == old(invocations) + InvocationsOf(old(strategyMap), SupplierNames)
      ensures strategyMap == old(strategyMap)
    {
      ghost var n := |invocations|;
      ghost var start := invocations;
      settlements := [];
      var i := 0;
      while i < |SupplierNames|
        invariant 0 <= i <= |SupplierNames|
        invariant strategyMap == old(strategyMap)
        invariant invocations == start + InvocationsOf(strategyMap, SupplierNames[..i])
        invariant settlements == SettleAll(strategyMap, SupplierNames[..i], fetch, n)
      {
        assert SupplierNames[..i + 1][..i] == SupplierNames[..i];
        var s := ProcessSupplier(SupplierNames[i], fetch);
        settlements := settlements + [s];
        i := i + 1;
      }
      assert SupplierNames[..i] == SupplierNames;
    }
  }

  // ---------------------------------------------------------------------
  // Properties
  // ---------------------------------------------------------------------

  /** The registry holds exactly `acme`, `paperflies` and `patagonia`. */
  lemma RegistryNames(name: string)
    ensures name in Registry() <==> name == "acme" || name == "paperflies" || name == "patagonia"
  {
  }

  /** An unregistered name is rejected with "Supplier not found" and invokes no adapter. */
  lemma ProcessUnknown(name: string, fetch: (Adapter, nat) -> Settlement, n: nat)
    requires name !in Registry()
    ensures ProcessOutcome(Registry(), name, fetch, n) == Rejected(SupplierNotFound)
    ensures ProcessInvocations(Registry(), name) == []
  {
  }

  /**
   * A registered name invokes its adapter's `fetchData` twice and settles
   * with the second invocation's outcome.
   */
  lemma ProcessKnown(name: string, fetch: (Adapter, nat) -> Settlement, n: nat)
    requires name in Registry()
    ensures ProcessInvocations(Registry(), name) == [Registry()[name], Registry()[name]]
    ensures ProcessOutcome(Registry(), name, fetch, n) == fetch(Registry()[name], n + 1)
  {
  }

  /**
   * `fetchData` settles exactly three times, for acme, paperflies and
   * patagonia in that order, each with its own adapter's outcome (the
   * second of that adapter's two invocations), whatever the others do.
   */
  lemma FetchDataSettlements(fetch: (Adapter, nat) -> Settlement, n: nat)
    ensures SettleAll(Registry(), SupplierNames, fetch, n)
         == [fetch(AcmeAdapter, n + 1), fetch(PaperfliesAdapter, n + 3), fetch(PatagoniaAdapter, n + 5)]
    ensures InvocationsOf(Registry(), SupplierNames)
         == [AcmeAdapter, AcmeAdapter, PaperfliesAdapter, PaperfliesAdapter, PatagoniaAdapter, PatagoniaAdapter]
  {
    var names := SupplierNames;
    assert names[..0] == [] && names[..1] == ["acme"] && names[..2] == ["acme", "paperflies"] && names[..3] == names;
    assert ["acme"][..0] == [];
    assert ["acme", "paperflies"][..1] == ["acme"];
    assert InvocationsOf(Registry(), ["acme"]) == [AcmeAdapter, AcmeAdapter];
    assert InvocationsOf(Registry(), ["acme", "paperflies"]) == [AcmeAdapter, AcmeAdapter, PaperfliesAdapter, PaperfliesAdapter];
  }

  /** No registered supplier is rejected as unknown: a rejection of `fetchData` comes from an adapter. */
  lemma FetchDataRejections(fetch: (Adapter, nat) -> Settlement, n: nat, k: nat)
    requires k < |SupplierNames|
    requires SettleAll(Registry(), SupplierNames, fetch, n)[k].Rejected?
    ensures exists m: nat :: fetch(Registry()[SupplierNames[k]], m).Rejected?
  {
    FetchDataSettlements(fetch, n);
    assert fetch(Registry()[SupplierNames[k]], n + 2 * k + 1).Rejected?;
  }
}
