/** services/features/feature_service.py: per-tenant overrides over waffle over settings defaults. */
module Features {
  import opened Prelude

  type TenantId = nat
  type Request = nat

  datatype Source = Manual | Plan
  datatype Override = Override(isEnabled: bool, source: Source, note: string)

  /** The TenantFeatureFlag table; a map because of its unique_together on (tenant, flag_name). */
  type Overrides = map<(TenantId, string), Override>

  /** django-waffle as an oracle. Each look-up may raise, which the service swallows; `None` stands for that. */
  datatype Waffle = Waffle(installed: bool,
                           flag: (Request, string) -> Option<bool>,
                           switch: string -> Option<bool>)

  function WaffleState(waffle: Waffle, name: string, request: Option<Request>): Option<bool> {
    if !waffle.installed then None
    else if request.Some? && waffle.flag(request.value, name).Some? then waffle.flag(request.value, name)
    else waffle.switch(name)
  }

  function Default(defaults: map<string, bool>, name: string): bool {
    if name in defaults then defaults[name] else false
  }

  /** The answer without overrides. */
  function GlobalState(waffle: Waffle, defaults: map<string, bool>, name: string, request: Option<Request>): bool {
    match WaffleState(waffle, name, request)
    case Some(state) => state
    case None => Default(defaults, name)
  }

  /** The single-flag resolver. The tenant may come from the request; `requestTenant` is `request.tenant`. */
  function IsEnabled(overrides: Overrides, waffle: Waffle, defaults: map<string, bool>, name: string,
                     request: Option<Request>, requestTenant: Option<TenantId>, tenant: Option<TenantId>): bool {
    var resolved := if tenant.None? && request.Some? then requestTenant else tenant;
    if resolved.Some? && (resolved.value, name) in overrides then overrides[(resolved.value, name)].isEnabled
    else GlobalState(waffle, defaults, name, request)
  }

  /** The flags a tenant has an override for. */
  function OverriddenFlags(overrides: Overrides, tenant: TenantId): set<string> {
    set key | key in overrides && key.0 == tenant :: key.1
  }

  lemma OverriddenFlag(overrides: Overrides, tenant: TenantId, name: string)
    ensures name in OverriddenFlags(overrides, tenant) <==> (tenant, name) in overrides
  {
  }

  /** A plan's flags written over the tenant's rows, each marked as set by the plan. */
  function PlanNote(slug: string): string { "Auto-set by plan: " + slug }

  function WithPlan(overrides: Overrides, tenant: TenantId, slug: string, flags: map<string, bool>): Overrides {
    map key | key in overrides.Keys + (set f | f in flags :: (tenant, f)) ::
      if key.0 == tenant && key.1 in flags then Override(flags[key.1], Plan, PlanNote(slug)) else overrides[key]
  }

  lemma WithOneMore(overrides: Overrides, tenant: TenantId, slug: string, flags: map<string, bool>, name: string,
                    on: bool)
    ensures WithPlan(overrides, tenant, slug, flags[name := on])
            == WithPlan(overrides, tenant, slug, flags)[(tenant, name) := Override(on, Plan, PlanNote(slug))]
  {
  }

  /** What `sync_plan_flags` reads of the tenant: no subscription, a subscription without a plan, or a plan slug. */
  datatype Subscription = NoSubscription | NoPlan | OnPlan(slug: string)

  function PlanSlug(s: Subscription): string {
    if s.OnPlan? then s.slug else ""
  }

  function FlagsOf(planFlags: map<string, map<string, bool>>, s: Subscription): map<string, bool> {
    if s.NoSubscription? || PlanSlug(s) !in planFlags then map[] else planFlags[PlanSlug(s)]
  }

  class FeatureService {
    const waffle: Waffle
    const defaults: map<string, bool>                  // FEATURE_FLAGS_DEFAULTS
    const planFlags: map<string, map<string, bool>>    // PLAN_FEATURE_FLAGS
    var overrides: Overrides

    constructor (waffle: Waffle, defaults: map<string, bool>, planFlags: map<string, map<string, bool>>)
      ensures this.waffle == waffle && this.defaults == defaults && this.planFlags == planFlags
      ensures overrides == map[]
    {
      this.waffle, this.defaults, this.planFlags := waffle, defaults, planFlags;
      overrides := map[];
    }

    /** The bulk loop agrees with the single-flag resolver: its keys are exactly the defaults and the tenant's
        overrides, and each value is what the resolver answers for that flag, request and tenant. */
    method ForTenant(tenant: TenantId, request: Option<Request>, requestTenant: Option<TenantId>)
      returns (result: map<string, bool>)
      ensures result.Keys == defaults.Keys + OverriddenFlags(overrides, tenant)
      ensures forall f :: f in result ==>
        result[f] == IsEnabled(overrides, waffle, defaults, f, request, requestTenant, Some(tenant))
    {
      result := defaults;
      var todo := result.Keys;
      while todo != {}
        invariant todo <= defaults.Keys == result.Keys
        invariant forall f :: f in defaults ==>
          result[f] == if f in todo then defaults[f] else GlobalState(waffle, defaults, f, request)
      {
        var name :| name in todo;
        var state := WaffleState(waffle, name, request);
        if state.Some? {
          result := result[name := state.value];
        }
        todo := todo - {name};
      }
      var flags := OverriddenFlags(overrides, tenant);
      var rows := flags;
      while rows != {}
        invariant rows <= flags
        invariant result.Keys == defaults.Keys + (flags - rows)
        invariant forall f :: f in result ==>
          result[f] == if f in flags && f !in rows then overrides[(tenant, f)].isEnabled
                       else GlobalState(waffle, defaults, f, request)
      {
        var name :| name in rows;
        result := result[name := overrides[(tenant, name)].isEnabled];
        rows := rows - {name};
      }
      forall f | f in result {
        OverriddenFlag(overrides, tenant, f);
      }
    }

    method SetForTenant(tenant: TenantId, name: string, isEnabled: bool, source: Source, note: string)
      modifies this
      ensures overrides == old(overrides)[(tenant, name) := Override(isEnabled, source, note)]
    {
      overrides := overrides[(tenant, name) := Override(isEnabled, source, note)];
    }

    method SyncPlanFlags(tenant: TenantId, subscription: Subscription)
      modifies this
      ensures overrides == WithPlan(old(overrides), tenant, PlanSlug(subscription), FlagsOf(planFlags, subscription))
    {
      if planFlags == map[] || subscription.NoSubscription? {
        return;
      }
      var slug := PlanSlug(subscription);
      var flags := if slug in planFlags then planFlags[slug] else map[];
      var todo := flags.Keys;
      ghost var before := overrides;
      while todo != {}
        invariant todo <= flags.Keys
        invariant overrides == WithPlan(before, tenant, slug, flags - todo)
      {
        var name :| name in todo;
        WithOneMore(before, tenant, slug, flags - todo, name, flags[name]);
        assert (flags - todo)[name := flags[name]] == flags - (todo - {name});
        SetForTenant(tenant, name, flags[name], Plan, PlanNote(slug));
        todo := todo - {name};
      }
      assert flags - {} == flags;
    }
  }

  // ---- What the operations mean together ----

  /** A flag outside the bulk answer has no override and no default, so only waffle can turn it on. */
  lemma UnlistedFlagIsWafflesOnly(overrides: Overrides, waffle: Waffle, defaults: map<string, bool>, name: string,
                                  request: Option<Request>, requestTenant: Option<TenantId>, tenant: TenantId)
    requires name !in defaults.Keys + OverriddenFlags(overrides, tenant)
    ensures IsEnabled(overrides, waffle, defaults, name, request, requestTenant, Some(tenant))
            <==> WaffleState(waffle, name, request) == Some(true)
  {
  }

  /** Which override counts: that of the tenant passed in, or else that of the request's tenant. */
  lemma OverrideDecides(overrides: Overrides, waffle: Waffle, defaults: map<string, bool>, name: string,
                        request: Option<Request>, requestTenant: Option<TenantId>, tenant: Option<TenantId>)
    ensures tenant.Some? && (tenant.value, name) in overrides ==>
      IsEnabled(overrides, waffle, defaults, name, request, requestTenant, tenant)
      == overrides[(tenant.value, name)].isEnabled
    ensures tenant.None? && request.Some? && requestTenant.Some? && (requestTenant.value, name) in overrides ==>
      IsEnabled(overrides, waffle, defaults, name, request, requestTenant, tenant)
      == overrides[(requestTenant.value, name)].isEnabled
  {
  }

  /** Without one, waffle decides, the flag of the request before the switch, and then the default, which is off. */
  lemma WaffleThenDefault(overrides: Overrides, waffle: Waffle, defaults: map<string, bool>, name: string,
                          request: Option<Request>, requestTenant: Option<TenantId>, tenant: Option<TenantId>)
    requires tenant.Some? ==> (tenant.value, name) !in overrides
    requires tenant.None? && request.Some? && requestTenant.Some? ==> (requestTenant.value, name) !in overrides
    ensures var answer := IsEnabled(overrides, waffle, defaults, name, request, requestTenant, tenant);
      var flag := if request.Some? then waffle.flag(request.value, name) else None;
      && (waffle.installed && flag.Some? ==> answer == flag.value)
      && (waffle.installed && flag.None? && waffle.switch(name).Some? ==> answer == waffle.switch(name).value)
      && (!waffle.installed || (flag.None? && waffle.switch(name).None?) ==>
            (answer <==> name in defaults && defaults[name]))
  {
  }

  /** A sync writes the flags of the subscribed plan, each marked with it, and no other row; a subscription without a
      plan counts as the plan with the empty slug. */
  lemma SyncWritesThePlan(overrides: Overrides, tenant: TenantId, planFlags: map<string, map<string, bool>>,
                          subscription: Subscription, slug: string)
    requires subscription == OnPlan(slug) || (subscription == NoPlan && slug == "")
    ensures var after := WithPlan(overrides, tenant, PlanSlug(subscription), FlagsOf(planFlags, subscription));
      forall key :: key in after || key in overrides ==>
        if key.0 == tenant && slug in planFlags && key.1 in planFlags[slug]
        then key in after && after[key] == Override(planFlags[slug][key.1], Plan, "Auto-set by plan: " + slug)
        else key in overrides && key in after && after[key] == overrides[key]
    ensures WithPlan(overrides, tenant, PlanSlug(NoSubscription), FlagsOf(planFlags, NoSubscription)) == overrides
  {
  }

  /** After a sync every flag of the plan resolves to the plan's value, whatever waffle and the defaults say, and
      no other override of any tenant has changed. */
  lemma SyncImposesThePlan(overrides: Overrides, waffle: Waffle, defaults: map<string, bool>,
                           tenant: TenantId, slug: string, flags: map<string, bool>,
                           request: Option<Request>, requestTenant: Option<TenantId>)
    ensures var after := WithPlan(overrides, tenant, slug, flags);
      && (forall f :: f in flags ==>
           IsEnabled(after, waffle, defaults, f, request, requestTenant, Some(tenant)) == flags[f])
      && (forall other, f :: (other != tenant || f !in flags) ==>
           ((other, f) in after <==> (other, f) in overrides)
           && ((other, f) in overrides ==> after[(other, f)] == overrides[(other, f)]))
  {
  }

  /** Changing plan from p to q leaves what q alone would leave exactly when every flag that p has and q lacks was
      already a row p would have written. */
  lemma PlanChange(overrides: Overrides, tenant: TenantId, p: string, pFlags: map<string, bool>,
                   q: string, qFlags: map<string, bool>)
    ensures WithPlan(WithPlan(overrides, tenant, p, pFlags), tenant, q, qFlags)
      == WithPlan(overrides, tenant, q, qFlags)
      <==> forall f :: f in pFlags && f !in qFlags ==>
             (tenant, f) in overrides && overrides[(tenant, f)] == Override(pFlags[f], Plan, PlanNote(p))
  {
    var first := WithPlan(overrides, tenant, p, pFlags);
    var both, alone := WithPlan(first, tenant, q, qFlags), WithPlan(overrides, tenant, q, qFlags);
    if both == alone {
      forall f | f in pFlags && f !in qFlags
        ensures (tenant, f) in overrides && overrides[(tenant, f)] == Override(pFlags[f], Plan, PlanNote(p))
      {
        RowAfterPlan(overrides, tenant, p, pFlags, (tenant, f));
        RowAfterPlan(overrides, tenant, q, qFlags, (tenant, f));
        RowAfterPlan(first, tenant, q, qFlags, (tenant, f));
      }
    }
    if forall f :: f in pFlags && f !in qFlags ==>
         (tenant, f) in overrides && overrides[(tenant, f)] == Override(pFlags[f], Plan, PlanNote(p)) {
      forall key: (TenantId, string)
        ensures (key in both <==> key in alone) && (key in both ==> both[key] == alone[key])
      {
        RowAfterPlan(overrides, tenant, p, pFlags, key);
        RowAfterPlan(overrides, tenant, q, qFlags, key);
        RowAfterPlan(first, tenant, q, qFlags, key);
        assert key == (key.0, key.1);
      }
    }
  }

  lemma RowAfterPlan(overrides: Overrides, tenant: TenantId, slug: string, flags: map<string, bool>,
                     key: (TenantId, string))
    ensures var after := WithPlan(overrides, tenant, slug, flags);
      && (key in after <==> key in overrides || (key.0 == tenant && key.1 in flags))
      && (key in after ==>
            after[key] == if key.0 == tenant && key.1 in flags
              then Override(flags[key.1], Plan, PlanNote(slug)) else overrides[key])
  {
  }

  /** So syncing twice is syncing once, and the change of plan is clean for every table if and only if q decides
      every flag that p decides. */
  lemma CleanPlanChange(tenant: TenantId, p: string, pFlags: map<string, bool>, q: string, qFlags: map<string, bool>)
    ensures pFlags.Keys <= qFlags.Keys <==>
      forall overrides :: WithPlan(WithPlan(overrides, tenant, p, pFlags), tenant, q, qFlags)
                          == WithPlan(overrides, tenant, q, qFlags)
    ensures forall overrides :: WithPlan(WithPlan(overrides, tenant, p, pFlags), tenant, p, pFlags)
                                == WithPlan(overrides, tenant, p, pFlags)
  {
    forall overrides: Overrides
      ensures WithPlan(WithPlan(overrides, tenant, p, pFlags), tenant, p, pFlags)
              == WithPlan(overrides, tenant, p, pFlags)
    {
      PlanChange(overrides, tenant, p, pFlags, p, pFlags);
    }
    if pFlags.Keys <= qFlags.Keys {
      forall overrides: Overrides
        ensures WithPlan(WithPlan(overrides, tenant, p, pFlags), tenant, q, qFlags)
                == WithPlan(overrides, tenant, q, qFlags)
      {
        PlanChange(overrides, tenant, p, pFlags, q, qFlags);
      }
    }
    if !(pFlags.Keys <= qFlags.Keys) {
      var f :| f in pFlags && f !in qFlags;
      var none: Overrides := map[];
      assert (tenant, f) !in none;
      PlanChange(none, tenant, p, pFlags, q, qFlags);
    }
  }
}
