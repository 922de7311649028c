/** The plans an organization can pay for. */
module PlanCatalog {
  import opened BillingPeriod
  import opened Wrappers

  datatype PlanCode = Free | Demo | Starter | Professional | Government | Enterprise

  /** An absent quota is unlimited. */
  datatype Quotas = Quotas(users: Option<nat>, providers: Option<nat>, reportsPerMonth: Option<nat>, storageMb: Option<nat>)

  datatype Plan = Plan(code: PlanCode, nameKey: string, interval: Interval, currency: string, amountMinor: nat,
                       active: bool, quotas: Quotas, modules: seq<string>)

  const MAINTENANCE_ONLY := ["MAINTENANCE_SERVICES"]

  function Catalog(): seq<Plan> {
    [ Plan(Starter, "billing.plan.starter.name", Monthly, "NGN", 500_000, true,
           Quotas(Some(10), Some(5), Some(200), Some(1024)), MAINTENANCE_ONLY),
      Plan(Professional, "billing.plan.professional.name", Monthly, "NGN", 2_500_000, true,
           Quotas(Some(50), Some(25), Some(2000), Some(10240)), MAINTENANCE_ONLY),
      Plan(Government, "billing.plan.government.name", Monthly, "NGN", 10_000_000, true,
           Quotas(Some(250), Some(100), Some(10000), Some(102400)), MAINTENANCE_ONLY),
      Plan(Enterprise, "billing.plan.enterprise.name", Monthly, "NGN", 25_000_000, false,
           Quotas(None, None, None, None), MAINTENANCE_ONLY)]
  }

  /** `find`: the first plan with the code. */
  function Find(plans: seq<Plan>, code: PlanCode): (r: Option<Plan>)
    ensures r.Some? <==> exists p :: p in plans && p.code == code
    ensures r.Some? ==> r.value in plans && r.value.code == code
  {
    if plans == [] then None else if plans[0].code == code then Some(plans[0]) else Find(plans[1..], code)
  }

  /** resolveActivePlan, None where it throws. */
  function ActivePlan(plans: seq<Plan>, code: PlanCode): (r: Option<Plan>)
    ensures r.Some? ==> r.value in plans && r.value.code == code && r.value.active
  {
    var p := Find(plans, code);
    if p.None? || !p.value.active then None else p
  }
}
