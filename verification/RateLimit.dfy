/**
 Rate-limit specs ("10/m", "openai:60/m") and the scopes they are counted over.
 */
module RateLimit {
  import opened Domain
  import opened Text

  datatype RateLimitSpec = RateLimitSpec(pool: Option<string>, limit: nat, windowMs: nat)

  /** What one quota is shared by: all jobs of a project that name the pool, or one job. */
  datatype Scope = PoolScope(projectId: string, pool: string) | JobScope(jobId: string)

  function UnitMillis(unit: string): Option<nat> {
    if unit == "s" then Some(1_000)
    else if unit == "m" then Some(60_000)
    else if unit == "h" then Some(3_600_000)
    else if unit == "d" then Some(86_400_000)
    else None
  }

  function ParseQuota(pool: Option<string>, quota: string): Result<RateLimitSpec> {
    var slash := IndexOf(quota, '/');
    if slash == |quota| then Err(BadRateLimit)
    else
      match ParseU32(quota[..slash])
      case None => Err(BadRateLimit)
      case Some(limit) =>
        if limit == 0 then Err(BadRateLimit)
        else
          match UnitMillis(quota[slash + 1..])
          case None => Err(BadRateLimit)
          case Some(windowMs) => Ok(RateLimitSpec(pool, limit, windowMs))
  }

  /** `parse_rate_limit_spec`: the pool is everything before the last colon. */
  function ParseRateLimitSpec(spec: string): (r: Result<RateLimitSpec>)
    ensures r.Ok? ==> r.value.limit > 0 && r.value.windowMs > 0
    ensures r.Ok? ==> (r.value.pool.None? <==> ':' !in spec)
  {
    var colon := LastIndexOf(spec, ':');
    if colon == |spec| then ParseQuota(None, spec)
    else if colon == 0 then Err(BadRateLimit)
    else ParseQuota(Some(spec[..colon]), spec[colon + 1..])
  }

  function ScopeOf(job: Job, spec: RateLimitSpec): Scope {
    match spec.pool
    case Some(pool) => PoolScope(job.projectId, pool)
    case None => JobScope(job.id)
  }

  /** `job_matches_rate_limit_scope` for the scope of some job and its spec. */
  predicate InScope(candidate: Job, scope: Scope) {
    match scope
    case PoolScope(projectId, pool) =>
      candidate.projectId == projectId && JobPool(candidate) == Some(pool)
    case JobScope(jobId) => candidate.id == jobId
  }

  function JobPool(job: Job): Option<string> {
    match job.rateLimitSpec
    case None => None
    case Some(raw) =>
      match ParseRateLimitSpec(raw)
      case Err(_) => None
      case Ok(spec) => spec.pool
  }

  function UnitName(windowMs: nat): string {
    if windowMs == 1_000 then "s"
    else if windowMs == 60_000 then "m"
    else if windowMs == 3_600_000 then "h"
    else "d"
  }

  /** The text a deploy would write for a spec. */
  function FormatRateLimitSpec(spec: RateLimitSpec): string {
    (match spec.pool case Some(pool) => pool + ":" case None => "")
    + Decimal(spec.limit) + "/" + UnitName(spec.windowMs)
  }

  predicate Expressible(spec: RateLimitSpec) {
    && spec.pool != Some("")
    && 0 < spec.limit <= U32_MAX
    && spec.windowMs in {1_000, 60_000, 3_600_000, 86_400_000}
  }

  lemma QuotaRoundTrip(pool: Option<string>, limit: nat, windowMs: nat)
    requires Expressible(RateLimitSpec(pool, limit, windowMs))
    ensures ':' !in Decimal(limit) + "/" + UnitName(windowMs)
    ensures ParseQuota(pool, Decimal(limit) + "/" + UnitName(windowMs))
            == Ok(RateLimitSpec(pool, limit, windowMs))
  {
    var digits, unit := Decimal(limit), UnitName(windowMs);
    IndexOfFirst(digits, '/', unit);
    var quota := digits + ['/'] + unit;
    assert quota == digits + "/" + unit;
    assert quota[..|digits|] == digits && quota[|digits| + 1..] == unit;
    assert ParseU32(digits) == Some(limit) by { assert IsDigit(digits[0]); }
  }

  /** Every expressible spec, pool names with colons included, survives being written
      down and parsed back. */
  lemma SpecRoundTrip(spec: RateLimitSpec)
    requires Expressible(spec)
    ensures ParseRateLimitSpec(FormatRateLimitSpec(spec)) == Ok(spec)
  {
    hide ParseQuota, Decimal;
    var quota := Decimal(spec.limit) + "/" + UnitName(spec.windowMs);
    QuotaRoundTrip(spec.pool, spec.limit, spec.windowMs);
    match spec.pool
    case None =>
      assert FormatRateLimitSpec(spec) == quota;
    case Some(pool) =>
      LastIndexOfLast(pool, ':', quota);
      var text := pool + [':'] + quota;
      assert FormatRateLimitSpec(spec) == text;
      assert text[..|pool|] == pool && text[|pool| + 1..] == quota;
  }
}
