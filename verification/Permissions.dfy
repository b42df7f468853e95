/** The permission manager's policy engine: look up a grant, decide, and write one audit row. */
module Permissions {
  import opened Blank
  import opened Wrappers

  const ALLOWED := "allowed"
  const DENIED := "denied"

  /** A stored decision; without an expiry it never lapses. */
  datatype Grant = Grant(decision: string, expires: Option<int>)

  type Grants = map<(string, string), Grant>  // by capability and resource

  datatype Row = Row(action: string, resource: string, result: string)

  datatype Error = BlankInput | LockPoisoned | QueryFailed | InvalidDecision(decision: string) | InsertFailed

  datatype Result = Ok(decision: string) | Err(error: Error)

  /** What goes wrong in the database during one evaluation. */
  datatype Outage = NoOutage | Lock | Query | Insert

  predicate Unexpired(g: Grant, now: int) {
    g.expires.None? || g.expires.value > now
  }

  /** A grant lapses at the moment it expires, and then for good; one without an expiry never does. */
  lemma LapsesForGood(g: Grant, now: int, later: int)
    requires now <= later
    ensures !Unexpired(g, now) ==> !Unexpired(g, later)
    ensures Unexpired(g, now) <==> forall end | g.expires == Some(end) :: now < end
    ensures g.expires.Some? ==> !Unexpired(g, g.expires.value)
  {}

  /** The row that the lookup finds at the time `now`. */
  function Find(grants: Grants, now: int, capability: string, resource: string): Option<Grant> {
    if (capability, resource) in grants && Unexpired(grants[(capability, resource)], now)
    then Some(grants[(capability, resource)]) else None
  }

  predicate Intelligible(found: Option<Grant>) {
    found.Some? ==> found.value.decision == ALLOWED || found.value.decision == DENIED
  }

  predicate Allows(found: Option<Grant>) {
    found.Some? && found.value.decision == ALLOWED
  }

  /** Whether an evaluation reaches a decision at all. */
  predicate Decides(found: Option<Grant>, capability: string, resource: string, outage: Outage) {
    !IsBlank(capability) && !IsBlank(resource) && outage == NoOutage && Intelligible(found)
  }

  class PolicyEngine {
    var grants: Grants
    var audit: seq<Row>

    /**
     * One evaluation, under the database lock. It decides exactly when the input is not blank, the database
     * answers and what is stored reads "allowed" or "denied"; only an unexpired "allowed" allows; one row is
     * written for a decision and none otherwise.
     */
    method EvaluateSync(capability: string, resource: string, now: int, outage: Outage) returns (r: Result)
      modifies this`audit
      ensures var found := Find(grants, now, capability, resource);
        && (r.Ok? <==> Decides(found, capability, resource, outage))
        && (r.Ok? ==> r.decision == if Allows(found) then ALLOWED else DENIED)
        && (r.Ok? ==> audit == old(audit) + [Row(capability, resource, r.decision)])
        && (r.Err? ==> audit == old(audit))
        && (r == Err(BlankInput) <==> IsBlank(capability) || IsBlank(resource))
      ensures r == Ok("allowed") <==>
                && !IsBlank(capability) && !IsBlank(resource) && outage == NoOutage
                && (capability, resource) in grants && grants[(capability, resource)].decision == "allowed"
                && forall end | grants[(capability, resource)].expires == Some(end) :: now < end
      ensures r == Ok("allowed") || r == Ok("denied") || r.Err?
      ensures var found := Find(grants, now, capability, resource);
        !IsBlank(capability) && !IsBlank(resource) ==>
          && (r == Err(LockPoisoned) <==> outage == Lock)
          && (r == Err(QueryFailed) <==> outage == Query)
          && (r == Err(InsertFailed) <==> outage == Insert && Intelligible(found))
          && forall d :: r == Err(InvalidDecision(d)) <==>
               && (outage == NoOutage || outage == Insert)
               && found.Some? && found.value.decision == d && d !in {"allowed", "denied"}
    {
      hide IsBlank;
      if IsBlank(capability) || IsBlank(resource) { return Err(BlankInput); }
      if outage == Lock { return Err(LockPoisoned); }
      if outage == Query { return Err(QueryFailed); }
      var stored := Find(grants, now, capability, resource);
      var decision;
      if stored.Some? && stored.value.decision == ALLOWED {
        decision := ALLOWED;
      } else if stored.None? || stored.value.decision == DENIED {
        decision := DENIED;
      } else {
        return Err(InvalidDecision(stored.value.decision));
      }
      if outage == Insert { return Err(InsertFailed); }
      audit := audit + [Row(capability, resource, decision)];
      return Ok(decision);
    }
  }
}
