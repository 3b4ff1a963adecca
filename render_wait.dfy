/** `waitForRendering(selector, attempts, delay)` of the client
    (static/app.js): look for an element, and while it is missing and the
    count-down is positive, look again later. The page is an oracle:
    `present(k)` says whether the element is there at the `k`-th look
    (counting from 0). The delay between looks is not modelled. */
module RenderWait {

  /** The promise settles with the element found at look `check`, or is
      rejected with "element not found". */
  datatype RenderResult = Resolved(check: nat) | Rejected

  /** The most looks a call can make: the first one and one per remaining
      attempt; a count-down that starts at or below zero allows only the
      first. */
  function MaxChecks(attempts: int): (n: nat)
    ensures n >= 1
    ensures attempts >= 0 ==> n == attempts + 1
    ensures attempts < 0 ==> n == 1
  {
    if attempts > 0 then attempts + 1 else 1
  }

  method WaitForRendering(present: nat -> bool, attempts: int) returns (result: RenderResult, checks: nat)
    ensures 1 <= checks <= MaxChecks(attempts)
    ensures forall k :: 0 <= k < checks - 1 ==> !present(k)
    ensures result.Resolved? <==> present(checks - 1)
    ensures result.Resolved? ==> result.check == checks - 1
    ensures result.Rejected? ==> checks == MaxChecks(attempts)
  {
    var attempt := attempts;
    checks := 0;
    while true
      invariant checks <= MaxChecks(attempts) - 1
      invariant attempt == attempts - checks
      invariant checks > 0 ==> attempts >= checks
      invariant forall k :: 0 <= k < checks ==> !present(k)
      decreases MaxChecks(attempts) - checks
    {
      var found := present(checks);
      checks := checks + 1;
      if found {
        return Resolved(checks - 1), checks;
      } else if attempt > 0 {
        attempt := attempt - 1;
      } else {
        return Rejected, checks;
      }
    }
  }

  /** The call the report makes, `waitForRendering('.stat-item', 3, 500)`:
      an element missing at every look is given up on after the fourth. */
  method ReportWaitNeverShown() returns (result: RenderResult, checks: nat)
    ensures result == Rejected && checks == 4
  {
    result, checks := WaitForRendering(k => false, 3);
  }

  /** An element already on the page resolves at the first look. */
  method ReportWaitAlreadyShown() returns (result: RenderResult, checks: nat)
    ensures result == Resolved(0) && checks == 1
  {
    var shown: nat -> bool := k => true;
    result, checks := WaitForRendering(shown, 3);
    assert shown(0);
  }
}
