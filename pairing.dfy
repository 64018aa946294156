/**
 * The pairing-code request loop of a connection attempt whose credentials are not yet
 * registered (main.js:423-450): up to three failed requests, each request preceded by
 * a 1500 ms wait, a back-off of 600 ms then 900 ms after a retryable failure, and the
 * first truthy code ending the loop.
 */
module Pairing {

  const MAX_RETRIES: nat := 3
  const REQUEST_DELAY_MS: nat := 1500

  /** Back-off after a failure that leaves `retriesLeft` (1 or 2) retries: `300 * (4 - retries)`. */
  function BackoffMs(retriesLeft: nat): nat
    requires 0 < retriesLeft < 4
  {
    300 * (4 - retriesLeft)
  }

  /** How one `requestPairingCode` call ended: it threw, or returned a code (possibly ""). */
  datatype Request = Threw | Returned(code: string)

  predicate Truthy(r: Request) {
    r.Returned? && r.code != ""
  }

  /**
   * Where the loop stands: a code was sent, the retries ran out, or the next request is
   * still outstanding because the outcomes given are used up.
   */
  datatype PairResult = CodeSent(code: string) | Exhausted | Pending

  datatype PairingRun = PairingRun(result: PairResult, requests: nat, waits: seq<nat>)

  /** The number of requests that threw. */
  function Throws(done: seq<Request>): nat {
    if done == [] then 0
    else Throws(done[..|done| - 1]) + (if done[|done| - 1].Threw? then 1 else 0)
  }

  /** The waits around one request made with `retriesLeft` retries left. */
  function Step(r: Request, retriesLeft: nat): seq<nat>
    requires 0 < retriesLeft <= MAX_RETRIES
  {
    [REQUEST_DELAY_MS] + (if r.Threw? && retriesLeft > 1 then [BackoffMs(retriesLeft - 1)] else [])
  }

  /** The requests `done` can all have been made: each came while a retry was left. */
  predicate Feasible(done: seq<Request>) {
    done == [] || (Feasible(done[..|done| - 1]) && Throws(done[..|done| - 1]) < MAX_RETRIES)
  }

  /** The waits the loop performs while making the requests `done`, in order. */
  function Schedule(done: seq<Request>): seq<nat>
    requires Feasible(done)
  {
    if done == [] then []
    else
      var before := done[..|done| - 1];
      Schedule(before) + Step(done[|done| - 1], MAX_RETRIES - Throws(before))
  }

  /**
   * What a run of the loop over `outcomes` reports: the requests it made, in order, how
   * long it waited, and why it stopped. It never makes more requests than there are
   * outcomes, uses at most three retries, and no request before the last returned a
   * truthy code (nor the last, unless a code was sent). A code is sent only as the last
   * request's truthy result; the retries are exhausted only by a last request that threw;
   * and the run is pending only when the outcomes ran out with a retry still left.
   */
  predicate Explains(outcomes: seq<Request>, run: PairingRun) {
    && run.requests <= |outcomes|
    && Throws(outcomes[..run.requests]) <= MAX_RETRIES
    && Feasible(outcomes[..run.requests])
    && run.waits == Schedule(outcomes[..run.requests])
    && (forall j :: 0 <= j < run.requests && (j < run.requests - 1 || !run.result.CodeSent?) ==> !Truthy(outcomes[j]))
    && (run.result.CodeSent? ==>
          run.requests > 0 && outcomes[run.requests - 1] == Returned(run.result.code) && run.result.code != "")
    && (run.result.Exhausted? ==>
          run.requests > 0 && outcomes[run.requests - 1].Threw? && Throws(outcomes[..run.requests]) == MAX_RETRIES)
    && (run.result.Pending? ==> run.requests == |outcomes| && Throws(outcomes) < MAX_RETRIES)
  }

  /**
   * The loop, over the outcomes of successive requests. It ends with the first truthy code,
   * or when three requests have thrown; a falsy code uses no retry.
   */
  method RequestPairingCode(outcomes: seq<Request>) returns (run: PairingRun)
    ensures Explains(outcomes, run)
  {
    var retries := MAX_RETRIES;
    var code: string := "";
    var i := 0;
    var waits: seq<nat> := [];
    while retries > 0 && code == ""
      invariant 0 <= i <= |outcomes|
      invariant retries == MAX_RETRIES - Throws(outcomes[..i])
      invariant Feasible(outcomes[..i])
      invariant waits == Schedule(outcomes[..i])
      invariant forall j :: 0 <= j < i && (j < i - 1 || code == "") ==> !Truthy(outcomes[j])
      invariant code != "" ==> i > 0 && outcomes[i - 1] == Returned(code)
      invariant retries == 0 ==> i > 0 && outcomes[i - 1].Threw?
      decreases |outcomes| - i
    {
      if i == |outcomes| {
        assert outcomes[..i] == outcomes;
        return PairingRun(Pending, i, waits);
      }
      var o := outcomes[i];
      assert outcomes[..i + 1][..i] == outcomes[..i];
      assert outcomes[..i + 1][i] == o;
      waits := waits + Step(o, retries);
      i := i + 1;
      match o
      case Returned(c) =>
        code := c;
      case Threw =>
        retries := retries - 1;
    }
    if code != "" {
      return PairingRun(CodeSent(code), i, waits);
    }
    return PairingRun(Exhausted, i, waits);
  }

  /** Three failures in a row: the schedule waits 1500, 600, 1500, 900 and 1500 ms. */
  lemma ThreeFailuresSchedule()
    ensures Throws([Threw, Threw, Threw]) == 3
    ensures Feasible([Threw, Threw, Threw])
    ensures Schedule([Threw, Threw, Threw]) == [1500, 600, 1500, 900, 1500]
  {
    var s1, s2, s3 := [Threw], [Threw, Threw], [Threw, Threw, Threw];
    assert s3[..2] == s2 && s2[..1] == s1 && s1[..0] == [];
    assert Throws(s1) == 1;
    assert Throws(s2) == 2;
    assert Feasible(s1) && Feasible(s2) && Feasible(s3);
    assert Schedule(s1) == [1500, 600];
    assert Schedule(s2) == [1500, 600, 1500, 900];
  }
}
