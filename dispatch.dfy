/**
 * The `/model` endpoint of the gateway: forward one request to the next worker
 * of the pool's rotation and fail over to the following worker when the
 * connection cannot be made.
 *
 * The pool's iterator is the finite sequence `rotation`; running off its end is
 * the iterator's StopIteration.  `outcomes[i]` is what the transport does with
 * the request sent to `rotation[i]`.  Scheduling a worker replacement is
 * appending that worker to `replacements`.
 */
module Dispatch {

  const NoWorkersStatus: int := 500
  const NoWorkersDetail: string := "No active workers"

  /** What posting the request to one worker yields. */
  datatype Outcome<R> =
    | Success(body: R)          // the worker answered; its JSON body
    | ConnError                 // the connection to the worker could not be made
    | OtherError(reason: string) // any other exception raised while talking to it

  /** What the endpoint gives back to its client. */
  datatype Reply<R> =
    | Answered(body: R)
    | HttpError(status: int, detail: string)
    | Raised(reason: string)

  /** The number of attempts, from the start, that fail with a connection error. */
  function LeadingConnErrors<R>(outcomes: seq<Outcome<R>>): (k: nat)
    ensures k <= |outcomes|
    ensures forall j :: 0 <= j < k ==> outcomes[j].ConnError?
    ensures k < |outcomes| ==> !outcomes[k].ConnError?
  {
    if outcomes == [] || !outcomes[0].ConnError? then 0
    else 1 + LeadingConnErrors(outcomes[1..])
  }

  /**
   * The failover loop.  Every worker tried before the answer that failed to
   * connect gets exactly one replacement, in rotation order; the first attempt
   * that does not fail to connect decides the reply.
   */
  method Dispatch<H, R>(rotation: seq<H>, outcomes: seq<Outcome<R>>)
    returns (reply: Reply<R>, replacements: seq<H>)
    requires |outcomes| == |rotation|
    ensures |replacements| == LeadingConnErrors(outcomes)
    ensures replacements == rotation[..|replacements|]
    ensures |replacements| == |rotation| <==> reply == HttpError(NoWorkersStatus, NoWorkersDetail)
    ensures |replacements| < |rotation| ==>
      match outcomes[|replacements|]
      case Success(body) => reply == Answered(body)
      case OtherError(reason) => reply == Raised(reason)
      case ConnError => false
  {
    var i := 0;
    replacements := [];
    while true
      invariant 0 <= i <= |rotation|
      invariant replacements == rotation[..i]
      invariant forall j :: 0 <= j < i ==> outcomes[j].ConnError?
      decreases |rotation| - i
    {
      if i == |rotation| {
        // StopIteration from the pool's iterator
        reply := HttpError(NoWorkersStatus, NoWorkersDetail);
        return;
      }
      var host := rotation[i];
      match outcomes[i]
      case Success(body) =>
        reply := Answered(body);
        return;
      case OtherError(reason) =>
        reply := Raised(reason);
        return;
      case ConnError =>
        replacements := replacements + [host];
        i := i + 1;
    }
  }

  /**
   * Liveness under partial failure: when no worker raises anything but a
   * connection error and some worker answers, the first answering worker's
   * response is the one returned, and only the workers before it are replaced.
   */
  lemma FirstReachableAnswers<R>(outcomes: seq<Outcome<R>>, s: nat)
    requires s < |outcomes| && outcomes[s].Success?
    requires forall j :: 0 <= j < |outcomes| ==> !outcomes[j].OtherError?
    ensures LeadingConnErrors(outcomes) <= s
    ensures outcomes[LeadingConnErrors(outcomes)].Success?
    ensures forall j :: 0 <= j < LeadingConnErrors(outcomes) ==> outcomes[j].ConnError?
  {
  }
}
