/** Replay protection of tool calls: a queue of the last 1000 nonces with a set mirror, and a
    validity period for timestamps. */
module Replay {
  const NONCE_WINDOW: nat := 1000
  /** Seconds. */
  const VALIDITY: nat := 30

  type Nonce = seq<nat>

  datatype Decision = Fresh | DuplicateNonce | StaleTimestamp

  /** One call of `check`, and the clock it reads. */
  datatype Request = Request(now: nat, timestamp: nat, nonce: Nonce)

  predicate Timely(r: Request) {
    (if r.now >= r.timestamp then r.now - r.timestamp else r.timestamp - r.now) <= VALIDITY
  }

  function Decide(order: seq<Nonce>, r: Request): Decision {
    if !Timely(r) then StaleTimestamp else if r.nonce in order then DuplicateNonce else Fresh
  }

  function Record(order: seq<Nonce>, nonce: Nonce): seq<Nonce> {
    (if |order| >= NONCE_WINDOW then order[1..] else order) + [nonce]
  }

  // ---- Runs ----

  function OrderAfter(run: seq<Request>): seq<Nonce> {
    if run == [] then []
    else
      var order, last := OrderAfter(run[..|run| - 1]), run[|run| - 1];
      if Decide(order, last).Fresh? then Record(order, last.nonce) else order
  }

  /** The answer to the k-th request. */
  function AnswerAt(run: seq<Request>, k: nat): Decision
    requires k < |run|
  {
    Decide(OrderAfter(run[..k]), run[k])
  }

  /** The requests answered Fresh, in order. */
  function Accepted(run: seq<Request>): seq<Request> {
    if run == [] then []
    else Accepted(run[..|run| - 1]) + if AnswerAt(run, |run| - 1).Fresh? then [run[|run| - 1]] else []
  }

  ghost predicate Latest(order: seq<Nonce>, accepted: seq<Request>) {
    && |order| == (if |accepted| < 1000 then |accepted| else 1000)
    && forall k | 0 <= k < |order| :: order[k] == accepted[|accepted| - |order| + k].nonce
  }

  lemma RecordLatest(order: seq<Nonce>, accepted: seq<Request>, r: Request)
    requires Latest(order, accepted)
    ensures Latest(Record(order, r.nonce), accepted + [r])
  {
  }

  /** The queue holds the nonces of the last 1000 accepted requests. */
  lemma {:induction false} OrderIsLatest(run: seq<Request>)
    ensures Latest(OrderAfter(run), Accepted(run))
  {
    if run != [] {
      var before, last := run[..|run| - 1], run[|run| - 1];
      OrderIsLatest(before);
      RecordLatest(OrderAfter(before), Accepted(before), last);
      if AnswerAt(run, |run| - 1).Fresh? {
        assert Accepted(run) == Accepted(before) + [last];
      } else {
        assert Accepted(run) == Accepted(before);
      }
    }
  }

  /** Among the last 1000 accepted requests. */
  ghost predicate InWindow(accepted: seq<Request>, nonce: Nonce) {
    exists k | 0 <= k < |accepted| :: accepted[k].nonce == nonce && k + 1000 >= |accepted|
  }

  lemma LatestHolds(order: seq<Nonce>, accepted: seq<Request>, nonce: Nonce)
    requires Latest(order, accepted)
    ensures nonce in order <==> InWindow(accepted, nonce)
  {
    var skipped := |accepted| - |order|;
    if nonce in order {
      var k :| 0 <= k < |order| && order[k] == nonce;
      assert accepted[skipped + k].nonce == nonce;
    }
    if InWindow(accepted, nonce) {
      var k :| 0 <= k < |accepted| && accepted[k].nonce == nonce && k + 1000 >= |accepted|;
      assert order[k - skipped] == nonce;
    }
  }

  /** The exact answer: Fresh if and only if the timestamp is within 30 s of the clock and the
      nonce is not one of the last 1000 accepted; a timestamp further off counts as stale first. */
  lemma FreshIff(run: seq<Request>, r: Request)
    ensures Decide(OrderAfter(run), r).Fresh? <==>
      r.timestamp - 30 <= r.now <= r.timestamp + 30 && !InWindow(Accepted(run), r.nonce)
    ensures Decide(OrderAfter(run), r) == StaleTimestamp <==> r.now > r.timestamp + 30 || r.timestamp > r.now + 30
  {
    OrderIsLatest(run);
    LatestHolds(OrderAfter(run), Accepted(run), r.nonce);
  }

  lemma {:induction false} AllTimely(run: seq<Request>, k: nat)
    requires k < |Accepted(run)|
    ensures Timely(Accepted(run)[k])
  {
    var before := run[..|run| - 1];
    if k < |Accepted(before)| { AllTimely(before, k); }
  }

  /** Between two acceptances of one nonce there are at least 1000 others. */
  lemma {:induction false} AcceptancesApart(run: seq<Request>, i: nat, j: nat)
    requires i < j < |Accepted(run)| && Accepted(run)[i].nonce == Accepted(run)[j].nonce
    ensures j - i - 1 >= 1000
  {
    var before := run[..|run| - 1];
    if j < |Accepted(before)| {
      AcceptancesApart(before, i, j);
    } else {
      FreshIff(before, run[|run| - 1]);
      assert Accepted(before)[i] == Accepted(run)[i];
    }
  }

  /** A captured request sent again word for word is accepted a second time only within 60 s of
      the first, and after 1000 acceptances in between. */
  lemma ReplayNeedsFlood(run: seq<Request>, i: nat, j: nat)
    requires i < j < |Accepted(run)|
    requires Accepted(run)[i].nonce == Accepted(run)[j].nonce
    requires Accepted(run)[i].timestamp == Accepted(run)[j].timestamp
    ensures j - i - 1 >= 1000
    ensures Accepted(run)[j].now - Accepted(run)[i].now <= 60
  {
    AcceptancesApart(run, i, j);
    AllTimely(run, i);
    AllTimely(run, j);
  }

  // ---- The guard ----

  class ReplayGuard {
    var order: seq<Nonce>
    var seen: set<Nonce>

    /** The set mirrors the queue, which is bounded and holds no nonce twice. */
    ghost predicate Valid()
      reads this
    {
      && |order| <= NONCE_WINDOW
      && (forall i, j | 0 <= i < j < |order| :: order[i] != order[j])
      && (forall n :: n in seen <==> n in order)
    }

    constructor ()
      ensures Valid() && order == []
    {
      order, seen := [], {};
    }

    method Check(r: Request) returns (d: Decision)
      requires Valid()
      modifies this
      ensures Valid()
      ensures d == Decide(old(order), r)
      ensures order == if d.Fresh? then Record(old(order), r.nonce) else old(order)
    {
      var delta := if r.now >= r.timestamp then r.now - r.timestamp else r.timestamp - r.now;
      if delta > VALIDITY {
        return StaleTimestamp;
      }
      if r.nonce in seen {
        return DuplicateNonce;
      }
      if |order| >= NONCE_WINDOW {
        var oldest := order[0];
        order := order[1..];
        seen := seen - {oldest};
      }
      order := order + [r.nonce];
      seen := seen + {r.nonce};
      return Fresh;
    }
  }
}
