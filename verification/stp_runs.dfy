/**
 Runs: any finite sequence of calls to the bridge's entry points.
 */
module StpRuns {
  import opened StpModel

  datatype Event =
    | Elapse(ticks: nat)
    | Receive(p: nat, m: Bpdu)
    | Enable(p: nat)
    | Disable(p: nat)
    | ChangeId(id: nat)
    | ChangeCost(p: nat, cost: nat)
    | ChangePriority(p: nat, priority: nat)
    | RequestHello(ms: int)
    | RequestMaxAge(ms: int)
    | RequestForwardDelay(ms: int)
    | DetectChanges(p: nat, on: bool)

  /** The call names a port that the bridge has. */
  predicate Applies(b: Bridge, e: Event) {
    && b.RootPortInRange()
    && match e
       case Receive(p, _) => b.HasPort(p)
       case Enable(p) => b.HasPort(p)
       case Disable(p) => b.HasPort(p)
       case ChangeCost(p, _) => b.HasPort(p)
       case ChangePriority(p, _) => b.HasPort(p)
       case DetectChanges(p, _) => b.HasPort(p)
       case _ => true
  }

  function Step(b: Bridge, e: Event): (r: Bridge)
    requires Applies(b, e)
    ensures |r.ports| == |b.ports| && r.RootPortInRange()
  {
    match e
    case Elapse(ticks) => Tick(b, ticks)
    case Receive(p, m) => ReceivedBpdu(b, p, m)
    case Enable(p) => PortEnable(b, p)
    case Disable(p) => PortDisable(b, p)
    case ChangeId(id) => SetBridgeId(b, id)
    case ChangeCost(p, cost) => SetPathCost(b, p, cost)
    case ChangePriority(p, priority) => SetPriority(b, p, priority)
    case RequestHello(ms) => UpdateBridgeTimers(b.(rqHello := ms))
    case RequestMaxAge(ms) => UpdateBridgeTimers(b.(rqMaxAge := ms))
    case RequestForwardDelay(ms) => UpdateBridgeTimers(b.(rqFwd := ms))
    case DetectChanges(p, on) => b.SetPort(p, b.ports[p].(changeDetection := on))
  }

  function TicksOf(e: Event): nat {
    if e.Elapse? then e.ticks else 0
  }

  /** `s` is the sequence of states that the calls `es` lead through from `b`. */
  ghost predicate IsRun(b: Bridge, es: seq<Event>, s: seq<Bridge>) {
    && |s| == |es| + 1
    && s[0] == b
    && forall k: nat :: k < |es| ==> Applies(s[k], es[k]) && s[k + 1] == Step(s[k], es[k])
  }

  /** Ticks that the calls numbered `i` up to `j` let elapse. */
  function Ticks(es: seq<Event>, i: nat, j: nat): nat
    requires i <= j <= |es|
  {
    if i == j then 0 else Ticks(es, i, j - 1) + TicksOf(es[j - 1])
  }
}
