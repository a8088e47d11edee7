/** The DHCP client of lib/dhcp-client.c, updated in place. */
module DhcpClients {
  import opened Options
  import opened SatMath
  import opened DhcpClientModel
  import Safety = DhcpClientSafety

  class Dhclient {
    var state: State
    var stateEntered: nat
    var binding: Option<Config>
    var changed: bool
    var ipaddr: nat
    var netmask: nat
    var router: nat
    var serverIp: nat
    var initDelay: nat
    var leaseExpiration: nat
    var boundTimeout: nat
    var renewingTimeout: nat
    var rebindingTimeout: nat

    // When the client was last called and last run, by when it gives its address up,
    // and the binding its owner saw when asking for changes.
    ghost var clock: nat
    ghost var last: nat
    ghost var limit: nat
    ghost var asked: Option<Config>

    function View(): Client
      reads this
    {
      Client(state, stateEntered, binding, changed, ipaddr, netmask, router, serverIp, initDelay,
             leaseExpiration, boundTimeout, renewingTimeout, rebindingTimeout)
    }

    ghost function Watching(): Safety.Watch
      reads this
    {
      Safety.Watch(View(), clock, last, limit, asked)
    }

    /** What is known of the calls is as in `w`. */
    ghost predicate Watched(w: Safety.Watch)
      reads this
    {
      clock == w.clock && last == w.last && limit == w.limit && asked == w.asked
    }

    constructor (now: nat)
      ensures View() == Safety.Created(now)
      ensures now < UINT_MAX ==> Safety.Good(Watching())
    {
      state, stateEntered, binding, changed := Released, now, None, true;
      ipaddr, netmask, router := 0, 0, 0;
      serverIp, initDelay, leaseExpiration := 0, 0, 0;
      boundTimeout, renewingTimeout, rebindingTimeout := 0, 0, 0;
      clock, last, limit, asked := now, now, 0, None;
    }

    method StateTransition(s: State, now: nat)
      modifies this`state, this`stateEntered, this`changed, this`binding
      ensures View() == Enter(old(View()), s, now)
    {
      var wasBound := IsBound(state);
      if state != s {
        state := s;
      }
      stateEntered := now;
      var amBound := IsBound(state);
      if wasBound != amBound {
        changed := true;
        if !amBound {
          binding := None;
        }
      }
    }

    function Timeout(secs: nat, now: nat): bool
      reads this
    {
      now >= SatAdd(stateEntered, secs)
    }

    /** Handles a refusal or an acknowledgment; tells whether there was one. */
    method ReceiveAck(r: Reply, now: nat) returns (received: bool)
      requires ProperReply(r)
      modifies this
      ensures Watched(old(Watching()))
      ensures received <==> r.Nak? || (r.Ack? && r.lease >= MIN_ACCEPTABLE_LEASE)
      ensures View() == (if !received then old(View())
                         else if r.Nak? then Enter(old(View()), Init, now)
                         else Bind(old(View()), r, now))
    {
      if r.Nak? {
        StateTransition(Init, now);
        return true;
      } else if !r.Ack? || r.lease < MIN_ACCEPTABLE_LEASE {
        return false;
      }
      hide Bind, Enter;
      AcceptLease(r, now);
      return true;
    }

    method AcceptLease(r: Reply, now: nat)
      requires ProperReply(r) && r.Ack? && r.lease >= MIN_ACCEPTABLE_LEASE
      modifies this
      ensures View() == Bind(old(View()), r, now) && Watched(old(Watching()))
    {
      hide T1Of, T2Of, Enter;
      var t1, t2 := LeaseTimes(r);
      TakeBinding(r.config);
      TakeTimes(r.lease, t1, t2, now);
      StateTransition(Bound, now);
    }

    /** Records what the acknowledgment configures. */
    method TakeBinding(g: Config)
      modifies this`binding, this`changed, this`ipaddr, this`netmask, this`router
      ensures binding == Some(g) && changed == (old(changed) || (old(binding).Some? && old(binding) != Some(g)))
      ensures ipaddr == g.ip && netmask == g.netmask && router == RouterOf(g)
    {
      if binding.Some? && binding != Some(g) {
        changed := true;
      }
      binding := Some(g);
      ipaddr := g.ip;
      netmask := g.netmask;
      router := if g.router.Some? then g.router.value else 0;
    }

    /** Starts the stages of a lease. */
    method TakeTimes(lease: nat, t1: nat, t2: nat, now: nat)
      requires t1 <= UINT_MAX && t2 <= lease <= UINT_MAX
      modifies this`leaseExpiration, this`boundTimeout, this`renewingTimeout, this`rebindingTimeout
      ensures leaseExpiration == SatAdd(now, lease) && boundTimeout == t1
      ensures renewingTimeout == Minus(t2, t1) && rebindingTimeout == lease - t2
    {
      leaseExpiration := SatAdd(now, lease);
      boundTimeout := t1;
      renewingTimeout := Minus(t2, t1);
      rebindingTimeout := lease - t2;
    }

    static method LeaseTimes(r: Reply) returns (t1: nat, t2: nat)
      requires ProperReply(r) && r.Ack? && r.lease >= MIN_ACCEPTABLE_LEASE
      ensures t1 == T1Of(r) && t2 == T2Of(r)
    {
      t1, t2 := r.t1, r.t2;
      if t2 == 0 || t2 >= r.lease {
        t2 := CalcT2(r.lease, r.f2);
      }
      assert t2 == T2Of(r);
      if t1 == 0 || t1 >= t2 {
        t1 := CalcT1(r.lease, t2, r.f1);
      }
    }

    /** Waits for an acknowledgment in the present state, for `secs` seconds. */
    method RunAwaiting(r: Reply, secs: nat, next: State, now: nat)
      requires ProperReply(r)
      modifies this
      ensures View() == Await(old(View()), r, secs, next, now) && Watched(old(Watching()))
    {
      var received := ReceiveAck(r, now);
      if !received && Timeout(secs, now) {
        StateTransition(next, now);
      }
    }

    method DoInit(draw: int, next: State, now: nat)
      modifies this
      ensures View() == Wait(old(View()), draw, next, now) && Watched(old(Watching()))
    {
      if initDelay == 0 {
        initDelay := Fuzz(2, draw);
      }
      if Timeout(initDelay, now) {
        StateTransition(next, now);
      }
    }

    method RunSelecting(r: Reply, now: nat)
      modifies this
      ensures View() == Select(old(View()), r, now) && Watched(old(Watching()))
    {
      if serverIp != 0 && Timeout(60, now) {
        serverIp := 0;
        StateTransition(Init, now);
      }
      if r.Offer? {
        serverIp := r.server;
        ipaddr := r.ip;
        StateTransition(Requesting, now);
      }
    }

    method RunOnce(i: Input, now: nat)
      requires Proper(i)
      modifies this
      ensures View() == Pass(old(View()), i, now) && Watched(old(Watching()))
    {
      match state {
        case Init => DoInit(i.draw, Selecting, now);
        case InitReboot => DoInit(i.draw, Rebooting, now);
        case Rebooting => RunAwaiting(i.reply, 60, Init, now);
        case Selecting => RunSelecting(i.reply, now);
        case Requesting => RunAwaiting(i.reply, 60, Init, now);
        case Bound =>
          if Timeout(boundTimeout, now) {
            StateTransition(Renewing, now);
          }
        case Renewing => RunAwaiting(i.reply, renewingTimeout, Rebinding, now);
        case Rebinding => RunAwaiting(i.reply, rebindingTimeout, Init, now);
        case Released =>
      }
    }

    /**
     * Goes around until the state no longer changes.  The loop ends: once nothing
     * more arrives, each change of state leads nearer to one that waits.
     */
    method RunLoop(script: seq<Input>, now: nat)
      requires Sane(View(), now) && now < UINT_MAX && AllProper(script)
      modifies this
      ensures View() == DhcpClientModel.Run(old(View()), script, now) && Watched(old(Watching()))
    {
      hide Pass;
      var rest, oldState := script, state;
      var done := false;
      while !done
        invariant Sane(View(), now) && AllProper(rest) && Watched(old(Watching()))
        invariant done ==> View() == DhcpClientModel.Run(old(View()), script, now)
        invariant !done ==> DhcpClientModel.Run(View(), rest, now) == DhcpClientModel.Run(old(View()), script, now)
        decreases !done, |rest|, Rank(View(), now)
      {
        oldState := state;
        ghost var c := View();
        RankFalls(c, 0, now);
        PassStaysSane(c, Head(rest), now);
        RunOnce(Head(rest), now);
        rest := Tail(rest);
        done := state == oldState;
      }
    }

    /** A step proved to keep things right does so here. */
    lemma KeepsGood(w: Safety.Watch, e: Safety.Event, now: nat)
      requires Safety.Applies(w, e, now) ==> Watching() == Safety.Step(w, e, now)
      ensures Safety.Good(w) && Safety.Applies(w, e, now) ==>
                Safety.Good(Watching()) && (e.DoRun? && IsBound(state) ==> now < limit <= leaseExpiration)
    {
      if Safety.Good(w) && Safety.Applies(w, e, now) {
        Safety.StepKeepsGood(w, e, now);
      }
    }

    /**
     * Processes the protocol.  If this is done every second, a client that is bound
     * afterwards has not reached the end of its lease, nor a deadline it was given.
     */
    method Run(script: seq<Input>, now: nat)
      requires Sane(View(), now) && now < UINT_MAX && AllProper(script)
      modifies this
      ensures View() == DhcpClientModel.Run(old(View()), script, now) && last == clock == now
      ensures old(Safety.Good(Watching()) && Safety.Applies(Watching(), Safety.DoRun(script), now)) ==>
                Safety.Good(Watching()) && (IsBound(state) ==> now < limit <= leaseExpiration)
    {
      ghost var w := Watching();
      ghost var until := Safety.RunBy(View(), limit, script, now);
      RunLoop(script, now);
      clock, last, limit := now, now, until;
      hide Safety.Good, Safety.RunBy, DhcpClientModel.Run;
      KeepsGood(w, Safety.DoRun(script), now);
    }

    method DoForceRenew(deadline: int, now: nat)
      requires -INT_MAX - 1 <= deadline <= INT_MAX && IsBound(state) && Multiplies(View(), deadline, now)
      modifies this
      ensures View() == ForceBound(old(View()), deadline, now) && Watched(old(Watching()))
    {
      var left: int := SatSub(leaseExpiration, now);
      var granted := deadline;
      if left <= AsUnsigned(deadline) {
        if state == Renewing || state == Rebinding {
          return;
        }
        granted := left;
      }
      if state == Bound || state == Renewing {
        StateTransition(Renewing, now);
        renewingTimeout := granted * 3 / 4;
        rebindingTimeout := granted * 1 / 4;
      } else {
        StateTransition(Rebinding, now);
        rebindingTimeout := AsUnsigned(granted);
      }
    }

    method DoInitClient(requestedIp: nat, now: nat)
      modifies this
      ensures View() == Restart(old(View()), requestedIp, now) && Watched(old(Watching()))
    {
      StateTransition(if requestedIp != 0 then InitReboot else Init, now);
      ipaddr := requestedIp;
      initDelay := 0;
    }

    method InitClient(requestedIp: nat, now: nat)
      modifies this
      ensures View() == Restart(old(View()), requestedIp, now)
      ensures old(Safety.Good(Watching()) && Safety.Applies(Watching(), Safety.DoRestart(requestedIp), now)) ==>
                Safety.Good(Watching())
    {
      ghost var w := Watching();
      DoInitClient(requestedIp, now);
      clock := now;
      KeepsGood(w, Safety.DoRestart(requestedIp), now);
    }

    /** Renews within `deadline` seconds, or gives the address up by then. */
    method ForceRenew(deadline: int, now: nat)
      requires -INT_MAX - 1 <= deadline <= INT_MAX && Multiplies(View(), deadline, now)
      modifies this
      ensures View() == DhcpClientModel.ForceRenew(old(View()), deadline, now)
      ensures old(Safety.Good(Watching()) && Safety.Applies(Watching(), Safety.DoForce(deadline), now)) ==>
                Safety.Good(Watching()) && (deadline >= 0 && old(IsBound(state)) ==> limit <= now + deadline)
    {
      ghost var w := Watching();
      ghost var until :=
        if IsBound(state) && !LeftAlone(View(), deadline, now) then now + Granted(View(), deadline, now) else limit;
      if IsBound(state) {
        DoForceRenew(deadline, now);
      } else if state == Released {
        DoInitClient(0, now);
      }
      clock, limit := now, until;
      hide Safety.Good, Granted, LeftAlone, ForceBound;
      if Safety.Good(w) && Safety.Applies(w, Safety.DoForce(deadline), now) {
        Safety.ForceKeepsGood(w, deadline, now);
      }
    }

    method Release(now: nat)
      modifies this
      ensures View() == DhcpClientModel.Release(old(View()), now)
      ensures old(Safety.Good(Watching()) && Safety.Applies(Watching(), Safety.DoRelease, now)) ==> Safety.Good(Watching())
    {
      ghost var w := Watching();
      StateTransition(Released, now);
      clock := now;
      KeepsGood(w, Safety.DoRelease, now);
    }

    /** Whether the binding changed since the last call: if not, it is the one that was seen then. */
    method Changed(ghost now: nat) returns (was: bool)
      modifies this`changed, this`asked, this`clock
      ensures was == old(changed) && View() == old(View()).(changed := false)
      ensures old(Safety.Good(Watching())) && !was ==> binding == old(asked)
      ensures old(Safety.Good(Watching()) && Safety.Applies(Watching(), Safety.DoAsk, now)) ==> Safety.Good(Watching())
    {
      ghost var w := Watching();
      was := changed;
      changed := false;
      clock, asked := now, binding;
      KeepsGood(w, Safety.DoAsk, now);
    }

    /** Seconds left of the lease: some, right after a call to run, exactly if the client is bound. */
    method LeaseRemaining(now: nat) returns (left: nat)
      ensures left > 0 <==> IsBound(state) && now < leaseExpiration
      ensures left > 0 ==> now + left == leaseExpiration
      ensures Safety.Good(Watching()) && now == last ==> (left > 0 <==> IsBound(state))
    {
      if IsBound(state) {
        left := if leaseExpiration > now then leaseExpiration - now else 0;
      } else {
        left := 0;
      }
    }

    /** The address bound to: the one in the binding, or 0. */
    method GetIp() returns (ip: nat)
      ensures Safety.BindingInUse(View()) ==> ip == if binding.Some? then binding.value.ip else 0
    {
      ip := if IsBound(state) then ipaddr else 0;
    }
  }
}
