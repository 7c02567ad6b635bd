// internal/bind/manager.go: the listener reconciler.
module Listeners {
  import opened Wrappers

  datatype Target = Target(network: string, address: string, device: string, unix: bool)
  datatype Spec = Spec(raw: string, cidr: bool)
  datatype Resolution = Resolved(ts: seq<Target>) | NotReady | Unresolved

  /** A running listener; gen tells one socket from the next on the same id. */
  datatype Managed = Managed(spec: string, https: bool, gen: nat)
  type Running = map<string, Managed>

  /** Listen and EnumerateIface, as functions of the target alone. */
  datatype Env = Env(listens: Target -> bool, fallback: Target -> Option<seq<Target>>)

  function TargetID(t: Target): string {
    t.network + "|" + (t.address + "|" + t.device)
  }

  /** host:port, the port in digits. */
  predicate EndsInPort(address: string) {
    exists i :: 0 <= i < |address| - 1 && PortFrom(address, i)
  }

  predicate PortFrom(address: string, i: nat) {
    i < |address| && address[i] == ':' && forall k :: i < k < |address| ==> '0' <= address[k] <= '9'
  }

  /** What Resolve and EnumerateIface produce. A device goes with a wildcard address and is an interface
      name, in which the kernel allows no colon; a TCP address ends in its port; a Unix path is free. */
  predicate WellFormed(t: Target) {
    && '|' !in t.network && (t.unix <==> t.network == "unix")
    && (!t.unix ==> EndsInPort(t.address))
    && (t.device != "" ==> !t.unix && '|' !in t.address && ':' !in t.device)
  }

  lemma FirstBar(a: string, b: string, c: string, d: string)
    requires '|' !in a && '|' !in c && a + "|" + b == c + "|" + d
    ensures a == c && b == d
  {
    var x, y := a + "|" + b, c + "|" + d;
    assert x[|a|] == '|' && forall k :: 0 <= k < |a| ==> x[k] == a[k] && a[k] != '|';
    assert y[|c|] == '|' && forall k :: 0 <= k < |c| ==> y[k] == c[k] && c[k] != '|';
    assert |a| == |c|;
    assert a == x[..|a|] && c == y[..|c|] && b == x[|a| + 1..] && d == y[|c| + 1..];
  }

  /** An address with a port is no wildcard address followed by an interface name. */
  lemma PortOrDevice(address: string, wildcard: string, device: string)
    requires EndsInPort(address) && ':' !in device && device != ""
    ensures address + "|" + "" != wildcard + "|" + device
  {
    var x, y := address + "|" + "", wildcard + "|" + device;
    var i :| 0 <= i < |address| - 1 && PortFrom(address, i);
    assert x[i] == ':' && forall k :: i < k < |address| ==> x[k] == address[k] && x[k] != '|';
    assert y[|wildcard|] == '|' && forall k :: |wildcard| < k < |y| ==> y[k] == device[k - |wildcard| - 1] && y[k] != ':';
  }

  /** The id says everything about a target. */
  lemma TargetIDInjective(t: Target, u: Target)
    requires WellFormed(t) && WellFormed(u) && TargetID(t) == TargetID(u)
    ensures t == u
  {
    var x, y := t.address + "|" + t.device, u.address + "|" + u.device;
    FirstBar(t.network, x, u.network, y);
    if t.device != "" && u.device != "" {
      FirstBar(t.address, t.device, u.address, u.device);
    } else if t.device == "" && u.device == "" {
      assert t.address == x[..|x| - 1] && u.address == y[..|y| - 1];
    } else if t.device == "" {
      PortOrDevice(t.address, u.address, u.device);
    } else {
      PortOrDevice(u.address, t.address, t.device);
    }
  }

  // ---- the order-free specification ---------------------------------------------------------

  datatype Want = Want(target: Target, spec: string)

  /** One reconciliation: what is wanted (wanted and specOf in one map), the specs to keep, the mode. */
  datatype Plan = Plan(wanted: map<string, Want>, keep: set<string>, tls: bool, env: Env)

  ghost predicate PlanOk(p: Plan) {
    forall id :: id in p.wanted ==> WantOk(p.env, id, p.wanted[id].target)
  }

  predicate WantOk(env: Env, id: string, t: Target) {
    WellFormed(t) && TargetID(t) == id && (env.fallback(t).Some? ==> Addresses(env.fallback(t).value))
  }

  /** EnumerateIface yields addresses, never devices or Unix sockets. */
  predicate Addresses(ts: seq<Target>) {
    forall i :: 0 <= i < |ts| ==> WellFormed(ts[i]) && ts[i].device == "" && !ts[i].unix
  }

  function Https(p: Plan, id: string): bool
    requires id in p.wanted
  {
    p.tls && !p.wanted[id].target.unix
  }

  /** The id already runs in the wanted mode. */
  predicate Right(p: Plan, was: Running, id: string) {
    id in p.wanted && id in was && was[id].https == Https(p, id)
  }

  /** A wanted id that ends up open: it was right already, or listening on it works. */
  predicate Holds(p: Plan, was: Running, id: string) {
    Right(p, was, id) || (id in p.wanted && p.env.listens(p.wanted[id].target))
  }

  /** Not closed by the first loop. */
  predicate Survives(p: Plan, was: Running, id: string) {
    id in was && (id in p.wanted || was[id].spec in p.keep)
  }

  /** A device target that cannot be bound and is replaced by the device's addresses. */
  predicate FallsBack(p: Plan, was: Running, d: string) {
    && d in p.wanted && !Holds(p, was, d)
    && p.wanted[d].target.device != "" && p.env.fallback(p.wanted[d].target).Some?
  }

  /** The device target d opens id in its place. */
  predicate Covers(p: Plan, was: Running, d: string, id: string) {
    FallsBack(p, was, d) && OpensAmong(p.env, p.env.fallback(p.wanted[d].target).value, id)
  }

  predicate OpensAmong(env: Env, ts: seq<Target>, id: string) {
    exists i :: 0 <= i < |ts| && TargetID(ts[i]) == id && env.listens(ts[i])
  }

  predicate CoveredBy(p: Plan, was: Running, ds: set<string>, id: string) {
    exists d :: d in ds && Covers(p, was, d, id)
  }

  /** ... by a device target with this spec. */
  predicate CoveredUnder(p: Plan, was: Running, ds: set<string>, id: string, spec: string) {
    exists d :: d in ds && Covers(p, was, d, id) && p.wanted[d].spec == spec
  }

  /** What reconciling `was` under p makes of one id. No order of iteration appears here. */
  predicate ReconciledAt(p: Plan, was: Running, now: Running, id: string) {
    if id in p.wanted then
      && (id in now <==> Holds(p, was, id))
      && (id in now ==> now[id].https == Https(p, id) && now[id].spec == p.wanted[id].spec)
      && (Right(p, was, id) ==> now[id] == was[id].(spec := p.wanted[id].spec))
    else
      && (id in now <==> Survives(p, was, id) || CoveredBy(p, was, p.wanted.Keys, id))
      && (Survives(p, was, id) ==> now[id] == was[id])
      && (id in now && !Survives(p, was, id) ==>
            now[id].https == p.tls && CoveredUnder(p, was, p.wanted.Keys, id, now[id].spec))
  }

  ghost predicate Reconciled(p: Plan, was: Running, now: Running) {
    forall id :: ReconciledAt(p, was, now, id)
  }

  /** Whatever order the maps were iterated in, the ids and their modes are the same. */
  lemma Confluent(p: Plan, was: Running, now: Running, other: Running)
    requires Reconciled(p, was, now) && Reconciled(p, was, other)
    ensures now.Keys == other.Keys
    ensures forall id :: id in now ==> now[id].https == other[id].https
  {
    forall id ensures id in now <==> id in other
              ensures id in now ==> now[id].https == other[id].https
    {
      assert ReconciledAt(p, was, now, id) && ReconciledAt(p, was, other, id);
    }
  }

  /** The recorded specs are the same too, except that an id opened by fallbacks of several specs records
      whichever came first. */
  lemma ConfluentSpecs(p: Plan, was: Running, now: Running, other: Running, id: string)
    requires Reconciled(p, was, now) && Reconciled(p, was, other) && id in now && id in other
    requires id in p.wanted || Survives(p, was, id) ||
             forall d, e :: Covers(p, was, d, id) && Covers(p, was, e, id) ==> p.wanted[d].spec == p.wanted[e].spec
    ensures now[id].spec == other[id].spec
  {
    assert ReconciledAt(p, was, now, id) && ReconciledAt(p, was, other, id);
  }

  /** The listener runs on with the socket it had. */
  predicate Untouched(p: Plan, was: Running, id: string) {
    Right(p, was, id) || (id !in p.wanted && Survives(p, was, id))
  }

  /** The sockets a reconciliation closes: those of the listeners it does not leave alone. */
  function ClosedBy(p: Plan, was: Running): set<nat> {
    set id | id in was && !Untouched(p, was, id) :: was[id].gen
  }

  predicate GensBelow(r: Running, n: nat) {
    forall id :: id in r ==> r[id].gen < n
  }

  /** Every listener that is not left alone runs on a socket opened since gen was first. */
  predicate Renewed(p: Plan, was: Running, now: Running, first: nat) {
    forall id :: id in now && !Untouched(p, was, id) ==> now[id].gen >= first
  }

  // ---- half-way through -----------------------------------------------------------------------

  /** One id after the ids in done have been handled. */
  predicate HalfwayAt(p: Plan, was: Running, now: Running, done: set<string>, id: string) {
    if id in done then
      id in p.wanted && ReconciledAt(p, was, now, id)
    else
      && (id in now <==> Survives(p, was, id) || CoveredBy(p, was, done, id))
      && (Survives(p, was, id) ==> now[id] == was[id])
      && (id in now && !Survives(p, was, id) ==>
            now[id].https == p.tls && CoveredUnder(p, was, done, id, now[id].spec))
  }

  ghost predicate Halfway(p: Plan, was: Running, now: Running, done: set<string>) {
    forall id :: HalfwayAt(p, was, now, done, id)
  }

  /** Renewed, as far as the ids in done have been handled. */
  predicate RenewedSoFar(p: Plan, was: Running, now: Running, done: set<string>, first: nat) {
    forall id :: id in now && !(if id in done then Right(p, was, id) else Survives(p, was, id)) ==> now[id].gen >= first
  }

  function ClosedAmong(p: Plan, was: Running, done: set<string>): set<nat> {
    set id | id in done && id in was && !Right(p, was, id) :: was[id].gen
  }

  /** Where the second loop stands: the ids in done have been handled, on sockets from first up to opens. */
  ghost predicate Underway(p: Plan, was: Running, now: Running, done: set<string>, first: nat, opens: nat) {
    Halfway(p, was, now, done) && first <= opens && GensBelow(now, opens) && RenewedSoFar(p, was, now, done, first)
  }

  lemma HalfwayDone(p: Plan, was: Running, now: Running)
    requires Halfway(p, was, now, p.wanted.Keys)
    ensures Reconciled(p, was, now)
  {
    forall id ensures ReconciledAt(p, was, now, id) { assert HalfwayAt(p, was, now, p.wanted.Keys, id); }
  }

  /** An id opens by a fallback is no device target; if it is wanted, it can be listened on. */
  lemma CoveredIsPlain(p: Plan, was: Running, d: string, id: string)
    requires PlanOk(p) && Covers(p, was, d, id) && id in p.wanted
    ensures p.wanted[id].target.device == "" && !p.wanted[id].target.unix && Holds(p, was, id) && id != d
  {
    assert WantOk(p.env, d, p.wanted[d].target) && WantOk(p.env, id, p.wanted[id].target);
    var ts := p.env.fallback(p.wanted[d].target).value;
    var i :| 0 <= i < |ts| && TargetID(ts[i]) == id && p.env.listens(ts[i]);
    TargetIDInjective(ts[i], p.wanted[id].target);
  }

  /** What handling d makes of one id. */
  predicate HandledAt(p: Plan, was: Running, d: string, before: Running, after: Running, id: string) {
    if id == d then d in p.wanted && ReconciledAt(p, was, after, d)
    else if id in before then id in after && after[id] == before[id]
    else (id in after <==> Covers(p, was, d, id)) && (id in after ==> after[id].https == p.tls && after[id].spec == p.wanted[d].spec)
  }

  lemma HalfwayStepAt(p: Plan, was: Running, before: Running, after: Running, done: set<string>, d: string, id: string)
    requires PlanOk(p) && d in p.wanted && d !in done
    requires HalfwayAt(p, was, before, done, id) && HandledAt(p, was, d, before, after, id)
    ensures HalfwayAt(p, was, after, done + {d}, id)
  {
    assert CoveredBy(p, was, done + {d}, id) <==> CoveredBy(p, was, done, id) || Covers(p, was, d, id);
    assert forall spec :: CoveredUnder(p, was, done, id, spec) ==> CoveredUnder(p, was, done + {d}, id, spec);
    if id in done && Covers(p, was, d, id) { CoveredIsPlain(p, was, d, id); }
  }

  lemma HalfwayStep(p: Plan, was: Running, before: Running, after: Running, done: set<string>, d: string)
    requires PlanOk(p) && d in p.wanted && d !in done && Halfway(p, was, before, done)
    requires forall id :: HandledAt(p, was, d, before, after, id)
    ensures Halfway(p, was, after, done + {d})
  {
    forall id ensures HalfwayAt(p, was, after, done + {d}, id) {
      assert HalfwayAt(p, was, before, done, id);
      HalfwayStepAt(p, was, before, after, done, d, id);
    }
  }

  // ---- the loop bodies ----------------------------------------------------------------------

  /** Before d is handled, it is right exactly if it was right at the start, or a fallback just opens it. */
  lemma BeforeHandling(p: Plan, was: Running, before: Running, done: set<string>, d: string)
    requires PlanOk(p) && d in p.wanted && HalfwayAt(p, was, before, done, d) && d !in done
    ensures Right(p, was, d) ==> d in before && before[d] == was[d]
    ensures d in before && !Survives(p, was, d) ==> Holds(p, was, d) && before[d].https == Https(p, d)
    ensures d in was ==> Survives(p, was, d)
  {
    if d in before && !Survives(p, was, d) {
      var e :| e in done && Covers(p, was, e, d);
      CoveredIsPlain(p, was, e, d);
    }
  }

  /** id is open if it was, and then as it was, or if it was opened since under this spec and mode,
      on a socket with a generation from gen up to opens. */
  predicate AddedAt(added: bool, spec: string, https: bool, was: Running, now: Running, gen: nat, opens: nat, id: string) {
    && (id in now <==> id in was || added)
    && (id in was ==> now[id] == was[id])
    && (id !in was && id in now ==> now[id].https == https && now[id].spec == spec && gen <= now[id].gen < opens)
  }

  /** Every listenable address of ts was opened in addition to was, where its id was free. */
  ghost predicate FellBack(env: Env, ts: seq<Target>, spec: string, https: bool,
                           was: Running, now: Running, gen: nat, opens: nat) {
    gen <= opens && forall id :: AddedAt(OpensAmong(env, ts, id), spec, https, was, now, gen, opens, id)
  }

  /** One address further. */
  lemma FellBackStep(env: Env, ts: seq<Target>, i: nat, spec: string, https: bool,
                     was: Running, mid: Running, now: Running, gen: nat, opens: nat)
    requires i < |ts| && FellBack(env, ts[..i], spec, https, was, mid, gen, opens)
    requires env.listens(ts[i]) && TargetID(ts[i]) !in mid ==> now == mid[TargetID(ts[i]) := Managed(spec, https, opens)]
    requires !(env.listens(ts[i]) && TargetID(ts[i]) !in mid) ==> now == mid
    ensures var more := if env.listens(ts[i]) && TargetID(ts[i]) !in mid then 1 else 0;
            FellBack(env, ts[..i + 1], spec, https, was, now, gen, opens + more)
  {
    var fid, listens := TargetID(ts[i]), env.listens(ts[i]);
    var longer, end := ts[..i + 1], opens + if listens && fid !in mid then 1 else 0;
    forall id ensures AddedAt(OpensAmong(env, longer, id), spec, https, was, now, gen, end, id) {
      OpensOneMore(env, ts, i, id);
      AddedMore(OpensAmong(env, ts[..i], id), spec, https, was, mid, now, gen, opens, fid, listens, id);
    }
  }

  lemma AddedMore(added: bool, spec: string, https: bool, was: Running, mid: Running, now: Running, gen: nat, opens: nat,
                  fid: string, listens: bool, id: string)
    requires gen <= opens && AddedAt(added, spec, https, was, mid, gen, opens, id)
    requires now == if listens && fid !in mid then mid[fid := Managed(spec, https, opens)] else mid
    ensures AddedAt(added || (fid == id && listens), spec, https, was, now, gen,
                    opens + if listens && fid !in mid then 1 else 0, id)
  {
  }

  /** What listening on d, or on its addresses if that failed, adds to the listeners without d. */
  ghost predicate OpenedFresh(p: Plan, was: Running, without: Running, after: Running, d: string, gen: nat, opens: nat)
    requires d in p.wanted
  {
    var Want(t, spec) := p.wanted[d];
    if p.env.listens(t) then after == without[d := Managed(spec, Https(p, d), gen)] && opens == gen + 1
    else if FallsBack(p, was, d) then FellBack(p.env, p.env.fallback(t).value, spec, Https(p, d), without, after, gen, opens)
    else after == without && opens == gen
  }

  lemma FreshGens(p: Plan, was: Running, before: Running, without: Running, after: Running,
                  d: string, gen: nat, opens: nat, done: set<string>, first: nat)
    requires d in p.wanted && !Right(p, was, d) && without == before - {d}
    requires OpenedFresh(p, was, without, after, d, gen, opens)
    requires first <= gen && GensBelow(before, gen) && RenewedSoFar(p, was, before, done, first)
    ensures gen <= opens && GensBelow(after, opens) && RenewedSoFar(p, was, after, done + {d}, first)
  {
    if !p.env.listens(p.wanted[d].target) && FallsBack(p, was, d) {
      var ts := p.env.fallback(p.wanted[d].target).value;
      forall id | id in after
        ensures after[id].gen < opens && (id in without ==> after[id] == before[id]) && (id !in without ==> after[id].gen >= first)
      {
        assert AddedAt(OpensAmong(p.env, ts, id), p.wanted[d].spec, Https(p, d), without, after, gen, opens, id);
      }
    }
  }

  /** d listens, or one of the addresses that stand for it does. */
  predicate Served(p: Plan, now: Running, d: string)
    requires d in p.wanted
  {
    var t := p.wanted[d].target;
    || d in now
    || (t.device != "" && p.env.fallback(t).Some? &&
        exists i :: 0 <= i < |p.env.fallback(t).value| && TargetID(p.env.fallback(t).value[i]) in now)
  }

  /** A device target is none of its own addresses. */
  lemma NoDeviceAmong(p: Plan, d: string)
    requires PlanOk(p) && d in p.wanted && p.wanted[d].target.device != "" && p.env.fallback(p.wanted[d].target).Some?
    ensures var ts := p.env.fallback(p.wanted[d].target).value;
            forall i :: 0 <= i < |ts| ==> TargetID(ts[i]) != d
  {
    var t := p.wanted[d].target;
    var ts := p.env.fallback(t).value;
    assert WantOk(p.env, d, t);
    forall i | 0 <= i < |ts| ensures TargetID(ts[i]) != d {
      if TargetID(ts[i]) == d { TargetIDInjective(ts[i], t); }
    }
  }

  class Manager {
    var current: Running
    var opens: nat            // sockets opens so far; also the next gen
    ghost var closed: set<nat> // gens of the sockets closed so far

    method Close(id: string)
      requires id in current
      modifies this`current, this`closed
      ensures current == old(current) - {id} && closed == old(closed) + {old(current)[id].gen}
    {
      closed := closed + {current[id].gen};
      current := current - {id};
    }

    method ListenAndServe(env: Env, id: string, spec: string, t: Target, https: bool) returns (ok: bool)
      modifies this`current, this`opens
      ensures ok <==> env.listens(t)
      ensures current == if ok then old(current)[id := Managed(spec, https, old(opens))] else old(current)
      ensures opens == old(opens) + if ok then 1 else 0
    {
      ok := env.listens(t);
      if ok {
        current := current[id := Managed(spec, https, opens)];
        opens := opens + 1;
      }
    }

    /** The first loop: close what is neither wanted nor kept, in any order. */
    method CloseStale(p: Plan)
      modifies this`current, this`closed
      ensures forall id :: id in current <==> Survives(p, old(current), id)
      ensures forall id :: id in current ==> id in old(current) && current[id] == old(current)[id]
      ensures closed == old(closed) + StaleGens(p, old(current), old(current).Keys)
    {
      ghost var was := current;
      var todo := current.Keys;
      while todo != {}
        invariant todo <= was.Keys
        invariant forall id :: id in current <==> id in was && (id in todo || Survives(p, was, id))
        invariant forall id :: id in current ==> current[id] == was[id]
        invariant closed == old(closed) + StaleGens(p, was, was.Keys - todo)
        decreases todo
      {
        var id :| id in todo;
        StaleOneMore(p, was, was.Keys - todo, id);
        assert was.Keys - (todo - {id}) == was.Keys - todo + {id};
        todo := todo - {id};
        if id in p.wanted { continue; }
        if current[id].spec in p.keep { continue; }
        Close(id);
      }
      assert was.Keys - todo == was.Keys;
    }

    /** The addresses of a device whose target could not be bound. */
    method OpenFallback(env: Env, ts: seq<Target>, spec: string, https: bool) returns (ok: bool)
      modifies this`current, this`opens
      ensures FellBack(env, ts, spec, https, old(current), current, old(opens), opens)
      ensures ok <==> exists i :: 0 <= i < |ts| && TargetID(ts[i]) in current
    {
      ok := false;
      for i := 0 to |ts|
        invariant FellBack(env, ts[..i], spec, https, old(current), current, old(opens), opens)
        invariant ok <==> exists j :: 0 <= j < i && TargetID(ts[j]) in current
      {
        var fid := TargetID(ts[i]);
        ghost var mid, gen := current, opens;
        if fid in current {
          ok := true;
        } else {
          var listening := ListenAndServe(env, fid, spec, ts[i], https);
          if listening { ok := true; }
        }
        FellBackStep(env, ts, i, spec, https, old(current), mid, current, old(opens), gen);
      }
      assert ts[..|ts|] == ts;
    }

    /** The second half of the loop body: listen on d, or on the addresses that stand for it. */
    method OpenFresh(p: Plan, ghost was: Running, d: string) returns (failed: bool)
      requires PlanOk(p) && d in p.wanted && !Right(p, was, d) && d !in current
      modifies this`current, this`opens
      ensures OpenedFresh(p, was, old(current), current, d, old(opens), opens)
      ensures failed <==> !Served(p, current, d)
    {
      var t, spec := p.wanted[d].target, p.wanted[d].spec;
      var https := p.tls && !t.unix;
      var ok := ListenAndServe(p.env, d, spec, t, https);
      if !ok && t.device != "" {
        var fallback := p.env.fallback(t);
        if fallback == None { return true; }
        NoDeviceAmong(p, d);
        ghost var before, gen := current, opens;
        var okListen := OpenFallback(p.env, fallback.value, spec, https);
        assert AddedAt(OpensAmong(p.env, fallback.value, d), spec, https, before, current, gen, opens, d);
        return !okListen;
      }
      return !ok;
    }

    /** The body of the second loop, for one wanted id. */
    method Handle(p: Plan, ghost was: Running, ghost done: set<string>, d: string, ghost first: nat) returns (failed: bool)
      requires PlanOk(p) && d in p.wanted && d !in done && Underway(p, was, current, done, first, opens)
      modifies this`current, this`opens, this`closed
      ensures Underway(p, was, current, done + {d}, first, opens)
      ensures closed == old(closed) + (if d in was && !Right(p, was, d) then {was[d].gen} else {})
      ensures Right(p, was, d) ==> opens == old(opens)
      ensures (failed <==> !Served(p, current, d)) && (!failed ==> current != map[])
    {
      ghost var before := current;
      assert HalfwayAt(p, was, before, done, d);
      BeforeHandling(p, was, before, done, d);
      var t, spec := p.wanted[d].target, p.wanted[d].spec;
      var https := p.tls && !t.unix;
      if d in current {
        if current[d].https == https {
          current := current[d := current[d].(spec := spec)];
          HandledStill(p, was, before, current, d);
          HalfwayStep(p, was, before, current, done, d);
          return false;
        }
        Close(d);
      }
      assert !Right(p, was, d);
      ghost var without, gen := current, opens;
      failed := OpenFresh(p, was, d);
      HandledFreshly(p, was, before, without, current, d, gen, opens, done);
      FreshGens(p, was, before, without, current, d, gen, opens, done, first);
    }

    /** The second loop, in any order. */
    method OpenWanted(p: Plan, ghost was: Running) returns (listenErr: bool)
      requires PlanOk(p) && Halfway(p, was, current, {}) && GensBelow(current, opens)
      modifies this`current, this`opens, this`closed
      ensures Reconciled(p, was, current)
      ensures old(opens) <= opens && GensBelow(current, opens)
      ensures RenewedSoFar(p, was, current, p.wanted.Keys, old(opens))
      ensures closed == old(closed) + ClosedAmong(p, was, p.wanted.Keys)
      ensures AllRight(p, was) ==> opens == old(opens)
      ensures current == map[] ==> (listenErr <==> p.wanted != map[])
    {
      var todo := p.wanted.Keys;
      ghost var done := {};
      listenErr := false;
      NothingYet(p, was, current, opens);
      while todo != {}
        invariant done !! todo && done + todo == p.wanted.Keys
        invariant Underway(p, was, current, done, old(opens), opens)
        invariant closed == old(closed) + ClosedAmong(p, was, done)
        invariant AllRight(p, was) ==> opens == old(opens)
        invariant listenErr ==> done != {}
        invariant !listenErr ==> done == {} || current != map[]
        decreases todo
      {
        var d :| d in todo;
        ClosedOneMore(p, was, done, d);
        var failed := Handle(p, was, done, d, old(opens));
        if failed { listenErr := true; }
        todo, done := todo - {d}, done + {d};
      }
      assert done == p.wanted.Keys;
      HalfwayDone(p, was, current);
    }

    /** Past resolution: the outcome is the order-free one. A listener that is not left alone has had
        its socket closed and runs, if at all, on a new one. */
    method Reconcile(p: Plan) returns (listenErr: bool)
      requires PlanOk(p) && GensBelow(current, opens)
      modifies this
      ensures Reconciled(p, old(current), current)
      ensures old(opens) <= opens && GensBelow(current, opens)
      ensures Renewed(p, old(current), current, old(opens))
      ensures closed == old(closed) + ClosedBy(p, old(current))
      ensures Quiet(p, old(current)) ==> opens == old(opens) && closed == old(closed)
      ensures current == map[] ==> (listenErr <==> p.wanted != map[])
    {
      ghost var was := current;
      CloseStale(p);
      assert Halfway(p, was, current, {}) by {
        forall id ensures HalfwayAt(p, was, current, {}, id) { }
      }
      listenErr := OpenWanted(p, was);
      ClosedInAll(p, was);
      RenewedInAll(p, was, current, old(opens));
      if Quiet(p, was) { QuietClosesNothing(p, was); }
    }

    /** Sync: resolve the specs, then reconcile. A CIDR that cannot be resolved on a start stops it
        before anything changes; otherwise it is an error exactly when nothing listens: the first spec
        that could not be resolved, else a failure to listen, else that nothing was wanted. */
    method Sync(specs: seq<Spec>, res: seq<Resolution>, tls: bool, reload: bool, env: Env) returns (err: Option<SyncError>)
      requires |res| == |specs| && ResolutionsOk(env, res) && GensBelow(current, opens)
      modifies this
      ensures GensBelow(current, opens)
      ensures Fatal(specs, res, reload) ==>
                && err.Some? && err.value.FromSpec? && FirstOf(specs, res, reload, FatalAt, err.value.i)
                && current == old(current) && opens == old(opens) && closed == old(closed)
      ensures !Fatal(specs, res, reload) ==>
                var p := PlanOf(specs, res, tls, reload, env);
                && (err == None <==> current != map[])
                && (current == map[] ==> ReportedBy(specs, res, reload, p.wanted, err.value))
                && Reconciled(p, old(current), current)
                && Renewed(p, old(current), current, old(opens))
                && closed == old(closed) + ClosedBy(p, old(current))
                && (Quiet(p, old(current)) ==> opens == old(opens) && closed == old(closed))
    {
      var wanted, keep, fatal, firstErr := Resolve(specs, res, reload);
      if fatal.Some? { return Some(FromSpec(fatal.value)); }
      var p := Plan(wanted, keep, tls, env);
      PlanOfOk(specs, res, tls, reload, env);
      var listenErr := Reconcile(p);
      if |current| == 0 {
        if firstErr.Some? { return Some(FromSpec(firstErr.value)); }
        if listenErr { return Some(FromListen); }
        return Some(NothingWanted);
      }
      return None;
    }
  }

  lemma QuietClosesNothing(p: Plan, was: Running)
    requires Quiet(p, was)
    ensures ClosedBy(p, was) == {}
  {
  }

  function StaleGens(p: Plan, was: Running, ids: set<string>): set<nat> {
    set id | id in ids && id in was && !Survives(p, was, id) :: was[id].gen
  }

  lemma StaleOneMore(p: Plan, was: Running, ids: set<string>, id: string)
    requires id in was
    ensures StaleGens(p, was, ids + {id}) ==
            StaleGens(p, was, ids) + (if Survives(p, was, id) then {} else {was[id].gen})
  {
  }

  lemma NothingYet(p: Plan, was: Running, now: Running, first: nat)
    requires Halfway(p, was, now, {})
    ensures RenewedSoFar(p, was, now, {}, first) && ClosedAmong(p, was, {}) == {}
  {
    forall id | id in now ensures Survives(p, was, id) { assert HalfwayAt(p, was, now, {}, id); }
  }

  lemma ClosedOneMore(p: Plan, was: Running, done: set<string>, d: string)
    ensures ClosedAmong(p, was, done + {d}) ==
            ClosedAmong(p, was, done) + (if d in was && !Right(p, was, d) then {was[d].gen} else {})
  {
  }

  /** What the first loop and the second loop close is what is not left alone. */
  lemma ClosedInAll(p: Plan, was: Running)
    ensures ClosedBy(p, was) == StaleGens(p, was, was.Keys) + ClosedAmong(p, was, p.wanted.Keys)
  {
    forall id | id in was
      ensures !Untouched(p, was, id) <==> !Survives(p, was, id) || (id in p.wanted && !Right(p, was, id))
    {
    }
  }

  lemma RenewedInAll(p: Plan, was: Running, now: Running, first: nat)
    requires Reconciled(p, was, now) && RenewedSoFar(p, was, now, p.wanted.Keys, first)
    ensures Renewed(p, was, now, first)
  {
  }

  lemma HandledStill(p: Plan, was: Running, before: Running, after: Running, d: string)
    requires d in p.wanted && d in before && before[d].https == Https(p, d)
    requires after == before[d := before[d].(spec := p.wanted[d].spec)]
    requires Right(p, was, d) ==> before[d] == was[d]
    requires Holds(p, was, d) || (Survives(p, was, d) && before[d] == was[d])
    ensures forall id :: HandledAt(p, was, d, before, after, id)
  {
    assert Holds(p, was, d);
  }

  /** d was not right: closed if it was open, listened on, and replaced by its addresses if that failed. */
  lemma HandledFresh(p: Plan, was: Running, before: Running, without: Running, after: Running,
                     d: string, gen: nat, opens: nat, id: string)
    requires PlanOk(p) && d in p.wanted && !Right(p, was, d) && without == before - {d}
    requires OpenedFresh(p, was, without, after, d, gen, opens)
    ensures HandledAt(p, was, d, before, after, id)
  {
    if FallsBack(p, was, d) {
      assert WantOk(p.env, d, p.wanted[d].target);
      var ts := p.env.fallback(p.wanted[d].target).value;
      assert AddedAt(OpensAmong(p.env, ts, id), p.wanted[d].spec, Https(p, d), without, after, gen, opens, id);
      if Covers(p, was, d, d) { CoveredIsPlain(p, was, d, d); }
    }
  }

  lemma HandledFreshly(p: Plan, was: Running, before: Running, without: Running, after: Running,
                       d: string, gen: nat, opens: nat, done: set<string>)
    requires PlanOk(p) && d in p.wanted && !Right(p, was, d) && without == before - {d}
    requires OpenedFresh(p, was, without, after, d, gen, opens)
    requires d !in done && Halfway(p, was, before, done)
    ensures Halfway(p, was, after, done + {d})
  {
    forall id ensures HandledAt(p, was, d, before, after, id) {
      HandledFresh(p, was, before, without, after, d, gen, opens, id);
    }
    HalfwayStep(p, was, before, after, done, d);
  }

  lemma OpensOneMore(env: Env, ts: seq<Target>, i: nat, id: string)
    requires i < |ts|
    ensures OpensAmong(env, ts[..i + 1], id) <==>
            OpensAmong(env, ts[..i], id) || (TargetID(ts[i]) == id && env.listens(ts[i]))
  {
    if OpensAmong(env, ts[..i], id) {
      var k :| 0 <= k < i && TargetID(ts[..i][k]) == id && env.listens(ts[..i][k]);
      assert ts[..i + 1][k] == ts[..i][k];
    }
    if TargetID(ts[i]) == id && env.listens(ts[i]) { assert ts[..i + 1][i] == ts[i]; }
    if OpensAmong(env, ts[..i + 1], id) {
      var k :| 0 <= k <= i && TargetID(ts[..i + 1][k]) == id && env.listens(ts[..i + 1][k]);
      if k < i { assert ts[..i][k] == ts[..i + 1][k]; }
    }
  }

  // ---- resolution -----------------------------------------------------------------------------

  predicate ResolutionsOk(env: Env, res: seq<Resolution>) {
    forall i :: 0 <= i < |res| && res[i].Resolved? ==>
      forall j :: 0 <= j < |res[i].ts| ==> WantOk(env, TargetID(res[i].ts[j]), res[i].ts[j])
  }

  /** What Sync returns: the error of a spec, of a listen, or its own. */
  datatype SyncError = FromSpec(i: nat) | FromListen | NothingWanted

  /** On a start (not a reload), an unresolvable CIDR is fatal. */
  predicate FatalAt(spec: Spec, res: Resolution, reload: bool) {
    !reload && res.Unresolved? && spec.cidr
  }

  predicate Fatal(specs: seq<Spec>, res: seq<Resolution>, reload: bool)
    requires |res| == |specs|
  {
    exists i :: 0 <= i < |specs| && FatalAt(specs[i], res[i], reload)
  }

  /** A spec whose error is remembered. */
  predicate RefusedAt(spec: Spec, res: Resolution, reload: bool) {
    !res.Resolved? && !Keeps(spec, res, reload)
  }

  /** i is the first spec of this kind. */
  predicate FirstOf(specs: seq<Spec>, res: seq<Resolution>, reload: bool, kind: (Spec, Resolution, bool) -> bool, i: nat)
    requires |res| == |specs|
  {
    && i < |specs| && kind(specs[i], res[i], reload)
    && forall j :: 0 <= j < i ==> !kind(specs[j], res[j], reload)
  }

  /** The error when nothing listens. */
  predicate ReportedBy(specs: seq<Spec>, res: seq<Resolution>, reload: bool, wanted: map<string, Want>, err: SyncError)
    requires |res| == |specs|
  {
    if exists i :: 0 <= i < |specs| && RefusedAt(specs[i], res[i], reload)
    then err.FromSpec? && FirstOf(specs, res, reload, RefusedAt, err.i)
    else if wanted != map[] then err == FromListen
    else err == NothingWanted
  }

  /** The listeners of this spec outlive a reload that cannot resolve it. */
  predicate Keeps(spec: Spec, res: Resolution, reload: bool) {
    reload && (res.NotReady? || (res.Unresolved? && spec.cidr))
  }

  function Wanting(wanted: map<string, Want>, ts: seq<Target>, raw: string): map<string, Want> {
    if ts == [] then wanted
    else Wanting(wanted, ts[..|ts| - 1], raw)[TargetID(ts[|ts| - 1]) := Want(ts[|ts| - 1], raw)]
  }

  /** A later spec takes over the ids it shares with an earlier one. */
  function WantedOf(specs: seq<Spec>, res: seq<Resolution>): map<string, Want>
    requires |res| == |specs|
  {
    if specs == [] then map[]
    else
      var n := |specs| - 1;
      var before := WantedOf(specs[..n], res[..n]);
      if res[n].Resolved? then Wanting(before, res[n].ts, specs[n].raw) else before
  }

  function KeepOf(specs: seq<Spec>, res: seq<Resolution>, reload: bool): set<string>
    requires |res| == |specs|
  {
    set i | 0 <= i < |specs| && Keeps(specs[i], res[i], reload) :: specs[i].raw
  }

  function PlanOf(specs: seq<Spec>, res: seq<Resolution>, tls: bool, reload: bool, env: Env): Plan
    requires |res| == |specs|
  {
    Plan(WantedOf(specs, res), KeepOf(specs, res, reload), tls, env)
  }

  method Resolve(specs: seq<Spec>, res: seq<Resolution>, reload: bool)
    returns (wanted: map<string, Want>, keep: set<string>, fatal: Option<nat>, firstErr: Option<nat>)
    requires |res| == |specs|
    ensures fatal.Some? <==> Fatal(specs, res, reload)
    ensures fatal.Some? ==> FirstOf(specs, res, reload, FatalAt, fatal.value)
    ensures fatal == None ==> wanted == WantedOf(specs, res) && keep == KeepOf(specs, res, reload)
    ensures fatal == None && firstErr.Some? ==> FirstOf(specs, res, reload, RefusedAt, firstErr.value)
    ensures fatal == None && firstErr == None ==> forall i :: 0 <= i < |specs| ==> !RefusedAt(specs[i], res[i], reload)
  {
    wanted, keep, firstErr := map[], {}, None;
    for i := 0 to |specs|
      invariant forall j :: 0 <= j < i ==> !FatalAt(specs[j], res[j], reload)
      invariant wanted == WantedOf(specs[..i], res[..i])
      invariant keep == KeepOf(specs[..i], res[..i], reload)
      invariant firstErr.Some? ==> firstErr.value < i && FirstOf(specs, res, reload, RefusedAt, firstErr.value)
      invariant firstErr == None ==> forall j :: 0 <= j < i ==> !RefusedAt(specs[j], res[j], reload)
    {
      assert specs[..i + 1][..i] == specs[..i] && res[..i + 1][..i] == res[..i];
      KeepOneMore(specs, res, reload, i);
      if !res[i].Resolved? {
        if reload && (res[i].NotReady? || specs[i].cidr) {
          keep := keep + {specs[i].raw};
          continue;
        }
        if !res[i].NotReady? && specs[i].cidr { return wanted, keep, Some(i), firstErr; }
        if firstErr == None { firstErr := Some(i); }
        continue;
      }
      var ts := res[i].ts;
      ghost var before := wanted;
      for j := 0 to |ts|
        invariant wanted == Wanting(before, ts[..j], specs[i].raw)
      {
        assert ts[..j + 1][..j] == ts[..j];
        wanted := wanted[TargetID(ts[j]) := Want(ts[j], specs[i].raw)];
      }
      assert ts[..|ts|] == ts;
    }
    assert specs[..|specs|] == specs && res[..|specs|] == res;
    return wanted, keep, None, firstErr;
  }

  lemma KeepOneMore(specs: seq<Spec>, res: seq<Resolution>, reload: bool, i: nat)
    requires |res| == |specs| && i < |specs|
    ensures KeepOf(specs[..i + 1], res[..i + 1], reload) ==
            KeepOf(specs[..i], res[..i], reload) + (if Keeps(specs[i], res[i], reload) then {specs[i].raw} else {})
  {
    var a, b := KeepOf(specs[..i], res[..i], reload), KeepOf(specs[..i + 1], res[..i + 1], reload);
    forall raw ensures raw in b <==> raw in a || (Keeps(specs[i], res[i], reload) && raw == specs[i].raw) {
      if raw in a {
        var k :| 0 <= k < i && Keeps(specs[..i][k], res[..i][k], reload) && specs[..i][k].raw == raw;
        assert specs[..i + 1][k] == specs[k] && res[..i + 1][k] == res[k];
      }
      if Keeps(specs[i], res[i], reload) { assert specs[..i + 1][i] == specs[i] && res[..i + 1][i] == res[i]; }
      if raw in b {
        var k :| 0 <= k < i + 1 && Keeps(specs[..i + 1][k], res[..i + 1][k], reload) && specs[..i + 1][k].raw == raw;
        if k < i { assert specs[..i][k] == specs[k] && res[..i][k] == res[k]; }
      }
    }
  }

  /** Some target of this resolution has the id. */
  predicate Offers(r: Resolution, id: string) {
    r.Resolved? && exists j :: 0 <= j < |r.ts| && TargetID(r.ts[j]) == id
  }

  lemma {:induction false} WantingIff(wanted: map<string, Want>, ts: seq<Target>, raw: string, id: string)
    ensures var w := Wanting(wanted, ts, raw);
            if exists j :: 0 <= j < |ts| && TargetID(ts[j]) == id
            then id in w && w[id].spec == raw && w[id].target in ts && TargetID(w[id].target) == id
            else (id in w <==> id in wanted) && (id in w ==> w[id] == wanted[id])
  {
    if ts != [] {
      var n := |ts| - 1;
      WantingIff(wanted, ts[..n], raw, id);
      if j :| 0 <= j < |ts| && TargetID(ts[j]) == id { assert j < n ==> TargetID(ts[..n][j]) == id; }
      assert (exists j :: 0 <= j < n && TargetID(ts[..n][j]) == id) ==> exists j :: 0 <= j < |ts| && TargetID(ts[j]) == id;
    }
  }

  /** An id is wanted exactly if some spec resolved to it; the last such spec owns it, with one of its targets. */
  lemma {:induction false} WantedIff(specs: seq<Spec>, res: seq<Resolution>, id: string)
    requires |res| == |specs|
    ensures id in WantedOf(specs, res) <==> exists i :: 0 <= i < |specs| && Offers(res[i], id)
    ensures id in WantedOf(specs, res) ==> exists i :: Owns(specs, res, id, WantedOf(specs, res)[id], i)
  {
    if specs != [] {
      var n := |specs| - 1;
      WantedIff(specs[..n], res[..n], id);
      var before, w := WantedOf(specs[..n], res[..n]), WantedOf(specs, res);
      if Offers(res[n], id) {
        WantingIff(before, res[n].ts, specs[n].raw, id);
        assert Owns(specs, res, id, w[id], n);
      } else {
        if res[n].Resolved? { WantingIff(before, res[n].ts, specs[n].raw, id); }
        if id in before {
          var i :| Owns(specs[..n], res[..n], id, before[id], i);
          assert Owns(specs, res, id, w[id], i) && Offers(res[i], id);
        }
        if i :| 0 <= i < |specs| && Offers(res[i], id) { assert i < n && Offers(res[..n][i], id); }
      }
    }
  }

  predicate Owns(specs: seq<Spec>, res: seq<Resolution>, id: string, w: Want, i: int)
    requires |res| == |specs|
  {
    && 0 <= i < |specs| && Offers(res[i], id) && w.spec == specs[i].raw && w.target in res[i].ts && TargetID(w.target) == id
    && forall j :: i < j < |specs| ==> !Offers(res[j], id)
  }

  /** A spec's listeners are kept exactly on a reload that finds it not ready, or its CIDR unresolvable. */
  lemma KeptIff(specs: seq<Spec>, res: seq<Resolution>, tls: bool, reload: bool, env: Env, raw: string)
    requires |res| == |specs|
    ensures raw in PlanOf(specs, res, tls, reload, env).keep <==>
            reload && exists i :: 0 <= i < |specs| && specs[i].raw == raw && (res[i].NotReady? || (res[i].Unresolved? && specs[i].cidr))
  {
  }

  lemma {:induction false} WantingOk(env: Env, wanted: map<string, Want>, ts: seq<Target>, raw: string)
    requires forall id :: id in wanted ==> WantOk(env, id, wanted[id].target)
    requires forall j :: 0 <= j < |ts| ==> WantOk(env, TargetID(ts[j]), ts[j])
    ensures forall id :: id in Wanting(wanted, ts, raw) ==> WantOk(env, id, Wanting(wanted, ts, raw)[id].target)
  {
    if ts != [] { WantingOk(env, wanted, ts[..|ts| - 1], raw); }
  }

  lemma {:induction false} PlanOfOk(specs: seq<Spec>, res: seq<Resolution>, tls: bool, reload: bool, env: Env)
    requires |res| == |specs| && ResolutionsOk(env, res)
    ensures PlanOk(PlanOf(specs, res, tls, reload, env))
  {
    if specs != [] {
      var n := |specs| - 1;
      PlanOfOk(specs[..n], res[..n], tls, reload, env);
      assert PlanOf(specs[..n], res[..n], tls, reload, env).wanted == WantedOf(specs[..n], res[..n]);
      if res[n].Resolved? { WantingOk(env, WantedOf(specs[..n], res[..n]), res[n].ts, specs[n].raw); }
    }
  }

  // ---- consequences ----------------------------------------------------------------------------

  predicate AllRight(p: Plan, was: Running) {
    forall id :: id in p.wanted ==> Right(p, was, id)
  }

  /** Nothing to do: every wanted id is right, and everything else is kept. */
  ghost predicate Quiet(p: Plan, was: Running) {
    && AllRight(p, was)
    && (forall id :: id in was ==> Survives(p, was, id))
  }

  /** A Sync in which every wanted id was right or could be listened on leaves nothing to do for a
      repetition with the same resolution. */
  lemma RepeatIsQuiet(p: Plan, was: Running, now: Running)
    requires Reconciled(p, was, now)
    requires forall id :: id in p.wanted ==> Holds(p, was, id)
    ensures Quiet(p, now)
  {
    forall id | id in p.wanted ensures Right(p, now, id) { assert ReconciledAt(p, was, now, id); }
    forall id | id in now ensures Survives(p, now, id) {
      assert ReconciledAt(p, was, now, id);
    }
  }

  /** An old listener outside the plan keeps its socket exactly if its recorded spec is kept; if not, its
      id is open again only through a fallback. */
  lemma SurvivalIff(p: Plan, was: Running, now: Running, first: nat, id: string)
    requires Reconciled(p, was, now) && Renewed(p, was, now, first) && GensBelow(was, first)
    requires id in was && id !in p.wanted
    ensures (id in now && now[id].gen == was[id].gen) <==> was[id].spec in p.keep
    ensures was[id].spec in p.keep ==> now[id] == was[id]
    ensures was[id].spec !in p.keep ==> (id in now <==> CoveredBy(p, was, p.wanted.Keys, id))
  {
    assert ReconciledAt(p, was, now, id);
  }

  /** What a Sync leaves, in plain terms. A wanted id runs HTTPS exactly with TLS on anything but a Unix
      socket; it is open exactly if it ran in that mode already, and then its socket stays, or if listening
      works, on a new socket. Any other id is open exactly if it ran under a kept spec, and then as it was,
      or if it is a listenable address of a wanted device that could not be bound, in the mode of TLS. */
  lemma SyncMeans(p: Plan, was: Running, now: Running, first: nat, id: string)
    requires PlanOk(p) && Reconciled(p, was, now) && Renewed(p, was, now, first) && GensBelow(was, first)
    ensures id in p.wanted ==>
              var t := p.wanted[id].target;
              var ran := id in was && (was[id].https <==> p.tls && !t.unix);
              && (id in now <==> ran || p.env.listens(t))
              && (id in now ==> now[id].spec == p.wanted[id].spec && (now[id].https <==> p.tls && !t.unix))
              && (ran ==> now[id].gen == was[id].gen)
              && (id in now && !ran ==> now[id].gen >= first)
    ensures id !in p.wanted ==>
              var kept := id in was && was[id].spec in p.keep;
              && (id in now <==> kept || exists d :: d in p.wanted && StandsFor(p, was, d, id))
              && (kept ==> now[id] == was[id])
              && (id in now && !kept ==>
                    now[id].https == p.tls && now[id].gen >= first
                    && exists d :: d in p.wanted && StandsFor(p, was, d, id) && now[id].spec == p.wanted[d].spec)
  {
    assert ReconciledAt(p, was, now, id);
    forall d | d in p.wanted ensures StandsFor(p, was, d, id) <==> Covers(p, was, d, id) {
      assert WantOk(p.env, d, p.wanted[d].target);
    }
  }

  /** id is a listenable address of the device of d, which did not run in the mode of TLS and cannot be
      bound itself. */
  predicate StandsFor(p: Plan, was: Running, d: string, id: string)
    requires d in p.wanted
  {
    var t := p.wanted[d].target;
    && t.device != "" && !(d in was && was[d].https == p.tls) && !p.env.listens(t)
    && p.env.fallback(t).Some?
    && exists i :: 0 <= i < |p.env.fallback(t).value| && TargetID(p.env.fallback(t).value[i]) == id
                   && p.env.listens(p.env.fallback(t).value[i])
  }

  /** Sync stops before it changes anything exactly on a start with a CIDR that cannot be resolved. */
  lemma FatalIff(specs: seq<Spec>, res: seq<Resolution>, reload: bool)
    requires |res| == |specs|
    ensures Fatal(specs, res, reload) <==> !reload && exists i :: 0 <= i < |specs| && res[i].Unresolved? && specs[i].cidr
    ensures forall i: nat :: FirstOf(specs, res, reload, FatalAt, i) <==>
              && !reload && i < |specs| && res[i].Unresolved? && specs[i].cidr
              && forall j :: 0 <= j < i ==> !(res[j].Unresolved? && specs[j].cidr)
  {
  }

  /** The error when nothing listens, in plain terms: that of the first spec that was neither resolved
      nor kept by a reload, and otherwise whether anything was wanted at all. */
  lemma ReportedIff(specs: seq<Spec>, res: seq<Resolution>, reload: bool, wanted: map<string, Want>, err: SyncError)
    requires |res| == |specs|
    ensures ReportedBy(specs, res, reload, wanted, err) <==>
            if forall i :: 0 <= i < |specs| ==> res[i].Resolved? || (reload && (res[i].NotReady? || specs[i].cidr))
            then err == if wanted == map[] then NothingWanted else FromListen
            else
              && err.FromSpec? && err.i < |specs|
              && !res[err.i].Resolved? && !(reload && (res[err.i].NotReady? || specs[err.i].cidr))
              && forall j :: 0 <= j < err.i ==> res[j].Resolved? || (reload && (res[j].NotReady? || specs[j].cidr))
  {
    forall i | 0 <= i < |specs|
      ensures RefusedAt(specs[i], res[i], reload) <==> !(res[i].Resolved? || (reload && (res[i].NotReady? || specs[i].cidr)))
    {
    }
  }
}
