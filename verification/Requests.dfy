/** Requests to remote nodes and their answers (src/core/proto.go, src/core/nodeinfo.go).

The three debug tables and the nodeinfo callbacks are one table here, keyed by
the kind of request and the node asked. A request is known by the number of its
allocation, where the source compares pointers. Each request comes with the
reply channel of the admin handler that waits for it, which holds one answer. */
module Requests {
  import opened Octets

  datatype Kind = GetSelf | GetPeers | GetTree | NodeInfo

  datatype Slot = Slot(kind: Kind, key: Octets)

  const MINUTE: nat := 60
  const CAPACITY: nat := 1

  datatype Fate = Open | Answered | Superseded(later: nat) | Expired

  /** `calls` counts the calls of the callback, `channel` is what it has sent and nobody has taken. */
  datatype Request = Request(slot: Slot, created: nat, fate: Fate, calls: nat, channel: seq<Octets>)

  /** A timer, once started, may fire at any moment after its minute, also
      after Stop: its message may already be in the actor's inbox. */
  datatype State = State(pending: map<Slot, nat>, requests: seq<Request>, timers: set<nat>, now: nat)

  const IDLE := State(map[], [], {}, 0)

  datatype Event =
    | Ask(slot: Slot)
    | Response(slot: Slot, bytes: Octets)
    | Fire(id: nat)
    | Cleanup
    | Tick(seconds: nat)
    | Take(id: nat)

  predicate Pointed(s: State) {
    && (forall k | k in s.pending :: s.pending[k] < |s.requests|)
    && (forall t | t in s.timers :: t < |s.requests|)
  }

  predicate Enabled(s: State, e: Event) {
    && Pointed(s)
    && match e
       case Fire(id) => id in s.timers && s.now >= s.requests[id].created + MINUTE
       case Take(id) => id < |s.requests| && s.requests[id].channel != []
       case _ => true
  }

  /** A nodeinfo callback of more than a minute. */
  predicate Stale(s: State, k: Slot)
    requires Pointed(s) && k in s.pending
  {
    k.kind.NodeInfo? && s.now - s.requests[s.pending[k]].created > MINUTE
  }

  predicate Stands(s: State, id: nat)
    requires id < |s.requests|
  {
    s.requests[id].slot in s.pending && s.pending[s.requests[id].slot] == id
  }

  /** The next request replaces one that is still open. Debug requests start a timer. */
  function Asked(s: State, k: Slot): State
    requires Pointed(s)
  {
    var id := |s.requests|;
    var rs := if k in s.pending then s.requests[s.pending[k] := s.requests[s.pending[k]].(fate := Superseded(id))] else s.requests;
    State(s.pending[k := id], rs + [Request(k, s.now, Open, 0, [])], if k.kind.NodeInfo? then s.timers else s.timers + {id}, s.now)
  }

  function Called(r: Request, bytes: Octets): Request {
    r.(fate := Answered, calls := r.calls + 1, channel := r.channel + [bytes])
  }

  function Step(s: State, e: Event): State
    requires Enabled(s, e)
  {
    match e
    case Ask(k) => Asked(s, k)
    case Response(k, bytes) =>
      if k in s.pending then
        s.(pending := s.pending - {k}, requests := s.requests[s.pending[k] := Called(s.requests[s.pending[k]], bytes)])
      else s
    case Fire(id) =>
      var s1 := s.(timers := s.timers - {id});
      if Stands(s, id) then
        s1.(pending := s.pending - {s.requests[id].slot}, requests := s.requests[id := s.requests[id].(fate := Expired)])
      else s1
    case Cleanup =>
      s.(pending := map k | k in s.pending && !Stale(s, k) :: s.pending[k], requests := Cleaned(s))
    case Tick(d) => s.(now := s.now + d)
    case Take(id) => s.(requests := s.requests[id := s.requests[id].(channel := [])])
  }

  function Cleaned(s: State): (rs: seq<Request>)
    requires Pointed(s)
    ensures |rs| == |s.requests|
  {
    seq(|s.requests|, i requires 0 <= i < |s.requests| =>
      if Stands(s, i) && Stale(s, s.requests[i].slot) then s.requests[i].(fate := Expired) else s.requests[i])
  }

  ghost predicate ValidRun(s: State, es: seq<Event>)
    decreases |es|
  {
    es == [] || (Enabled(s, es[0]) && ValidRun(Step(s, es[0]), es[1..]))
  }

  ghost function Run(s: State, es: seq<Event>): State
    requires ValidRun(s, es)
    decreases |es|
  {
    if es == [] then s else Run(Step(s, es[0]), es[1..])
  }

  // ----- what every run keeps

  /** One request, seen from the whole: it is open exactly if the table leads to
      it; its callback has run once if it was answered and else not at all; it
      was superseded only by a later request of the same kind to the same node,
      and it expired only after its minute. */
  ghost predicate RequestOk(s: State, i: nat)
    requires i < |s.requests|
  {
    var r := s.requests[i];
    && (r.fate.Open? <==> Stands(s, i))
    && r.calls == (if r.fate.Answered? then 1 else 0)
    && |r.channel| <= r.calls
    && (r.fate.Superseded? ==> i < r.fate.later < |s.requests| && s.requests[r.fate.later].slot == r.slot)
    && (r.fate.Expired? ==> s.now >= r.created + MINUTE)
  }

  ghost predicate AllOk(s: State) {
    && Pointed(s)
    && (forall k | k in s.pending :: s.requests[s.pending[k]].slot == k)
    && (forall i: nat | i < |s.requests| :: RequestOk(s, i))
    && (forall i: nat, j: nat | i < j < |s.requests| && s.requests[i].slot == s.requests[j].slot :: !s.requests[i].fate.Open?)
  }

  lemma AskKeeps(s: State, k: Slot)
    requires AllOk(s)
    ensures AllOk(Asked(s, k))
  {
    var s' := Asked(s, k);
    forall i: nat | i < |s'.requests| ensures RequestOk(s', i) {
      if i < |s.requests| {
        assert RequestOk(s, i);
      }
    }
    forall i: nat, j: nat | i < j < |s'.requests| && s'.requests[i].slot == s'.requests[j].slot ensures !s'.requests[i].fate.Open? {
      assert RequestOk(s, i);
    }
  }

  /** Closing the request a slot leads to, in whatever way. */
  lemma CloseKeeps(s: State, s': State, k: Slot)
    requires AllOk(s) && k in s.pending
    requires var id, r := s.pending[k], s.requests[s.pending[k]];
             && ((s'.requests == s.requests[id := r.(fate := Expired)] && s.now >= r.created + MINUTE)
                 || exists bytes :: s'.requests == s.requests[id := Called(r, bytes)])
             && s'.pending == s.pending - {k} && s'.now == s.now && s'.timers <= s.timers
    ensures AllOk(s')
  {
    forall i: nat | i < |s'.requests| ensures RequestOk(s', i) {
      assert RequestOk(s, i);
    }
    assert |s'.requests| == |s.requests|;
    assert forall i: nat | i < |s.requests| :: s'.requests[i].slot == s.requests[i].slot;
    assert forall i: nat | i < |s.requests| && !s.requests[i].fate.Open? :: !s'.requests[i].fate.Open?;
  }

  lemma CleanupKeeps(s: State)
    requires AllOk(s)
    ensures AllOk(Step(s, Cleanup))
  {
    var s' := Step(s, Cleanup);
    forall i: nat | i < |s'.requests| ensures RequestOk(s', i) {
      assert RequestOk(s, i);
    }
  }

  lemma StepKeeps(s: State, e: Event)
    requires AllOk(s) && Enabled(s, e)
    ensures AllOk(Step(s, e))
  {
    hide Cleaned, Asked;
    match e
    case Ask(k) => AskKeeps(s, k);
    case Response(k, bytes) => if k in s.pending { CloseKeeps(s, Step(s, e), k); }
    case Fire(id) => if Stands(s, id) { CloseKeeps(s, Step(s, e), s.requests[id].slot); } else { IdleKeeps(s, Step(s, e)); }
    case Cleanup => CleanupKeeps(s);
    case Tick(_) => IdleKeeps(s, Step(s, e));
    case Take(id) => TakeKeeps(s, id);
  }

  lemma IdleKeeps(s: State, s': State)
    requires AllOk(s) && s'.requests == s.requests && s'.pending == s.pending && s'.now >= s.now && s'.timers <= s.timers
    ensures AllOk(s')
  {
    forall i: nat | i < |s'.requests| ensures RequestOk(s', i) {
      assert RequestOk(s, i);
    }
  }

  lemma TakeKeeps(s: State, id: nat)
    requires AllOk(s) && Enabled(s, Take(id))
    ensures AllOk(Step(s, Take(id)))
  {
    var s' := Step(s, Take(id));
    forall i: nat | i < |s'.requests| ensures RequestOk(s', i) {
      assert RequestOk(s, i);
    }
  }

  lemma {:induction false} RunKeeps(s: State, es: seq<Event>)
    requires AllOk(s) && ValidRun(s, es)
    ensures AllOk(Run(s, es))
    decreases |es|
  {
    hide AllOk, Step;
    if es != [] {
      StepKeeps(s, es[0]);
      RunKeeps(Step(s, es[0]), es[1..]);
    }
  }

  /** Every open debug request has a timer to come. */
  ghost predicate Timed(s: State) {
    forall k | k in s.pending && !k.kind.NodeInfo? :: s.pending[k] in s.timers
  }

  lemma StepKeepsTimed(s: State, e: Event)
    requires AllOk(s) && Timed(s) && Enabled(s, e)
    ensures Timed(Step(s, e))
  {
    hide RequestOk, Cleaned;
  }

  lemma {:induction false} RunKeepsTimed(s: State, es: seq<Event>)
    requires AllOk(s) && Timed(s) && ValidRun(s, es)
    ensures Timed(Run(s, es))
    decreases |es|
  {
    hide AllOk, Timed, Step;
    if es != [] {
      StepKeeps(s, es[0]);
      StepKeepsTimed(s, es[0]);
      RunKeepsTimed(Step(s, es[0]), es[1..]);
    }
  }

  /** On every run no request stays open for ever: a debug request has a timer
      to come, and a clean-up closes every nodeinfo request of more than a minute. */
  lemma NoRequestStays(es: seq<Event>, k: Slot)
    requires ValidRun(IDLE, es) && k in Run(IDLE, es).pending
    ensures var s := Run(IDLE, es);
            && Pointed(s)
            && (k.kind != NodeInfo ==> s.pending[k] in s.timers)
            && (k.kind == NodeInfo && s.now > s.requests[s.pending[k]].created + MINUTE ==> k !in Step(s, Cleanup).pending)
  {
    hide RequestOk;
    RunKeeps(IDLE, es);
    RunKeepsTimed(IDLE, es);
  }

  // ----- what callers may rely on

  /** On every run, for every request: its callback runs at most once, and does
      run exactly if the request was answered. */
  lemma CallbackAtMostOnce(es: seq<Event>, i: nat)
    requires ValidRun(IDLE, es) && i < |Run(IDLE, es).requests|
    ensures var r := Run(IDLE, es).requests[i];
            r.calls <= 1 && (r.calls == 1 <==> r.fate.Answered?) && (r.fate.Open? <==> Stands(Run(IDLE, es), i))
  {
    RunKeeps(IDLE, es);
    assert RequestOk(Run(IDLE, es), i);
  }

  /** On every run, a request: it is the newest, open from now on under the time
      of asking, with an empty channel; one that was open in its slot is
      superseded by it; and no other request is touched. */
  lemma AskOpens(es: seq<Event>, k: Slot)
    requires ValidRun(IDLE, es)
    ensures Pointed(Run(IDLE, es))
    ensures var s := Run(IDLE, es);
            var n, t := |s.requests|, Step(s, Ask(k));
            && |t.requests| == n + 1 && t.requests[n] == Request(k, s.now, Open, 0, [])
            && k in t.pending && t.pending[k] == n && t.pending - {k} == s.pending - {k}
            && (forall i | 0 <= i < n ::
                  if k in s.pending && s.pending[k] == i
                  then t.requests[i] == s.requests[i].(fate := Superseded(n)) else t.requests[i] == s.requests[i])
            && (if k.kind == NodeInfo then t.timers == s.timers else t.timers == s.timers + {n})
  {
    hide RequestOk;
    RunKeeps(IDLE, es);
    var s := Run(IDLE, es);
    var t := Step(s, Ask(k));
    assert t.pending - {k} == s.pending - {k};
  }

  /** On every run, an answer: if a request is open in its slot, exactly these
      bytes are then on that request's channel, it is answered and closed, and
      nothing else changes; if none is, nothing changes at all. */
  lemma ResponseDelivers(es: seq<Event>, k: Slot, bytes: Octets)
    requires ValidRun(IDLE, es)
    ensures Pointed(Run(IDLE, es))
    ensures var s := Run(IDLE, es);
            var t := Step(s, Response(k, bytes));
            if k !in s.pending then t == s
            else
              var id := s.pending[k];
              && |t.requests| == |s.requests| && t.requests[id].channel == [bytes] && t.requests[id].fate == Answered
              && k !in t.pending && t.pending == s.pending - {k}
              && forall i | 0 <= i < |s.requests| && i != id :: t.requests[i] == s.requests[i]
  {
    RunKeeps(IDLE, es);
    var s := Run(IDLE, es);
    if k in s.pending {
      assert RequestOk(s, s.pending[k]);
    }
  }

  /** On every run, a timer in time or late, and the clean-up: exactly a request
      that is open and whose timer runs, or that is a nodeinfo request of more than
      a minute, is closed as expired. */
  lemma ExpiryExactly(es: seq<Event>, e: Event, i: nat)
    requires ValidRun(IDLE, es) && (e.Fire? || e.Cleanup?) && Enabled(Run(IDLE, es), e) && i < |Run(IDLE, es).requests|
    ensures var s := Run(IDLE, es);
            var r, t := s.requests[i], Step(s, e);
            var over := r.fate.Open? && if e.Fire? then e.id == i else r.slot.kind == NodeInfo && s.now > r.created + 60;
            && |t.requests| == |s.requests| && t.requests[i] == (if over then r.(fate := Expired) else r)
            && (r.fate.Open? ==> (r.slot !in t.pending <==> over))
  {
    RunKeeps(IDLE, es);
    var s := Run(IDLE, es);
    assert RequestOk(s, i);
    if e.Fire? {
      assert RequestOk(s, e.id);
    }
  }

  /** On every run: whoever waits for an answered request takes the one answer there is, and leaves none. */
  lemma TakeEmpties(es: seq<Event>, i: nat)
    requires ValidRun(IDLE, es) && Enabled(Run(IDLE, es), Take(i))
    ensures var s := Run(IDLE, es);
            var t := Step(s, Take(i));
            && |s.requests[i].channel| == 1 && s.requests[i].fate == Answered
            && |t.requests| == |s.requests| && t.requests[i] == s.requests[i].(channel := []) && t.pending == s.pending
            && forall j | 0 <= j < |s.requests| && j != i :: t.requests[j] == s.requests[j]
  {
    RunKeeps(IDLE, es);
    assert RequestOk(Run(IDLE, es), i);
  }

  // ----- where an answer comes from

  /** How many requests were made by these events. */
  function Asks(es: seq<Event>): nat {
    if es == [] then 0 else Asks(es[..|es| - 1]) + if es[|es| - 1].Ask? then 1 else 0
  }

  /** Event b brought these bytes for request i, after it was made. */
  predicate BroughtAt(es: seq<Event>, b: nat, i: nat, slot: Slot, bytes: Octets) {
    b < |es| && es[b] == Response(slot, bytes) && i < Asks(es[..b])
  }

  ghost predicate Brought(es: seq<Event>, i: nat, slot: Slot, bytes: Octets) {
    exists b: nat :: BroughtAt(es, b, i, slot, bytes)
  }

  /** An answered request holds the bytes of one response to it, unless they were taken. */
  ghost predicate Holds(es: seq<Event>, i: nat, r: Request) {
    r.fate.Answered? ==>
      if r.channel == [] then Take(i) in es else |r.channel| == 1 && Brought(es, i, r.slot, r.channel[0])
  }

  ghost predicate AllHold(es: seq<Event>, s: State) {
    && |s.requests| == Asks(es)
    && forall i: nat | i < |s.requests| :: Holds(es, i, s.requests[i])
  }

  lemma HoldsOn(es: seq<Event>, e: Event, i: nat, r: Request)
    requires Holds(es, i, r)
    ensures Holds(es + [e], i, r)
  {
    if r.fate.Answered? && r.channel != [] {
      var b: nat :| BroughtAt(es, b, i, r.slot, r.channel[0]);
      assert (es + [e])[..b] == es[..b];
      assert BroughtAt(es + [e], b, i, r.slot, r.channel[0]);
    }
  }

  lemma StepHolds(es: seq<Event>, s: State, e: Event)
    requires AllOk(s) && AllHold(es, s) && Enabled(s, e)
    ensures AllHold(es + [e], Step(s, e))
  {
    hide BroughtAt, Brought;
    var t, all := Step(s, e), es + [e];
    assert all[..|es|] == es;
    forall i: nat | i < |t.requests| ensures Holds(all, i, t.requests[i]) {
      if i < |s.requests| {
        HoldsOn(es, e, i, s.requests[i]);
        assert RequestOk(s, i);
        if e.Response? && e.slot in s.pending && s.pending[e.slot] == i {
          JustBrought(es, i, e.slot, e.bytes);
        }
      }
    }
  }

  lemma JustBrought(es: seq<Event>, i: nat, slot: Slot, bytes: Octets)
    requires i < Asks(es)
    ensures Brought(es + [Response(slot, bytes)], i, slot, bytes)
  {
    var all := es + [Response(slot, bytes)];
    assert all[..|es|] == es;
    assert BroughtAt(all, |es|, i, slot, bytes);
  }

  lemma {:induction false} RunEndsWith(s: State, es: seq<Event>, e: Event)
    requires ValidRun(s, es + [e])
    ensures ValidRun(s, es) && Enabled(Run(s, es), e) && Run(s, es + [e]) == Step(Run(s, es), e)
    decreases |es|
  {
    hide Step, Enabled;
    if es == [] {
      assert es + [e] == [e] && [e][1..] == [];
    } else {
      assert (es + [e])[1..] == es[1..] + [e];
      RunEndsWith(Step(s, es[0]), es[1..], e);
    }
  }

  lemma {:induction false} RunHolds(es: seq<Event>)
    requires ValidRun(IDLE, es)
    ensures AllHold(es, Run(IDLE, es))
    decreases |es|
  {
    hide AllHold, AllOk, Step, Enabled;
    if es == [] {
      NothingHeld();
    } else {
      var before, e := es[..|es| - 1], es[|es| - 1];
      assert before + [e] == es;
      RunEndsWith(IDLE, before, e);
      RunHolds(before);
      IdleOk();
      RunKeeps(IDLE, before);
      StepHolds(before, Run(IDLE, before), e);
    }
  }

  lemma IdleOk()
    ensures AllOk(IDLE)
  {
  }

  lemma NothingHeld()
    ensures AllHold([], IDLE)
  {
  }

  /** On every run an answered request nobody has taken from holds exactly the
      bytes of one response to its slot, which came after the request was made. */
  lemma AnswersAreBrought(es: seq<Event>, i: nat)
    requires ValidRun(IDLE, es) && i < |Run(IDLE, es).requests|
    requires Run(IDLE, es).requests[i].fate.Answered? && Take(i) !in es
    ensures var r := Run(IDLE, es).requests[i];
            |r.channel| == 1 && exists b: nat :: b < |es| && es[b] == Response(r.slot, r.channel[0]) && i < Asks(es[..b])
  {
    RunHolds(es);
    var r := Run(IDLE, es).requests[i];
    assert Holds(es, i, r);
    var b: nat :| BroughtAt(es, b, i, r.slot, r.channel[0]);
    assert b < |es| && es[b] == Response(r.slot, r.channel[0]) && i < Asks(es[..b]);
  }

  /** On every run: when an answer comes, the channel it is sent on has room, so the actor is never blocked. */
  lemma SendNeverBlocks(es: seq<Event>, k: Slot)
    requires ValidRun(IDLE, es) && k in Run(IDLE, es).pending
    ensures var s := Run(IDLE, es);
            s.pending[k] < |s.requests| && |s.requests[s.pending[k]].channel| < CAPACITY
  {
    RunKeeps(IDLE, es);
    var s := Run(IDLE, es);
    assert RequestOk(s, s.pending[k]);
  }

  /** On every run: the table leads to the newest request of its kind to that
      node, and no timer of an earlier one can take it away. */
  lemma NewestStands(es: seq<Event>, k: Slot, earlier: nat)
    requires ValidRun(IDLE, es) && k in Run(IDLE, es).pending
    requires earlier < |Run(IDLE, es).requests| && Run(IDLE, es).requests[earlier].slot == k && earlier != Run(IDLE, es).pending[k]
    ensures var s := Run(IDLE, es);
            && earlier < s.pending[k]
            && (Enabled(s, Fire(earlier)) ==> Step(s, Fire(earlier)) == s.(timers := s.timers - {earlier}))
  {
    RunKeeps(IDLE, es);
    var s := Run(IDLE, es);
    assert RequestOk(s, s.pending[k]);
  }

  /** A request that is answered, superseded or expired stays so, and is not called again. */
  lemma {:induction false} SettledForGood(s: State, es: seq<Event>, i: nat)
    requires AllOk(s) && ValidRun(s, es) && i < |s.requests| && !s.requests[i].fate.Open?
    ensures i < |Run(s, es).requests|
    ensures Run(s, es).requests[i].fate == s.requests[i].fate && Run(s, es).requests[i].calls == s.requests[i].calls
    decreases |es|
  {
    hide AllOk, Step;
    if es != [] {
      StepKeeps(s, es[0]);
      StepSettled(s, es[0], i);
      SettledForGood(Step(s, es[0]), es[1..], i);
    }
  }

  lemma StepSettled(s: State, e: Event, i: nat)
    requires AllOk(s) && Enabled(s, e) && i < |s.requests| && !s.requests[i].fate.Open?
    ensures i < |Step(s, e).requests|
    ensures Step(s, e).requests[i].fate == s.requests[i].fate && Step(s, e).requests[i].calls == s.requests[i].calls
  {
    assert RequestOk(s, i);
  }

  // ----- the code

  /** The three tables of debug requests and the table of nodeinfo callbacks, each by the node asked. */
  datatype Tables = Tables(
    selfs: map<Octets, nat>, peers: map<Octets, nat>, trees: map<Octets, nat>, callbacks: map<Octets, nat>)

  function Table(t: Tables, kind: Kind): map<Octets, nat> {
    match kind
    case GetSelf => t.selfs
    case GetPeers => t.peers
    case GetTree => t.trees
    case NodeInfo => t.callbacks
  }

  function WithTable(t: Tables, kind: Kind, m: map<Octets, nat>): Tables {
    match kind
    case GetSelf => t.(selfs := m)
    case GetPeers => t.(peers := m)
    case GetTree => t.(trees := m)
    case NodeInfo => t.(callbacks := m)
  }

  ghost function Slots(t: Tables): set<Slot> {
    (set x | x in t.selfs :: Slot(GetSelf, x)) + (set x | x in t.peers :: Slot(GetPeers, x)) +
    (set x | x in t.trees :: Slot(GetTree, x)) + (set x | x in t.callbacks :: Slot(NodeInfo, x))
  }

  /** The four tables as one. */
  ghost function Joined(t: Tables): map<Slot, nat> {
    map k | k in Slots(t) && k.key in Table(t, k.kind) :: Table(t, k.kind)[k.key]
  }

  lemma JoinedAt(t: Tables, k: Slot)
    ensures k in Joined(t) <==> k.key in Table(t, k.kind)
    ensures k in Joined(t) ==> Joined(t)[k] == Table(t, k.kind)[k.key]
  {
  }

  lemma TableWith(t: Tables, kind: Kind, m: map<Octets, nat>, other: Kind)
    ensures Table(WithTable(t, kind, m), other) == if other == kind then m else Table(t, other)
  {
  }

  lemma JoinedPut(t: Tables, k: Slot, n: nat)
    ensures Joined(WithTable(t, k.kind, Table(t, k.kind)[k.key := n])) == Joined(t)[k := n]
  {
    hide Joined, Table, WithTable;
    var m := Table(t, k.kind)[k.key := n];
    var u, joined := WithTable(t, k.kind, m), Joined(t)[k := n];
    forall j: Slot ensures (j in Joined(u) <==> j in joined) && (j in Joined(u) ==> Joined(u)[j] == joined[j]) {
      JoinedAt(t, j);
      JoinedAt(u, j);
      TableWith(t, k.kind, m, j.kind);
      assert j == k <==> j.kind == k.kind && j.key == k.key;
    }
  }

  lemma JoinedDrop(t: Tables, k: Slot)
    ensures Joined(WithTable(t, k.kind, Table(t, k.kind) - {k.key})) == Joined(t) - {k}
  {
    hide Joined, Table, WithTable;
    var m := Table(t, k.kind) - {k.key};
    var u, joined := WithTable(t, k.kind, m), Joined(t) - {k};
    forall j: Slot ensures (j in Joined(u) <==> j in joined) && (j in Joined(u) ==> Joined(u)[j] == joined[j]) {
      JoinedAt(t, j);
      JoinedAt(u, j);
      TableWith(t, k.kind, m, j.kind);
      assert j == k <==> j.kind == k.kind && j.key == k.key;
    }
  }

  class Handler {
    var selfRequests: map<Octets, nat>
    var peersRequests: map<Octets, nat>
    var treeRequests: map<Octets, nat>
    var callbacks: map<Octets, nat>
    var requests: seq<Request>
    var timers: set<nat>
    var now: nat

    function All(): Tables
      reads this
    {
      Tables(selfRequests, peersRequests, treeRequests, callbacks)
    }

    ghost function View(): State
      reads this
    {
      State(Joined(All()), requests, timers, now)
    }

    constructor ()
      ensures View() == IDLE && AllOk(View())
    {
      selfRequests, peersRequests, treeRequests, callbacks := map[], map[], map[], map[];
      requests, timers, now := [], {}, 0;
    }

    /** Writes one of the four tables back. */
    method SetTable(kind: Kind, m: map<Octets, nat>)
      modifies this`selfRequests, this`peersRequests, this`treeRequests, this`callbacks
      ensures All() == WithTable(old(All()), kind, m)
    {
      match kind {
        case GetSelf => selfRequests := m;
        case GetPeers => peersRequests := m;
        case GetTree => treeRequests := m;
        case NodeInfo => callbacks := m;
      }
    }

    method SendRequest(k: Slot)
      requires AllOk(View())
      modifies this
      ensures AllOk(View()) && View() == Step(old(View()), Ask(k))
    {
      hide RequestOk, Joined;
      AskKeeps(View(), k);
      JoinedAt(All(), k);
      var table, id := Table(All(), k.kind), |requests|;
      JoinedPut(All(), k, id);
      if k.key in table {
        requests := requests[table[k.key] := requests[table[k.key]].(fate := Superseded(id))];
      }
      requests := requests + [Request(k, now, Open, 0, [])];
      if k.kind != NodeInfo {
        timers := timers + {id};
      }
      SetTable(k.kind, table[k.key := id]);
    }

    /** The send on the channel needs room there, and has it. */
    method HandleResponse(k: Slot, bytes: Octets)
      requires AllOk(View())
      modifies this
      ensures AllOk(View()) && View() == Step(old(View()), Response(k, bytes))
    {
      hide Joined;
      StepKeeps(View(), Response(k, bytes));
      JoinedAt(All(), k);
      JoinedDrop(All(), k);
      var table := Table(All(), k.kind);
      if k.key in table {
        var id := table[k.key];
        var r := requests[id];
        assert |r.channel| < CAPACITY by {
          assert RequestOk(View(), id);
        }
        requests := requests[id := r.(fate := Answered, calls := r.calls + 1, channel := r.channel + [bytes])];
        SetTable(k.kind, table - {k.key});
      }
    }

    method TimerFired(id: nat)
      requires AllOk(View()) && Enabled(View(), Fire(id))
      modifies this
      ensures AllOk(View()) && View() == Step(old(View()), Fire(id))
    {
      hide RequestOk, Joined;
      StepKeeps(View(), Fire(id));
      timers := timers - {id};
      var k := requests[id].slot;
      JoinedAt(All(), k);
      JoinedDrop(All(), k);
      var table := Table(All(), k.kind);
      if k.key in table && table[k.key] == id {
        SetTable(k.kind, table - {k.key});
        requests := requests[id := requests[id].(fate := Expired)];
      }
    }

    method CleanUp()
      requires AllOk(View())
      modifies this
      ensures AllOk(View()) && View() == Step(old(View()), Cleanup)
    {
      hide AllOk, Stale, Stands, Cleaned, Joined;
      CleanupKeeps(View());
      PointedIfOk(View());
      ghost var s := View();
      ghost var t := All();
      callbacks, requests := DropStale(callbacks, requests, now, t, s);
      JoinedKept(t, s, callbacks);
      assert All() == t.(callbacks := callbacks);
    }
  }

  lemma PointedIfOk(s: State)
    requires AllOk(s)
    ensures Pointed(s)
  {
  }

  /** Dropping the stale callbacks is dropping the stale slots. */
  lemma JoinedKept(t: Tables, s: State, kept: map<Octets, nat>)
    requires Pointed(s) && s.pending == Joined(t)
    requires forall x :: x in kept <==> x in t.callbacks && Slot(NodeInfo, x) in s.pending && !Stale(s, Slot(NodeInfo, x))
    requires forall x | x in kept :: kept[x] == t.callbacks[x]
    ensures Joined(t.(callbacks := kept)) == map k | k in s.pending && !Stale(s, k) :: s.pending[k]
  {
    hide Joined;
    var u := t.(callbacks := kept);
    var m := map k | k in s.pending && !Stale(s, k) :: s.pending[k];
    forall j: Slot ensures j in Joined(u) <==> j in m ensures j in Joined(u) ==> Joined(u)[j] == m[j] {
      JoinedAt(t, j);
      JoinedAt(u, j);
      assert j == Slot(j.kind, j.key);
    }
  }

  /** A request at some point of the clean-up, when the nodes in `todo` are still to be looked at. */
  ghost function CleanedSoFar(s: State, todo: set<Octets>, i: nat): Request
    requires Pointed(s) && i < |s.requests|
  {
    var r := s.requests[i];
    if Stands(s, i) && Stale(s, r.slot) && r.slot.key !in todo then r.(fate := Expired) else r
  }

  /** _cleanup's loop: goes through the callbacks and drops what is stale. */
  method DropStale(callbacks: map<Octets, nat>, requests: seq<Request>, now: nat, ghost t: Tables, ghost s: State)
    returns (kept: map<Octets, nat>, after: seq<Request>)
    requires AllOk(s) && s.requests == requests && s.now == now && s.pending == Joined(t) && t.callbacks == callbacks
    ensures Pointed(s) && after == Cleaned(s)
    ensures forall x :: x in kept <==> x in callbacks && Slot(NodeInfo, x) in s.pending && !Stale(s, Slot(NodeInfo, x))
    ensures forall x | x in kept :: kept[x] == callbacks[x]
  {
    hide RequestOk, Joined;
    CallbacksPending(t);
    kept, after := callbacks, requests;
    var todo := callbacks.Keys;
    AllCallbacks(t, s);
    while todo != {}
      invariant todo <= callbacks.Keys && |after| == |requests|
      invariant forall x :: x in kept <==> x in callbacks && (x in todo || !Stale(s, Slot(NodeInfo, x)))
      invariant forall x | x in kept :: kept[x] == callbacks[x]
      invariant forall i | 0 <= i < |requests| :: after[i] == CleanedSoFar(s, todo, i)
    {
      var x :| x in todo;
      var id := kept[x];
      assert s.requests[id].slot == Slot(NodeInfo, x);
      if now - after[id].created > MINUTE {
        kept := kept - {x};
        after := after[id := after[id].(fate := Expired)];
      }
      todo := todo - {x};
    }
    assert after == Cleaned(s);
  }

  lemma CallbacksPending(t: Tables)
    ensures forall x | x in t.callbacks :: Slot(NodeInfo, x) in Joined(t) && Joined(t)[Slot(NodeInfo, x)] == t.callbacks[x]
  {
    hide Joined;
    forall x | x in t.callbacks ensures Slot(NodeInfo, x) in Joined(t) && Joined(t)[Slot(NodeInfo, x)] == t.callbacks[x] {
      JoinedAt(t, Slot(NodeInfo, x));
    }
  }

  /** Nothing is stale but a callback, so at the start of the loop nothing is cleaned. */
  lemma AllCallbacks(t: Tables, s: State)
    requires Pointed(s) && s.pending == Joined(t)
    ensures forall i | 0 <= i < |s.requests| :: CleanedSoFar(s, t.callbacks.Keys, i) == s.requests[i]
  {
    hide Joined;
    forall i | 0 <= i < |s.requests| ensures CleanedSoFar(s, t.callbacks.Keys, i) == s.requests[i] {
      JoinedAt(t, s.requests[i].slot);
    }
  }
}
