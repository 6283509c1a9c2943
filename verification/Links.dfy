/** The table of dialled links (src/core/link.go): add, remove and shutdown
against the dial loops, which run beside them. Entries made for accepted
connections are not part of the table here. */
module Links {
  import opened Results
  import opened Dialling

  /** linkInfo: what a link is known by. */
  datatype Peer = Peer(uri: string, sintf: string)

  /** A link object, as its allocation number finds it. */
  datatype Entry = Entry(peer: Peer, link: Link)

  /** `table` is _links; `entries` holds every link object ever made. */
  datatype State = State(entries: seq<Entry>, table: map<Peer, nat>, stopped: bool)

  const NONE_YET := State([], map[], false)

  datatype Answer = Added | AlreadyConfigured | NotConfigured | MaxBackoffInvalid | Dismissed

  datatype Action =
    | Add(peer: Peer, linkType: LinkType, carrier: Carrier, limit: Option<int>, received: bool)
    | Remove(peer: Peer)
    | Retry(kicked: set<nat>)
    | Stop
    | ShutdownLinks
    | Move(id: nat, event: Dialling.Event)

  /** A step of the link's own loop. */
  predicate OwnStep(e: Dialling.Event) {
    !e.Cancel? && !e.Close? && !e.Kick?
  }

  function Changed(s: State, id: nat, e: Dialling.Event): State
    requires id < |s.entries| && Dialling.Enabled(s.entries[id].link, e)
  {
    s.(entries := s.entries[id := s.entries[id].(link := Dialling.Step(s.entries[id].link, e))])
  }

  predicate InTable(s: State, i: nat)
    requires i < |s.entries|
  {
    s.entries[i].peer in s.table && s.table[s.entries[i].peer] == i
  }

  predicate Pointed(s: State) {
    forall p | p in s.table :: s.table[p] < |s.entries|
  }

  /** An action can happen. A kick is received only by a loop that waits in its select. */
  predicate Possible(s: State, a: Action) {
    && Pointed(s)
    && match a
       case Add(p, _, _, _, received) => received ==> p in s.table && Dialling.Enabled(s.entries[s.table[p]].link, Kick)
       case Remove(_) => true
       case Retry(kicked) => forall i | i in kicked :: i < |s.entries| && InTable(s, i) && Dialling.Enabled(s.entries[i].link, Kick)
       case Stop => true
       case ShutdownLinks => s.stopped
       case Move(id, e) => id < |s.entries| && OwnStep(e) && Dialling.Enabled(s.entries[id].link, e)
  }

  function LimitOf(limit: Option<int>): int {
    if limit == None then DEFAULT_LIMIT else limit.value
  }

  /** add: an option out of range changes nothing; a peer in the table is kicked; any other gets a loop. */
  function Act(s: State, a: Action): State
    requires Possible(s, a)
  {
    match a
    case Add(p, linkType, carrier, limit, received) =>
      if LimitOf(limit) < MINIMUM_LIMIT then s
      else if p in s.table then
        if received then Changed(s, s.table[p], Kick) else s
      else
        s.(entries := s.entries + [Entry(p, NewLink(linkType, carrier, LimitOf(limit), s.stopped))], table := s.table[p := |s.entries|])
    case Remove(p) =>
      if p in s.table then Changed(Changed(s, s.table[p], Cancel), s.table[p], Close) else s
    case Retry(kicked) =>
      s.(entries := seq(|s.entries|, i requires 0 <= i < |s.entries| =>
           if i in kicked then s.entries[i].(link := Dialling.Step(s.entries[i].link, Kick)) else s.entries[i]))
    case Stop =>
      s.(entries := seq(|s.entries|, i requires 0 <= i < |s.entries| =>
           s.entries[i].(link := Dialling.Step(s.entries[i].link, Cancel))),
         stopped := true)
    case ShutdownLinks =>
      s.(entries := seq(|s.entries|, i requires 0 <= i < |s.entries| =>
           if InTable(s, i) then s.entries[i].(link := Dialling.Step(s.entries[i].link, Close)) else s.entries[i]))
    case Move(id, e) =>
      var s1 := Changed(s, id, e);
      var p := s.entries[id].peer;
      if e.Delete? && p in s.table && s.table[p] == id then s1.(table := s.table - {p}) else s1
  }

  function Reply(s: State, a: Action): Answer
    requires a.Add? || a.Remove?
  {
    match a
    case Add(p, _, _, limit, _) =>
      if LimitOf(limit) < MINIMUM_LIMIT then MaxBackoffInvalid
      else if p in s.table then AlreadyConfigured
      else Added
    case Remove(p) => if p in s.table then Dismissed else NotConfigured
  }

  ghost predicate ValidRun(s: State, acts: seq<Action>)
    decreases |acts|
  {
    acts == [] || (Possible(s, acts[0]) && ValidRun(Act(s, acts[0]), acts[1..]))
  }

  ghost function Run(s: State, acts: seq<Action>): State
    requires ValidRun(s, acts)
    decreases |acts|
  {
    if acts == [] then s else Run(Act(s, acts[0]), acts[1..])
  }

  // ----- one loop for each entry

  /** The table leads to links that still have a loop, each under its own name,
      and every link that still has a loop is in the table: entries and running loops are one to one. */
  ghost predicate TableOk(s: State) {
    && (forall p | p in s.table ::
          s.table[p] < |s.entries| && s.entries[s.table[p]].peer == p && !s.entries[s.table[p]].link.phase.Gone?)
    && (forall i | 0 <= i < |s.entries| && !s.entries[i].link.phase.Gone? ::
          s.entries[i].peer in s.table && s.table[s.entries[i].peer] == i)
  }

  ghost predicate LinksOk(s: State) {
    forall i | 0 <= i < |s.entries| :: LinkOk(s.entries[i].link) && (s.stopped ==> s.entries[i].link.cancelled)
  }

  lemma StepKeepsTable(s: State, a: Action)
    requires TableOk(s) && Possible(s, a)
    ensures TableOk(Act(s, a))
  {
    hide Dialling.Step, Dialling.Enabled;
    match a
    case Add(p, _, _, _, _) => if p in s.table { KickKeeps(s, s.table[p]); }
    case Retry(_) => RetryKeeps(s, a);
    case Remove(p) => if p in s.table { CancelKeeps(s, s.table[p]); }
    case Stop => StopKeeps(s);
    case ShutdownLinks => ShutdownKeeps(s);
    case Move(id, e) => MoveKeeps(s, id, e);
  }

  lemma KickKeeps(s: State, id: nat)
    requires TableOk(s) && id < |s.entries|
    ensures Dialling.Enabled(s.entries[id].link, Kick) ==> TableOk(Changed(s, id, Kick))
  {
  }

  lemma RetryKeeps(s: State, a: Action)
    requires TableOk(s) && a.Retry? && Possible(s, a)
    ensures TableOk(Act(s, a))
  {
  }

  lemma CancelKeeps(s: State, id: nat)
    requires TableOk(s) && id < |s.entries|
    ensures Dialling.Enabled(s.entries[id].link, Cancel) && Dialling.Enabled(s.entries[id].link, Close)
    ensures Dialling.Enabled(Changed(s, id, Cancel).entries[id].link, Close)
    ensures TableOk(Changed(Changed(s, id, Cancel), id, Close))
  {
  }

  lemma StopKeeps(s: State)
    requires TableOk(s) && Possible(s, Stop)
    ensures TableOk(Act(s, Stop))
  {
  }

  lemma ShutdownKeeps(s: State)
    requires TableOk(s) && Possible(s, ShutdownLinks)
    ensures TableOk(Act(s, ShutdownLinks))
  {
  }

  lemma MoveKeeps(s: State, id: nat, e: Dialling.Event)
    requires TableOk(s) && Possible(s, Move(id, e))
    ensures TableOk(Act(s, Move(id, e)))
  {
    hide Dialling.Step, Dialling.Enabled;
    GoneByDelete(s.entries[id].link, e);
  }

  lemma GoneByDelete(l: Link, e: Dialling.Event)
    requires Dialling.Enabled(l, e) && OwnStep(e)
    ensures !l.phase.Gone? && (Dialling.Step(l, e).phase.Gone? <==> e.Delete?)
  {
  }

  lemma StepKeepsLinks(s: State, a: Action)
    requires LinksOk(s) && Possible(s, a)
    ensures LinksOk(Act(s, a))
  {
    hide LinkOk, Act, EventsOn;
    var s' := Act(s, a);
    NewEntry(s, a);
    forall i | 0 <= i < |s'.entries| ensures LinkOk(s'.entries[i].link) && (s'.stopped ==> s'.entries[i].link.cancelled) {
      if i < |s.entries| {
        EventsAreSteps(s, a, i);
        RunKeeps(s.entries[i].link, EventsOn(s, a, i));
      }
    }
  }

  /** An action makes at most one new entry, for a new link, and stops the node only as Stop. */
  lemma NewEntry(s: State, a: Action)
    requires Possible(s, a)
    ensures var s' := Act(s, a);
            && |s.entries| <= |s'.entries| <= |s.entries| + 1
            && (|s'.entries| > |s.entries| ==>
                  var l := s'.entries[|s.entries|].link; LinkOk(l) && l.cancelled == s.stopped == s'.stopped)
  {
    if a.Add? && LimitOf(a.limit) >= MINIMUM_LIMIT {
      NewLinkOk(a.linkType, a.carrier, LimitOf(a.limit), s.stopped);
    }
  }

  lemma {:induction false} RunKeepsAll(s: State, acts: seq<Action>)
    requires TableOk(s) && LinksOk(s) && ValidRun(s, acts)
    ensures TableOk(Run(s, acts)) && LinksOk(Run(s, acts))
    decreases |acts|
  {
    hide TableOk, LinksOk, Act;
    if acts != [] {
      StepKeepsTable(s, acts[0]);
      StepKeepsLinks(s, acts[0]);
      RunKeepsAll(Act(s, acts[0]), acts[1..]);
    }
  }

  /** On every run: no two loops run for one peer, so no two connections are up for it. */
  lemma OneLoopEach(acts: seq<Action>, i: nat, j: nat)
    requires ValidRun(NONE_YET, acts)
    requires i < j < |Run(NONE_YET, acts).entries|
    ensures var s := Run(NONE_YET, acts);
            s.entries[i].peer == s.entries[j].peer ==>
              (s.entries[i].link.phase.Gone? || s.entries[j].link.phase.Gone?) && !(s.entries[i].link.conn && s.entries[j].link.conn)
  {
    RunKeepsAll(NONE_YET, acts);
  }

  /** Every cancellation was asked for. */
  ghost predicate Asked(past: seq<Action>, s: State) {
    && (s.stopped ==> Stop in past)
    && forall i | 0 <= i < |s.entries| && s.entries[i].link.cancelled :: Stop in past || Remove(s.entries[i].peer) in past
  }

  lemma StepKeepsAsked(past: seq<Action>, s: State, a: Action)
    requires Possible(s, a) && TableOk(s) && Asked(past, s)
    ensures Asked(past + [a], Act(s, a))
  {
    hide Dialling.Enabled;
  }

  lemma {:induction false} RunKeepsAsked(past: seq<Action>, s: State, acts: seq<Action>)
    requires TableOk(s) && Asked(past, s) && ValidRun(s, acts)
    ensures Asked(past + acts, Run(s, acts))
    decreases |acts|
  {
    hide TableOk, Asked, Act;
    if acts == [] {
      assert past + acts == past;
    } else {
      StepKeepsTable(s, acts[0]);
      StepKeepsAsked(past, s, acts[0]);
      RunKeepsAsked(past + [acts[0]], Act(s, acts[0]), acts[1..]);
      assert past + [acts[0]] + acts[1..] == past + acts;
    }
  }

  /** On every run: an ephemeral link is dialled at most once, and a persistent
      link's loop is left only after the peer was removed or the node stopped. */
  lemma LinksOnEveryRun(acts: seq<Action>, i: nat)
    requires ValidRun(NONE_YET, acts) && i < |Run(NONE_YET, acts).entries|
    ensures var x := Run(NONE_YET, acts).entries[i];
            && (x.link.linkType == Ephemeral ==> x.link.dials <= 1)
            && (x.link.linkType == Persistent && (x.link.phase.Exit? || x.link.phase.Gone?) ==> Stop in acts || Remove(x.peer) in acts)
  {
    RunKeepsAll(NONE_YET, acts);
    RunKeepsAsked([], NONE_YET, acts);
    assert [] + acts == acts;
  }

  // ----- each link on its own

  /** What an action means to one link. */
  function EventsOn(s: State, a: Action, i: nat): seq<Dialling.Event> {
    match a
    case Add(p, _, _, limit, received) =>
      if received && LimitOf(limit) >= MINIMUM_LIMIT && p in s.table && s.table[p] == i then [Kick] else []
    case Remove(p) => if p in s.table && s.table[p] == i then [Cancel, Close] else []
    case Retry(kicked) => if i in kicked then [Kick] else []
    case Stop => [Cancel]
    case ShutdownLinks => if i < |s.entries| && InTable(s, i) then [Close] else []
    case Move(id, e) => if id == i then [e] else []
  }

  ghost function TraceOf(s: State, acts: seq<Action>, i: nat): seq<Dialling.Event>
    requires ValidRun(s, acts)
    decreases |acts|
  {
    if acts == [] then [] else EventsOn(s, acts[0], i) + TraceOf(Act(s, acts[0]), acts[1..], i)
  }

  lemma EventsAreSteps(s: State, a: Action, i: nat)
    requires Possible(s, a) && i < |s.entries|
    ensures var es := EventsOn(s, a, i);
            && |s.entries| <= |Act(s, a).entries| && Act(s, a).entries[i].peer == s.entries[i].peer
            && Dialling.ValidRun(s.entries[i].link, es)
            && Dialling.Run(s.entries[i].link, es) == Act(s, a).entries[i].link
            && (Act(s, a).stopped ==> s.stopped || Act(s, a).entries[i].link.cancelled)
            && (s.entries[i].link.cancelled ==> Act(s, a).entries[i].link.cancelled)
  {
    hide Dialling.Step;
    var l, es := s.entries[i].link, EventsOn(s, a, i);
    if |es| == 1 {
      assert es == [es[0]] && es[1..] == [];
      OneStep(l, es[0]);
    } else if |es| == 2 {
      TwoSteps(l);
    }
    KeepsCancelled(s, a, i);
  }

  lemma OneStep(l: Link, e: Dialling.Event)
    ensures Dialling.Enabled(l, e) ==> Dialling.ValidRun(l, [e]) && Dialling.Run(l, [e]) == Dialling.Step(l, e)
  {
    hide Dialling.Step, Dialling.Enabled;
    if Dialling.Enabled(l, e) {
      var m := Dialling.Step(l, e);
      assert [e][1..] == [] && Dialling.ValidRun(m, []) && Dialling.Run(m, []) == m;
    }
  }

  lemma TwoSteps(l: Link)
    ensures Dialling.ValidRun(l, [Cancel, Close]) && Dialling.Run(l, [Cancel, Close]) == Dialling.Step(Dialling.Step(l, Cancel), Close)
  {
    var m := Dialling.Step(l, Cancel);
    OneStep(m, Close);
    assert [Cancel, Close][1..] == [Close];
  }

  /** Nothing takes a cancellation back, and the node's stop reaches every link. */
  lemma KeepsCancelled(s: State, a: Action, i: nat)
    requires Possible(s, a) && i < |s.entries|
    ensures |s.entries| <= |Act(s, a).entries|
    ensures var l := Act(s, a).entries[i].link;
            (Act(s, a).stopped ==> s.stopped || l.cancelled) && (s.entries[i].link.cancelled ==> l.cancelled)
  {
  }

  /** Every run of the table is, for each link in it, a run of that link's loop. */
  lemma {:induction false} EachLinkRuns(s: State, acts: seq<Action>, i: nat)
    requires ValidRun(s, acts) && i < |s.entries|
    ensures i < |Run(s, acts).entries|
    ensures Dialling.ValidRun(s.entries[i].link, TraceOf(s, acts, i))
    ensures Dialling.Run(s.entries[i].link, TraceOf(s, acts, i)) == Run(s, acts).entries[i].link
    decreases |acts|
  {
    hide Act, Dialling.Step, EventsOn;
    if acts != [] {
      EventsAreSteps(s, acts[0], i);
      EachLinkRuns(Act(s, acts[0]), acts[1..], i);
      RunJoins(s.entries[i].link, EventsOn(s, acts[0], i), TraceOf(Act(s, acts[0]), acts[1..], i));
    }
  }

  lemma {:induction false} RunJoins(l: Link, es: seq<Dialling.Event>, fs: seq<Dialling.Event>)
    requires Dialling.ValidRun(l, es) && Dialling.ValidRun(Dialling.Run(l, es), fs)
    ensures Dialling.ValidRun(l, es + fs) && Dialling.Run(l, es + fs) == Dialling.Run(Dialling.Run(l, es), fs)
    decreases |es|
  {
    hide Dialling.Step, Dialling.Enabled;
    if es == [] {
      assert es + fs == fs;
    } else {
      assert (es + fs)[1..] == es[1..] + fs;
      RunJoins(Dialling.Step(l, es[0]), es[1..], fs);
    }
  }

  function MovesOf(acts: seq<Action>, i: nat): nat {
    if acts == [] then 0 else (if acts[0].Move? && acts[0].id == i then 1 else 0) + MovesOf(acts[1..], i)
  }

  lemma {:induction false} MovesCounted(s: State, acts: seq<Action>, i: nat)
    requires ValidRun(s, acts)
    ensures MovesOf(acts, i) <= Moves(TraceOf(s, acts, i))
    decreases |acts|
  {
    hide Act;
    if acts != [] {
      MovesCounted(Act(s, acts[0]), acts[1..], i);
      var es, fs := EventsOn(s, acts[0], i), TraceOf(Act(s, acts[0]), acts[1..], i);
      MovesJoin(es, fs);
    }
  }

  lemma {:induction false} MovesJoin(es: seq<Dialling.Event>, fs: seq<Dialling.Event>)
    ensures Moves(es + fs) == Moves(es) + Moves(fs)
  {
    if es == [] {
      assert es + fs == fs;
    } else {
      assert (es + fs)[1..] == es[1..] + fs;
      MovesJoin(es[1..], fs);
    }
  }

  /** On every run: once a link is cancelled, by its removal or by the node's
      stop, its loop takes at most nine more steps and starts at most one more
      dial, whatever else happens; and while it has not gone it has a step to take. */
  lemma RemovedLinkLeaves(before: seq<Action>, after: seq<Action>, i: nat)
    requires ValidRun(NONE_YET, before) && ValidRun(Run(NONE_YET, before), after)
    requires i < |Run(NONE_YET, before).entries| && Run(NONE_YET, before).entries[i].link.cancelled
    ensures MovesOf(after, i) <= 9
    ensures var s := Run(Run(NONE_YET, before), after);
            && i < |s.entries| && s.entries[i].link.dials <= Run(NONE_YET, before).entries[i].link.dials + 1
            && (s.entries[i].link.phase.Gone? || exists e :: Possible(s, Move(i, e)))
  {
    hide Dialling.Step, LinkOk, ValidRun, Run, Dialling.ValidRun, Dialling.Run, TraceOf;
    var s := Run(NONE_YET, before);
    RunKeepsAll(NONE_YET, before);
    RunKeepsAll(s, after);
    EachLinkRuns(s, after, i);
    MovesCounted(s, after, i);
    var l, es := s.entries[i].link, TraceOf(s, after, i);
    CancelledLoopEnds(l, es);
    DialsCounted(l, es);
    var m := Run(s, after).entries[i].link;
    if !m.phase.Gone? {
      var e := CancelledMove(m);
      assert Possible(Run(s, after), Move(i, e));
    }
  }

  lemma CancelledMove(l: Link) returns (e: Dialling.Event)
    requires l.cancelled && !l.phase.Gone?
    ensures OwnStep(e) && Dialling.Enabled(l, e)
  {
    e := WayOut(l.phase);
  }

  /** On every run: a peer can be added exactly if no loop runs for it, also
      not one whose removal is still under way; and it can be removed exactly if one does. */
  lemma AnswersTellLoops(acts: seq<Action>, p: Peer, linkType: LinkType, carrier: Carrier, limit: Option<int>, received: bool)
    requires ValidRun(NONE_YET, acts) && LimitOf(limit) >= MINIMUM_LIMIT
    ensures var s := Run(NONE_YET, acts);
            var running := exists i | 0 <= i < |s.entries| :: s.entries[i].peer == p && !s.entries[i].link.phase.Gone?;
            && Reply(s, Add(p, linkType, carrier, limit, received)) == (if running then AlreadyConfigured else Added)
            && Reply(s, Remove(p)) == (if running then Dismissed else NotConfigured)
  {
    RunKeepsAll(NONE_YET, acts);
    var s := Run(NONE_YET, acts);
    if p in s.table {
      assert s.entries[s.table[p]].peer == p;
    }
  }

  /** What add answers and does: a limit under five seconds is refused; a known
      peer is left alone but for its kick, which sends its loop back to dial; an
      unknown one gets a link with what was asked for, by default with a limit of
      4096 seconds, whose loop is about to check its context. */
  lemma AddExactly(s: State, p: Peer, linkType: LinkType, carrier: Carrier, limit: Option<int>, received: bool)
    requires TableOk(s) && Possible(s, Add(p, linkType, carrier, limit, received))
    ensures var a := Add(p, linkType, carrier, limit, received);
            var t, r := Act(s, a), Reply(s, a);
            && (r == MaxBackoffInvalid <==> limit.Some? && limit.value < 5_000_000_000)
            && (r == MaxBackoffInvalid ==> t == s)
            && (r == AlreadyConfigured ==>
                  && p in s.table && t.table == s.table
                  && (if received then t.entries[s.table[p]].link.phase.Check? else t == s)
                  && forall i | 0 <= i < |s.entries| && i != s.table[p] :: t.entries[i] == s.entries[i])
            && (r == Added ==>
                  && p !in s.table && |t.entries| == |s.entries| + 1 && t.entries[..|s.entries|] == s.entries
                  && t.table == s.table[p := |s.entries|]
                  && var x := t.entries[|s.entries|];
                     && x.peer == p && x.link.linkType == linkType && x.link.carrier == carrier
                     && x.link.limit == (if limit.Some? then limit.value else 4_096_000_000_000)
                     && x.link.phase.Check? && x.link.cancelled == s.stopped && !x.link.conn && x.link.counter == 0)
  {
  }

  /** A retry sends exactly the loops it reaches back to dial. */
  lemma RetryExactly(s: State, kicked: set<nat>)
    requires Possible(s, Retry(kicked))
    ensures var t := Act(s, Retry(kicked));
            && t.table == s.table && t.stopped == s.stopped && |t.entries| == |s.entries|
            && forall i | 0 <= i < |s.entries| ::
                 if i in kicked then s.entries[i].link.phase.Wait? && t.entries[i].link.phase.Check? else t.entries[i] == s.entries[i]
  {
  }

  // ----- a peer that is removed

  ghost predicate ComesUp(s: State, acts: seq<Action>, i: nat) {
    ValidRun(s, acts) && i < |Run(s, acts).entries| && Up(Run(s, acts).entries[i].link)
  }

  /** The same steps of one link, as actions. */
  function AsMoves(i: nat, es: seq<Dialling.Event>): seq<Action> {
    seq(|es|, k requires 0 <= k < |es| => Move(i, es[k]))
  }

  ghost predicate AllOwn(es: seq<Dialling.Event>) {
    forall e | e in es :: OwnStep(e) && !e.Delete?
  }

  /** Any steps a link can take on its own it can take in the table. */
  lemma {:induction false} LinkMovesAlone(s: State, i: nat, es: seq<Dialling.Event>)
    requires Pointed(s) && i < |s.entries| && Dialling.ValidRun(s.entries[i].link, es) && AllOwn(es)
    ensures ValidRun(s, AsMoves(i, es)) && i < |Run(s, AsMoves(i, es)).entries|
    ensures Run(s, AsMoves(i, es)).entries[i].link == Dialling.Run(s.entries[i].link, es)
    decreases |es|
  {
    hide Dialling.Step, Dialling.Enabled;
    if es != [] {
      assert es[0] in es && forall e | e in es[1..] :: e in es;
      var v := Act(s, Move(i, es[0]));
      assert v == Changed(s, i, es[0]);
      LinkMovesAlone(v, i, es[1..]);
      assert AsMoves(i, es)[1..] == AsMoves(i, es[1..]);
    }
  }

  lemma WayIsOwn(p: Phase)
    ensures AllOwn(Way(p))
  {
    assert Way(Admission) == [Success] && Way(Handshake) == [LastUse, Success];
    assert Way(Install) == [Enter, LastUse, Success] && Way(Dialling.Dialling) == [DialSucceeds, Enter, LastUse, Success];
    assert Way(Dial) == [StartDial, DialSucceeds, Enter, LastUse, Success];
  }

  /** On every run: a removed peer can still come up exactly if at its removal
      the loop had a connection not yet entered, which its context does not end,
      or could still get one from a dialer that does not heed its context. */
  lemma RemovedPeerMayComeUp(before: seq<Action>, p: Peer)
    requires ValidRun(NONE_YET, before) && p in Run(NONE_YET, before).table
    ensures var s := Run(NONE_YET, before);
            var i := s.table[p];
            && i < |s.entries| && Possible(s, Remove(p))
            && ((exists after :: ComesUp(Act(s, Remove(p)), after, i)) <==> OnTheWay(s.entries[i].link))
  {
    hide LinkOk, Dialling.Step, ValidRun, Run, Up, OnTheWay, Dialling.ValidRun, Dialling.Run;
    var s := Run(NONE_YET, before);
    RunKeepsAll(NONE_YET, before);
    var i := s.table[p];
    var l, v := s.entries[i].link, Act(s, Remove(p));
    RemovedLinkMayComeUp(l);
    assert v.entries[i].link == Removed(l);
    forall after | ComesUp(v, after, i) ensures OnTheWay(l) {
      EachLinkRuns(v, after, i);
    }
    if OnTheWay(l) {
      RemovedWay(l);
      LinkMovesAlone(v, i, Way(l.phase));
      assert ComesUp(v, AsMoves(i, Way(l.phase)), i);
    }
  }

  lemma RemovedWay(l: Link)
    requires LinkOk(l) && OnTheWay(l)
    ensures Dialling.ValidRun(Removed(l), Way(l.phase)) && Up(Dialling.Run(Removed(l), Way(l.phase))) && AllOwn(Way(l.phase))
  {
    hide BackoffOk;
    StepKeeps(l, Cancel);
    StepKeeps(Dialling.Step(l, Cancel), Close);
    WayLeads(Removed(l));
    WayIsOwn(l.phase);
  }

  /** On every run: a peer that came up although it was removed is still in the
      table, and a second removal closes its connection for good. */
  lemma SecondRemovalCloses(before: seq<Action>, i: nat)
    requires ValidRun(NONE_YET, before) && i < |Run(NONE_YET, before).entries|
    requires Up(Run(NONE_YET, before).entries[i].link)
    ensures var s := Run(NONE_YET, before);
            var a := Remove(s.entries[i].peer);
            && Possible(s, a) && Reply(s, a) == Dismissed
            && i < |Act(s, a).entries| && Act(s, a).entries[i].link.closed
            && forall after :: !ComesUp(Act(s, a), after, i)
  {
    hide LinkOk, ValidRun, Run;
    var s := Run(NONE_YET, before);
    RunKeepsAll(NONE_YET, before);
    ConnInHandlerOnly(s.entries[i].link);
    RemovedPeerMayComeUp(before, s.entries[i].peer);
  }

  /** A link that is up stays so until its handler stops, its peer is removed,
      the node shuts its links down, or it stops and the connection ends with its context. */
  lemma StaysUp(s: State, a: Action, i: nat)
    requires TableOk(s) && LinksOk(s) && Possible(s, a) && i < |s.entries| && Up(s.entries[i].link)
    ensures i < |Act(s, a).entries|
    ensures Up(Act(s, a).entries[i].link) <==> 
            && a != Remove(s.entries[i].peer) && a != ShutdownLinks && !(a == Stop && s.entries[i].link.carrier.Bound?)
            && !(a.Move? && a.id == i && a.event.Stops?)
  {
    hide TableOk, LinkOk;
    ConnInHandlerOnly(s.entries[i].link);
    LinkOfPeer(s, i);
    match a
    case Remove(p) => RemoveSeen(s, p);
    case _ =>
  }

  /** A link with a loop is the one the table has for its peer. */
  lemma LinkOfPeer(s: State, i: nat)
    requires TableOk(s) && i < |s.entries| && !s.entries[i].link.phase.Gone?
    ensures InTable(s, i) && Pointed(s)
    ensures forall p | p in s.table && s.table[p] == i :: p == s.entries[i].peer
  {
  }

  // ----- the code

  /** The link struct: its own context, and the connection entered, if any. */
  class LinkObject {
    const linkType: LinkType
    const carrier: Carrier
    const limit: int
    var cancelled: bool
    var conn: bool
    var closed: bool

    constructor (linkType: LinkType, carrier: Carrier, limit: int)
      ensures this.linkType == linkType && this.carrier == carrier && this.limit == limit && !cancelled && !conn && !closed
    {
      this.linkType, this.carrier, this.limit := linkType, carrier, limit;
      cancelled, conn, closed := false, false, false;
    }

    method Dismiss()
      modifies this
      ensures cancelled && conn == old(conn) && closed == (old(closed) || old(conn))
    {
      cancelled := true;
      if conn {
        closed := true;
      }
    }

    method Shut()
      modifies this
      ensures cancelled == old(cancelled) && conn == old(conn) && closed == (old(closed) || old(conn))
    {
      if conn {
        closed := true;
      }
    }

    method SetConn(on: bool)
      modifies this
      ensures cancelled == old(cancelled) && conn == on && !closed
    {
      conn, closed := on, false;
    }

    /** A link's context is derived from the node's, so it is done as soon as
        either is cancelled; and with it a connection bound to it. */
    ghost predicate Shows(l: Link, stopped: bool)
      reads this
    {
      && l.linkType == linkType && l.carrier == carrier && l.limit == limit && l.cancelled == (cancelled || stopped)
      && l.conn == conn && l.closed == (closed || (conn && carrier.Bound? && (cancelled || stopped)))
    }
  }

  /** The actor. `links` is the map of the source; what the loops have done so
      far, and every link ever made, is history. */
  class LinkTable {
    var links: map<Peer, LinkObject>
    var stopped: bool
    ghost var all: seq<LinkObject>
    ghost var state: State

    ghost predicate Valid()
      reads this, all
    {
      Different(all) && Stands(state) && TableOk(state) && LinksOk(state)
    }

    constructor ()
      ensures Valid() && state == NONE_YET
    {
      links, stopped, all, state := map[], false, [], NONE_YET;
    }

    /** The objects and the map stand for this state. */
    ghost predicate Stands(s: State)
      reads this, all
    {
      && |all| == |s.entries| && stopped == s.stopped
      && (forall i | 0 <= i < |all| :: all[i].Shows(s.entries[i].link, stopped))
      && links.Keys == s.table.Keys
      && (forall p | p in links :: s.table[p] < |all| && links[p] == all[s.table[p]])
    }

    /** The history moves on with the code. */
    ghost method Record(a: Action)
      requires Different(all) && Possible(state, a) && TableOk(state) && LinksOk(state) && Stands(Act(state, a))
      modifies this`state
      ensures Valid() && state == Act(old(state), a)
    {
      hide TableOk, LinksOk, Act;
      StepKeepsTable(state, a);
      StepKeepsLinks(state, a);
      state := Act(state, a);
    }

    /** add. The kick is received if the loop of a known peer is in its select. */
    method AddPeer(peer: Peer, linkType: LinkType, carrier: Carrier, maxBackoff: Option<int>, ghost received: bool) returns (answer: Answer)
      requires Valid() && Possible(state, Add(peer, linkType, carrier, maxBackoff, received))
      modifies this
      ensures Valid() && state == Act(old(state), Add(peer, linkType, carrier, maxBackoff, received))
      ensures answer == Reply(old(state), Add(peer, linkType, carrier, maxBackoff, received))
      ensures old(all) <= all && forall o | o in all && o !in old(all) :: fresh(o)
    {
      hide TableOk, LinksOk, Dialling.Enabled, Act;
      ghost var a := Add(peer, linkType, carrier, maxBackoff, received);
      AddSeen(state, peer, linkType, carrier, maxBackoff, received);
      var limit := DEFAULT_LIMIT;
      if maxBackoff.Some? {
        if maxBackoff.value < MINIMUM_LIMIT {
          return MaxBackoffInvalid;
        }
        limit := maxBackoff.value;
      }
      if peer in links {
        Record(a);
        return AlreadyConfigured;
      }
      Insert(peer, linkType, carrier, limit);
      Record(a);
      return Added;
    }

    method Insert(peer: Peer, linkType: LinkType, carrier: Carrier, limit: int)
      requires Different(all) && peer !in links && Stands(state)
      modifies this`links, this`all
      ensures Different(all) && |all| == |old(all)| + 1 && old(all) <= all && fresh(all[|old(all)|])
      ensures links == old(links)[peer := all[|old(all)|]] && all[|old(all)|].Shows(NewLink(linkType, carrier, limit, stopped), stopped)
      ensures unchanged(old(all))
    {
      var o := new LinkObject(linkType, carrier, limit);
      links := links[peer := o];
      all := all + [o];
    }

    /** remove: cancels, and closes the connection that is entered. The entry stays until the loop has ended. */
    method RemovePeer(peer: Peer) returns (answer: Answer)
      requires Valid()
      modifies this, all
      ensures Valid() && all == old(all) && links == old(links)
      ensures Possible(old(state), Remove(peer)) && state == Act(old(state), Remove(peer))
      ensures answer == Reply(old(state), Remove(peer))
    {
      hide TableOk, LinksOk, Act;
      PointedTable(state);
      RemoveSeen(state, peer);
      if peer in links {
        links[peer].Dismiss();
        answer := Dismissed;
      } else {
        answer := NotConfigured;
      }
      Record(Remove(peer));
    }

    /** RetryPeersNow kicks every loop that is in its select. */
    method RetryPeers(ghost kicked: set<nat>)
      requires Valid() && Possible(state, Retry(kicked))
      modifies this
      ensures Valid() && all == old(all) && links == old(links) && state == Act(old(state), Retry(kicked))
    {
      hide TableOk, LinksOk, Act;
      RetrySeen(state, kicked);
      Record(Retry(kicked));
    }

    /** The node's context is cancelled, and every link's with it. */
    method Stop()
      requires Valid()
      modifies this
      ensures Valid() && all == old(all) && links == old(links)
      ensures Possible(old(state), Action.Stop) && state == Act(old(state), Action.Stop)
    {
      hide TableOk, LinksOk, Act;
      PointedTable(state);
      StopSeen(state);
      stopped := true;
      Record(Action.Stop);
    }

    /** During shutdown, when the peers in `todo` are still to be looked at. */
    ghost predicate ShutSoFar(todo: set<Peer>)
      reads this, all
    {
      && |all| == |state.entries| && Different(all) && stopped
      && forall i | 0 <= i < |all| :: all[i].Shows(ClosedSoFar(state, todo, i), true)
    }

    method CloseOne(o: LinkObject, ghost p: Peer, ghost todo: set<Peer>)
      requires ShutSoFar(todo) && p in todo && p in state.table && state.table[p] < |all| && all[state.table[p]] == o
      requires state.entries[state.table[p]].peer == p
      modifies o
      ensures ShutSoFar(todo - {p})
    {
      ghost var id := state.table[p];
      assert forall i | 0 <= i < |all| && i != id :: ClosedSoFar(state, todo - {p}, i) == ClosedSoFar(state, todo, i);
      o.Shut();
    }

    /** shutdown closes every connection that is entered. */
    method CloseAll()
      requires Valid() && stopped
      modifies this, all
      ensures Valid() && all == old(all) && links == old(links)
      ensures Possible(old(state), ShutdownLinks) && state == Act(old(state), ShutdownLinks)
    {
      hide LinksOk, Act, LinkObject.Shows, ClosedSoFar;
      PointedTable(state);
      ShutdownSeen(state);
      var todo := links.Keys;
      NothingClosed(state, todo);
      while todo != {}
        invariant todo <= links.Keys && all == old(all) && links == old(links) && state == old(state) && ShutSoFar(todo)
      {
        var p :| p in todo;
        CloseOne(links[p], p, todo);
        todo := todo - {p};
      }
      Record(ShutdownLinks);
    }

    /** A new connection is entered. There is none yet, so the source's abort is never taken. */
    method EnterConnection(o: LinkObject, ghost id: nat) returns (abort: bool)
      requires Valid() && id < |all| && all[id] == o && state.entries[id].link.phase.Install?
      modifies this, o
      ensures Valid() && all == old(all) && links == old(links) && !abort
      ensures Possible(old(state), Move(id, Enter)) && state == Act(old(state), Move(id, Enter))
    {
      hide TableOk, LinkOk, Act;
      PointedTable(state);
      ConnInHandlerOnly(state.entries[id].link);
      EnterSeen(state, id);
      abort := o.conn;
      o.SetConn(true);
      Record(Move(id, Enter));
    }

    /** A failed dial of a persistent link, and the end of a handler, leave no connection. */
    method ClearConnection(o: LinkObject, ghost id: nat, ghost e: Dialling.Event)
      requires Valid() && id < |all| && all[id] == o && Dialling.Enabled(state.entries[id].link, e)
      requires e.Stops? || (e.DialFails? && o.linkType == Persistent)
      modifies this, o
      ensures Valid() && all == old(all) && links == old(links)
      ensures Possible(old(state), Move(id, e)) && state == Act(old(state), Move(id, e))
    {
      hide TableOk, LinksOk, Act;
      PointedTable(state);
      ClearSeen(state, id, e);
      o.SetConn(false);
      Record(Move(id, e));
    }

    /** A loop takes a step between its messages to the actor. */
    ghost method Progress(id: nat, e: Dialling.Event)
      requires Valid() && Possible(state, Move(id, e)) && Quiet(state.entries[id].link, e)
      modifies this`state
      ensures Valid() && state == Act(old(state), Move(id, e))
    {
      hide TableOk, LinksOk, Act, Dialling.Enabled, Quiet;
      QuietSeen(state, id, e);
      Record(Move(id, e));
    }

    method Unlink(peer: Peer, o: LinkObject)
      modifies this`links
      ensures links == if peer in old(links) && old(links)[peer] == o then old(links) - {peer} else old(links)
    {
      if peer in links && links[peer] == o {
        links := links - {peer};
      }
    }

    /** The deferred delete of a loop that has ended: the entry goes only if it is still this very link. */
    method Leave(peer: Peer, o: LinkObject, ghost id: nat)
      requires Valid() && id < |all| && all[id] == o && state.entries[id].peer == peer && state.entries[id].link.phase.Exit?
      modifies this
      ensures Valid() && all == old(all)
      ensures Possible(old(state), Move(id, Delete)) && state == Act(old(state), Move(id, Delete))
    {
      hide TableOk, LinksOk, Act;
      PointedTable(state);
      LeaveSeen(state, id);
      Unlink(peer, o);
      Record(Move(id, Delete));
    }
  }

  lemma PointedTable(s: State)
    requires TableOk(s)
    ensures Pointed(s)
  {
  }

  /** A link as one action of the table leaves it, all others being as before. */
  ghost predicate OnlyLink(s: State, t: State, id: nat, l: Link)
    requires id < |s.entries|
  {
    && t.stopped == s.stopped && |t.entries| == |s.entries| && Alike(t.entries[id].link, l)
    && forall i | 0 <= i < |s.entries| && i != id :: t.entries[i] == s.entries[i]
  }

  lemma RemoveSeen(s: State, p: Peer)
    requires Pointed(s)
    ensures var t := Act(s, Remove(p));
            && t.table == s.table && (p !in s.table ==> t == s)
            && (p in s.table ==>
                  var l := s.entries[s.table[p]].link;
                  OnlyLink(s, t, s.table[p], l.(cancelled := true, closed := l.closed || l.conn)))
  {
  }

  lemma RetrySeen(s: State, kicked: set<nat>)
    requires Possible(s, Retry(kicked))
    ensures var t := Act(s, Retry(kicked));
            && t.table == s.table && t.stopped == s.stopped && |t.entries| == |s.entries|
            && forall i | 0 <= i < |s.entries| :: Alike(t.entries[i].link, s.entries[i].link)
  {
  }

  lemma StopSeen(s: State)
    requires Pointed(s)
    ensures var t := Act(s, Stop);
            && t.table == s.table && t.stopped && |t.entries| == |s.entries|
            && forall i | 0 <= i < |s.entries| :: 
                 var l := s.entries[i].link; t.entries[i].link == l.(cancelled := true, closed := l.closed || (l.conn && l.carrier.Bound?))
  {
  }

  lemma EnterSeen(s: State, id: nat)
    requires Pointed(s) && id < |s.entries| && s.entries[id].link.phase.Install? && !s.entries[id].link.conn
    ensures Possible(s, Move(id, Enter))
    ensures var t := Act(s, Move(id, Enter));
            t.table == s.table && 
            OnlyLink(s, t, id, s.entries[id].link.(conn := true, closed := s.entries[id].link.cancelled && s.entries[id].link.carrier.Bound?))
  {
  }

  lemma ClearSeen(s: State, id: nat, e: Dialling.Event)
    requires Pointed(s) && id < |s.entries| && Dialling.Enabled(s.entries[id].link, e)
    requires e.Stops? || (e.DialFails? && s.entries[id].link.linkType == Persistent)
    ensures Possible(s, Move(id, e))
    ensures var t := Act(s, Move(id, e));
            t.table == s.table && OnlyLink(s, t, id, s.entries[id].link.(conn := false, closed := false))
  {
  }

  /** Steps of a loop that send the actor no message. */
  predicate Quiet(l: Link, e: Dialling.Event) {
    || e.Look? || e.StartDial? || e.DialSucceeds? || e.LastUse? || e.Success? || e.Timeout? || e.SeesDone?
    || (e.DialFails? && l.linkType == Ephemeral)
  }

  lemma QuietSeen(s: State, id: nat, e: Dialling.Event)
    requires Possible(s, Move(id, e)) && Quiet(s.entries[id].link, e)
    ensures var t := Act(s, Move(id, e));
            t.table == s.table && OnlyLink(s, t, id, s.entries[id].link)
  {
  }

  lemma LeaveSeen(s: State, id: nat)
    requires Pointed(s) && id < |s.entries| && s.entries[id].link.phase.Exit?
    ensures Possible(s, Move(id, Delete))
    ensures var t, p := Act(s, Move(id, Delete)), s.entries[id].peer;
            && OnlyLink(s, t, id, s.entries[id].link)
            && t.table == if p in s.table && s.table[p] == id then s.table - {p} else s.table
  {
  }

  /** A link during shutdown, when the peers in `todo` are still to be looked at. */
  ghost function ClosedSoFar(s: State, todo: set<Peer>, i: nat): Link
    requires i < |s.entries|
  {
    var x := s.entries[i];
    if InTable(s, i) && x.peer !in todo then x.link.(closed := x.link.closed || x.link.conn) else x.link
  }

  lemma NothingClosed(s: State, todo: set<Peer>)
    requires s.table.Keys <= todo
    ensures forall i | 0 <= i < |s.entries| :: ClosedSoFar(s, todo, i) == s.entries[i].link
  {
  }

  lemma ShutdownSeen(s: State)
    requires Pointed(s) && s.stopped
    ensures Possible(s, ShutdownLinks)
    ensures var t := Act(s, ShutdownLinks);
            && t.table == s.table && t.stopped && |t.entries| == |s.entries|
            && forall i | 0 <= i < |s.entries| :: t.entries[i].link == ClosedSoFar(s, {}, i)
  {
  }

  ghost predicate Different(all: seq<LinkObject>) {
    forall i, j | 0 <= i < j < |all| :: all[i] != all[j]
  }

  /** What an addition changes that the actor can see. */
  lemma AddSeen(s: State, peer: Peer, linkType: LinkType, carrier: Carrier, limit: Option<int>, received: bool)
    requires Possible(s, Add(peer, linkType, carrier, limit, received))
    ensures var t := Act(s, Add(peer, linkType, carrier, limit, received));
            && (LimitOf(limit) < MINIMUM_LIMIT ==> t == s)
            && t.stopped == s.stopped
            && (LimitOf(limit) >= MINIMUM_LIMIT && peer in s.table ==>
                  && t.table == s.table && |t.entries| == |s.entries|
                  && forall i | 0 <= i < |s.entries| :: Alike(s.entries[i].link, t.entries[i].link))
            && (LimitOf(limit) >= MINIMUM_LIMIT && peer !in s.table ==>
                  && t.table == s.table[peer := |s.entries|]
                  && t.entries == s.entries + [Entry(peer, NewLink(linkType, carrier, LimitOf(limit), s.stopped))])
  {
  }

  /** The two look the same to the actor. */
  predicate Alike(l: Link, m: Link) {
    l.linkType == m.linkType && l.carrier == m.carrier && l.limit == m.limit && l.cancelled == m.cancelled && l.conn == m.conn && l.closed == m.closed
  }
}
