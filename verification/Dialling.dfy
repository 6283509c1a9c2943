/** The dial loop of one link (src/core/link.go): a machine over its steps, the
loop itself, and what holds on every run.

Each point where the source waits for something outside the loop is a phase:
the dialer, the actor, the handler, and the select in backoffNow. */
module Dialling {
  import opened Constants
  import opened Results

  // ----- backoff

  const SECOND: int := 1_000_000_000 // time.Duration counts nanoseconds
  const LAST_SHIFT: int := 32
  const MINIMUM_LIMIT: int := 5 * SECOND
  const DEFAULT_LIMIT: int := 4096 * SECOND

  function Pow2(n: nat): (p: nat)
    ensures p >= 1
  {
    if n == 0 then 1 else 2 * Pow2(n - 1)
  }

  /** A number as a signed 64-bit word holds it. */
  function Int64(x: int): int {
    var r := x % TWO64;
    if r < TWO63 then r else r - TWO64
  }

  /** A second shifted left, in 64 bits. */
  function Shifted(n: nat): int {
    Int64(SECOND * Pow2(n))
  }

  /** The wait chosen for a counter; none if the loop waits without a timer. */
  function Delay(counter: int, limit: int): Option<int> {
    if counter < 0 then None
    else if Shifted(counter) > limit then Some(limit)
    else Some(Shifted(counter))
  }

  function Bumped(counter: int): int {
    if 0 <= counter < LAST_SHIFT then counter + 1 else counter
  }

  function Min(x: int, y: int): int {
    if x < y then x else y
  }

  /** The wait after so many failures in a row. */
  function WaitAfter(failures: nat, limit: int): int {
    Min(limit, SECOND * Pow2(Min(failures, LAST_SHIFT)))
  }

  lemma {:induction false} Pow2Grows(m: nat, n: nat)
    requires m <= n
    ensures Pow2(m) <= Pow2(n)
    decreases n
  {
    if m < n {
      Pow2Grows(m, n - 1);
    }
  }

  lemma Pow2At32()
    ensures Pow2(32) == 0x1_0000_0000 && Pow2(33) == 0x2_0000_0000 && Pow2(34) == 0x4_0000_0000
  {
    assert Pow2(8) == 256;
    assert Pow2(16) == 65536;
    assert Pow2(24) == 0x100_0000;
  }

  /** The shift keeps its value exactly up to 33 places; the counter stops at 32. */
  lemma ShiftFits(n: nat)
    ensures Shifted(n) == SECOND * Pow2(n) <==> n <= 33
  {
    Pow2At32();
    if n <= 33 {
      Pow2Grows(n, 33);
    } else {
      Pow2Grows(34, n);
      assert SECOND * Pow2(n) >= TWO63;
    }
  }

  /** Waits grow with the failures, never pass the limit, and from the 32nd failure on are all the same. */
  lemma WaitsGrow(i: nat, j: nat, limit: int)
    requires i <= j && limit >= MINIMUM_LIMIT
    ensures SECOND <= WaitAfter(i, limit) <= WaitAfter(j, limit) <= limit
    ensures i >= 32 ==> WaitAfter(i, limit) == WaitAfter(j, limit) == Min(limit, SECOND * 0x1_0000_0000)
  {
    Pow2At32();
    Pow2Grows(Min(i, LAST_SHIFT), Min(j, LAST_SHIFT));
  }

  // ----- the machine

  datatype LinkType = Persistent | Ephemeral

  /** What a cancelled context means to a transport. SOCKS dials on regardless.
      A TCP, TLS, UNIX or QUIC dial fails, but a connection it gave before lives
      on. A WebSocket dial fails too, and its connections end with the context. */
  datatype Carrier = Heedless | Heeding | Bound

  datatype Phase =
    | Check       // top of the loop, about to look at the context
    | Dial        // the check has passed, the dialer not yet called
    | Dialling    // inside the dialer
    | Install     // a connection, not yet entered
    | Handshake   // inside the handler, which still uses the connection and fails if it is closed
    | Admission   // past the handler's last such use, the pins and the allow list to go
    | Established // the handler has reported success
    | Wait        // in the select of backoffNow
    | Exit        // out of the loop, the deferred delete to come
    | Gone

  /** `conn` says that _conn is set, `closed` that this connection was closed
      by a removal, by the node's shutdown or with its context. The rest after `counter` is history: dials
      started, and since the last completed handshake the waits, `timed` of which had a timer. */
  datatype Link = Link(
    linkType: LinkType, carrier: Carrier, limit: int, phase: Phase, cancelled: bool, conn: bool, closed: bool, counter: int,
    dials: nat, waits: seq<Option<int>>, timed: nat)

  datatype Event =
    | Cancel | Close | Look | StartDial | DialFails | DialSucceeds | Enter
    | LastUse | Success | Stops(toSelf: bool) | Kick | Timeout | SeesDone | Delete

  function NewLink(linkType: LinkType, carrier: Carrier, limit: int, cancelled: bool): Link {
    Link(linkType, carrier, limit, Check, cancelled, false, false, 0, 0, [], 0)
  }

  predicate Enabled(l: Link, e: Event) {
    match e
    case Cancel => true
    case Close => true
    case Look => l.phase.Check?
    case StartDial => l.phase.Dial?
    case DialFails => l.phase.Dialling?
    case DialSucceeds => l.phase.Dialling? && (l.cancelled ==> l.carrier.Heedless?)
    case Enter => l.phase.Install?
    case LastUse => l.phase.Handshake? && !l.closed
    case Success => l.phase.Admission?
    case Stops(toSelf) => l.phase.Handshake? || ((l.phase.Admission? || l.phase.Established?) && !toSelf)
    case Kick => l.phase.Wait?
    case Timeout => l.phase.Wait? && l.counter >= 0
    case SeesDone => l.phase.Wait? && l.cancelled
    case Delete => l.phase.Exit?
  }

  /** A persistent link backs off, any other leaves the loop. */
  function AfterFailure(l: Link): Link {
    if l.linkType.Ephemeral? then l.(phase := Exit)
    else
      var c := Bumped(l.counter);
      l.(phase := Wait, counter := c, waits := l.waits + [Delay(c, l.limit)], timed := if c < 0 then l.timed else l.timed + 1)
  }

  function Step(l: Link, e: Event): Link
    requires Enabled(l, e)
  {
    match e
    case Cancel => l.(cancelled := true, closed := l.closed || (l.conn && l.carrier.Bound?))
    case Close => l.(closed := l.closed || l.conn)
    case Look => l.(phase := if l.cancelled then Exit else Dial)
    case StartDial => l.(phase := Dialling, dials := l.dials + 1)
    case DialFails => AfterFailure(if l.linkType.Persistent? then l.(conn := false, closed := false) else l)
    case DialSucceeds => l.(phase := Install)
    case Enter => if l.conn then l.(phase := Exit) else l.(phase := Handshake, conn := true, closed := l.cancelled && l.carrier.Bound?)
    case LastUse => l.(phase := Admission)
    case Success => l.(phase := Established, counter := 0, waits := [], timed := 0)
    case Stops(toSelf) => AfterFailure(l.(conn := false, closed := false, counter := if toSelf then -1 else l.counter))
    case Kick => l.(phase := Check)
    case Timeout => l.(phase := Check)
    case SeesDone => l.(phase := Exit)
    case Delete => l.(phase := Gone)
  }

  ghost predicate ValidRun(l: Link, es: seq<Event>)
    decreases |es|
  {
    es == [] || (Enabled(l, es[0]) && ValidRun(Step(l, es[0]), es[1..]))
  }

  ghost function Run(l: Link, es: seq<Event>): Link
    requires ValidRun(l, es)
    decreases |es|
  {
    if es == [] then l else Run(Step(l, es[0]), es[1..])
  }

  // ----- what every run keeps

  /** The waits since the last completed handshake: timed ones, doubling up to
      the limit, then, once the peer was found to be the node itself, waits without a timer. */
  ghost predicate BackoffOk(l: Link) {
    && l.timed <= |l.waits|
    && (l.counter == -1 || (l.counter == Min(l.timed, LAST_SHIFT) && l.timed == |l.waits|))
    && (forall i | 0 <= i < l.timed :: l.waits[i] == Some(WaitAfter(i + 1, l.limit)))
    && (forall i | l.timed <= i < |l.waits| :: l.waits[i] == None)
  }

  predicate BeforeDial(p: Phase) {
    p.Check? || p.Dial?
  }

  /** The handler runs. */
  predicate InHandler(p: Phase) {
    p.Handshake? || p.Admission? || p.Established?
  }

  ghost predicate LinkOk(l: Link) {
    && l.limit >= MINIMUM_LIMIT
    && (l.conn <==> InHandler(l.phase)) && (l.closed ==> l.conn)
    && (l.linkType.Ephemeral? ==> l.dials <= 1 && !l.phase.Wait? && (BeforeDial(l.phase) ==> l.dials == 0))
    && ((l.linkType.Persistent? || l.dials == 0) && (l.phase.Exit? || l.phase.Gone?) ==> l.cancelled)
    && (l.dials == 0 ==> BeforeDial(l.phase) || l.phase.Exit? || l.phase.Gone?)
    && BackoffOk(l)
  }

  lemma FailureKeepsBackoff(l: Link)
    requires l.limit >= MINIMUM_LIMIT && l.timed <= |l.waits| && (l.counter == -1 || BackoffOk(l))
    requires forall i | 0 <= i < l.timed :: l.waits[i] == Some(WaitAfter(i + 1, l.limit))
    requires forall i | l.timed <= i < |l.waits| :: l.waits[i] == None
    ensures BackoffOk(AfterFailure(l))
  {
    hide WaitAfter;
    if l.linkType.Persistent? && l.counter >= 0 {
      DelayIsWait(l.timed, l.limit);
    }
  }

  /** The wait the code computes from the counter is the wait due after that many failures. */
  lemma DelayIsWait(failures: nat, limit: int)
    ensures var c := Bumped(Min(failures, LAST_SHIFT));
            c == Min(failures + 1, LAST_SHIFT) && Delay(c, limit) == Some(WaitAfter(failures + 1, limit))
  {
    ShiftFits(Bumped(Min(failures, LAST_SHIFT)));
  }

  lemma StepKeeps(l: Link, e: Event)
    requires LinkOk(l) && Enabled(l, e)
    ensures LinkOk(Step(l, e))
  {
    hide WaitAfter, Delay;
    match e
    case DialFails => FailureKeepsBackoff(l.(conn := false, closed := false));
    case Stops(toSelf) => FailureKeepsBackoff(l.(conn := false, closed := false, counter := if toSelf then -1 else l.counter));
    case _ =>
  }

  lemma NewLinkOk(linkType: LinkType, carrier: Carrier, limit: int, cancelled: bool)
    requires limit >= MINIMUM_LIMIT
    ensures LinkOk(NewLink(linkType, carrier, limit, cancelled))
  {
  }

  lemma {:induction false} RunKeeps(l: Link, es: seq<Event>)
    requires LinkOk(l) && ValidRun(l, es)
    ensures LinkOk(Run(l, es))
    decreases |es|
  {
    hide LinkOk;
    if es != [] {
      StepKeeps(l, es[0]);
      RunKeeps(Step(l, es[0]), es[1..]);
    }
  }

  function Count(es: seq<Event>, e: Event): nat {
    if es == [] then 0 else (if es[0] == e then 1 else 0) + Count(es[1..], e)
  }

  lemma {:induction false} DialsCounted(l: Link, es: seq<Event>)
    requires ValidRun(l, es)
    ensures Run(l, es).dials == l.dials + Count(es, StartDial)
    ensures Run(l, es).cancelled <==> l.cancelled || Cancel in es
    ensures Run(l, es).linkType == l.linkType && Run(l, es).carrier == l.carrier && Run(l, es).limit == l.limit
    decreases |es|
  {
    hide Step, Enabled;
    if es != [] {
      DialsInStep(l, es[0]);
      DialsCounted(Step(l, es[0]), es[1..]);
    }
  }

  lemma DialsInStep(l: Link, e: Event)
    requires Enabled(l, e)
    ensures var m := Step(l, e);
            && m.dials == l.dials + (if e == StartDial then 1 else 0) && (m.cancelled <==> l.cancelled || e == Cancel)
            && m.linkType == l.linkType && m.carrier == l.carrier && m.limit == l.limit
  {
  }

  /** On every run of a new link: an ephemeral link is dialled at most once; no
      loop is left without a dial unless it was cancelled; a persistent loop is left only after a cancellation; and no connection is
      ever entered over another, so the abort in the source is never taken. */
  lemma Lifecycle(linkType: LinkType, carrier: Carrier, limit: int, es: seq<Event>)
    requires limit >= MINIMUM_LIMIT && ValidRun(NewLink(linkType, carrier, limit, false), es)
    ensures var l := Run(NewLink(linkType, carrier, limit, false), es);
            && (linkType == Ephemeral ==> Count(es, StartDial) <= 1)
            && (Count(es, StartDial) == 0 && (l.phase.Exit? || l.phase.Gone?) ==> Cancel in es)
            && (linkType == Persistent && (l.phase.Exit? || l.phase.Gone?) ==> Cancel in es)
            && (l.phase.Install? ==> !l.conn)
  {
    var l := NewLink(linkType, carrier, limit, false);
    RunKeeps(l, es);
    DialsCounted(l, es);
  }

  /** On every run: the counter stays in -1..32; the waits since the last
      completed handshake never shrink, never pass the limit, and the i-th in
      a row is the limit or 2^i seconds, whichever is less, with i capped at 32. */
  lemma BackoffOnEveryRun(linkType: LinkType, carrier: Carrier, limit: int, cancelled: bool, es: seq<Event>)
    requires limit >= MINIMUM_LIMIT && ValidRun(NewLink(linkType, carrier, limit, cancelled), es)
    ensures var l := Run(NewLink(linkType, carrier, limit, cancelled), es);
            && -1 <= l.counter <= LAST_SHIFT
            && (l.counter >= 0 ==> Shifted(l.counter) == SECOND * Pow2(l.counter) < TWO63)
            && (forall i, j | 0 <= i <= j < |l.waits| :: AtMost(l.waits[i], l.waits[j]))
            && (forall i | 0 <= i < |l.waits| ::
                  l.waits[i] == None || l.waits[i] == Some(Min(limit, SECOND * Pow2(Min(i + 1, LAST_SHIFT)))))
            && (forall i | 31 <= i < |l.waits| :: l.waits[i] == None || l.waits[i] == Some(Min(limit, SECOND * 0x1_0000_0000)))
            && (None in l.waits ==> l.counter == -1)
  {
    hide LinkOk, Shifted;
    var l := NewLink(linkType, carrier, limit, cancelled);
    NewLinkOk(linkType, carrier, limit, cancelled);
    RunKeeps(l, es);
    DialsCounted(l, es);
    LawsOfBackoff(Run(l, es));
  }

  /** Waits in order, one without a timer the longest. */
  predicate AtMost(a: Option<int>, b: Option<int>) {
    b == None || (a.Some? && a.value <= b.value)
  }

  lemma LawsOfBackoff(l: Link)
    requires LinkOk(l)
    ensures -1 <= l.counter <= LAST_SHIFT
    ensures l.counter >= 0 ==> Shifted(l.counter) == SECOND * Pow2(l.counter) < TWO63
    ensures forall i, j | 0 <= i <= j < |l.waits| :: AtMost(l.waits[i], l.waits[j])
    ensures forall i | 0 <= i < |l.waits| :: l.waits[i] == None || l.waits[i] == Some(WaitAfter(i + 1, l.limit))
    ensures forall i | 31 <= i < |l.waits| :: l.waits[i] == None || l.waits[i] == Some(Min(l.limit, SECOND * 0x1_0000_0000))
    ensures None in l.waits ==> l.counter == -1
  {
    hide WaitAfter, Shifted;
    if l.counter >= 0 {
      ShiftFits(l.counter);
      Pow2At32();
      Pow2Grows(l.counter, 32);
    }
    forall i, j | 0 <= i <= j < |l.waits| ensures AtMost(l.waits[i], l.waits[j]) {
      WaitsGrow(i + 1, j + 1, l.limit);
    }
    forall i | 31 <= i < |l.waits| ensures l.waits[i] == None || l.waits[i] == Some(Min(l.limit, SECOND * 0x1_0000_0000)) {
      WaitsGrow(i + 1, i + 1, l.limit);
    }
  }

  /** Finding the node itself on the other side stops the timer for good: only
      a kick brings another attempt, and only a completed handshake the timer. */
  lemma SelfEndsOnlyBySuccess(l: Link, e: Event)
    requires LinkOk(l) && Enabled(l, e)
    ensures l.counter == -1 && Step(l, e).counter != -1 ==> e == Success
    ensures e == Stops(true) ==> Step(l, e).counter == -1
    ensures l.counter != -1 && Step(l, e).counter == -1 ==> e == Stops(true)
    ensures l.counter == -1 ==> e != Timeout
    ensures e == Kick ==> Step(l, e).phase.Check?
    ensures l.counter == -1 && l.phase.Wait? && !Step(l, e).phase.Wait? ==> e == Kick || (e == SeesDone && l.cancelled)
  {
  }

  // ----- the backoff, told from the events

  /** Failed dials and ended handlers since the last completed handshake. */
  function Failures(es: seq<Event>): nat {
    if es == [] then 0
    else
      var before, e := Failures(es[..|es| - 1]), es[|es| - 1];
      if e.Success? then 0 else if e.DialFails? || e.Stops? then before + 1 else before
  }

  /** Whether the node has met itself since the last completed handshake. */
  predicate MetItself(es: seq<Event>) {
    es != [] && (es[|es| - 1] == Stops(true) || (!es[|es| - 1].Success? && MetItself(es[..|es| - 1])))
  }

  /** The counter and the number of waits are what the events say. */
  ghost predicate Follows(l: Link, es: seq<Event>) {
    && (l.phase.Established? ==> l.counter == 0)
    && (MetItself(es) ==> l.counter == -1)
    && (!MetItself(es) ==> l.counter == if l.linkType.Persistent? then Min(Failures(es), 32) else 0)
    && |l.waits| == if l.linkType.Persistent? then Failures(es) else 0
  }

  lemma FollowsStep(l: Link, es: seq<Event>, e: Event)
    requires LinkOk(l) && Follows(l, es) && Enabled(l, e)
    ensures Follows(Step(l, e), es + [e])
  {
    hide WaitAfter, Delay;
    assert (es + [e])[..|es|] == es;
  }

  lemma {:induction false} RunFollows(l: Link, es: seq<Event>)
    requires LinkOk(l) && Follows(l, []) && ValidRun(l, es)
    ensures Follows(Run(l, es), es)
    decreases |es|
  {
    hide LinkOk, Follows, Step, Enabled;
    if es != [] {
      var before, e := es[..|es| - 1], es[|es| - 1];
      assert before + [e] == es;
      RunEndsWith(l, before, e);
      RunFollows(l, before);
      RunKeeps(l, before);
      FollowsStep(Run(l, before), before, e);
    }
  }

  lemma {:induction false} RunEndsWith(l: Link, es: seq<Event>, e: Event)
    requires ValidRun(l, es + [e])
    ensures ValidRun(l, es) && Enabled(Run(l, es), e) && Run(l, es + [e]) == Step(Run(l, es), e)
    decreases |es|
  {
    hide Step, Enabled;
    if es == [] {
      assert es + [e] == [e] && [e][1..] == [];
    } else {
      assert (es + [e])[1..] == es[1..] + [e];
      RunEndsWith(Step(l, es[0]), es[1..], e);
    }
  }

  /** On every run of a persistent link, told from its events alone: with f the
      number of failures since the last completed handshake, there have been f
      waits since then; and unless the node has met itself since, the counter is
      f, capped at 32, and the last wait is 2^f seconds, capped at 2^32 seconds
      and the limit. With every completed handshake this starts anew. */
  lemma BackoffFollowsRun(carrier: Carrier, limit: int, cancelled: bool, es: seq<Event>)
    requires limit >= MINIMUM_LIMIT && ValidRun(NewLink(Persistent, carrier, limit, cancelled), es)
    ensures var l, f := Run(NewLink(Persistent, carrier, limit, cancelled), es), Failures(es);
            && |l.waits| == f
            && (l.phase.Established? ==> l.counter == 0)
            && (MetItself(es) ==> l.counter == -1)
            && (!MetItself(es) ==> l.counter == Min(f, 32))
            && (!MetItself(es) && f > 0 ==> l.waits[f - 1] == Some(Min(limit, 1_000_000_000 * Pow2(Min(f, 32)))))
  {
    hide LinkOk, Shifted;
    var l := NewLink(Persistent, carrier, limit, cancelled);
    NewLinkOk(Persistent, carrier, limit, cancelled);
    RunKeeps(l, es);
    DialsCounted(l, es);
    RunFollows(l, es);
    BackoffParts(Run(l, es));
  }

  lemma BackoffParts(l: Link)
    requires LinkOk(l)
    ensures l.counter >= 0 ==> forall i | 0 <= i < |l.waits| :: l.waits[i] == Some(Min(l.limit, SECOND * Pow2(Min(i + 1, LAST_SHIFT))))
  {
  }

  // ----- the end of a loop

  /** How many steps a cancelled loop has left. */
  function Rank(p: Phase): nat {
    match p
    case Gone => 0
    case Exit => 1
    case Check => 2
    case Wait => 3
    case Established => 4
    case Admission => 5
    case Handshake => 6
    case Install => 7
    case Dialling => 8
    case Dial => 9
  }

  /** How many of these steps the loop takes itself, or is kicked to take. */
  function Moves(es: seq<Event>): nat {
    if es == [] then 0 else (if es[0].Cancel? || es[0].Close? then 0 else 1) + Moves(es[1..])
  }

  /** After its cancellation a loop takes at most nine more steps, starts at
      most one more dial, and that one only if it was already past its check. */
  lemma {:induction false} CancelledLoopEnds(l: Link, es: seq<Event>)
    requires LinkOk(l) && l.cancelled && ValidRun(l, es)
    ensures Moves(es) + Rank(Run(l, es).phase) <= Rank(l.phase) <= 9
    ensures Count(es, StartDial) <= if l.phase.Dial? then 1 else 0
    decreases |es|
  {
    hide BackoffOk;
    if es != [] {
      StepKeeps(l, es[0]);
      CancelledLoopEnds(Step(l, es[0]), es[1..]);
    }
  }

  /** A new link can come up: nothing but its surroundings keeps it from it. */
  lemma NewLinkCanComeUp(linkType: LinkType, carrier: Carrier, limit: int)
    requires limit >= MINIMUM_LIMIT
    ensures var es := [Look, StartDial, DialSucceeds, Enter, LastUse, Success];
            var l := NewLink(linkType, carrier, limit, false);
            ValidRun(l, es) && Up(Run(l, es))
  {
    var l := NewLink(linkType, carrier, limit, false);
    var l1 := Step(l, Look);
    var l2 := Step(l1, StartDial);
    var l3 := Step(l2, DialSucceeds);
    var l4 := Step(l3, Enter);
    var l5 := Step(l4, LastUse);
    RunFirst(l5, Success, []);
    RunFirst(l4, LastUse, [Success]);
    RunFirst(l3, Enter, [LastUse, Success]);
    RunFirst(l2, DialSucceeds, [Enter, LastUse, Success]);
    RunFirst(l1, StartDial, [DialSucceeds, Enter, LastUse, Success]);
    RunFirst(l, Look, [StartDial, DialSucceeds, Enter, LastUse, Success]);
  }

  lemma RunFirst(l: Link, e: Event, es: seq<Event>)
    requires Enabled(l, e) && ValidRun(Step(l, e), es)
    ensures ValidRun(l, [e] + es) && Run(l, [e] + es) == Run(Step(l, e), es)
  {
    assert ([e] + es)[1..] == es;
  }

  /** A step that is always open to a cancelled loop. */
  function WayOut(p: Phase): Event {
    match p
    case Check => Look
    case Dial => StartDial
    case Dialling => DialFails
    case Install => Enter
    case Handshake => Stops(false)
    case Admission => Stops(false)
    case Established => Stops(false)
    case Wait => SeesDone
    case Exit => Delete
    case Gone => Cancel
  }

  /** And until it is gone there is always a step for it to take. */
  lemma CancelledLoopCanMove(l: Link)
    requires l.cancelled && !l.phase.Gone?
    ensures exists e :: e != Cancel && e != Close && Enabled(l, e)
  {
    assert Enabled(l, WayOut(l.phase));
  }

  // ----- a link that is removed

  /** What remove does to a link, in one message: it cancels the context and closes the connection that is entered, if any. */
  function Removed(l: Link): Link {
    Step(Step(l, Cancel), Close)
  }

  /** The steps from a phase to an established connection. */
  function Way(p: Phase): seq<Event>
    decreases Rank(p)
  {
    match p
    case Dial => [StartDial] + Way(Dialling)
    case Dialling => [DialSucceeds] + Way(Install)
    case Install => [Enter] + Way(Handshake)
    case Handshake => [LastUse] + Way(Admission)
    case Admission => [Success]
    case _ => []
  }

  /** The connection is up: the handshake is complete and nobody has closed it. */
  predicate Up(l: Link) {
    l.phase.Established? && !l.closed
  }

  /** The loop has a connection that a cancelled context does not end, but has
      not entered it, or may still get one. */
  predicate OnTheWay(l: Link) {
    match l.phase
    case Install => !l.carrier.Bound?
    case Dial => l.carrier.Heedless?
    case Dialling => l.carrier.Heedless?
    case _ => false
  }

  lemma {:induction false} WayLeads(l: Link)
    requires LinkOk(l) && (OnTheWay(l) || (InHandler(l.phase) && !l.closed && !l.carrier.Bound?))
    ensures ValidRun(l, Way(l.phase)) && Up(Run(l, Way(l.phase)))
    decreases Rank(l.phase)
  {
    hide BackoffOk;
    var es := Way(l.phase);
    if es != [] {
      StepKeeps(l, es[0]);
      var m := Step(l, es[0]);
      WayLeads(m);
      assert es[1..] == Way(m.phase);
    }
  }

  /** A cancelled link that is not on the way, and whose connection, if it has one, is closed, has no way up. */
  lemma {:induction false} NoWayUp(l: Link, es: seq<Event>)
    requires LinkOk(l) && l.cancelled && !OnTheWay(l) && (InHandler(l.phase) ==> l.closed) && ValidRun(l, es)
    ensures !Up(Run(l, es)) && !OnTheWay(Run(l, es))
    decreases |es|
  {
    hide BackoffOk;
    if es != [] {
      StepKeeps(l, es[0]);
      NoWayUp(Step(l, es[0]), es[1..]);
    }
  }

  /** A removed link can still come up exactly if at its removal its loop was on the way. */
  lemma RemovedLinkMayComeUp(l: Link)
    requires LinkOk(l)
    ensures (exists es :: ValidRun(Removed(l), es) && Up(Run(Removed(l), es))) <==> OnTheWay(l)
  {
    hide LinkOk, ValidRun, Run;
    var m := Removed(l);
    StepKeeps(l, Cancel);
    StepKeeps(Step(l, Cancel), Close);
    ConnInHandlerOnly(l);
    if OnTheWay(l) {
      WayLeads(m);
    } else {
      forall es | ValidRun(m, es) ensures !Up(Run(m, es)) {
        NoWayUp(m, es);
      }
    }
  }

  /** Once its connection is closed, a handler that still uses it can only stop. */
  lemma ClosedHandlerStops(l: Link, e: Event)
    requires LinkOk(l) && l.closed && Enabled(l, e) && !e.Cancel? && !e.Close?
    ensures e.Stops? || (e == Success && l.phase.Admission?)
  {
  }

  // ----- the code

  datatype Outcome = ToSelf | Refused | Rejected | Ended

  datatype Wake = Kicked | TimedOut | Cancelled

  /** What others may do to a link: the node stops, it shuts its links down, or the peer is removed. */
  datatype Interruption = Nothing | NodeStops | Shutdown | Removal

  function Interrupts(i: Interruption): seq<Event> {
    match i
    case Nothing => []
    case NodeStops => [Cancel]
    case Shutdown => [Close]
    case Removal => [Cancel, Close]
  }

  function Interrupted(l: Link, i: Interruption): Link {
    l.(cancelled := l.cancelled || i.NodeStops? || i.Removal?,
       closed := l.closed || (l.conn && (i.Shutdown? || i.Removal? || (i.NodeStops? && l.carrier.Bound?))))
  }

  /** What the surroundings do in one turn of the loop: what interrupts it at
      each point where they can, how the dial and the handler end, and what
      wakes the loop from its wait. */
  datatype Turn = Turn(
    beforeCheck: Interruption, beforeDial: Interruption, inDial: Interruption, dial: bool, beforeEnter: Interruption,
    inHandshake: Interruption, outcome: Outcome, inAdmission: Interruption, whileUp: Interruption,
    beforeWait: Interruption, wake: Wake)

  /** The steps a turn makes of these decisions, from the wait on, from the
      handler on, and from the check on. */
  function WakeEvents(l: Link, t: Turn): seq<Event> {
    Interrupts(t.beforeWait) +
    match t.wake
    case Kicked => [Kick]
    case TimedOut => if l.counter < 0 then [] else [Timeout]
    case Cancelled => if Interrupted(l, t.beforeWait).cancelled then [SeesDone] else []
  }

  function FailureEvents(l: Link, t: Turn, e: Event): seq<Event>
    requires Enabled(l, e)
  {
    [e] + if l.linkType.Persistent? then WakeEvents(Step(l, e), t) else []
  }

  /** From a reported success on. */
  function UpEvents(l: Link, t: Turn): seq<Event>
    requires l.phase.Established?
  {
    Interrupts(t.whileUp) + FailureEvents(Interrupted(l, t.whileUp), t, Stops(false))
  }

  /** The rest of the handler once it needs the connection no more. */
  function AdmissionEvents(l: Link, t: Turn): seq<Event>
    requires l.phase.Admission?
  {
    var l0 := Interrupted(l, t.inAdmission);
    Interrupts(t.inAdmission) +
    if t.outcome.Ended? then [Success] + UpEvents(Step(l0, Success), t) else FailureEvents(l0, t, Stops(false))
  }

  function HandlerEvents(l: Link, t: Turn): seq<Event>
    requires l.phase.Handshake?
  {
    var l0 := Interrupted(l, t.inHandshake);
    Interrupts(t.inHandshake) +
    if l0.closed || t.outcome.ToSelf? || t.outcome.Refused? then FailureEvents(l0, t, Stops(t.outcome.ToSelf?))
    else [LastUse] + AdmissionEvents(Step(l0, LastUse), t)
  }

  function EntryEvents(l: Link, t: Turn): seq<Event>
    requires l.phase.Install? && !l.conn
  {
    Interrupts(t.beforeEnter) + [Enter] + HandlerEvents(Step(Interrupted(l, t.beforeEnter), Enter), t)
  }

  function DialEvents(l: Link, t: Turn): seq<Event>
    requires l.phase.Dialling? && !l.conn
  {
    var l0 := Interrupted(l, t.inDial);
    Interrupts(t.inDial) +
    if t.dial && Enabled(l0, DialSucceeds) then [DialSucceeds] + EntryEvents(Step(l0, DialSucceeds), t)
    else FailureEvents(l0, t, DialFails)
  }

  function TurnEvents(l: Link, t: Turn): seq<Event>
    requires l.phase.Check? && !l.conn
  {
    var l0 := Interrupted(l, t.beforeCheck);
    Interrupts(t.beforeCheck) + [Look] +
    if l0.cancelled then []
    else
      Interrupts(t.beforeDial) + [StartDial] +
      DialEvents(Interrupted(l0, t.beforeDial).(phase := Dialling, dials := l.dials + 1), t)
  }

  /** The steps of as many turns as the loop takes. */
  ghost function LoopEvents(l: Link, ts: seq<Turn>): seq<Event>
    decreases |ts|
  {
    if ts == [] || !l.phase.Check? || l.conn then []
    else
      var es := TurnEvents(l, ts[0]);
      es + if ValidRun(l, es) then LoopEvents(Run(l, es), ts[1..]) else []
  }

  /** The goroutine's variables, and, as history, the run of the machine it has taken. */
  class Dialer {
    const linkType: LinkType
    const carrier: Carrier
    const limit: int
    var cancelled: bool
    var conn: bool
    var closed: bool
    var counter: int
    ghost var link: Link
    ghost var trace: seq<Event>

    ghost function Start(): Link {
      NewLink(linkType, carrier, limit, false)
    }

    ghost predicate Valid()
      reads this
    {
      && ValidRun(Start(), trace) && link == Run(Start(), trace) && LinkOk(link)
      && link.linkType == linkType && link.carrier == carrier && link.limit == limit
      && link.cancelled == cancelled && link.conn == conn && link.closed == closed && link.counter == counter
    }

    constructor (linkType: LinkType, carrier: Carrier, limit: int)
      requires limit >= MINIMUM_LIMIT
      ensures Valid() && this.linkType == linkType && this.carrier == carrier && this.limit == limit && trace == [] && link.phase.Check?
    {
      this.linkType, this.carrier, this.limit := linkType, carrier, limit;
      cancelled, conn, closed, counter := false, false, false, 0;
      link, trace := NewLink(linkType, carrier, limit, false), [];
      new;
      NewLinkOk(linkType, carrier, limit, false);
    }

    /** The variables have moved on by one step of the machine. */
    ghost method Emit(e: Event)
      requires ValidRun(Start(), trace) && link == Run(Start(), trace) && LinkOk(link) && Enabled(link, e)
      requires var l := Step(link, e); l.cancelled == cancelled && l.conn == conn && l.closed == closed && l.counter == counter
      requires link.linkType == linkType && link.carrier == carrier && link.limit == limit
      modifies this`link, this`trace
      ensures Valid() && link == Step(old(link), e) && trace == old(trace) + [e]
    {
      hide LinkOk;
      StepKeeps(link, e);
      RunAppend(Start(), trace, e);
      DialsCounted(link, [e]);
      link, trace := Step(link, e), trace + [e];
    }

    /** What the actor or the node's context does to the link meanwhile. */
    method Interrupt(i: Interruption)
      requires Valid()
      modifies this`cancelled, this`closed, this`link, this`trace
      ensures Valid() && link == Interrupted(old(link), i) && trace == old(trace) + Interrupts(i)
    {
      hide LinkOk, ValidRun, Run;
      if i == NodeStops || i == Removal {
        cancelled := true;
        if carrier == Bound && conn {
          closed := true;
        }
        Emit(Cancel);
      }
      if i == Shutdown || i == Removal {
        if conn {
          closed := true;
        }
        Emit(Close);
      }
    }

    /** The first half of backoffNow: the counter and the wait. */
    method NextWait() returns (wait: Option<int>)
      modifies this`counter
      ensures counter == Bumped(old(counter)) && wait == Delay(counter, limit)
    {
      if counter >= 0 && counter < 32 {
        counter := counter + 1;
      }
      if counter < 0 {
        wait := None;
      } else {
        var duration := Shifted(counter);
        if duration > limit {
          duration := limit;
        }
        wait := Some(duration);
      }
    }

    /** The second half: the select. Nothing is returned if what is said to wake the loop cannot. */
    method Await(turn: Turn, wait: Option<int>) returns (again: Option<bool>)
      requires Valid() && link.phase.Wait? && (wait.Some? <==> counter >= 0)
      modifies this`cancelled, this`closed, this`link, this`trace
      ensures Valid() && trace == old(trace) + WakeEvents(old(link), turn)
      ensures again == Some(true) ==> link.phase.Check?
      ensures again == Some(false) ==> link.phase.Exit?
      ensures again == None ==> link.phase.Wait?
    {
      hide LinkOk, ValidRun, Run, Interrupts;
      Interrupt(turn.beforeWait);
      match turn.wake {
        case Kicked =>
          Emit(Kick);
          again := Some(true);
        case TimedOut =>
          if wait == None {
            return None;
          }
          Emit(Timeout);
          again := Some(true);
        case Cancelled =>
          if !cancelled {
            return None;
          }
          Emit(SeesDone);
          again := Some(false);
      }
    }

    /** The variables are those after this failure, but the step is not yet in the history. */
    ghost predicate Failing(e: Event)
      reads this
    {
      && (e.DialFails? || e.Stops?) && Enabled(link, e)
      && ValidRun(Start(), trace) && link == Run(Start(), trace) && LinkOk(link)
      && link.linkType == linkType && link.carrier == carrier && link.limit == limit
      && link.cancelled == cancelled && !conn && !closed && counter == if e == Stops(true) then -1 else link.counter
    }

    /** After a failed dial and after the handler: a persistent link backs off, any other is done. */
    method AfterFailure(turn: Turn, ghost e: Event) returns (again: Option<bool>)
      requires Failing(e)
      modifies this
      ensures Valid() && trace == old(trace) + FailureEvents(old(link), turn, e)
      ensures again == Some(true) ==> link.phase.Check?
      ensures again == Some(false) ==> link.phase.Exit?
      ensures again == None ==> link.phase.Wait?
    {
      hide ValidRun, Run, WakeEvents, Delay;
      if linkType == Persistent {
        var wait := NextWait();
        assert wait.Some? <==> counter >= 0 by {
          DelayGiven(counter, limit);
        }
        Emit(e);
        again := Await(turn, wait);
      } else {
        ConnInHandlerOnly(link);
        Emit(e);
        again := Some(false);
      }
    }

    /** From an entered connection to the next turn: the handler runs to its end.
        Whatever it still wants of a closed connection fails. */
    method Handle(turn: Turn) returns (again: Option<bool>)
      requires Valid() && link.phase.Handshake?
      modifies this
      ensures Valid() && trace == old(trace) + HandlerEvents(old(link), turn)
      ensures again == Some(true) ==> link.phase.Check?
      ensures again == Some(false) ==> link.phase.Exit?
      ensures again == None ==> link.phase.Wait?
    {
      hide ValidRun, Run, LinkOk, FailureEvents, AdmissionEvents, Interrupts;
      Interrupt(turn.inHandshake);
      if closed || turn.outcome == ToSelf || turn.outcome == Refused {
        if turn.outcome == ToSelf {
          counter := -1;
        }
        conn, closed := false, false;
        again := AfterFailure(turn, Stops(turn.outcome == ToSelf));
      } else {
        Emit(LastUse);
        again := Admit(turn);
      }
    }

    /** The pins and the allow list. */
    method Admit(turn: Turn) returns (again: Option<bool>)
      requires Valid() && link.phase.Admission?
      modifies this
      ensures Valid() && trace == old(trace) + AdmissionEvents(old(link), turn)
      ensures again == Some(true) ==> link.phase.Check?
      ensures again == Some(false) ==> link.phase.Exit?
      ensures again == None ==> link.phase.Wait?
    {
      hide ValidRun, Run, LinkOk, FailureEvents, UpEvents, Interrupts;
      Interrupt(turn.inAdmission);
      if turn.outcome == Ended {
        counter := 0;
        Emit(Success);
        again := StayUp(turn);
      } else {
        conn, closed := false, false;
        again := AfterFailure(turn, Stops(false));
      }
    }

    /** The connection, for as long as it lasts. */
    method StayUp(turn: Turn) returns (again: Option<bool>)
      requires Valid() && link.phase.Established?
      modifies this
      ensures Valid() && trace == old(trace) + UpEvents(old(link), turn)
      ensures again == Some(true) ==> link.phase.Check?
      ensures again == Some(false) ==> link.phase.Exit?
      ensures again == None ==> link.phase.Wait?
    {
      hide ValidRun, Run, LinkOk, FailureEvents, Interrupts;
      Interrupt(turn.whileUp);
      conn, closed := false, false;
      again := AfterFailure(turn, Stops(false));
    }

    /** One turn of the loop. */
    method Attempt(turn: Turn) returns (again: Option<bool>)
      requires Valid() && link.phase.Check? && !link.conn
      modifies this
      ensures Valid() && trace == old(trace) + TurnEvents(old(link), turn)
      ensures again == Some(true) ==> link.phase.Check? && !link.conn
      ensures again == Some(false) ==> link.phase.Exit?
      ensures again == None ==> link.phase.Wait?
    {
      hide ValidRun, Run, LinkOk, DialEvents, Interrupts;
      Interrupt(turn.beforeCheck);
      Emit(Look);
      if cancelled {
        return Some(false);
      }
      Interrupt(turn.beforeDial);
      Emit(StartDial);
      again := Dialled(turn);
      ConnInHandlerOnly(link);
    }

    /** From the dialer on. */
    method Dialled(turn: Turn) returns (again: Option<bool>)
      requires Valid() && link.phase.Dialling? && !link.conn
      modifies this
      ensures Valid() && trace == old(trace) + DialEvents(old(link), turn)
      ensures again == Some(true) ==> link.phase.Check?
      ensures again == Some(false) ==> link.phase.Exit?
      ensures again == None ==> link.phase.Wait?
    {
      hide ValidRun, Run, LinkOk, EntryEvents, FailureEvents, Interrupts;
      Interrupt(turn.inDial);
      ConnInHandlerOnly(link);
      if turn.dial && (carrier == Heedless || !cancelled) {
        Emit(DialSucceeds);
        again := EnterAndHandle(turn);
      } else {
        if linkType == Persistent {
          conn, closed := false, false;
        }
        again := AfterFailure(turn, DialFails);
      }
    }

    /** A connection is entered, and handled. */
    method EnterAndHandle(turn: Turn) returns (again: Option<bool>)
      requires Valid() && link.phase.Install? && !link.conn
      modifies this
      ensures Valid() && trace == old(trace) + EntryEvents(old(link), turn)
      ensures again == Some(true) ==> link.phase.Check?
      ensures again == Some(false) ==> link.phase.Exit?
      ensures again == None ==> link.phase.Wait?
    {
      hide ValidRun, Run, LinkOk, HandlerEvents, Interrupts;
      Interrupt(turn.beforeEnter);
      assert !conn; // so the source's test for another connection never succeeds
      conn, closed := true, carrier == Bound && cancelled;
      Emit(Enter);
      again := Handle(turn);
    }

    /** The loop, for as many turns as the surroundings have decided. Whatever
        they do, it has taken a run of the machine. */
    method Loop(turns: seq<Turn>) returns (left: bool)
      requires Valid() && link.phase.Check?
      modifies this
      ensures Valid() && trace == old(trace) + LoopEvents(old(link), turns)
      ensures if left then link.phase.Exit? else link.phase.Check? || link.phase.Wait?
    {
      hide LinkOk, TurnEvents;
      ConnInHandlerOnly(link);
      for i := 0 to |turns|
        invariant Valid() && link.phase.Check? && !link.conn
        invariant trace + LoopEvents(link, turns[i..]) == old(trace) + LoopEvents(old(link), turns)
      {
        ghost var before, ran := link, trace;
        var again := Attempt(turns[i]);
        RunSplits(Start(), ran, TurnEvents(before, turns[i]));
        assert turns[i..][1..] == turns[i + 1..];
        match again {
          case None => return false;
          case Some(b) =>
            if !b {
              return true;
            }
        }
      }
      left := false;
    }
  }

  lemma ConnInHandlerOnly(l: Link)
    requires LinkOk(l)
    ensures l.conn <==> InHandler(l.phase)
    ensures l.closed ==> l.conn
  {
  }

  lemma DelayGiven(counter: int, limit: int)
    ensures Delay(counter, limit).Some? <==> counter >= 0
  {
  }

  lemma {:induction false} RunSplits(l: Link, es: seq<Event>, fs: seq<Event>)
    requires ValidRun(l, es) && ValidRun(l, es + fs)
    ensures ValidRun(Run(l, es), fs) && Run(l, es + fs) == Run(Run(l, es), fs)
    decreases |es|
  {
    hide Step, Enabled;
    if es == [] {
      assert es + fs == fs;
    } else {
      assert (es + fs)[1..] == es[1..] + fs;
      RunSplits(Step(l, es[0]), es[1..], fs);
    }
  }

  lemma {:induction false} RunAppend(l: Link, es: seq<Event>, e: Event)
    requires ValidRun(l, es) && Enabled(Run(l, es), e)
    ensures ValidRun(l, es + [e]) && Run(l, es + [e]) == Step(Run(l, es), e)
    decreases |es|
  {
    hide Step, Enabled;
    if es == [] {
      assert [e][1..] == [] && es + [e] == [e];
    } else {
      assert (es + [e])[1..] == es[1..] + [e];
      RunAppend(Step(l, es[0]), es[1..], e);
    }
  }
}
