/** Same-shell dashboard navigation: overlapping page loads racing for one outlet, step by timed step. */
module AsyncRegion {
  import opened Text

  const MIN_VISIBLE_LOADING_MS := 120

  datatype OutletState = Blank | Loading | Loaded | Error

  /** Navigations are known by their sequence number, counted from 0. */
  datatype Content = Spinner | PageOf(nav: nat) | ErrorOf(nav: nat)

  /** Fetching awaits the page data, Adopting its stylesheets, Waiting the minimum spinner time. */
  datatype Phase = Fetching | Adopting | Waiting | Swapped | Failed | Dropped

  datatype Load = Load(startedAt: nat, phase: Phase)

  /** painting holds the navigations waiting for their paint, and when they began. */
  datatype State = State(
    now: nat,
    navigations: nat,
    outlet: OutletState,
    loadId: Option<nat>,
    content: Content,
    painting: map<nat, nat>,
    loads: map<nat, Load>)

  datatype Event =
    | Tick(ms: nat)
    | Navigate
    | Painted(nav: nat)
    | Fetched(nav: nat)
    | Adopted(nav: nat)
    | TimerFires(nav: nat)
    | LoadFails(nav: nat)

  const START := State(0, 0, Blank, None, Spinner, map[], map[])

  predicate InPhase(s: State, nav: nat, phase: Phase) {
    nav in s.loads && s.loads[nav].phase == phase
  }

  predicate OwnsOutlet(s: State, nav: nat)
    requires nav in s.loads
  {
    s.loadId == Some(s.loads[nav].startedAt)
  }

  function Enter(s: State, nav: nat, phase: Phase): State
    requires nav in s.loads
  {
    s.(loads := s.loads[nav := s.loads[nav].(phase := phase)])
  }

  function Swap(s: State, nav: nat): State
    requires nav in s.loads
  {
    Enter(s, nav, Swapped).(content := PageOf(nav), outlet := Loaded)
  }

  /** Time stops for a timer that is due: a waiting load swaps exactly 120 ms after its start. */
  predicate MayTick(s: State, ms: nat) {
    forall nav :: nav in s.loads && s.loads[nav].phase == Waiting ==>
      s.now + ms <= s.loads[nav].startedAt + MIN_VISIBLE_LOADING_MS
  }

  /** One event; an event that cannot happen in s changes nothing. The two animation frames before a paint take time. */
  function OnEvent(s: State, e: Event): State {
    match e
    case Tick(ms) => if MayTick(s, ms) then s.(now := s.now + ms) else s
    case Navigate =>
      s.(navigations := s.navigations + 1, outlet := Blank, loadId := None, content := Spinner,
         painting := s.painting[s.navigations := s.now])
    case Painted(nav) =>
      if nav !in s.painting || s.now <= s.painting[nav] then s
      else
        var painted := s.(painting := s.painting - {nav});
        if nav + 1 != s.navigations || s.outlet == Loading then painted
        else painted.(outlet := Loading, loadId := Some(s.now), loads := s.loads[nav := Load(s.now, Fetching)])
    case Fetched(nav) =>
      if !InPhase(s, nav, Fetching) then s
      else Enter(s, nav, if OwnsOutlet(s, nav) then Adopting else Dropped)
    case Adopted(nav) =>
      if !InPhase(s, nav, Adopting) then s
      else if !OwnsOutlet(s, nav) then Enter(s, nav, Dropped)
      else if s.now - s.loads[nav].startedAt < MIN_VISIBLE_LOADING_MS then Enter(s, nav, Waiting)
      else Swap(s, nav)
    case TimerFires(nav) =>
      if InPhase(s, nav, Waiting) && s.now == s.loads[nav].startedAt + MIN_VISIBLE_LOADING_MS then Swap(s, nav) else s
    case LoadFails(nav) =>
      if !InPhase(s, nav, Fetching) && !InPhase(s, nav, Adopting) then s
      else if !OwnsOutlet(s, nav) then Enter(s, nav, Dropped)
      else Enter(s, nav, Failed).(content := ErrorOf(nav), outlet := Error)
  }

  function Run(s: State, events: seq<Event>): State
    decreases |events|
  {
    if events == [] then s else Run(OnEvent(s, events[0]), events[1..])
  }

  predicate Settled(s: State) {
    s.painting == map[] && forall nav :: nav in s.loads ==> s.loads[nav].phase in {Swapped, Failed, Dropped}
  }

  // ----- The last navigation wins

  /** The newest navigation is waiting for its paint, or its load owns the outlet. */
  predicate NewestOwns(s: State) {
    s.navigations > 0 ==>
      var newest := s.navigations - 1;
      if newest in s.painting then
        && newest !in s.loads && s.loadId == None && s.outlet != Loading
        && forall nav :: nav in s.loads ==> s.loads[nav].startedAt <= s.painting[newest]
      else newest in s.loads && OwnsOutlet(s, newest) && s.loads[newest].phase != Dropped
  }

  /** Once the newest load has swapped, its page is on screen and no older load is left to swap. */
  predicate NewestShown(s: State) {
    s.navigations > 0 && InPhase(s, s.navigations - 1, Swapped) ==>
      && s.content == PageOf(s.navigations - 1) && s.outlet == Loaded
      && s.now >= s.loads[s.navigations - 1].startedAt + MIN_VISIBLE_LOADING_MS
  }

  predicate Known(s: State) {
    && (forall nav :: nav in s.painting ==> nav < s.navigations && nav !in s.loads && s.painting[nav] <= s.now)
    && (forall nav :: nav in s.loads ==> nav < s.navigations && s.loads[nav].startedAt <= s.now)
  }

  predicate InOrder(s: State) {
    forall a, b :: a in s.loads && b in s.loads && a < b ==> s.loads[a].startedAt < s.loads[b].startedAt
  }

  predicate OnTime(s: State) {
    forall nav :: nav in s.loads && s.loads[nav].phase == Waiting ==>
      s.now <= s.loads[nav].startedAt + MIN_VISIBLE_LOADING_MS
  }

  predicate Invariant(s: State) {
    Known(s) && InOrder(s) && OnTime(s) && NewestOwns(s) && NewestShown(s)
  }

  lemma PaintedKeeps(s: State, nav: nat)
    requires Invariant(s)
    ensures Invariant(OnEvent(s, Painted(nav)))
  {
  }

  lemma NavigateKeeps(s: State)
    requires Invariant(s)
    ensures Invariant(OnEvent(s, Navigate))
  {
  }

  /** A load moves on without touching the outlet. */
  lemma EnterKeeps(s: State, nav: nat, phase: Phase)
    requires Invariant(s) && nav in s.loads && s.loads[nav].phase in {Fetching, Adopting}
    requires phase in {Adopting, Waiting, Dropped} && (phase == Dropped ==> !OwnsOutlet(s, nav))
    requires phase == Waiting ==> s.now - s.loads[nav].startedAt < MIN_VISIBLE_LOADING_MS
    ensures Invariant(Enter(s, nav, phase))
  {
  }

  /** A load that is due swaps: the newest, or an older one while the newest has not swapped yet. */
  lemma SwapKeeps(s: State, nav: nat)
    requires Invariant(s) && nav in s.loads && s.loads[nav].phase in {Adopting, Waiting}
    requires s.now >= s.loads[nav].startedAt + MIN_VISIBLE_LOADING_MS
    requires s.loads[nav].phase == Adopting ==> OwnsOutlet(s, nav)
    ensures Invariant(Swap(s, nav))
  {
  }

  lemma FailKeeps(s: State, nav: nat)
    requires Invariant(s) && nav in s.loads && s.loads[nav].phase in {Fetching, Adopting} && OwnsOutlet(s, nav)
    ensures Invariant(Enter(s, nav, Failed).(content := ErrorOf(nav), outlet := Error))
  {
  }

  lemma EventKeepsInvariant(s: State, e: Event)
    requires Invariant(s)
    ensures Invariant(OnEvent(s, e))
  {
    hide Invariant, Enter, Swap;
    match e
    case Tick(ms) => TickKeeps(s, ms);
    case Navigate => NavigateKeeps(s);
    case Painted(nav) => PaintedKeeps(s, nav);
    case Fetched(nav) =>
      if InPhase(s, nav, Fetching) {
        EnterKeeps(s, nav, if OwnsOutlet(s, nav) then Adopting else Dropped);
      }
    case Adopted(nav) =>
      if InPhase(s, nav, Adopting) {
        if !OwnsOutlet(s, nav) { EnterKeeps(s, nav, Dropped); }
        else if s.now - s.loads[nav].startedAt < MIN_VISIBLE_LOADING_MS { EnterKeeps(s, nav, Waiting); }
        else { SwapKeeps(s, nav); }
      }
    case TimerFires(nav) =>
      if InPhase(s, nav, Waiting) && s.now == s.loads[nav].startedAt + MIN_VISIBLE_LOADING_MS {
        SwapKeeps(s, nav);
      }
    case LoadFails(nav) =>
      if InPhase(s, nav, Fetching) || InPhase(s, nav, Adopting) {
        if OwnsOutlet(s, nav) { FailKeeps(s, nav); } else { EnterKeeps(s, nav, Dropped); }
      }
  }

  lemma TickKeeps(s: State, ms: nat)
    requires Invariant(s)
    ensures Invariant(OnEvent(s, Tick(ms)))
  {
  }

  lemma {:induction false} RunsKeepInvariant(s: State, events: seq<Event>)
    requires Invariant(s)
    ensures Invariant(Run(s, events))
    decreases |events|
  {
    hide Invariant, OnEvent;
    if events != [] {
      EventKeepsInvariant(s, events[0]);
      RunsKeepInvariant(OnEvent(s, events[0]), events[1..]);
    }
  }

  /** For every interleaving: once all is settled, the outlet shows the page of the last navigation, unless that
      page itself failed to load. */
  lemma LastNavigationWins(events: seq<Event>)
    requires var s := Run(START, events); Settled(s) && s.navigations > 0
    ensures var s := Run(START, events);
      !InPhase(s, s.navigations - 1, Failed) ==> s.content == PageOf(s.navigations - 1) && s.outlet == Loaded
  {
    assert Invariant(START);
    RunsKeepInvariant(START, events);
  }

  /** In every reachable state no two loads share a load id. */
  lemma LoadIdsAreDistinct(events: seq<Event>, a: nat, b: nat)
    requires var s := Run(START, events); a in s.loads && b in s.loads && a < b
    ensures var s := Run(START, events); s.loads[a].startedAt < s.loads[b].startedAt
  {
    assert Invariant(START);
    RunsKeepInvariant(START, events);
  }

  // ----- What is on screen before that

  /** The newest navigation, n, has neither a page nor an error yet. */
  predicate Unsettled(s: State, n: nat) {
    !InPhase(s, n, Swapped) && !InPhase(s, n, Failed)
  }

  /** Only the newest navigation can still change the outlet. */
  predicate OnlyNewest(s: State, n: nat) {
    && Invariant(s) && s.navigations == n + 1
    && (forall nav :: nav in s.loads && nav != n ==> s.loads[nav].phase != Waiting)
    && (Unsettled(s, n) ==> s.content == Spinner)
  }

  lemma OthersOwnNothing(s: State, n: nat, nav: nat)
    requires Invariant(s) && s.navigations == n + 1 && nav in s.loads && nav != n
    ensures !OwnsOutlet(s, nav)
  {
  }

  lemma OnlyNewestGoesOn(s: State, n: nat, e: Event)
    requires OnlyNewest(s, n) && !e.Navigate?
    ensures OnlyNewest(OnEvent(s, e), n)
  {
    hide Invariant;
    EventKeepsInvariant(s, e);
    forall nav | nav in s.loads && nav != n ensures !OwnsOutlet(s, nav) { OthersOwnNothing(s, n, nav); }
    PaintingIsNew(s);
  }

  lemma PaintingIsNew(s: State)
    requires Invariant(s)
    ensures forall nav :: nav in s.painting ==> nav < s.navigations && nav !in s.loads
  {
  }

  lemma {:induction false} OnlyNewestOverRuns(s: State, n: nat, events: seq<Event>)
    requires OnlyNewest(s, n) && forall e :: e in events ==> !e.Navigate?
    ensures OnlyNewest(Run(s, events), n)
    decreases |events|
  {
    hide OnlyNewest, OnEvent;
    if events != [] {
      assert events[0] in events && forall e :: e in events[1..] ==> e in events;
      OnlyNewestGoesOn(s, n, events[0]);
      OnlyNewestOverRuns(OnEvent(s, events[0]), n, events[1..]);
    }
  }

  /** From a navigation on, when no load was waiting then: the outlet shows the spinner until the page or the error of
      that navigation, however late older pages arrive. */
  lemma SpinnerUntilSettled(s: State, events: seq<Event>)
    requires Invariant(s) && !Waits(s) && forall e :: e in events ==> !e.Navigate?
    ensures var after := Run(OnEvent(s, Navigate), events);
      Unsettled(after, s.navigations) ==> after.content == Spinner
  {
    hide Invariant, Run;
    EventKeepsInvariant(s, Navigate);
    NavigationIsNew(s);
    OnlyNewestOverRuns(OnEvent(s, Navigate), s.navigations, events);
  }

  lemma NavigationIsNew(s: State)
    requires Invariant(s)
    ensures s.navigations !in s.loads
  {
  }

  /** In every reachable state the newest page is not on screen before the minimum spinner time is over. */
  lemma SpinnerStaysVisible(events: seq<Event>)
    requires var s := Run(START, events); s.navigations > 0 && InPhase(s, s.navigations - 1, Swapped)
    ensures var s := Run(START, events); s.now >= s.loads[s.navigations - 1].startedAt + MIN_VISIBLE_LOADING_MS
  {
    assert Invariant(START);
    RunsKeepInvariant(START, events);
  }

  /** The newest load is never dropped: its paint starts it, its data and stylesheets bring it to the screen or make
      it wait, and the end of the wait brings it to the screen. */
  lemma NewestGoesOn(s: State)
    requires Invariant(s) && s.navigations > 0
    ensures var n := s.navigations - 1;
      && (n in s.painting && s.now > s.painting[n] ==>
            var after := OnEvent(s, Painted(n));
            after.loads == s.loads[n := Load(s.now, Fetching)] && after.outlet == Loading)
      && (InPhase(s, n, Fetching) ==> InPhase(OnEvent(s, Fetched(n)), n, Adopting))
      && (InPhase(s, n, Adopting) ==>
            var after := OnEvent(s, Adopted(n));
            if s.now < s.loads[n].startedAt + MIN_VISIBLE_LOADING_MS then InPhase(after, n, Waiting)
            else InPhase(after, n, Swapped) && after.content == PageOf(n))
      && (InPhase(s, n, Waiting) && s.now == s.loads[n].startedAt + MIN_VISIBLE_LOADING_MS ==>
            var after := OnEvent(s, TimerFires(n)); InPhase(after, n, Swapped) && after.content == PageOf(n))
      && (InPhase(s, n, Fetching) || InPhase(s, n, Adopting) ==>
            var after := OnEvent(s, LoadFails(n)); InPhase(after, n, Failed) && after.content == ErrorOf(n))
  {
  }

  // ----- When the last page fails

  predicate Waits(s: State) {
    exists nav :: nav in s.loads && s.loads[nav].phase == Waiting
  }

  /** The newest load, n, has failed. */
  predicate NewestFailed(s: State, n: nat) {
    Invariant(s) && s.navigations == n + 1 && InPhase(s, n, Failed)
  }

  lemma OlderIsNoOwner(s: State, n: nat, nav: nat)
    requires NewestFailed(s, n) && nav in s.loads && nav != n
    ensures !OwnsOutlet(s, nav)
  {
  }

  lemma WaitingGoesOn(s: State, nav: nat, e: Event)
    requires InPhase(s, nav, Waiting) && nav !in s.painting
    ensures InPhase(OnEvent(s, e), nav, Waiting) || (OnEvent(s, e).content == PageOf(nav) && e.TimerFires?)
  {
  }

  /** After the failure a load that waits still swaps, and every other load is dropped. */
  lemma AfterFailure(s: State, n: nat, e: Event)
    requires NewestFailed(s, n) && !e.Navigate?
    ensures NewestFailed(OnEvent(s, e), n)
    ensures !Waits(s) ==> !Waits(OnEvent(s, e)) && OnEvent(s, e).content == s.content
    ensures Waits(s) || s.content != ErrorOf(n) ==> Waits(OnEvent(s, e)) || OnEvent(s, e).content != ErrorOf(n)
  {
    hide Invariant;
    EventKeepsInvariant(s, e);
    NewestIsNotPainting(s, n);
    forall nav | nav in s.loads && nav != n ensures !OwnsOutlet(s, nav) { OlderIsNoOwner(s, n, nav); }
    if Waits(s) {
      var nav: nat :| nav in s.loads && s.loads[nav].phase == Waiting;
      LoadIsNotPainting(s, nav);
      WaitingGoesOn(s, nav, e);
      assert OnEvent(s, e).content == PageOf(nav) || nav in OnEvent(s, e).loads;
    }
  }

  lemma LoadIsNotPainting(s: State, nav: nat)
    requires Invariant(s) && nav in s.loads
    ensures nav !in s.painting
  {
  }

  lemma NewestIsNotPainting(s: State, n: nat)
    requires NewestFailed(s, n)
    ensures n !in s.painting
  {
  }

  lemma {:induction false} RunAfterFailure(s: State, n: nat, events: seq<Event>)
    requires NewestFailed(s, n) && forall e :: e in events ==> !e.Navigate?
    ensures NewestFailed(Run(s, events), n)
    ensures !Waits(s) ==> Run(s, events).content == s.content
    ensures Waits(s) || s.content != ErrorOf(n) ==> Waits(Run(s, events)) || Run(s, events).content != ErrorOf(n)
    decreases |events|
  {
    hide NewestFailed, Waits, OnEvent;
    if events != [] {
      assert events[0] in events && forall e :: e in events[1..] ==> e in events;
      AfterFailure(s, n, events[0]);
      RunAfterFailure(OnEvent(s, events[0]), n, events[1..]);
    }
  }

  /** When the newest page fails to load and nobody navigates on, its error is what stays on screen if and only if no
      load was waiting out the minimum spinner time when it failed. */
  lemma ErrorStaysExactly(s: State, events: seq<Event>)
    requires Invariant(s) && s.navigations > 0
    requires InPhase(s, s.navigations - 1, Fetching) || InPhase(s, s.navigations - 1, Adopting)
    requires forall e :: e in events ==> !e.Navigate?
    requires Settled(Run(OnEvent(s, LoadFails(s.navigations - 1)), events))
    ensures Run(OnEvent(s, LoadFails(s.navigations - 1)), events).content == ErrorOf(s.navigations - 1) <==> !Waits(s)
  {
    hide Invariant;
    var n := s.navigations - 1;
    var failed := OnEvent(s, LoadFails(n));
    EventKeepsInvariant(s, LoadFails(n));
    NewestIsOwner(s, n);
    assert NewestFailed(failed, n) && failed.content == ErrorOf(n);
    assert failed.loads == s.loads[n := s.loads[n].(phase := Failed)];
    assert forall nav :: nav in s.loads <==> nav in failed.loads;
    if Waits(s) {
      var nav: nat :| nav in s.loads && s.loads[nav].phase == Waiting;
      assert failed.loads[nav].phase == Waiting;
    }
    assert !Waits(s) ==> !Waits(failed);
    RunAfterFailure(failed, n, events);
    assert !Waits(Run(failed, events));
  }

  lemma NewestIsOwner(s: State, n: nat)
    requires Invariant(s) && s.navigations == n + 1 && (InPhase(s, n, Fetching) || InPhase(s, n, Adopting))
    ensures OwnsOutlet(s, n)
  {
  }

  // ----- A run in which the error is overwritten

  lemma RunStep(s: State, e: Event, rest: seq<Event>)
    ensures Run(s, [e] + rest) == Run(OnEvent(s, e), rest)
  {
    hide OnEvent;
    assert ([e] + rest)[1..] == rest;
  }

  lemma {:induction false} RunConcat(s: State, a: seq<Event>, b: seq<Event>)
    ensures Run(s, a + b) == Run(Run(s, a), b)
    decreases |a|
  {
    hide OnEvent;
    if a == [] {
      assert a + b == b;
    } else {
      assert (a + b)[1..] == a[1..] + b;
      RunConcat(OnEvent(s, a[0]), a[1..], b);
    }
  }

  /** The first load waits for the spinner while the second one is fetching its page. */
  const TWO_LOADS := State(
    32, 2, Loading, Some(32), Spinner, map[], map[0 := Load(16, Waiting), 1 := Load(32, Fetching)])

  const TO_TWO_LOADS := [Navigate, Tick(16), Painted(0), Fetched(0), Adopted(0), Navigate, Tick(16), Painted(1)]

  lemma FirstLoad()
    ensures Run(START, TO_TWO_LOADS[..5])
      == State(16, 1, Loading, Some(16), Spinner, map[], map[0 := Load(16, Waiting)])
  {
    hide Run;
    var s1 := OnEvent(START, Navigate);
    var s2 := OnEvent(s1, Tick(16));
    assert s2 == State(16, 1, Blank, None, Spinner, map[0 := 0], map[]);
    var s3 := OnEvent(s2, Painted(0));
    assert s3.painting == map[] && s3.loads == map[0 := Load(16, Fetching)];
    var s4 := OnEvent(s3, Fetched(0));
    assert s4.loads == map[0 := Load(16, Adopting)];
    var s5 := OnEvent(s4, Adopted(0));
    assert s5.loads == map[0 := Load(16, Waiting)];
    assert TO_TWO_LOADS[..5] == [Navigate] + ([Tick(16)] + ([Painted(0)] + ([Fetched(0)] + ([Adopted(0)] + []))));
    RunStep(START, Navigate, [Tick(16)] + ([Painted(0)] + ([Fetched(0)] + ([Adopted(0)] + []))));
    RunStep(s1, Tick(16), [Painted(0)] + ([Fetched(0)] + ([Adopted(0)] + [])));
    RunStep(s2, Painted(0), [Fetched(0)] + ([Adopted(0)] + []));
    RunStep(s3, Fetched(0), [Adopted(0)] + []);
    RunStep(s4, Adopted(0), []);
    RunNothing(s5);
  }

  lemma RunNothing(s: State)
    ensures Run(s, []) == s
  {
  }

  lemma TwoLoadsAreReached()
    ensures Run(START, TO_TWO_LOADS) == TWO_LOADS
  {
    hide Run;
    FirstLoad();
    assert TO_TWO_LOADS == TO_TWO_LOADS[..5] + ([Navigate] + ([Tick(16)] + ([Painted(1)] + [])));
    RunConcat(START, TO_TWO_LOADS[..5], [Navigate] + ([Tick(16)] + ([Painted(1)] + [])));
    var s5 := Run(START, TO_TWO_LOADS[..5]);
    var s6 := OnEvent(s5, Navigate);
    var s7 := OnEvent(s6, Tick(16));
    assert s7 == State(32, 2, Blank, None, Spinner, map[1 := 16], map[0 := Load(16, Waiting)]);
    var s8 := OnEvent(s7, Painted(1));
    assert s8.painting == map[] && s8.loads == TWO_LOADS.loads;
    RunStep(s5, Navigate, [Tick(16)] + ([Painted(1)] + []));
    RunStep(s6, Tick(16), [Painted(1)] + []);
    RunStep(s7, Painted(1), []);
    RunNothing(s8);
  }

  /** A reachable run that settles with the older page in place of the last page's error. */
  lemma FailureCanBeOverwritten()
    ensures var s := Run(START, TO_TWO_LOADS + [LoadFails(1), Tick(104), TimerFires(0)]);
      Settled(s) && s.navigations == 2 && InPhase(s, 1, Failed) && s.content == PageOf(0)
  {
    hide Run;
    TwoLoadsAreReached();
    assert [LoadFails(1), Tick(104), TimerFires(0)] == [LoadFails(1)] + ([Tick(104)] + ([TimerFires(0)] + []));
    RunConcat(START, TO_TWO_LOADS, [LoadFails(1)] + ([Tick(104)] + ([TimerFires(0)] + [])));
    var s1 := OnEvent(TWO_LOADS, LoadFails(1));
    assert s1.loads == map[0 := Load(16, Waiting), 1 := Load(32, Failed)];
    var s2 := OnEvent(s1, Tick(104));
    var s3 := OnEvent(s2, TimerFires(0));
    assert s3.loads == map[0 := Load(16, Swapped), 1 := Load(32, Failed)];
    RunStep(TWO_LOADS, LoadFails(1), [Tick(104)] + ([TimerFires(0)] + []));
    RunStep(s1, Tick(104), [TimerFires(0)] + []);
    RunStep(s2, TimerFires(0), []);
    RunNothing(s3);
  }

  // ----- The script itself

  /** The module's counter, the outlet's data attributes and contents, and the loads in flight. */
  class Outlet {
    var activeNavigation: nat
    var state: OutletState
    var loadId: Option<nat>
    var content: Content
    var loads: map<nat, Load>
    ghost var now: nat
    ghost var painting: map<nat, nat>

    ghost function Snapshot(): State
      reads this
    {
      State(now, activeNavigation, state, loadId, content, painting, loads)
    }

    constructor ()
      ensures Snapshot() == START
    {
      activeNavigation, state, loadId, content, loads, now, painting := 0, Blank, None, Spinner, map[], 0, map[];
    }

    method NavigateWithState() returns (nav: nat)
      modifies this
      ensures Snapshot() == OnEvent(old(Snapshot()), Navigate)
    {
      nav := activeNavigation;
      activeNavigation := activeNavigation + 1;
      state := Blank;
      loadId := None;
      content := Spinner;
      painting := painting[nav := now];
    }

    /** The navigation resumes after its paint and, if it is the newest, starts its load. */
    method AfterPaint(nav: nat, clock: nat)
      requires nav in painting && clock == now > painting[nav]
      modifies this
      ensures Snapshot() == OnEvent(old(Snapshot()), Painted(nav))
    {
      painting := painting - {nav};
      if nav + 1 != activeNavigation { return; }
      if state == Loading { return; }
      state := Loading;
      loadId := Some(clock);
      loads := loads[nav := Load(clock, Fetching)];
    }

    method AfterFetch(nav: nat)
      requires InPhase(Snapshot(), nav, Fetching)
      modifies this
      ensures Snapshot() == OnEvent(old(Snapshot()), Fetched(nav))
    {
      var load := loads[nav];
      loads := loads[nav := load.(phase := if loadId == Some(load.startedAt) then Adopting else Dropped)];
    }

    method AfterStylesheets(nav: nat, clock: nat)
      requires InPhase(Snapshot(), nav, Adopting) && clock == now
      modifies this
      ensures Snapshot() == OnEvent(old(Snapshot()), Adopted(nav))
    {
      var load := loads[nav];
      if loadId != Some(load.startedAt) {
        loads := loads[nav := load.(phase := Dropped)];
        return;
      }
      var elapsed := clock - load.startedAt;
      if elapsed < MIN_VISIBLE_LOADING_MS {
        loads := loads[nav := load.(phase := Waiting)];
      } else {
        SwapContent(nav);
      }
    }

    method SwapContent(nav: nat)
      requires nav in loads
      modifies this
      ensures Snapshot() == Swap(old(Snapshot()), nav)
    {
      content := PageOf(nav);
      state := Loaded;
      loads := loads[nav := loads[nav].(phase := Swapped)];
    }

    /** The minimum spinner time is over; the load is not checked again. */
    method AfterWait(nav: nat)
      requires InPhase(Snapshot(), nav, Waiting) && now == loads[nav].startedAt + MIN_VISIBLE_LOADING_MS
      modifies this
      ensures Snapshot() == OnEvent(old(Snapshot()), TimerFires(nav))
    {
      SwapContent(nav);
    }

    method OnError(nav: nat)
      requires InPhase(Snapshot(), nav, Fetching) || InPhase(Snapshot(), nav, Adopting)
      modifies this
      ensures Snapshot() == OnEvent(old(Snapshot()), LoadFails(nav))
    {
      var load := loads[nav];
      if loadId != Some(load.startedAt) {
        loads := loads[nav := load.(phase := Dropped)];
        return;
      }
      state := Error;
      content := ErrorOf(nav);
      loads := loads[nav := load.(phase := Failed)];
    }
  }
}
