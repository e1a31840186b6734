/**
 The page of `src/pages/Index.tsx` wired to its draw engine: the store, the
 engine, and the store as it was when the running draw was started (the
 engine's timers call back through the closures of that render).
 */
module FamilyDraw {
  import opened Wrappers
  import opened Seqs
  import opened Roster
  import opened LuckyDraw

  datatype App = App(store: Store, engine: Engine, snapshot: Store)

  datatype AppEvent =
    | TogglePayment(memberId: int)
    | StartPressed
    | CountdownElapsed
    | ShuffleElapsed(pick: Roll, finalPick: Roll)
    | CompletionElapsed(today: string)

  /** The page at load: any roster and history, the engine just mounted. */
  function Load(store: Store): App
  {
    App(store, Mounted, store)
  }

  /** The props of the current render: the eligible list and the pool. */
  function PressFor(store: Store): Event
  {
    Press(Eligible(store.members, store.history), TotalPool(store.members))
  }

  /**
   Delivers `ev` to the engine. A draw that starts captures the current store;
   a reported winner is recorded through the captured store, dated `today`
   (only a completion can report a winner, so `today` is read only then).
   */
  function Advance(app: App, ev: Event, today: string): (r: App)
    ensures r.store.members == app.store.members
    ensures r.engine == Step(app.engine, ev).next
    ensures ev != CompletionTimer ==> r.store.history == app.store.history
  {
    var o := Step(app.engine, ev);
    var snapshot := if Started(app.engine, o) == 1 then app.store else app.snapshot;
    var history :=
      if o.completed.Some?
      then HandleDrawComplete(app.snapshot, app.store.history, o.completed.value, today)
      else app.store.history;
    App(app.store.(history := history), o.next, snapshot)
  }

  function AppStep(app: App, ev: AppEvent): (r: App)
    ensures ev.TogglePayment? ==>
      r == app.(store := app.store.(members := TogglePaymentStatus(app.store.members, ev.memberId)))
    ensures !ev.CompletionElapsed? ==> r.store.history == app.store.history
    ensures !ev.TogglePayment? ==> r.store.members == app.store.members
  {
    match ev
    case TogglePayment(id) =>
      app.(store := app.store.(members := TogglePaymentStatus(app.store.members, id)))
    case StartPressed => Advance(app, PressFor(app.store), "")
    case CountdownElapsed => Advance(app, CountdownTick, "")
    case ShuffleElapsed(pick, finalPick) => Advance(app, ShuffleTick(pick, finalPick), "")
    case CompletionElapsed(today) => Advance(app, CompletionTimer, today)
  }

  /**
   While a draw is under way the history has not changed since it was started,
   and the engine holds that render's eligible list and pool.
   */
  predicate AppInv(app: App)
  {
    && Inv(app.engine)
    && WellNumbered(app.store.history)
    && (app.engine.phase != Idle ==>
          && app.snapshot.history == app.store.history
          && app.engine.candidates == Eligible(app.snapshot.members, app.snapshot.history)
          && app.engine.prize == TotalPool(app.snapshot.members))
  }

  lemma LoadSatisfiesInv(store: Store)
    requires WellNumbered(store.history)
    ensures AppInv(Load(store))
  {
  }

  lemma AdvancePreservesInv(app: App, ev: Event, today: string)
    requires AppInv(app)
    requires ev.Press? ==> ev == PressFor(app.store)
    ensures AppInv(Advance(app, ev, today))
  {
    var o := Step(app.engine, ev);
    StepPreservesInv(app.engine, ev);
    if o.completed.Some? {
      RecordKeepsNumbering(app.snapshot, o.completed.value, today);
    }
  }

  lemma AppStepPreservesInv(app: App, ev: AppEvent)
    requires AppInv(app)
    ensures AppInv(AppStep(app, ev))
  {
    match ev
    case TogglePayment(_) =>
    case StartPressed => AdvancePreservesInv(app, PressFor(app.store), "");
    case CountdownElapsed => AdvancePreservesInv(app, CountdownTick, "");
    case ShuffleElapsed(pick, finalPick) => AdvancePreservesInv(app, ShuffleTick(pick, finalPick), "");
    case CompletionElapsed(today) => AdvancePreservesInv(app, CompletionTimer, today);
  }

  /**
   The completion timer records exactly one entry: the winner is someone who
   was eligible when the draw was started, the round is the one shown in the
   header, the amount is the prize the engine announced, and nobody with the
   winner's name is eligible afterwards.
   */
  lemma CompletionRecordsWinner(app: App, today: string)
    requires AppInv(app)
    requires app.engine.phase.Settled?
    ensures var w := app.engine.phase.finalWinner;
      var after := AppStep(app, CompletionElapsed(today));
      var before := app.store.history;
      && after.engine.phase == Idle
      && after.store.members == app.store.members
      && |after.store.history| == |before| + 1
      && after.store.history[..|before|] == before
      && after.store.history[|before|].round == DisplayedRound(before)
      && after.store.history[|before|].winner == w.name
      && after.store.history[|before|].amount == app.engine.prize
      && w in Eligible(app.snapshot.members, before)
      && forall m :: m in after.store.members && m.name == w.name ==>
           m !in Eligible(after.store.members, after.store.history)
  {
    var w := app.engine.phase.finalWinner;
    var o := Step(app.engine, CompletionTimer);
    assert o == CompletionStep(app.engine);
    assert o.completed == Some(w);
    var after := AppStep(app, CompletionElapsed(today));
    assert after == Advance(app, CompletionTimer, today);
    assert after.store.history == HandleDrawComplete(app.snapshot, app.store.history, w, today);
    RecordedWinnerExcluded(app.snapshot, app.store.members, app.store.history, w, today);
  }

  /** Any other event leaves the history as it is. */
  lemma OnlyCompletionRecords(app: App, ev: AppEvent)
    requires AppInv(app)
    requires !(ev.CompletionElapsed? && app.engine.phase.Settled?)
    ensures AppStep(app, ev).store.history == app.store.history
  {
  }

  /** All members paid and no history: everyone is eligible and the pool is full. */
  lemma AllPaidPool(members: seq<Member>)
    requires forall i :: 0 <= i < |members| ==> members[i].paid
    ensures Eligible(members, []) == members
    ensures TotalPool(members) == |members| * Contribution
  {
    FilterKeepsAll(members, (m: Member) => IsEligible(m, []));
    FilterKeepsAll(members, IsPaid);
  }

  /**
   Three paid members and no history: a whole draw reports one of the three,
   and recording it yields one entry of round 1 worth 3000.
   */
  lemma ThreePaidMembersScenario(members: seq<Member>, shuffles: seq<Event>, today: string)
    requires |members| == 3
    requires forall i :: 0 <= i < |members| ==> members[i].paid
    requires AllShuffleTicks(shuffles) && |shuffles| == MaxIterations
    ensures var t := Run(Mounted, [PressFor(Store(members, []))] + CountdownTicks(CountdownStart) + (shuffles + [CompletionTimer]));
      && |t.reported| == 1
      && t.reported[0] in members
      && HandleDrawComplete(Store(members, []), [], t.reported[0], today)
           == [HistoryEntry(1, t.reported[0].name, 3000, today, 1)]
  {
    AllPaidPool(members);
    assert PressFor(Store(members, [])) == Press(members, 3000);
    DrawLifecycle(Mounted, members, 3000, shuffles);
    var t := Run(Mounted, [PressFor(Store(members, []))] + CountdownTicks(CountdownStart) + (shuffles + [CompletionTimer]));
    FirstRecord(Store(members, []), t.reported[0], today);
  }
}
