/**
 The draw engine of `src/components/LuckyDraw.tsx` as a state machine driven
 by explicit events: the start button, the one-second countdown timer, the
 150 ms shuffle timer and the five-second completion timer. Every value of
 `Math.random()` is an explicit `Roll` carried by the event that uses it.
 */
module LuckyDraw {
  import opened Wrappers
  import opened Roster

  /** The countdown starts at 3. */
  const CountdownStart: int := 3
  /** The shuffle timer fires 20 times. */
  const MaxIterations: nat := 20

  /** A value returned by `Math.random()`. */
  type Roll = x: real | 0.0 <= x < 1.0

  /** `Math.floor(Math.random() * n)`: a position of a list of length `n`. */
  function RandomIndex(roll: Roll, n: nat): (i: nat)
    requires n > 0
    ensures i < n
    ensures (i as real) <= roll * (n as real) < (i as real) + 1.0
  {
    assert roll * (n as real) < n as real;
    (roll * (n as real)).Floor
  }

  /** Every position can be drawn: the roll `i / n` lands on position `i`. */
  lemma EveryPositionCanBeDrawn(n: nat, i: nat)
    requires i < n
    ensures 0.0 <= (i as real) / (n as real) < 1.0
    ensures RandomIndex((i as real) / (n as real), n) == i
  {
    var roll: Roll := (i as real) / (n as real);
    assert roll * (n as real) == i as real;
  }

  /** The "Win Chance" percentage shown for `n` eligible members. */
  function WinChance(n: nat): (r: int)
    ensures 0 <= r <= 100
    ensures n == 0 ==> r == 0
    ensures n > 0 ==> r * n <= 100 < (r + 1) * n
  {
    if n > 0 then 100 / n else 0
  }

  /** Which timer, if any, is pending. */
  datatype Phase = Idle | CountingDown | Shuffling(iterations: nat) | Settled(finalWinner: Member)

  /** The toast shown by a step, if any. */
  datatype Notice = Quiet | NoEligibleMembers | WinnerAnnounced(name: string, amount: int)

  /**
   The component state (`isDrawing`, `winner`, `drawComplete`, `countdown`),
   the pending timer, and the eligible list and prize captured by the
   closures of the draw in progress.
   */
  datatype Engine = Engine(
    isDrawing: bool,
    winner: Option<Member>,
    drawComplete: bool,
    countdown: int,
    phase: Phase,
    candidates: seq<Member>,
    prize: int)

  /** The state at mount. */
  const Mounted: Engine := Engine(false, None, false, 0, Idle, [], 0)

  datatype Event =
    | Press(eligible: seq<Member>, totalAmount: int)
    | CountdownTick
    | ShuffleTick(pick: Roll, finalPick: Roll)
    | CompletionTimer

  datatype Output = Output(next: Engine, notice: Notice, completed: Option<Member>)

  /** How the fields of the component relate to the pending timer. */
  predicate Inv(e: Engine)
  {
    match e.phase
    case Idle =>
      !e.isDrawing && !e.drawComplete && e.winner == None && e.countdown == 0
    case CountingDown =>
      && e.isDrawing && !e.drawComplete && e.winner == None
      && 1 <= e.countdown <= CountdownStart && |e.candidates| > 0
    case Shuffling(it) =>
      && e.isDrawing && !e.drawComplete && e.countdown == 0
      && it < MaxIterations && |e.candidates| > 0
      && (it == 0 <==> e.winner == None)
      && (e.winner.Some? ==> e.winner.value in e.candidates)
    case Settled(w) =>
      && !e.isDrawing && e.drawComplete && e.countdown == 0
      && e.winner == Some(w) && w in e.candidates
  }

  /** The start button is rendered unless a winner is on display. */
  predicate StartButtonShown(e: Engine)
  {
    !e.drawComplete
  }

  /** The start button is rendered and not disabled. */
  predicate StartButtonEnabled(e: Engine, eligible: seq<Member>)
  {
    StartButtonShown(e) && !(e.isDrawing || |eligible| == 0)
  }

  /** The button can be used in Idle with someone eligible, and in no other phase. */
  lemma StartOnlyWhenIdle(e: Engine, eligible: seq<Member>)
    requires Inv(e)
    ensures StartButtonEnabled(e, eligible) <==> e.phase == Idle && |eligible| > 0
  {
  }

  /** `startDraw`: refuses an empty list with a toast, otherwise begins the countdown. */
  function StartDraw(e: Engine, eligible: seq<Member>, totalAmount: int): (r: Output)
    ensures r.completed == None
    ensures |eligible| == 0 ==> r.next == e && r.notice == NoEligibleMembers
    ensures |eligible| > 0 ==>
      && r.next.isDrawing && r.next.winner == None && !r.next.drawComplete
      && r.next.countdown == CountdownStart && r.next.phase == CountingDown
      && r.next.candidates == eligible && r.next.prize == totalAmount
      && r.notice == Quiet
  {
    if |eligible| == 0 then Output(e, NoEligibleMembers, None)
    else Output(Engine(true, None, false, CountdownStart, CountingDown, eligible, totalAmount), Quiet, None)
  }

  /** A press of the start button; a hidden or disabled button does nothing. */
  function PressStart(e: Engine, eligible: seq<Member>, totalAmount: int): (r: Output)
    ensures r.completed == None
    ensures !StartButtonEnabled(e, eligible) ==> r.next == e && r.notice == Quiet
    ensures StartButtonEnabled(e, eligible) ==> r.next.phase == CountingDown && r.next.candidates == eligible
  {
    if StartButtonEnabled(e, eligible) then StartDraw(e, eligible, totalAmount) else Output(e, Quiet, None)
  }

  /** One tick of the countdown timer: 3, 2, 1, then 0 and the shuffle begins. */
  function CountdownStep(e: Engine): (r: Output)
    ensures r.completed == None && r.notice == Quiet
    ensures r.next.candidates == e.candidates && r.next.prize == e.prize
    ensures !e.phase.CountingDown? ==> r.next == e
    ensures e.phase.CountingDown? && e.countdown > 1 ==>
      r.next == e.(countdown := e.countdown - 1)
    ensures e.phase.CountingDown? && e.countdown <= 1 ==>
      r.next.countdown == 0 && r.next.phase == Shuffling(0) && r.next.winner == e.winner
  {
    if !e.phase.CountingDown? then Output(e, Quiet, None)
    else if e.countdown <= 1 then Output(e.(countdown := 0, phase := Shuffling(0)), Quiet, None)
    else Output(e.(countdown := e.countdown - 1), Quiet, None)
  }

  /**
   One tick of the shuffle timer: highlights a random candidate; the 20th tick
   stops the timer, commits an independently drawn winner and announces it.
   */
  function ShuffleStep(e: Engine, pick: Roll, finalPick: Roll): (r: Output)
    ensures r.completed == None
    ensures r.next.candidates == e.candidates && r.next.prize == e.prize
    ensures !e.phase.Shuffling? || |e.candidates| == 0 ==> r.next == e
    ensures e.phase.Shuffling? && |e.candidates| > 0 ==>
      r.next.winner.Some? && r.next.winner.value in e.candidates
    ensures e.phase.Shuffling? && |e.candidates| > 0 && e.phase.iterations + 1 < MaxIterations ==>
      r.next == e.(winner := r.next.winner, phase := Shuffling(e.phase.iterations + 1)) && r.notice == Quiet
    ensures e.phase.Shuffling? && |e.candidates| > 0 && e.phase.iterations + 1 >= MaxIterations ==>
      var w := e.candidates[RandomIndex(finalPick, |e.candidates|)];
      && r.next == e.(winner := Some(w), isDrawing := false, drawComplete := true, phase := Settled(w))
      && r.notice == WinnerAnnounced(w.name, e.prize)
  {
    match e.phase
    case Shuffling(it) =>
      if |e.candidates| == 0 then Output(e, Quiet, None)
      else
        var n := |e.candidates|;
        var highlighted := e.candidates[RandomIndex(pick, n)];
        if it + 1 >= MaxIterations then
          var w := e.candidates[RandomIndex(finalPick, n)];
          Output(e.(winner := Some(w), isDrawing := false, drawComplete := true, phase := Settled(w)),
                 WinnerAnnounced(w.name, e.prize), None)
        else
          Output(e.(winner := Some(highlighted), phase := Shuffling(it + 1)), Quiet, None)
    case _ => Output(e, Quiet, None)
  }

  /** The five-second timer after settlement: reports the winner once and clears the display. */
  function CompletionStep(e: Engine): (r: Output)
    ensures r.notice == Quiet
    ensures r.next.candidates == e.candidates && r.next.prize == e.prize
    ensures !e.phase.Settled? ==> r.next == e && r.completed == None
    ensures e.phase.Settled? ==>
      && r.completed == Some(e.phase.finalWinner)
      && r.next == e.(drawComplete := false, winner := None, phase := Idle)
  {
    match e.phase
    case Settled(w) => Output(e.(drawComplete := false, winner := None, phase := Idle), Quiet, Some(w))
    case _ => Output(e, Quiet, None)
  }

  function Step(e: Engine, ev: Event): (r: Output)
    ensures r.completed.Some? ==>
      ev == CompletionTimer && e.phase.Settled? && r.completed.value == e.phase.finalWinner && r.next.phase == Idle
    ensures e.phase == Idle && r.next.phase != Idle ==>
      && ev.Press? && |ev.eligible| > 0
      && r.next.phase == CountingDown && r.next.candidates == ev.eligible && r.next.prize == ev.totalAmount
    ensures e.phase != Idle && r.next.phase == Idle ==> r.completed.Some?
    ensures Inv(e) && e.phase != Idle ==> r.next.candidates == e.candidates && r.next.prize == e.prize
  {
    match ev
    case Press(eligible, totalAmount) => PressStart(e, eligible, totalAmount)
    case CountdownTick => CountdownStep(e)
    case ShuffleTick(pick, finalPick) => ShuffleStep(e, pick, finalPick)
    case CompletionTimer => CompletionStep(e)
  }

  lemma StepPreservesInv(e: Engine, ev: Event)
    requires Inv(e)
    ensures Inv(Step(e, ev).next)
  {
    match ev
    case ShuffleTick(pick, finalPick) =>
      if e.phase.Shuffling? {
        var w := e.candidates[RandomIndex(finalPick, |e.candidates|)];
        assert w in e.candidates;
      }
    case _ =>
  }

  /** 1 while a draw is under way (countdown, shuffle or winner on display), else 0. */
  function Active(e: Engine): nat
  {
    if e.phase == Idle then 0 else 1
  }

  /** The state after a sequence of events, the winners reported, and the draws started. */
  datatype Trace = Trace(final: Engine, reported: seq<Member>, starts: nat)

  /** The winner a step reports to the page, as a list of zero or one. */
  function Reported(o: Output): seq<Member>
  {
    if o.completed.Some? then [o.completed.value] else []
  }

  /** 1 when the step started a draw. */
  function Started(e: Engine, o: Output): nat
  {
    if e.phase == Idle && o.next.phase != Idle then 1 else 0
  }

  function Run(e: Engine, evs: seq<Event>): Trace
    decreases |evs|
  {
    if |evs| == 0 then Trace(e, [], 0)
    else
      var o := Step(e, evs[0]);
      var t := Run(o.next, evs[1..]);
      Trace(t.final, Reported(o) + t.reported, t.starts + Started(e, o))
  }

  lemma {:induction false} RunPreservesInv(e: Engine, evs: seq<Event>)
    requires Inv(e)
    ensures Inv(Run(e, evs).final)
    decreases |evs|
  {
    if |evs| > 0 {
      StepPreservesInv(e, evs[0]);
      RunPreservesInv(Step(e, evs[0]).next, evs[1..]);
    }
  }

  lemma {:induction false} RunAppend(e: Engine, a: seq<Event>, b: seq<Event>)
    ensures var ta := Run(e, a);
      var tb := Run(ta.final, b);
      Run(e, a + b) == Trace(tb.final, ta.reported + tb.reported, ta.starts + tb.starts)
    decreases |a|
  {
    if |a| == 0 {
      assert a + b == b;
    } else {
      var ab := a + b;
      assert ab[0] == a[0];
      assert ab[1..] == a[1..] + b;
      var o := Step(e, a[0]);
      RunAppend(o.next, a[1..], b);
      var ta := Run(o.next, a[1..]);
      var tb := Run(ta.final, b);
      assert Reported(o) + (ta.reported + tb.reported) == (Reported(o) + ta.reported) + tb.reported;
    }
  }

  /**
   The completion callback fires exactly once per started draw: over any run,
   the reported winners plus a draw still under way at the end equal the
   draws started plus one already under way at the beginning.
   */
  lemma {:induction false} CompletionOncePerDraw(e: Engine, evs: seq<Event>)
    ensures var t := Run(e, evs);
      |t.reported| + Active(t.final) == Active(e) + t.starts
    decreases |evs|
  {
    if |evs| > 0 {
      CompletionOncePerDraw(Step(e, evs[0]).next, evs[1..]);
    }
  }

  /** Adds one to every position. */
  function Shift(js: seq<nat>): (r: seq<nat>)
    ensures |r| == |js|
    ensures forall i :: 0 <= i < |js| ==> r[i] == js[i] + 1
  {
    seq(|js|, i requires 0 <= i < |js| => js[i] + 1)
  }

  /**
   The positions in `evs` of the presses that find the start button shown and
   enabled, in order: the presses that start a draw.
   */
  function EnabledPresses(e: Engine, evs: seq<Event>): (r: seq<nat>)
    ensures forall i :: 0 <= i < |r| ==> r[i] < |evs| && evs[r[i]].Press?
    ensures forall i, k :: 0 <= i < k < |r| ==> r[i] < r[k]
    decreases |evs|
  {
    if |evs| == 0 then []
    else
      var rest := EnabledPresses(Step(e, evs[0]).next, evs[1..]);
      assert forall i :: 0 <= i < |rest| ==> evs[rest[i] + 1] == evs[1..][rest[i]];
      var later := Shift(rest);
      if evs[0].Press? && StartButtonEnabled(e, evs[0].eligible) then [0] + later else later
  }

  /** `EnabledPresses` on a non-empty run, one step unfolded. */
  lemma EnabledPressesCons(e: Engine, evs: seq<Event>)
    requires |evs| > 0
    ensures var later := Shift(EnabledPresses(Step(e, evs[0]).next, evs[1..]));
      EnabledPresses(e, evs) ==
        if evs[0].Press? && StartButtonEnabled(e, evs[0].eligible) then [0] + later else later
  {
  }

  lemma ShiftMembership(js: seq<nat>, j: nat)
    ensures j in Shift(js) <==> j > 0 && j - 1 in js
  {
    var r := Shift(js);
    if j in r {
      var k :| 0 <= k < |r| && r[k] == j;
      assert js[k] == j - 1;
    }
    if j > 0 && j - 1 in js {
      var k :| 0 <= k < |js| && js[k] == j - 1;
      assert r[k] == j;
    }
  }

  /** The state before event `j` is reached from the state after the first event. */
  lemma RunPrefixCons(e: Engine, evs: seq<Event>, j: nat)
    requires 0 < j <= |evs|
    ensures Run(e, evs[..j]).final == Run(Step(e, evs[0]).next, evs[1..][..j - 1]).final
  {
    assert evs[..j][0] == evs[0];
    assert evs[..j][1..] == evs[1..][..j - 1];
  }

  /** The first event is listed exactly when it is a press that finds the button enabled. */
  lemma EnabledPressesFirst(e: Engine, evs: seq<Event>)
    requires |evs| > 0
    ensures 0 in EnabledPresses(e, evs) <==> evs[0].Press? && StartButtonEnabled(e, evs[0].eligible)
  {
    EnabledPressesCons(e, evs);
    ShiftMembership(EnabledPresses(Step(e, evs[0]).next, evs[1..]), 0);
  }

  /** A later event is listed exactly when it is listed for the tail of the run. */
  lemma EnabledPressesLater(e: Engine, evs: seq<Event>, j: nat)
    requires 0 < j < |evs|
    ensures j in EnabledPresses(e, evs) <==> j - 1 in EnabledPresses(Step(e, evs[0]).next, evs[1..])
  {
    EnabledPressesCons(e, evs);
    ShiftMembership(EnabledPresses(Step(e, evs[0]).next, evs[1..]), j);
  }

  /** A position is listed exactly when the event there is a press that finds the button enabled. */
  lemma {:induction false} EnabledPressesAt(e: Engine, evs: seq<Event>, j: nat)
    requires j < |evs|
    ensures j in EnabledPresses(e, evs) <==>
      evs[j].Press? && StartButtonEnabled(Run(e, evs[..j]).final, evs[j].eligible)
    decreases j
  {
    if j == 0 {
      EnabledPressesFirst(e, evs);
      assert evs[..0] == [];
    } else {
      var next := Step(e, evs[0]).next;
      EnabledPressesLater(e, evs, j);
      EnabledPressesAt(next, evs[1..], j - 1);
      RunPrefixCons(e, evs, j);
      assert evs[1..][j - 1] == evs[j];
    }
  }

  /**
   The winners in `reported`, from position `first` on, are one per press
   listed in `presses`, in order, each on the list its press carried.
   */
  predicate WinnersMatchPresses(reported: seq<Member>, first: nat, evs: seq<Event>, presses: seq<nat>)
  {
    && |reported| <= first + |presses|
    && forall j :: 0 <= j < |presses| && first + j < |reported| ==>
         presses[j] < |evs| && evs[presses[j]].Press? && reported[first + j] in evs[presses[j]].eligible
  }

  /** Positions in the tail of a run are positions in the whole run, shifted by one. */
  lemma WinnersMatchShifted(reported: seq<Member>, first: nat, evs: seq<Event>, rest: seq<nat>)
    requires |evs| > 0
    requires WinnersMatchPresses(reported, first, evs[1..], rest)
    ensures WinnersMatchPresses(reported, first, evs, Shift(rest))
  {
    var shifted := Shift(rest);
    forall j | 0 <= j < |shifted| && first + j < |reported|
      ensures shifted[j] < |evs| && evs[shifted[j]].Press? && reported[first + j] in evs[shifted[j]].eligible
    {
      var k := rest[j];
      assert evs[k + 1] == evs[1..][k];
    }
  }

  /** A winner reported before the others belongs to the draw already under way. */
  lemma WinnersMatchCons(w: Member, reported: seq<Member>, evs: seq<Event>, presses: seq<nat>)
    requires WinnersMatchPresses(reported, 0, evs, presses)
    ensures WinnersMatchPresses([w] + reported, 1, evs, presses)
  {
    var all := [w] + reported;
    forall j | 0 <= j < |presses| && 1 + j < |all|
      ensures presses[j] < |evs| && evs[presses[j]].Press? && all[1 + j] in evs[presses[j]].eligible
    {
      assert all[1 + j] == reported[j];
    }
  }

  /** The draw under way in the tail of a run is the one the first press started. */
  lemma WinnersMatchStart(reported: seq<Member>, evs: seq<Event>, rest: seq<nat>)
    requires |evs| > 0 && evs[0].Press?
    requires WinnersMatchPresses(reported, 1, evs, rest)
    requires |reported| > 0 ==> reported[0] in evs[0].eligible
    ensures WinnersMatchPresses(reported, 0, evs, [0] + rest)
  {
    var all := [0] + rest;
    forall j | 0 <= j < |all| && j < |reported|
      ensures all[j] < |evs| && evs[all[j]].Press? && reported[j] in evs[all[j]].eligible
    {
      if j > 0 {
        assert all[j] == rest[j - 1];
      }
    }
  }

  /**
   Draws do not overlap, so the reported winners come one per draw, in order:
   first the draw already under way at the start, if any, then the draws
   started by the enabled presses of the run. Each winner is on the list
   captured by its own draw.
   */
  lemma {:induction false} ReportedWinnersWereEligible(e: Engine, evs: seq<Event>)
    requires Inv(e)
    ensures var t := Run(e, evs);
      && |EnabledPresses(e, evs)| == t.starts
      && (e.phase != Idle && |t.reported| > 0 ==> t.reported[0] in e.candidates)
      && WinnersMatchPresses(t.reported, Active(e), evs, EnabledPresses(e, evs))
    decreases |evs|
  {
    if |evs| > 0 {
      var o := Step(e, evs[0]);
      var t' := Run(o.next, evs[1..]);
      var rest := EnabledPresses(o.next, evs[1..]);
      StepPreservesInv(e, evs[0]);
      ReportedWinnersWereEligible(o.next, evs[1..]);
      EnabledPressesCons(e, evs);
      WinnersMatchShifted(t'.reported, Active(o.next), evs, rest);
      if o.completed.Some? {
        WinnersMatchCons(o.completed.value, t'.reported, evs, Shift(rest));
      } else if e.phase == Idle && o.next.phase != Idle {
        WinnersMatchStart(t'.reported, evs, Shift(rest));
      }
    }
  }

  /** `k` ticks of the countdown timer. */
  function CountdownTicks(k: nat): (r: seq<Event>)
    ensures |r| == k && forall i :: 0 <= i < k ==> r[i] == CountdownTick
  {
    seq(k, _ => CountdownTick)
  }

  /** The shuffle starts on exactly the `c`-th countdown tick, `c` being the counter shown. */
  lemma {:induction false} CountdownLength(e: Engine, k: nat)
    requires Inv(e) && e.phase == CountingDown
    requires k <= e.countdown
    ensures var t := Run(e, CountdownTicks(k));
      && t.reported == [] && t.starts == 0
      && t.final.candidates == e.candidates && t.final.prize == e.prize
      && (k < e.countdown ==> t.final.phase == CountingDown && t.final.countdown == e.countdown - k)
      && (k == e.countdown ==> t.final.phase == Shuffling(0) && Inv(t.final))
    decreases k
  {
    if k > 0 {
      var o := Step(e, CountdownTick);
      StepPreservesInv(e, CountdownTick);
      assert CountdownTicks(k)[1..] == CountdownTicks(k - 1);
      if e.countdown > 1 {
        CountdownLength(o.next, k - 1);
      } else {
        assert CountdownTicks(k - 1) == [];
      }
    }
  }

  predicate AllShuffleTicks(evs: seq<Event>)
  {
    forall i :: 0 <= i < |evs| ==> evs[i].ShuffleTick?
  }

  /** The winner settles on exactly the 20th shuffle tick, chosen by that tick's final roll. */
  lemma {:induction false} ShuffleLength(e: Engine, evs: seq<Event>)
    requires Inv(e) && e.phase.Shuffling?
    requires AllShuffleTicks(evs)
    requires e.phase.iterations + |evs| <= MaxIterations
    ensures var t := Run(e, evs);
      && t.reported == [] && t.starts == 0
      && t.final.candidates == e.candidates && t.final.prize == e.prize
      && Inv(t.final)
      && (e.phase.iterations + |evs| < MaxIterations ==>
            t.final.phase == Shuffling(e.phase.iterations + |evs|))
      && (e.phase.iterations + |evs| == MaxIterations ==>
            t.final.phase == Settled(e.candidates[RandomIndex(evs[|evs| - 1].finalPick, |e.candidates|)]))
    decreases |evs|
  {
    if |evs| > 0 {
      var o := Step(e, evs[0]);
      StepPreservesInv(e, evs[0]);
      if e.phase.iterations + 1 < MaxIterations {
        assert forall i :: 0 <= i < |evs[1..]| ==> evs[1..][i] == evs[i + 1];
        ShuffleLength(o.next, evs[1..]);
        if |evs| > 1 {
          assert evs[1..][|evs[1..]| - 1] == evs[|evs| - 1];
        }
      } else {
        assert |evs| == 1;
      }
    }
  }

  /** The press followed by the countdown leaves the engine shuffling the pressed-for list. */
  lemma PressThenCountdown(e: Engine, eligible: seq<Member>, totalAmount: int)
    requires Inv(e) && e.phase == Idle
    requires |eligible| > 0
    ensures var t := Run(e, [Press(eligible, totalAmount)] + CountdownTicks(CountdownStart));
      && t.reported == [] && t.starts == 1
      && t.final.phase == Shuffling(0) && Inv(t.final)
      && t.final.candidates == eligible && t.final.prize == totalAmount
  {
    var press := [Press(eligible, totalAmount)];
    var e1 := Step(e, press[0]).next;
    assert Run(e, press) == Trace(e1, [], 1);
    StepPreservesInv(e, press[0]);
    CountdownLength(e1, 3);
    RunAppend(e, press, CountdownTicks(CountdownStart));
  }

  /** Twenty shuffle ticks and the completion timer report exactly the settled winner, then idle. */
  lemma ShuffleThenComplete(e: Engine, shuffles: seq<Event>)
    requires Inv(e) && e.phase == Shuffling(0)
    requires AllShuffleTicks(shuffles) && |shuffles| == MaxIterations
    ensures var t := Run(e, shuffles + [CompletionTimer]);
      && t.reported == [e.candidates[RandomIndex(shuffles[MaxIterations - 1].finalPick, |e.candidates|)]]
      && t.starts == 0
      && t.final.phase == Idle && Inv(t.final)
  {
    ShuffleLength(e, shuffles);
    var e3 := Run(e, shuffles).final;
    var w := e.candidates[RandomIndex(shuffles[MaxIterations - 1].finalPick, |e.candidates|)];
    assert e3.phase == Settled(w);
    var o := Step(e3, CompletionTimer);
    assert Run(o.next, []) == Trace(o.next, [], 0);
    assert Run(e3, [CompletionTimer]) == Trace(o.next, [w], 0);
    RunAppend(e, shuffles, [CompletionTimer]);
    StepPreservesInv(e3, CompletionTimer);
  }

  /**
   A whole draw from Idle: the press, three countdown ticks, twenty shuffle
   ticks and the completion timer. Exactly one winner is reported, it is the
   eligible member picked by the last tick's final roll, and the engine is
   back in Idle.
   */
  lemma DrawLifecycle(e: Engine, eligible: seq<Member>, totalAmount: int, shuffles: seq<Event>)
    requires Inv(e) && e.phase == Idle
    requires |eligible| > 0
    requires AllShuffleTicks(shuffles) && |shuffles| == MaxIterations
    ensures var t := Run(e, [Press(eligible, totalAmount)] + CountdownTicks(CountdownStart) + (shuffles + [CompletionTimer]));
      && t.reported == [eligible[RandomIndex(shuffles[MaxIterations - 1].finalPick, |eligible|)]]
      && t.reported[0] in eligible
      && t.starts == 1
      && t.final.phase == Idle && Inv(t.final)
  {
    var first := [Press(eligible, totalAmount)] + CountdownTicks(CountdownStart);
    PressThenCountdown(e, eligible, totalAmount);
    ShuffleThenComplete(Run(e, first).final, shuffles);
    RunAppend(e, first, shuffles + [CompletionTimer]);
  }
}
