# Family lucky draw — a Dafny model of its rules

The application keeps a roster of family members, each paying a fixed
contribution of ₹1000, and a history of past draws. A randomised draw picks a
winner among the members who have paid and have not won before, and appends
one entry to the history. This project models the logic the React components
contain, with no rendering:

- `roster.dfy` (module `Roster`): the page container's store
  (`src/pages/Index.tsx`). It holds the derived paid list, pool and eligible
  list, the payment toggle, and the recording of a draw.
- `lucky_draw.dfy` (module `LuckyDraw`): the draw engine
  (`src/components/LuckyDraw.tsx`) as a state machine. The states are Idle,
  CountingDown (3, 2, 1), Shuffling (20 ticks) and Settled. Events stand for
  the start button and the three timers. Every `Math.random()` value is an
  explicit `Roll` in [0, 1).
- `winner_history.dfy` (module `WinnerHistory`): total, floor-average and
  medal colours of the history view.
- `group_members.dfy` (module `GroupMembers`): paid, pending and collected
  counters, plus the per-member badge, button and toggle callback.
- `family_draw.dfy` (module `FamilyDraw`): the page wired to its engine. The
  engine's timers call back through the closures of the render in which the
  draw was started. So recording a draw reads the history length and the pool
  of that render (`App.snapshot`), and appends to the current history.
- `seqs.dfy` (module `Seqs`): order-preserving `Filter`, the counterpart of
  `Array.prototype.filter`, with its lemmas.
- `wrappers.dfy` (module `Wrappers`): `Option`, for `Member | null`.

Three behaviours of the code that a reader might not expect, all modelled as written:

- The recorded amount is the pool of the render in which the draw was started,
  not the pool when the winner is recorded. A payment toggled during a draw
  does not change the prize.
- The round recorded is the history length plus one. It is not the history
  length.
- `startDraw` itself only refuses an empty eligible list. The start button is
  what stops a second draw: it is disabled while `isDrawing` and is not
  rendered while `drawComplete`. This holds within one mounted engine only
  (see the unmount line under "## Left out").

## Model

| member | source | states |
|---|---|---|
| Roster.PaidMembers | src/pages/Index.tsx:39 | the paid list holds exactly the paid roster members, in roster order, each as many times as it occurs in the roster |
| Roster.TotalPool | src/pages/Index.tsx:40 | the pool is between 0 and one contribution per roster member |
| Roster.PoolCountsPaidPositions | src/pages/Index.tsx:39-40 | the pool equals the number of roster positions with `paid == true`, times 1000 |
| Roster.Eligible | src/pages/Index.tsx:41-43 | a member is eligible iff it is in the roster, has paid, and no history entry names it as winner; roster order is kept; eligible ≤ paid ≤ roster; an eligible record appears as many times as in the roster, an ineligible one not at all |
| Roster.NamesakeExcluded | src/pages/Index.tsx:41-43 | exclusion is by name: two members with different ids and one name are both excluded once that name has won |
| Roster.PastWinnerScenario | src/pages/Index.tsx:41-43 | two paid members, one a past winner by name: the eligible list is just the other |
| Roster.TogglePaymentStatus | src/pages/Index.tsx:45-50 | length, order, id, name and phone are kept; `paid` changes exactly at the entries whose id matches |
| Roster.ToggleTwiceRestores | src/pages/Index.tsx:45-50 | toggling the same id twice restores the roster |
| Roster.ToggleAbsentIdUnchanged | src/pages/Index.tsx:45-50 | toggling an id not in the roster leaves it unchanged |
| Roster.TogglePaidCountChange | src/pages/Index.tsx:39-50 | with unique ids, toggling a present member changes the paid count by exactly one, in the right direction |
| Roster.TogglePoolChange | src/pages/Index.tsx:39-50 | with unique ids, toggling a present member moves the pool by exactly ±1000 |
| Roster.HandleDrawComplete | src/pages/Index.tsx:57-66 | appends exactly one entry and keeps the earlier ones; the entry has round = id = snapshot length + 1, the winner's name, the snapshot's pool and the given date |
| Roster.FirstRecord | src/pages/Index.tsx:57-65 | the first draw recorded on an empty history is round 1 and pays out the pool |
| Roster.DisplayedRound | src/pages/Index.tsx:85 | the header badge shows a round of at least 1; on a well-numbered history it is the round after the last one recorded, above every recorded round |
| Roster.RecordKeepsNumbering | src/pages/Index.tsx:57-66 | recording keeps rounds and ids numbered 1, 2, 3, …; the recorded round is the round the header showed; the header then moves on by one |
| Roster.RecordedWinnerExcluded | src/pages/Index.tsx:41-66 | after recording winner w, the eligible list is the old list minus every member named w.name; no member named w.name is eligible |
| Roster.RecordingShrinksEligible | src/pages/Index.tsx:41-66 | recording an eligible winner makes the eligible list strictly shorter |
| LuckyDraw.RandomIndex | src/components/LuckyDraw.tsx:76 | `Math.floor(Math.random() * n)`: the position i with i ≤ roll·n < i + 1, a valid position of a list of length n > 0, so each position owns the rolls in [i/n, (i+1)/n) |
| LuckyDraw.EveryPositionCanBeDrawn | src/components/LuckyDraw.tsx:76-82 | for every position i < n the roll i/n lands on i, so every eligible member can be highlighted and drawn |
| LuckyDraw.WinChance | src/components/LuckyDraw.tsx:329 | the win chance is `floor(100 / n)` for n > 0, characterised as r·n ≤ 100 < (r+1)·n, and 0 otherwise; always in [0, 100] |
| LuckyDraw.Mounted | src/components/LuckyDraw.tsx:23-26 | at mount: not drawing, no winner, not complete, countdown 0, no timer pending |
| LuckyDraw.StartButtonShown | src/components/LuckyDraw.tsx:249 | the start button is rendered exactly while no winner is on display (`!drawComplete`) |
| LuckyDraw.StartButtonEnabled | src/components/LuckyDraw.tsx:249-252 | the start button is usable when rendered, not drawing, and the eligible list is non-empty |
| LuckyDraw.StartDraw | src/components/LuckyDraw.tsx:41-54 | an empty list leaves the state unchanged and raises the "No Eligible Members" notice; otherwise drawing, no winner, not complete, countdown 3, list and prize captured |
| LuckyDraw.PressStart | src/components/LuckyDraw.tsx:249-252 | a hidden or disabled button changes nothing; an enabled one starts the countdown on the current list |
| LuckyDraw.StartOnlyWhenIdle | src/components/LuckyDraw.tsx:249-252 | in every reachable state the button is usable iff the engine is Idle and the list is non-empty |
| LuckyDraw.CountdownStep | src/components/LuckyDraw.tsx:57-66 | a countdown tick decrements a counter above 1; at 1 it sets 0 and starts the shuffle; with no countdown running it does nothing |
| LuckyDraw.ShuffleStep | src/components/LuckyDraw.tsx:69-91 | each shuffle tick highlights a member of the captured list; the 20th tick commits the final roll's member, clears `isDrawing`, sets `drawComplete` and announces winner and prize |
| LuckyDraw.CompletionStep | src/components/LuckyDraw.tsx:92-97 | the delayed timer reports the committed winner once, then clears `drawComplete` and `winner` (back to Idle) |
| LuckyDraw.Step | src/components/LuckyDraw.tsx:41-100 | only the completion timer in Settled reports a winner, the committed one, and returns to Idle; only an enabled press with a non-empty list leaves Idle; only the completion timer returns to Idle; once a draw is under way no event changes the captured list or prize |
| LuckyDraw.StepPreservesInv | src/components/LuckyDraw.tsx:23-100 | every event keeps the fields consistent with the phase (e.g. the winner shown while shuffling or settled is on the captured list) |
| LuckyDraw.RunPreservesInv | src/components/LuckyDraw.tsx:23-100 | the consistency holds after any sequence of events |
| LuckyDraw.CompletionOncePerDraw | src/components/LuckyDraw.tsx:51-97 | over any run, winners reported + a draw still running = draws started + a draw running at the start: the callback fires exactly once per draw |
| LuckyDraw.EnabledPresses | src/components/LuckyDraw.tsx:249-252 | the presses that start a draw: positions of press events, strictly increasing |
| LuckyDraw.EnabledPressesAt | src/components/LuckyDraw.tsx:249-252 | a position is listed iff the event there is a press and the button is rendered and enabled in the state reached just before it |
| LuckyDraw.ReportedWinnersWereEligible | src/components/LuckyDraw.tsx:41-97 | draws do not overlap: the enabled presses are the draws started; the first reported winner of a draw already under way is on its captured list; every later reported winner, the i-th after that, is on the eligible list carried by the i-th enabled press |
| LuckyDraw.CountdownLength | src/components/LuckyDraw.tsx:54-66 | from counter c, fewer than c ticks stay in the countdown with counter c − k; the c-th tick starts the shuffle |
| LuckyDraw.ShuffleLength | src/components/LuckyDraw.tsx:72-85 | fewer than 20 shuffle ticks stay in Shuffling without reporting; the 20th settles on the member picked by its final roll |
| LuckyDraw.PressThenCountdown | src/components/LuckyDraw.tsx:41-66 | a press on a non-empty list and three countdown ticks lead to shuffling that list |
| LuckyDraw.ShuffleThenComplete | src/components/LuckyDraw.tsx:69-97 | twenty shuffle ticks and the completion timer report exactly the settled winner and end in Idle |
| LuckyDraw.DrawLifecycle | src/components/LuckyDraw.tsx:41-100 | a whole draw from Idle starts once, reports exactly one winner drawn from the eligible list, and ends in Idle |
| WinnerHistory.TotalDistributed | src/components/WinnerHistory.tsx:20 | the total of an empty history is 0; with non-negative amounts it is non-negative |
| WinnerHistory.TotalIsSumOfAmounts | src/components/WinnerHistory.tsx:20 | the left fold equals the sum of all amounts computed from the front |
| WinnerHistory.AppendRaisesTotal | src/components/WinnerHistory.tsx:20 | appending an entry with amount a raises the total by exactly a |
| WinnerHistory.TotalConcat | src/components/WinnerHistory.tsx:20 | the total of two histories joined is the sum of their totals |
| WinnerHistory.AverageWinAmount | src/components/WinnerHistory.tsx:21 | the average is 0 for an empty history, else the r with r·n ≤ total < (r+1)·n (the floor) |
| WinnerHistory.TotalBetween | src/components/WinnerHistory.tsx:20 | amounts in [lo, hi] give n·lo ≤ total ≤ n·hi |
| WinnerHistory.AverageBetween | src/components/WinnerHistory.tsx:20-21 | amounts in [lo, hi] give lo ≤ average ≤ hi |
| WinnerHistory.AverageOfEqualPrizes | src/components/WinnerHistory.tsx:20-21 | if every entry has amount a, the average is a |
| WinnerHistory.MedalFor | src/components/WinnerHistory.tsx:96-101 | gold iff index 0, silver iff 1, bronze iff 2, plain iff ≥ 3 |
| WinnerHistory.Listing | src/components/WinnerHistory.tsx:89-101 | one row per entry, in storage order, each with the medal of its index |
| WinnerHistory.MedalsByPositionOnly | src/components/WinnerHistory.tsx:89-101 | medals depend only on position; gold, silver and bronze each go to at most one row |
| GroupMembers.PaidCount | src/components/GroupMembers.tsx:21 | the paid count is the number of roster positions with `paid == true` |
| GroupMembers.PendingCount | src/components/GroupMembers.tsx:22 | pending = length − paid is non-negative, adds up with paid to the length, and equals the number of unpaid members |
| GroupMembers.TotalCollected | src/components/GroupMembers.tsx:63 | "Total Collected" equals the page's pool and paid positions × 1000 |
| GroupMembers.MemberRow | src/components/GroupMembers.tsx:102-116 | the button reports the member's own id; badge and button read "Paid ₹1000"/"Mark Unpaid" when paid, "Pending ₹1000"/"Mark Paid" otherwise |
| GroupMembers.LabelsFollowPayment | src/components/GroupMembers.tsx:107-115 | two members get the same badge (and the same button) iff they have the same payment flag |
| GroupMembers.ClickRow | src/components/GroupMembers.tsx:112 | clicking row k gives member k with only its flag flipped (id, name and phone kept); with unique ids every other member stays as it was |
| GroupMembers.ClickFlipsButton | src/components/GroupMembers.tsx:112-115 | after the click the row's button offers the opposite action |
| FamilyDraw.PressFor | src/pages/Index.tsx:216-218 | a press carries the current render's eligible list and pool as the engine's props |
| FamilyDraw.Advance | src/pages/Index.tsx:214-219 | an engine event keeps the roster; only the completion timer can change the history |
| FamilyDraw.AppStep | src/pages/Index.tsx:45-66 | a toggle changes only the roster; only the completion timer changes the history |
| FamilyDraw.LoadSatisfiesInv | src/pages/Index.tsx:26-35 | a page loaded with a well-numbered history satisfies the page invariant |
| FamilyDraw.AdvancePreservesInv | src/pages/Index.tsx:39-66 | engine events keep the page invariant: during a draw the history is unchanged and the engine holds that render's eligible list and pool |
| FamilyDraw.AppStepPreservesInv | src/pages/Index.tsx:39-66 | every page event keeps the page invariant |
| FamilyDraw.CompletionRecordsWinner | src/pages/Index.tsx:57-66 | completion appends one entry: the round shown in the header, the winner's name, the announced prize; the winner was eligible when the draw began and nobody with that name is eligible afterwards |
| FamilyDraw.OnlyCompletionRecords | src/pages/Index.tsx:45-66 | no event other than a completion in Settled changes the history |
| FamilyDraw.AllPaidPool | src/pages/Index.tsx:39-43 | with everyone paid and no history, everyone is eligible and the pool is full |
| FamilyDraw.ThreePaidMembersScenario | src/pages/Index.tsx:39-66 | three paid members, empty history: a whole draw reports one of them, and recording it gives one entry of round 1 worth 3000 |

## Left out

- Rendering, CSS classes, icons and layout: presentation only.
- The toast after a payment toggle, and the group-call toggle (`toggleGroupCall`) with its toast: neither affects the draw or the store. The draw engine's own toasts are kept as `Notice` values.
- Tabs, the hard-coded current user and the `isAdmin` prop: cosmetic.
- Timer periods (1000 ms, 150 ms, 5000 ms): each timer firing is a discrete event. A tick of a timer that is not running is a no-op.
- Timer cancellation on unmount: switching tabs mid-draw unmounts the engine but its timers keep running. The model has a single mounted engine for the whole session. In the source, a tab round trip during a draw remounts the engine with its `useState` defaults while the first draw's timers keep running, and the eligible list does not change until that draw completes, so the button is enabled again and a second draw can start on the same store. Both completions would then record round `drawHistory.length + 1` from the same length, and the second may pick the first one's winner. `WellNumbered`, `RecordedWinnerExcluded` and `AppInv` are proved for a single mounted engine only.
- `Math.random()` is an exact real in [0, 1). The rounding of the floating-point product `Math.random() * n` is not modelled.
- `new Date().toISOString()` and the date formatting in the history view: the date is an opaque string passed in with the completion event.
- JavaScript numbers are doubles. Counts and amounts are unbounded integers; with at most ten members every value involved is exact in a double.
- A shuffle tick with an empty captured list: unreachable, because the start is refused for an empty list. In the source every tick would highlight `undefined`; the 20th would then set `drawComplete` and throw at `finalWinner.name` while building the toast, so the five-second timer is never set, no winner is reported and the start button stays hidden. The model leaves the state unchanged instead.
- The mock roster and history are data, not logic. They satisfy the model's `UniqueIds` and `WellNumbered` assumptions.
- Roster.TogglePoolChange: stated only for rosters with unique ids. With duplicate ids every matching member flips, as `Roster.TogglePaymentStatus` states.
- GroupMembers.ClickRow: "only row k changes" is stated for unique ids only, for the same reason.
