/**
 The state owned by the page container of `src/pages/Index.tsx`: the member
 roster, the draw history, the values derived from them on every render, and
 the two commands that change them.
 */
module Roster {
  import opened Seqs

  /** Every member contributes this many rupees per round. */
  const Contribution: int := 1000

  datatype Member = Member(id: int, name: string, paid: bool, phone: string)

  /** `winner` is a copy of the winner's name, not a reference to the member. */
  datatype HistoryEntry = HistoryEntry(id: int, winner: string, amount: int, date: string, round: int)

  datatype Store = Store(members: seq<Member>, history: seq<HistoryEntry>)

  /** Identifiers are unique in the roster (true of the initial roster; no command adds members). */
  predicate UniqueIds(members: seq<Member>)
  {
    forall i, j :: 0 <= i < j < |members| ==> members[i].id != members[j].id
  }

  /** Some history entry names `name` as its winner. */
  predicate WonBefore(name: string, history: seq<HistoryEntry>)
  {
    exists i :: 0 <= i < |history| && history[i].winner == name
  }

  predicate IsPaid(m: Member)
  {
    m.paid
  }

  predicate IsEligible(m: Member, history: seq<HistoryEntry>)
  {
    m.paid && !WonBefore(m.name, history)
  }

  function PaidMembers(members: seq<Member>): (r: seq<Member>)
    ensures IsSubsequence(r, members)
    ensures forall m :: m in r <==> m in members && m.paid
    ensures forall m :: m in members ==> multiset(r)[m] == if m.paid then multiset(members)[m] else 0
  {
    Filter(members, IsPaid)
  }

  /** The positions of paid members: the headcount the pool is defined by. */
  function PaidPositions(members: seq<Member>): set<int>
  {
    IndicesWhere(members, IsPaid)
  }

  /** The pool: one contribution per paid member. */
  function TotalPool(members: seq<Member>): (r: int)
    ensures 0 <= r <= |members| * Contribution
  {
    |PaidMembers(members)| * Contribution
  }

  /** The pool is the number of roster positions holding a paid member, times the contribution. */
  lemma PoolCountsPaidPositions(members: seq<Member>)
    ensures TotalPool(members) == |PaidPositions(members)| * Contribution
  {
    FilterLengthCountsIndices(members, IsPaid);
  }

  /** The members who may win the next draw, in roster order. */
  function Eligible(members: seq<Member>, history: seq<HistoryEntry>): (r: seq<Member>)
    ensures IsSubsequence(r, members)
    ensures forall m :: m in r <==> m in members && m.paid && !WonBefore(m.name, history)
    ensures forall m :: m in members ==>
      multiset(r)[m] == if IsEligible(m, history) then multiset(members)[m] else 0
    ensures |r| <= |PaidMembers(members)| <= |members|
  {
    FilterMonotone(members, (m: Member) => IsEligible(m, history), IsPaid);
    Filter(members, (m: Member) => IsEligible(m, history))
  }

  /** One roster entry after a toggle of `memberId`. */
  function FlipIfMatch(m: Member, memberId: int): Member
  {
    if m.id == memberId then m.(paid := !m.paid) else m
  }

  /** Flips the payment flag of every member with identifier `memberId`; nothing else changes. */
  function TogglePaymentStatus(members: seq<Member>, memberId: int): (r: seq<Member>)
    ensures |r| == |members|
    ensures forall i :: 0 <= i < |members| ==>
      && r[i].id == members[i].id
      && r[i].name == members[i].name
      && r[i].phone == members[i].phone
      && (r[i].paid != members[i].paid <==> members[i].id == memberId)
  {
    if |members| == 0 then []
    else [FlipIfMatch(members[0], memberId)] + TogglePaymentStatus(members[1..], memberId)
  }

  lemma {:induction false} ToggleTwiceRestores(members: seq<Member>, memberId: int)
    ensures TogglePaymentStatus(TogglePaymentStatus(members, memberId), memberId) == members
    decreases |members|
  {
    if |members| > 0 {
      var once := TogglePaymentStatus(members, memberId);
      assert once[1..] == TogglePaymentStatus(members[1..], memberId);
      ToggleTwiceRestores(members[1..], memberId);
      assert members == [members[0]] + members[1..];
    }
  }

  lemma {:induction false} ToggleAbsentIdUnchanged(members: seq<Member>, memberId: int)
    requires forall i :: 0 <= i < |members| ==> members[i].id != memberId
    ensures TogglePaymentStatus(members, memberId) == members
    decreases |members|
  {
    if |members| > 0 {
      ToggleAbsentIdUnchanged(members[1..], memberId);
      assert members == [members[0]] + members[1..];
    }
  }

  lemma UniqueIdsTail(members: seq<Member>)
    requires |members| > 0 && UniqueIds(members)
    ensures UniqueIds(members[1..])
    ensures forall i :: 0 <= i < |members[1..]| ==> members[1..][i].id != members[0].id
  {
    var tail := members[1..];
    forall i, j | 0 <= i < j < |tail| ensures tail[i].id != tail[j].id {
      assert tail[i] == members[i + 1] && tail[j] == members[j + 1];
    }
    forall i | 0 <= i < |tail| ensures tail[i].id != members[0].id {
      assert tail[i] == members[i + 1];
    }
  }

  /** Toggling works member by member from the front. */
  lemma ToggleCons(members: seq<Member>, memberId: int)
    requires |members| > 0
    ensures var r := TogglePaymentStatus(members, memberId);
      r[0] == FlipIfMatch(members[0], memberId) && r[1..] == TogglePaymentStatus(members[1..], memberId)
  {
  }

  /** The paid headcount counts the first member, then the rest. */
  lemma PaidCountCons(members: seq<Member>)
    requires |members| > 0
    ensures |Filter(members, IsPaid)| == (if members[0].paid then 1 else 0) + |Filter(members[1..], IsPaid)|
  {
  }

  /** Toggling the first member, whose identifier no other member shares, changes the headcount by one. */
  lemma ToggleHeadPaidChange(members: seq<Member>)
    requires UniqueIds(members) && |members| > 0
    ensures |Filter(TogglePaymentStatus(members, members[0].id), IsPaid)|
         == |Filter(members, IsPaid)| + (if members[0].paid then -1 else 1)
  {
    var id := members[0].id;
    ToggleCons(members, id);
    PaidCountCons(members);
    PaidCountCons(TogglePaymentStatus(members, id));
    UniqueIdsTail(members);
    ToggleAbsentIdUnchanged(members[1..], id);
  }

  /** A toggle that passes over the first member changes the headcount as it does on the rest. */
  lemma ToggleSkipsHead(members: seq<Member>, memberId: int)
    requires |members| > 0 && members[0].id != memberId
    ensures |Filter(TogglePaymentStatus(members, memberId), IsPaid)| - |Filter(members, IsPaid)|
         == |Filter(TogglePaymentStatus(members[1..], memberId), IsPaid)| - |Filter(members[1..], IsPaid)|
  {
    ToggleCons(members, memberId);
    PaidCountCons(members);
    PaidCountCons(TogglePaymentStatus(members, memberId));
  }

  /** `TogglePaidCountChange`, stated on the filter that `PaidMembers` applies. */
  lemma {:induction false} TogglePaidFilterChange(members: seq<Member>, k: int)
    requires UniqueIds(members)
    requires 0 <= k < |members|
    ensures |Filter(TogglePaymentStatus(members, members[k].id), IsPaid)|
         == |Filter(members, IsPaid)| + (if members[k].paid then -1 else 1)
    decreases |members|
  {
    if k == 0 {
      ToggleHeadPaidChange(members);
    } else {
      var rest := members[1..];
      UniqueIdsTail(members);
      assert rest[k - 1] == members[k];
      TogglePaidFilterChange(rest, k - 1);
      ToggleSkipsHead(members, members[k].id);
    }
  }

  /** With unique identifiers, toggling one present member changes the paid headcount by one. */
  lemma TogglePaidCountChange(members: seq<Member>, k: int)
    requires UniqueIds(members)
    requires 0 <= k < |members|
    ensures |PaidMembers(TogglePaymentStatus(members, members[k].id))|
         == |PaidMembers(members)| + (if members[k].paid then -1 else 1)
  {
    TogglePaidFilterChange(members, k);
  }

  /** With unique identifiers, toggling one present member moves the pool by exactly one contribution. */
  lemma TogglePoolChange(members: seq<Member>, k: int)
    requires UniqueIds(members)
    requires 0 <= k < |members|
    ensures TotalPool(TogglePaymentStatus(members, members[k].id))
         == TotalPool(members) + (if members[k].paid then -Contribution else Contribution)
  {
    TogglePaidCountChange(members, k);
  }

  /** The history entry numbering produced by appending one entry per draw. */
  predicate WellNumbered(history: seq<HistoryEntry>)
  {
    forall i :: 0 <= i < |history| ==> history[i].round == i + 1 && history[i].id == i + 1
  }

  /**
   Records a draw. Identifier, round and amount come from `snapshot`, the
   store as it was when the draw was started (the callback is the one captured
   by that render); the entry is appended to the `current` history.
   */
  function HandleDrawComplete(snapshot: Store, current: seq<HistoryEntry>, winner: Member, date: string)
    : (r: seq<HistoryEntry>)
    ensures |r| == |current| + 1
    ensures r[..|current|] == current
    ensures r[|current|].round == r[|current|].id == |snapshot.history| + 1
    ensures r[|current|].winner == winner.name
    ensures r[|current|].amount == TotalPool(snapshot.members)
    ensures r[|current|].date == date
  {
    var round := |snapshot.history| + 1;
    current + [HistoryEntry(round, winner.name, TotalPool(snapshot.members), date, round)]
  }

  /** The first draw recorded is round 1 and pays out the pool at its start. */
  lemma FirstRecord(snapshot: Store, winner: Member, date: string)
    requires snapshot.history == []
    ensures HandleDrawComplete(snapshot, [], winner, date)
         == [HistoryEntry(1, winner.name, TotalPool(snapshot.members), date, 1)]
  {
    var r := HandleDrawComplete(snapshot, [], winner, date);
    assert |r| == 1;
  }

  /** The round shown in the page header: the one after the last round recorded. */
  function DisplayedRound(history: seq<HistoryEntry>): (r: int)
    ensures r >= 1
    ensures WellNumbered(history) && |history| > 0 ==> r == history[|history| - 1].round + 1
    ensures WellNumbered(history) ==> forall i :: 0 <= i < |history| ==> history[i].round < r
  {
    |history| + 1
  }

  /** Recording a draw on an unchanged history keeps rounds numbered 1, 2, 3, ... and advances the header badge. */
  lemma RecordKeepsNumbering(snapshot: Store, winner: Member, date: string)
    requires WellNumbered(snapshot.history)
    ensures var after := HandleDrawComplete(snapshot, snapshot.history, winner, date);
      && WellNumbered(after)
      && after[|after| - 1].round == DisplayedRound(snapshot.history)
      && DisplayedRound(after) == DisplayedRound(snapshot.history) + 1
  {
  }

  /** After recording `winner`, the eligible list is the old one minus everyone sharing the winner's name. */
  lemma RecordedWinnerExcluded(snapshot: Store, members: seq<Member>, current: seq<HistoryEntry>, winner: Member, date: string)
    ensures var after := HandleDrawComplete(snapshot, current, winner, date);
      && Eligible(members, after) == Filter(Eligible(members, current), (m: Member) => m.name != winner.name)
      && forall m :: m in members && m.name == winner.name ==> m !in Eligible(members, after)
  {
    var after := HandleDrawComplete(snapshot, current, winner, date);
    forall m: Member
      ensures IsEligible(m, after) == (IsEligible(m, current) && m.name != winner.name)
    {
      if WonBefore(m.name, current) {
        var i :| 0 <= i < |current| && current[i].winner == m.name;
        assert after[i] == current[i];
      }
      if WonBefore(m.name, after) {
        var i :| 0 <= i < |after| && after[i].winner == m.name;
        if i < |current| {
          assert after[i] == current[i];
        }
      }
      if m.name == winner.name {
        assert after[|current|].winner == m.name;
      }
    }
    FilterFilter(members, (m: Member) => IsEligible(m, current), (m: Member) => m.name != winner.name,
                 (m: Member) => IsEligible(m, after));
  }

  /** Recording an eligible winner strictly shrinks the eligible list, so draws run out. */
  lemma RecordingShrinksEligible(snapshot: Store, members: seq<Member>, current: seq<HistoryEntry>, winner: Member, date: string)
    requires winner in Eligible(members, current)
    ensures |Eligible(members, HandleDrawComplete(snapshot, current, winner, date))| < |Eligible(members, current)|
  {
    RecordedWinnerExcluded(snapshot, members, current, winner, date);
    FilterDropsRejected(Eligible(members, current), (m: Member) => m.name != winner.name, winner);
  }

  /** Two paid members, one of whom has won before: only the other is eligible. */
  lemma PastWinnerScenario(a: Member, b: Member, history: seq<HistoryEntry>)
    requires a.paid && b.paid
    requires WonBefore(a.name, history) && !WonBefore(b.name, history)
    ensures Eligible([a, b], history) == [b]
  {
    var s := [a, b];
    assert s[1..] == [b];
    assert s[1..][1..] == [];
  }

  /** Exclusion is by name: a member who never won is excluded once a namesake has won. */
  lemma NamesakeExcluded(members: seq<Member>, history: seq<HistoryEntry>, a: Member, b: Member)
    requires a in members && b in members
    requires a.id != b.id && a.name == b.name
    requires WonBefore(a.name, history)
    ensures a !in Eligible(members, history) && b !in Eligible(members, history)
  {
  }
}
