/**
 The counters and per-member controls of `src/components/GroupMembers.tsx`.
 */
module GroupMembers {
  import opened Seqs
  import opened Roster

  function PaidCount(members: seq<Member>): (r: nat)
    ensures r == |PaidPositions(members)|
    ensures r <= |members|
  {
    FilterLengthCountsIndices(members, IsPaid);
    |Filter(members, IsPaid)|
  }

  predicate IsUnpaid(m: Member)
  {
    !m.paid
  }

  /** Pending is computed as "everyone minus the paid", and is exactly the number of unpaid members. */
  function PendingCount(members: seq<Member>): (r: int)
    ensures r >= 0
    ensures r + PaidCount(members) == |members|
    ensures r == |Filter(members, IsUnpaid)|
  {
    FilterPartition(members, IsPaid, IsUnpaid);
    |members| - PaidCount(members)
  }

  /** The "Total Collected" card agrees with the page's prize pool. */
  function TotalCollected(members: seq<Member>): (r: int)
    ensures r == TotalPool(members)
    ensures r == |PaidPositions(members)| * Contribution
  {
    PaidCount(members) * Contribution
  }

  const PaidBadge: string := "Paid ₹1000"
  const PendingBadge: string := "Pending ₹1000"
  const MarkUnpaidLabel: string := "Mark Unpaid"
  const MarkPaidLabel: string := "Mark Paid"

  /** What one member row shows and which identifier its button reports. */
  datatype RowView = RowView(badge: string, button: string, toggleId: int)

  function MemberRow(m: Member): (r: RowView)
    ensures r.toggleId == m.id
    ensures r.badge == (if m.paid then PaidBadge else PendingBadge)
    ensures r.button == (if m.paid then MarkUnpaidLabel else MarkPaidLabel)
  {
    RowView(if m.paid then PaidBadge else PendingBadge,
            if m.paid then MarkUnpaidLabel else MarkPaidLabel,
            m.id)
  }

  /** The labels depend on the payment flag only, and they tell the two states apart. */
  lemma LabelsFollowPayment(a: Member, b: Member)
    ensures (MemberRow(a).badge == MemberRow(b).badge) <==> (a.paid == b.paid)
    ensures (MemberRow(a).button == MemberRow(b).button) <==> (a.paid == b.paid)
  {
    assert |PaidBadge| != |PendingBadge|;
    assert |MarkUnpaidLabel| != |MarkPaidLabel|;
  }

  /** Pressing the button on row `k` hands that member's identifier to the toggle command. */
  function ClickRow(members: seq<Member>, k: int): (r: seq<Member>)
    requires 0 <= k < |members|
    ensures |r| == |members|
    ensures r[k] == members[k].(paid := !members[k].paid)
    ensures UniqueIds(members) ==> forall i :: 0 <= i < |members| && i != k ==> r[i] == members[i]
  {
    TogglePaymentStatus(members, MemberRow(members[k]).toggleId)
  }

  /** After the click the row's button offers the opposite action. */
  lemma ClickFlipsButton(members: seq<Member>, k: int)
    requires 0 <= k < |members|
    ensures MemberRow(ClickRow(members, k)[k]).button != MemberRow(members[k]).button
  {
    LabelsFollowPayment(ClickRow(members, k)[k], members[k]);
  }
}
