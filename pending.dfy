/**
 * The approvals screen (app/tabs/pending.tsx): the bets waiting for approval,
 * newest first, and the approve / decline actions. Neither action looks at the
 * bet's current status or at who is acting.
 */
module Pending {
  import opened Common
  import opened Tables
  import Home

  /** `.eq('status', 'pending').order('created_at', { ascending: false })`. */
  function PendingList(bets: seq<Bet>): seq<Bet>
  {
    SortDesc(Filter(bets, (b: Bet) => b.status == Pending), CreatedAt)
  }

  /** The list holds exactly the pending bets, as many times as the table does, newest first. */
  lemma PendingListing(bets: seq<Bet>)
    ensures forall b :: b in PendingList(bets) <==> b in bets && b.status == Pending
    ensures SortedDesc(PendingList(bets), CreatedAt)
    ensures multiset(PendingList(bets)) == multiset(Filter(bets, (b: Bet) => b.status == Pending))
  {
    var p := (b: Bet) => b.status == Pending;
    FilterMembers(bets, p);
    forall b ensures b in PendingList(bets) <==> b in Filter(bets, p) {
      SortDescMembers(Filter(bets, p), CreatedAt, b);
    }
  }

  /** `update({ status: 'active' }).eq('id', id)`: the status of the rows with that id, and nothing else. */
  function ActivateRows(bets: seq<Bet>, id: string): (r: seq<Bet>)
    ensures |r| == |bets|
    ensures forall i :: 0 <= i < |bets| && bets[i].id != id ==> r[i] == bets[i]
    ensures forall i :: 0 <= i < |bets| && bets[i].id == id ==> r[i] == bets[i].(status := Active)
  {
    UpdateWhere(bets, (b: Bet) => b.id == id, (b: Bet) => b.(status := Active))
  }

  /** An approved bet leaves the pending list. */
  lemma ApprovedLeavesPending(bets: seq<Bet>, id: string)
    ensures forall b :: b in PendingList(ActivateRows(bets, id)) ==> b.id != id
  {
    PendingListing(ActivateRows(bets, id));
  }

  /** An approved bet that belongs to a couple appears in that couple's active list on the home screen. */
  lemma ApprovedJoinsHome(bets: seq<Bet>, k: nat, coupleId: string)
    requires k < |bets| && bets[k].coupleId == Some(coupleId)
    ensures bets[k].(status := Active) in Home.ActiveBetsOf(ActivateRows(bets, bets[k].id), coupleId)
  {
    var r := ActivateRows(bets, bets[k].id);
    assert r[k] == bets[k].(status := Active);
    Home.ActiveListing(r, coupleId);
  }

  /** Approving is idempotent, and it applies to a bet of any status, concluded ones included. */
  lemma ApproveIdempotent(bets: seq<Bet>, id: string)
    ensures ActivateRows(ActivateRows(bets, id), id) == ActivateRows(bets, id)
  {
    var once := ActivateRows(bets, id);
    forall i | 0 <= i < |bets| ensures ActivateRows(once, id)[i] == once[i] {
      assert once[i].id == bets[i].id;
    }
  }

  /** A declined bet leaves the table, and so the pending list; nothing else leaves it. */
  lemma DeclinedLeavesPending(bets: seq<Bet>, id: string)
    ensures forall b :: b in PendingList(Home.DeleteRows(bets, id)) <==> b in PendingList(bets) && b.id != id
  {
    PendingListing(bets);
    PendingListing(Home.DeleteRows(bets, id));
    Home.DeleteRowsMembers(bets, id);
  }

  /** The option other than `c`. */
  function Other(c: Choice): (o: Choice)
    ensures o != c
  {
    if c == A then B else A
  }

  /** How the card names an option. */
  function Letter(c: Choice): string { if c == A then "A" else "B" }

  /** "You will get: …": always the option the creator did not choose. */
  function YouWillGet(b: Bet): (l: string)
    ensures l == Letter(Other(b.creatorChoice))
    ensures l != Letter(b.creatorChoice)
  {
    if b.creatorChoice == A then "B" else "A"
  }

  /** The approvals screen's state. */
  class PendingScreen {
    var bets: seq<Bet>

    constructor()
      ensures bets == []
    {
      bets := [];
    }

    /** `loadPendingBets()`: replaces the list, or keeps it when the query fails. */
    method LoadPendingBets(fetch: Fetch<Bet>)
      modifies this
      ensures fetch.Failed? ==> bets == old(bets)
      ensures fetch.Rows? ==> bets == PendingList(fetch.rows)
    {
      if fetch.Rows? {
        bets := PendingList(fetch.rows);
      }
    }

    /** `approveBet(bet)`: on success, the row update and a reload of the list. */
    method ApproveBet(db: Backend, bet: Bet, up: bool)
      modifies this, db
      ensures db.users == old(db.users) && db.couples == old(db.couples)
      ensures !up ==> db.bets == old(db.bets) && bets == old(bets)
      ensures up ==> db.bets == ActivateRows(old(db.bets), bet.id) && bets == PendingList(db.bets)
    {
      if up {
        db.bets := ActivateRows(db.bets, bet.id);
        LoadPendingBets(Rows(db.bets));
      }
    }

    /** `declineBet(bet)`: on success, the row delete and a reload of the list. */
    method DeclineBet(db: Backend, bet: Bet, up: bool)
      modifies this, db
      ensures db.users == old(db.users) && db.couples == old(db.couples)
      ensures !up ==> db.bets == old(db.bets) && bets == old(bets)
      ensures up ==> db.bets == Home.DeleteRows(old(db.bets), bet.id) && bets == PendingList(db.bets)
    {
      if up {
        db.bets := Home.DeleteRows(db.bets, bet.id);
        LoadPendingBets(Rows(db.bets));
      }
    }
  }
}
