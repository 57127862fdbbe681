/**
 * The home screen's handlers (app/tabs/index.tsx): loading the couple's active
 * bets and the statistics block, concluding a bet and deleting one.
 *
 * The couple id (what `getCurrentCoupleId()` gives), the `bets` answer, the
 * clock and whether a write reaches the backend are parameters.
 */
module Home {
  import opened Common
  import opened Tables

  /** `concluded_by_id` written by `concludeBet`: the fixed id of "You". */
  const YouId: string := "00000000-0000-0000-0000-000000000001"

  datatype HomeStats = HomeStats(totalWins: nat, totalAmount: real, winRate: real, currentStreak: int)

  /** `reduce((sum, bet) => sum + bet.amount, 0)`. */
  function SumAmounts(bets: seq<Bet>): real
  {
    if bets == [] then 0.0 else bets[0].amount + SumAmounts(bets[1..])
  }

  lemma {:induction false} SumConcat(a: seq<Bet>, b: seq<Bet>)
    ensures SumAmounts(a + b) == SumAmounts(a) + SumAmounts(b)
  {
    if a == [] {
      assert a + b == b;
    } else {
      SumConcat(a[1..], b);
      assert (a + b)[1..] == a[1..] + b;
    }
  }

  /** The concluded bets the creator won. */
  function CreatorWins(concluded: seq<Bet>): (r: seq<Bet>)
    ensures |r| <= |concluded|
    ensures forall i :: 0 <= i < |r| ==> CreatorWon(r[i])
    ensures forall b :: b in r <==> b in concluded && CreatorWon(b)
  {
    FilterMembers(concluded, CreatorWon);
    Filter(concluded, CreatorWon)
  }

  /** The statistics block of `loadAllData`, over the couple's concluded bets. */
  function ComputeHomeStats(concluded: seq<Bet>): (st: HomeStats)
    ensures st.totalWins <= |concluded|
    ensures 0.0 <= st.winRate <= 100.0
    ensures concluded == [] ==> st.winRate == 0.0
    ensures st.totalWins == |concluded| && concluded != [] ==> st.winRate == 100.0
    ensures st.currentStreak == 0
  {
    var wins := CreatorWins(concluded);
    var n := |concluded|;
    if n > 0 then
      RatioBounds(|wins|, n);
      HomeStats(|wins|, SumAmounts(wins), (|wins| as real / n as real) * 100.0, 0)
    else HomeStats(|wins|, SumAmounts(wins), 0.0, 0)
  }

  /** A part over a positive whole is at most 1, and exactly 1 when it is the whole. */
  lemma RatioBounds(w: nat, n: nat)
    requires 0 < n && w <= n
    ensures 0.0 <= w as real / n as real <= 1.0
    ensures w == n ==> w as real / n as real == 1.0
  {
  }

  /** The wins and the amount won are the sums over the bets one by one. */
  lemma StatsOfConcat(a: seq<Bet>, b: seq<Bet>)
    ensures |CreatorWins(a + b)| == |CreatorWins(a)| + |CreatorWins(b)|
    ensures SumAmounts(CreatorWins(a + b)) == SumAmounts(CreatorWins(a)) + SumAmounts(CreatorWins(b))
  {
    FilterConcat(a, b, CreatorWon);
    SumConcat(CreatorWins(a), CreatorWins(b));
  }

  /** Taking one row out of a sequence takes it out of its multiset. */
  lemma RemoveAtMultiset(b: seq<Bet>, k: nat)
    requires k < |b|
    ensures multiset(b[..k] + b[k + 1..]) == multiset(b) - multiset{b[k]}
  {
    assert b == b[..k] + [b[k]] + b[k + 1..];
  }

  /** The wins of a sequence are those of one of its rows plus those of the rest. */
  lemma WinsAround(b: seq<Bet>, k: nat)
    requires k < |b|
    ensures |CreatorWins(b)| == |CreatorWins([b[k]])| + |CreatorWins(b[..k] + b[k + 1..])|
    ensures SumAmounts(CreatorWins(b)) == SumAmounts(CreatorWins([b[k]])) + SumAmounts(CreatorWins(b[..k] + b[k + 1..]))
  {
    assert b == b[..k] + ([b[k]] + b[k + 1..]);
    StatsOfConcat(b[..k], [b[k]] + b[k + 1..]);
    StatsOfConcat([b[k]], b[k + 1..]);
    StatsOfConcat(b[..k], b[k + 1..]);
  }

  /** Where `x` occurs in `s`. */
  function IndexOf(s: seq<Bet>, x: Bet): (k: nat)
    requires x in multiset(s)
    ensures k < |s| && s[k] == x
  {
    if s[0] == x then 0 else
      assert s == [s[0]] + s[1..];
      1 + IndexOf(s[1..], x)
  }

  lemma {:induction false} WinsIgnoreOrder(a: seq<Bet>, b: seq<Bet>)
    requires multiset(a) == multiset(b)
    ensures |CreatorWins(a)| == |CreatorWins(b)|
    ensures SumAmounts(CreatorWins(a)) == SumAmounts(CreatorWins(b))
    decreases |a|
  {
    assert |a| == |multiset(a)| == |b|;
    if a != [] {
      var k := IndexOf(b, a[0]);
      var rest := b[..k] + b[k + 1..];
      RemoveAtMultiset(b, k);
      assert multiset(a[1..]) == multiset(a) - multiset{a[0]} by {
        assert a == [a[0]] + a[1..];
      }
      WinsIgnoreOrder(a[1..], rest);
      WinsAround(b, k);
      StatsOfConcat([a[0]], a[1..]);
      assert a == [a[0]] + a[1..];
    }
  }

  /** The order the backend returns the concluded bets in does not matter to the statistics. */
  lemma StatsIgnoreOrder(a: seq<Bet>, b: seq<Bet>)
    requires multiset(a) == multiset(b)
    ensures ComputeHomeStats(a) == ComputeHomeStats(b)
  {
    assert |a| == |multiset(a)| == |b|;
    WinsIgnoreOrder(a, b);
  }

  /** `.eq('status', 'active').eq('couple_id', id).order('created_at', { ascending: false })` */
  function ActiveBetsOf(bets: seq<Bet>, coupleId: string): seq<Bet>
  {
    SortDesc(Filter(bets, (b: Bet) => b.status == Active && b.coupleId == Some(coupleId)), CreatedAt)
  }

  /** `.eq('status', 'concluded').eq('couple_id', id)` */
  function ConcludedOf(bets: seq<Bet>, coupleId: string): seq<Bet>
  {
    Filter(bets, (b: Bet) => b.status == Concluded && b.coupleId == Some(coupleId))
  }

  /** The displayed list holds exactly the couple's active bets, newest first. */
  lemma ActiveListing(bets: seq<Bet>, coupleId: string)
    ensures forall b :: b in ActiveBetsOf(bets, coupleId) <==> b in bets && b.status == Active && b.coupleId == Some(coupleId)
    ensures SortedDesc(ActiveBetsOf(bets, coupleId), CreatedAt)
  {
    var p := (b: Bet) => b.status == Active && b.coupleId == Some(coupleId);
    FilterMembers(bets, p);
    forall b ensures b in ActiveBetsOf(bets, coupleId) <==> b in Filter(bets, p) {
      SortDescMembers(Filter(bets, p), CreatedAt, b);
    }
  }

  /** `update({ status: 'concluded', winner_option, concluded_at, concluded_by_id }).eq('id', id)`:
    * no check of the row's current status or of who concludes it. */
  function ConcludeRows(bets: seq<Bet>, id: string, winner: Choice, now: int): (r: seq<Bet>)
    ensures |r| == |bets|
    ensures forall i :: 0 <= i < |bets| && bets[i].id != id ==> r[i] == bets[i]
    ensures forall i :: 0 <= i < |bets| && bets[i].id == id ==>
              r[i] == bets[i].(status := Concluded, winnerOption := Some(winner), concludedAt := Some(now),
                               concludedById := Some(YouId))
  {
    UpdateWhere(bets, (b: Bet) => b.id == id,
      (b: Bet) => b.(status := Concluded, winnerOption := Some(winner), concludedAt := Some(now),
                     concludedById := Some(YouId)))
  }

  /** Concluding again overwrites the earlier outcome: the last call alone decides the row. */
  lemma ConcludeOverwrites(bets: seq<Bet>, id: string, w1: Choice, t1: int, w2: Choice, t2: int)
    ensures ConcludeRows(ConcludeRows(bets, id, w1, t1), id, w2, t2) == ConcludeRows(bets, id, w2, t2)
  {
    var once := ConcludeRows(bets, id, w1, t1);
    var twice := ConcludeRows(once, id, w2, t2);
    var direct := ConcludeRows(bets, id, w2, t2);
    forall i | 0 <= i < |bets| ensures twice[i] == direct[i] {
      assert once[i].id == bets[i].id;
    }
  }

  /** A concluded bet leaves the active listing. */
  lemma ConcludedLeavesActive(bets: seq<Bet>, id: string, winner: Choice, now: int, coupleId: string)
    ensures forall b :: b in ActiveBetsOf(ConcludeRows(bets, id, winner, now), coupleId) ==> b.id != id
  {
    ActiveListing(ConcludeRows(bets, id, winner, now), coupleId);
  }

  /** `delete().eq('id', id)`: every row with that id goes, the others stay in order. */
  function DeleteRows(bets: seq<Bet>, id: string): (r: seq<Bet>)
    ensures forall i :: 0 <= i < |r| ==> r[i].id != id
  {
    Filter(bets, (b: Bet) => b.id != id)
  }

  /** Deleting removes exactly the rows with that id. */
  lemma DeleteRowsMembers(bets: seq<Bet>, id: string)
    ensures forall b :: b in DeleteRows(bets, id) <==> b in bets && b.id != id
  {
    FilterMembers(bets, (b: Bet) => b.id != id);
  }

  /** Deleting an id no row has changes nothing. */
  lemma {:induction false} DeleteAbsent(bets: seq<Bet>, id: string)
    requires forall i :: 0 <= i < |bets| ==> bets[i].id != id
    ensures DeleteRows(bets, id) == bets
  {
    if bets != [] {
      DeleteAbsent(bets[1..], id);
      assert bets == [bets[0]] + bets[1..];
    }
  }

  /** Deleting splits around the removed rows: what precedes and what follows keep their order. */
  lemma DeleteKeepsOrder(bets: seq<Bet>, k: nat, id: string)
    requires k < |bets| && bets[k].id == id
    ensures DeleteRows(bets, id) == DeleteRows(bets[..k], id) + DeleteRows(bets[k + 1..], id)
  {
    assert bets == bets[..k] + ([bets[k]] + bets[k + 1..]);
    FilterConcat(bets[..k], [bets[k]] + bets[k + 1..], (b: Bet) => b.id != id);
    FilterConcat([bets[k]], bets[k + 1..], (b: Bet) => b.id != id);
    assert Filter([bets[k]], (b: Bet) => b.id != id) == [];
  }

  /** The home screen's state. */
  class HomeScreen {
    var activeBets: seq<Bet>
    var stats: HomeStats
    var selectedBet: Option<Bet>
    var modalVisible: bool
    var deletingBetId: Option<string>
    var forceRefresh: nat

    constructor()
      ensures activeBets == [] && stats == HomeStats(0, 0.0, 0.0, 0)
      ensures selectedBet == None && !modalVisible && deletingBetId == None && forceRefresh == 0
    {
      activeBets, stats := [], HomeStats(0, 0.0, 0.0, 0);
      selectedBet, modalVisible, deletingBetId, forceRefresh := None, false, None, 0;
    }

    /** `loadAllData()`: without a couple id, or when a query fails, nothing changes; otherwise the
      * active listing and the statistics are replaced. */
    method LoadAllData(coupleId: Option<string>, bets: Fetch<Bet>)
      modifies this
      ensures coupleId.None? || coupleId.value == [] || bets.Failed? ==>
                activeBets == old(activeBets) && stats == old(stats)
      ensures coupleId.Some? && coupleId.value != [] && bets.Rows? ==>
                activeBets == ActiveBetsOf(bets.rows, coupleId.value)
                && stats == ComputeHomeStats(ConcludedOf(bets.rows, coupleId.value))
      ensures selectedBet == old(selectedBet) && modalVisible == old(modalVisible)
      ensures deletingBetId == old(deletingBetId) && forceRefresh == old(forceRefresh)
    {
      if coupleId.None? || coupleId.value == [] {
        return;
      }
      match bets {
        case Failed =>
        case Rows(rows) =>
          var active := ActiveBetsOf(rows, coupleId.value);
          var concluded := ConcludedOf(rows, coupleId.value);
          activeBets := active;
          stats := ComputeHomeStats(concluded);
      }
    }

    /** `concludeBet(bet, winner)`: the row update; on success the modal closes and the screen reloads. */
    method ConcludeBet(db: Backend, bet: Bet, winner: Choice, now: int, up: bool, coupleId: Option<string>)
      modifies this, db
      ensures db.users == old(db.users) && db.couples == old(db.couples)
      ensures !up ==> db.bets == old(db.bets) && activeBets == old(activeBets) && stats == old(stats)
                      && selectedBet == old(selectedBet) && modalVisible == old(modalVisible)
      ensures up ==> db.bets == ConcludeRows(old(db.bets), bet.id, winner, now)
      ensures up ==> selectedBet == None && !modalVisible
      ensures up && coupleId.Some? && coupleId.value != [] ==>
                activeBets == ActiveBetsOf(db.bets, coupleId.value)
                && stats == ComputeHomeStats(ConcludedOf(db.bets, coupleId.value))
      ensures up && (coupleId.None? || coupleId.value == []) ==> activeBets == old(activeBets) && stats == old(stats)
      ensures deletingBetId == old(deletingBetId) && forceRefresh == old(forceRefresh)
    {
      if !up {
        return;
      }
      db.bets := ConcludeRows(db.bets, bet.id, winner, now);
      modalVisible := false;
      selectedBet := None;
      LoadAllData(coupleId, Rows(db.bets));
    }

    /** `deleteBet(bet)`: the row delete; on success the bet also leaves the local list, other bets
      * keeping their order. */
    method DeleteBet(db: Backend, bet: Bet, up: bool)
      modifies this, db
      ensures db.users == old(db.users) && db.couples == old(db.couples)
      ensures !up ==> db.bets == old(db.bets) && activeBets == old(activeBets) && forceRefresh == old(forceRefresh)
      ensures up ==> db.bets == DeleteRows(old(db.bets), bet.id)
      ensures up ==> activeBets == DeleteRows(old(activeBets), bet.id) && forceRefresh == old(forceRefresh) + 1
      ensures deletingBetId == None
      ensures stats == old(stats) && selectedBet == old(selectedBet) && modalVisible == old(modalVisible)
    {
      deletingBetId := Some(bet.id);
      if up {
        db.bets := DeleteRows(db.bets, bet.id);
        activeBets := DeleteRows(activeBets, bet.id);
        forceRefresh := forceRefresh + 1;
      }
      deletingBetId := None;
    }
  }
}
