/**
 * The leaderboard (app/tabs/leaderboard.tsx): one statistics record per user,
 * filled in by a pass over every concluded bet. The pass credits position 0 of
 * the users list when the creator won and position 1 otherwise, whoever those
 * users are.
 */
module Leaderboard {
  import opened Common
  import opened Tables
  import Home
  import History

  datatype UserStats = UserStats(id: string, name: string, totalWins: nat, totalAmount: real,
                                 winRate: real, currentStreak: nat)

  /** `users.map(...)`: one all-zero record per user, in the users' order. */
  function InitialStats(users: seq<User>): seq<UserStats>
  {
    seq(|users|, i requires 0 <= i < |users| => UserStats(users[i].id, users[i].name, 0, 0.0, 0.0, 0))
  }

  /** `creatorWon ? 0 : 1`. */
  function WinnerIndex(b: Bet): nat { if CreatorWon(b) then 0 else 1 }

  /** `creatorWon ? 1 : 0`. */
  function LoserIndex(b: Bet): nat { if CreatorWon(b) then 1 else 0 }

  /** One step of the `forEach`: the winner's record, when there is one at that position, gains a
    * win, the amount and a streak step; then the loser's record, when there is one, loses its streak. */
  function Tally(stats: seq<UserStats>, b: Bet): (r: seq<UserStats>)
    ensures |r| == |stats|
    ensures forall i :: 0 <= i < |stats| && i != WinnerIndex(b) && i != LoserIndex(b) ==> r[i] == stats[i]
    ensures WinnerIndex(b) < |stats| ==>
              r[WinnerIndex(b)].totalWins == stats[WinnerIndex(b)].totalWins + 1
              && r[WinnerIndex(b)].totalAmount == stats[WinnerIndex(b)].totalAmount + b.amount
    ensures LoserIndex(b) < |stats| ==>
              r[LoserIndex(b)].currentStreak == 0 && r[LoserIndex(b)].totalWins == stats[LoserIndex(b)].totalWins
  {
    var w := WinnerIndex(b);
    var s := if w < |stats| then
               stats[w := stats[w].(totalWins := stats[w].totalWins + 1,
                                    totalAmount := stats[w].totalAmount + b.amount,
                                    currentStreak := stats[w].currentStreak + 1)]
             else stats;
    var l := LoserIndex(b);
    if l < |s| then s[l := s[l].(currentStreak := 0)] else s
  }

  /** The records after the `forEach` has visited `bets` in order. */
  function FoldTally(stats: seq<UserStats>, bets: seq<Bet>): (r: seq<UserStats>)
    ensures |r| == |stats|
    decreases |bets|
  {
    if bets == [] then stats else Tally(FoldTally(stats, bets[..|bets| - 1]), bets[|bets| - 1])
  }

  /** `(user.totalWins / totalBets) * 100`, or 0 with no bets. */
  function RateOf(wins: nat, total: nat): real
  {
    if total > 0 then (wins as real / total as real) * 100.0 else 0.0
  }

  function WithWinRates(stats: seq<UserStats>, total: nat): seq<UserStats>
  {
    seq(|stats|, i requires 0 <= i < |stats| => stats[i].(winRate := RateOf(stats[i].totalWins, total)))
  }

  /** The records `loadStats` shows: the fold and the win rates run only when some bet is concluded. */
  function Board(users: seq<User>, concluded: seq<Bet>): (r: seq<UserStats>)
    ensures |r| == |users|
  {
    if |concluded| > 0 then WithWinRates(FoldTally(InitialStats(users), concluded), |concluded|)
    else InitialStats(users)
  }

  /** The two passes of `loadStats` over a users list and the concluded bets, newest first. */
  method ComputeBoard(users: seq<User>, concluded: seq<Bet>) returns (stats: seq<UserStats>)
    ensures stats == Board(users, concluded)
  {
    stats := InitialStats(users);
    if |concluded| > 0 {
      var i := 0;
      while i < |concluded|
        invariant 0 <= i <= |concluded|
        invariant stats == FoldTally(InitialStats(users), concluded[..i])
      {
        var bet := concluded[i];
        ghost var before := stats;
        var creatorWon := bet.winnerOption == Some(bet.creatorChoice);
        var winnerIndex := if creatorWon then 0 else 1;
        var loserIndex := if creatorWon then 1 else 0;
        if winnerIndex < |stats| {
          stats := stats[winnerIndex := stats[winnerIndex].(totalWins := stats[winnerIndex].totalWins + 1,
                                                             totalAmount := stats[winnerIndex].totalAmount + bet.amount,
                                                             currentStreak := stats[winnerIndex].currentStreak + 1)];
        }
        if loserIndex < |stats| {
          stats := stats[loserIndex := stats[loserIndex].(currentStreak := 0)];
        }
        assert stats == Tally(before, bet);
        assert concluded[..i + 1][..i] == concluded[..i];
        i := i + 1;
      }
      assert concluded[..|concluded|] == concluded;
      var folded := stats;
      var totalBets := |concluded|;
      var j := 0;
      while j < |stats|
        invariant 0 <= j <= |stats| == |folded|
        invariant forall k :: 0 <= k < j ==> stats[k] == folded[k].(winRate := RateOf(folded[k].totalWins, totalBets))
        invariant forall k :: j <= k < |stats| ==> stats[k] == folded[k]
      {
        stats := stats[j := stats[j].(winRate := (stats[j].totalWins as real / totalBets as real) * 100.0)];
        j := j + 1;
      }
      assert stats == WithWinRates(folded, totalBets);
    }
  }

  /** The fold keeps every record's user and never touches positions beyond 1. */
  lemma {:induction false} FoldKeepsOthers(stats: seq<UserStats>, bets: seq<Bet>)
    ensures forall i :: 0 <= i < |stats| ==>
              FoldTally(stats, bets)[i].id == stats[i].id && FoldTally(stats, bets)[i].name == stats[i].name
              && FoldTally(stats, bets)[i].winRate == stats[i].winRate
    ensures forall i :: 2 <= i < |stats| ==> FoldTally(stats, bets)[i] == stats[i]
    decreases |bets|
  {
    if bets != [] {
      FoldKeepsOthers(stats, bets[..|bets| - 1]);
    }
  }

  /** Each record names its user, in the users' order; users beyond the first two keep zero wins,
    * amount, rate and streak. */
  lemma BoardShape(users: seq<User>, concluded: seq<Bet>)
    ensures forall i :: 0 <= i < |users| ==>
              Board(users, concluded)[i].id == users[i].id && Board(users, concluded)[i].name == users[i].name
    ensures forall i :: 2 <= i < |users| ==>
              Board(users, concluded)[i] == UserStats(users[i].id, users[i].name, 0, 0.0, 0.0, 0)
  {
    FoldKeepsOthers(InitialStats(users), concluded);
  }

  /** With two records, every bet is a win for exactly one of them. */
  lemma {:induction false} WinsPartition(stats: seq<UserStats>, bets: seq<Bet>)
    requires |stats| >= 2
    ensures FoldTally(stats, bets)[0].totalWins + FoldTally(stats, bets)[1].totalWins
            == stats[0].totalWins + stats[1].totalWins + |bets|
    decreases |bets|
  {
    if bets != [] {
      WinsPartition(stats, bets[..|bets| - 1]);
    }
  }

  /** With at least two users, the first two records' wins add up to the number of concluded bets. */
  lemma BoardWinsPartition(users: seq<User>, concluded: seq<Bet>)
    requires |users| >= 2
    ensures Board(users, concluded)[0].totalWins + Board(users, concluded)[1].totalWins == |concluded|
  {
    WinsPartition(InitialStats(users), concluded);
  }

  /** The bets a position is credited with. */
  function WonBy(bets: seq<Bet>, w: nat): (r: seq<Bet>)
    ensures forall i :: 0 <= i < |r| ==> WinnerIndex(r[i]) == w
  {
    Filter(bets, (b: Bet) => WinnerIndex(b) == w)
  }

  lemma WonBySnoc(bets: seq<Bet>, w: nat)
    requires bets != []
    ensures WonBy(bets, w) == WonBy(bets[..|bets| - 1], w) + WonBy([bets[|bets| - 1]], w)
  {
    assert bets == bets[..|bets| - 1] + [bets[|bets| - 1]];
    FilterConcat(bets[..|bets| - 1], [bets[|bets| - 1]], (b: Bet) => WinnerIndex(b) == w);
  }

  /** Position `w` (0 or 1, when it exists) gains one win and the bet's amount per bet credited to it. */
  lemma {:induction false} FoldCredits(stats: seq<UserStats>, bets: seq<Bet>, w: nat)
    requires w < |stats| && w <= 1
    ensures FoldTally(stats, bets)[w].totalWins == stats[w].totalWins + |WonBy(bets, w)|
    ensures FoldTally(stats, bets)[w].totalAmount == stats[w].totalAmount + Home.SumAmounts(WonBy(bets, w))
    decreases |bets|
  {
    if bets != [] {
      var last := bets[|bets| - 1];
      FoldCredits(stats, bets[..|bets| - 1], w);
      WonBySnoc(bets, w);
      Home.SumConcat(WonBy(bets[..|bets| - 1], w), WonBy([last], w));
      assert WonBy([last], w) == if WinnerIndex(last) == w then [last] else [];
    }
  }

  /** The number of bets at the end of `bets` that are all credited to position `w`. */
  function TrailingRun(bets: seq<Bet>, w: nat): (n: nat)
    ensures n <= |bets|
    decreases |bets|
  {
    if bets == [] || WinnerIndex(bets[|bets| - 1]) != w then 0 else 1 + TrailingRun(bets[..|bets| - 1], w)
  }

  /** A present position 0 or 1 ends the fold with a streak equal to its final unbroken run of wins,
    * when it starts from zero. */
  lemma {:induction false} FoldStreak(stats: seq<UserStats>, bets: seq<Bet>, w: nat)
    requires w < |stats| && w <= 1 && stats[w].currentStreak == 0
    ensures FoldTally(stats, bets)[w].currentStreak == TrailingRun(bets, w)
    decreases |bets|
  {
    if bets != [] {
      FoldStreak(stats, bets[..|bets| - 1], w);
    }
  }

  /** The streak shown is the length of the run of wins at the end of the pass. The pass visits the
    * bets newest first, so that run is among the earliest concluded bets. */
  lemma BoardStreak(users: seq<User>, concluded: seq<Bet>, w: nat)
    requires w < |users| && w <= 1
    ensures Board(users, concluded)[w].currentStreak == TrailingRun(concluded, w)
  {
    FoldStreak(InitialStats(users), concluded, w);
  }

  /** After a non-empty pass, the last bet's winner has a streak and its loser has none. */
  lemma LastBetStreaks(users: seq<User>, concluded: seq<Bet>)
    requires |users| >= 2 && concluded != []
    ensures Board(users, concluded)[WinnerIndex(concluded[|concluded| - 1])].currentStreak >= 1
    ensures Board(users, concluded)[LoserIndex(concluded[|concluded| - 1])].currentStreak == 0
  {
    var last := concluded[|concluded| - 1];
    BoardStreak(users, concluded, WinnerIndex(last));
    BoardStreak(users, concluded, LoserIndex(last));
  }

  /** Positions 0 and 1 are credited with the wins and amounts of the bets they won. */
  lemma BoardCredits(users: seq<User>, concluded: seq<Bet>, w: nat)
    requires w < |users| && w <= 1
    ensures Board(users, concluded)[w].totalWins == |WonBy(concluded, w)|
    ensures Board(users, concluded)[w].totalAmount == Home.SumAmounts(WonBy(concluded, w))
  {
    FoldCredits(InitialStats(users), concluded, w);
  }

  /** No record has more wins than there are concluded bets. */
  lemma BoardWinsBound(users: seq<User>, concluded: seq<Bet>, i: nat)
    requires i < |users|
    ensures Board(users, concluded)[i].totalWins <= |concluded|
  {
    if i <= 1 {
      BoardCredits(users, concluded, i);
    } else {
      BoardShape(users, concluded);
    }
  }

  lemma RateRange(wins: nat, total: nat)
    requires wins <= total
    ensures 0.0 <= RateOf(wins, total) <= 100.0
  {
    if total > 0 {
      assert wins as real / total as real <= 1.0;
    }
  }

  /** Every record's win rate is its wins over the number of concluded bets, times 100, and lies in [0, 100]. */
  lemma BoardWinRate(users: seq<User>, concluded: seq<Bet>, i: nat)
    requires i < |users|
    ensures Board(users, concluded)[i].winRate == RateOf(Board(users, concluded)[i].totalWins, |concluded|)
    ensures 0.0 <= Board(users, concluded)[i].winRate <= 100.0
  {
    BoardWinsBound(users, concluded, i);
    RateRange(Board(users, concluded)[i].totalWins, |concluded|);
    if |concluded| > 0 {
      FoldKeepsOthers(InitialStats(users), concluded);
    }
  }

  lemma FilterSame<T>(s: seq<T>, p: T -> bool, q: T -> bool)
    requires forall x :: p(x) == q(x)
    ensures Filter(s, p) == Filter(s, q)
  {
  }

  /** Position 0's record agrees with the home screen's statistics over the same bets: same wins,
    * same amount, same win rate. */
  lemma AgreesWithHome(users: seq<User>, concluded: seq<Bet>)
    requires |users| >= 1
    ensures Board(users, concluded)[0].totalWins == Home.ComputeHomeStats(concluded).totalWins
    ensures Board(users, concluded)[0].totalAmount == Home.ComputeHomeStats(concluded).totalAmount
    ensures Board(users, concluded)[0].winRate == Home.ComputeHomeStats(concluded).winRate
  {
    BoardCredits(users, concluded, 0);
    BoardWinRate(users, concluded, 0);
    FilterSame(concluded, (b: Bet) => WinnerIndex(b) == 0, CreatorWon);
  }

  /** The history screen's verdict names the position the leaderboard credits. */
  lemma AgreesWithHistory(b: Bet)
    ensures History.WinnerText(b) == "Creator won" <==> WinnerIndex(b) == 0
    ensures History.WinnerText(b) == "Approver won" <==> WinnerIndex(b) == 1
  {
  }

  /** The leaderboard screen's state. */
  class LeaderboardScreen {
    var userStats: seq<UserStats>
    var recentBets: seq<Bet>

    constructor()
      ensures userStats == [] && recentBets == []
    {
      userStats, recentBets := [], [];
    }

    /** `loadStats()`: when either query fails nothing changes; otherwise the records are rebuilt and
      * the five most recently concluded bets are kept. */
    method LoadStats(users: Fetch<User>, bets: Fetch<Bet>)
      modifies this
      ensures users.Failed? || bets.Failed? ==> userStats == old(userStats) && recentBets == old(recentBets)
      ensures users.Rows? && bets.Rows? ==>
                userStats == Board(users.rows, History.ConcludedNewestFirst(bets.rows))
                && recentBets == History.ConcludedNewestFirst(bets.rows)[..Min(5, |History.ConcludedNewestFirst(bets.rows)|)]
    {
      if users.Failed? || bets.Failed? {
        return;
      }
      var concluded := History.ConcludedNewestFirst(bets.rows);
      var stats := ComputeBoard(users.rows, concluded);
      userStats := stats;
      recentBets := concluded[..Min(5, |concluded|)];
    }
  }
}
