/**
 * The history screen (app/tabs/history.tsx): the concluded bets, most recently
 * concluded first, and who each one is credited to.
 */
module History {
  import opened Common
  import opened Tables

  const Green: string := "#34C759"
  const Red: string := "#FF3B30"

  /** `.eq('status', 'concluded').order('concluded_at', { ascending: false })`: the same query the
    * leaderboard issues. */
  function ConcludedNewestFirst(bets: seq<Bet>): seq<Bet>
  {
    SortDesc(Filter(bets, (b: Bet) => b.status == Concluded), ConcludedAt)
  }

  /** The history holds exactly the concluded bets, as many times as the table does, latest first. */
  lemma HistoryListing(bets: seq<Bet>)
    ensures forall b :: b in ConcludedNewestFirst(bets) <==> b in bets && b.status == Concluded
    ensures SortedDesc(ConcludedNewestFirst(bets), ConcludedAt)
    ensures multiset(ConcludedNewestFirst(bets)) == multiset(Filter(bets, (b: Bet) => b.status == Concluded))
  {
    var p := (b: Bet) => b.status == Concluded;
    FilterMembers(bets, p);
    forall b ensures b in ConcludedNewestFirst(bets) <==> b in Filter(bets, p) {
      SortDescMembers(Filter(bets, p), ConcludedAt, b);
    }
  }

  /** `loadHistory()`: the listing is replaced by the query's rows, or kept when the query fails. */
  function LoadHistory(shown: seq<Bet>, bets: Fetch<Bet>): (r: seq<Bet>)
    ensures bets.Failed? ==> r == shown
    ensures bets.Rows? ==> forall i :: 0 <= i < |r| ==> r[i].status == Concluded && r[i] in bets.rows
    ensures bets.Rows? ==> SortedDesc(r, ConcludedAt)
    ensures bets.Rows? ==> multiset(r) == multiset(Filter(bets.rows, (b: Bet) => b.status == Concluded))
  {
    match bets
    case Failed => shown
    case Rows(rows) =>
      HistoryListing(rows);
      ConcludedNewestFirst(rows)
  }

  /** `getWinnerText(bet)`. */
  function WinnerText(b: Bet): (t: string)
    ensures t == "Creator won" <==> CreatorWon(b)
    ensures t == "Approver won" <==> !CreatorWon(b)
    ensures b.winnerOption.None? ==> t == "Approver won"
  {
    if b.winnerOption == Some(b.creatorChoice) then "Creator won" else "Approver won"
  }

  /** `getWinnerColor(bet)`: green exactly when the creator is credited. */
  function WinnerColor(b: Bet): (c: string)
    ensures c == Green <==> WinnerText(b) == "Creator won"
    ensures c == Red <==> WinnerText(b) == "Approver won"
  {
    if b.winnerOption == Some(b.creatorChoice) then Green else Red
  }
}
