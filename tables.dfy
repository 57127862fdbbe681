/**
 * The three backend tables (`users`, `couples`, `bets`) as the client sees
 * them, and the query forms the client issues against them: equality
 * filters, `data[0]` of a filtered result, update-where, delete-where and
 * `order(column, { ascending: false })`.
 */
module Tables {
  import opened Common

  datatype Choice = A | B
  datatype Status = Pending | Active | Concluded

  /** A `users` row (`lib/supabase.ts` `User`). */
  datatype User = User(id: string, name: string, coupleId: string, partnerId: Option<string>,
                       isPaired: bool, authToken: string)

  /** A `couples` row. */
  datatype Couple = Couple(id: string, coupleCode: string, createdAt: int, createdByUserId: string)

  /** A `bets` row; timestamps are milliseconds since the epoch. */
  datatype Bet = Bet(id: string, title: string, amount: real, optionA: string, optionB: string,
                     creatorId: string, creatorChoice: Choice, status: Status,
                     winnerOption: Option<Choice>, createdAt: int, concludedAt: Option<int>,
                     concludedById: Option<string>, coupleId: Option<string>)

  /** What a select returns: the matching rows, or an error from the backend. */
  datatype Fetch<T> = Rows(rows: seq<T>) | Failed

  /** Win attribution: the creator won exactly when the winning option is the one they chose. */
  predicate CreatorWon(b: Bet) { b.winnerOption == Some(b.creatorChoice) }

  /** The rows satisfying `p`, in table order (a select with equality filters). */
  function Filter<T>(s: seq<T>, p: T -> bool): (r: seq<T>)
    ensures |r| <= |s|
    ensures forall i :: 0 <= i < |r| ==> p(r[i])
  {
    if s == [] then [] else (if p(s[0]) then [s[0]] else []) + Filter(s[1..], p)
  }

  /** The filtered rows are exactly the rows satisfying `p`. */
  lemma {:induction false} FilterMembers<T>(s: seq<T>, p: T -> bool)
    ensures forall x :: x in Filter(s, p) <==> x in s && p(x)
  {
    if s != [] {
      FilterMembers(s[1..], p);
      assert s == [s[0]] + s[1..];
    }
  }

  lemma FilterCons<T>(x: T, s: seq<T>, p: T -> bool)
    ensures Filter([x] + s, p) == (if p(x) then [x] else []) + Filter(s, p)
  {
    assert ([x] + s)[1..] == s;
  }

  /** Filtering distributes over concatenation, so it keeps the table's relative order. */
  lemma {:induction false} FilterConcat<T>(a: seq<T>, b: seq<T>, p: T -> bool)
    ensures Filter(a + b, p) == Filter(a, p) + Filter(b, p)
  {
    if a == [] {
      assert a + b == b;
    } else {
      FilterConcat(a[1..], b, p);
      assert a == [a[0]] + a[1..];
      assert a + b == [a[0]] + (a[1..] + b);
      FilterCons(a[0], a[1..], p);
      FilterCons(a[0], a[1..] + b, p);
    }
  }

  /** Two filters may be applied in either order. */
  lemma {:induction false} FilterCommute<T>(s: seq<T>, p: T -> bool, q: T -> bool)
    ensures Filter(Filter(s, p), q) == Filter(Filter(s, q), p)
  {
    if s != [] {
      FilterCommute(s[1..], p, q);
      var h := if p(s[0]) then [s[0]] else [];
      var k := if q(s[0]) then [s[0]] else [];
      FilterConcat(h, Filter(s[1..], p), q);
      FilterConcat(k, Filter(s[1..], q), p);
    }
  }

  /** `data[0]` of a filtered select, or `null` when nothing matches. */
  function FirstWhere<T>(s: seq<T>, p: T -> bool): (r: Option<T>)
    ensures r.None? <==> forall i :: 0 <= i < |s| ==> !p(s[i])
    ensures r.Some? ==> exists i :: 0 <= i < |s| && s[i] == r.value && p(s[i]) && forall j :: 0 <= j < i ==> !p(s[j])
  {
    if s == [] then None
    else if p(s[0]) then Some(s[0])
    else
      var r := FirstWhere(s[1..], p);
      assert r.Some? ==> exists i :: 0 <= i < |s| && s[i] == r.value && p(s[i]) && forall j :: 0 <= j < i ==> !p(s[j]) by {
        if r.Some? {
          var i :| 0 <= i < |s| - 1 && s[1..][i] == r.value && p(s[1..][i]) && forall j :: 0 <= j < i ==> !p(s[1..][j]);
          assert s[i + 1] == r.value && forall j :: 0 <= j < i + 1 ==> !p(s[j]) by {
            forall j | 0 <= j < i + 1 ensures !p(s[j]) { if j > 0 { assert s[j] == s[1..][j - 1]; } }
          }
        }
      }
      r
  }

  /** The first matching row is the head of the filtered rows. */
  lemma {:induction false} FirstWhereIsFilterHead<T>(s: seq<T>, p: T -> bool)
    ensures FirstWhere(s, p) == if Filter(s, p) == [] then None else Some(Filter(s, p)[0])
  {
    if s != [] && !p(s[0]) { FirstWhereIsFilterHead(s[1..], p); }
  }

  /** `update(...).eq(...)`: every row satisfying `p` is rewritten by `f`, all others are kept as they were. */
  function UpdateWhere<T>(s: seq<T>, p: T -> bool, f: T -> T): (r: seq<T>)
    ensures |r| == |s|
    ensures forall i :: 0 <= i < |s| ==> r[i] == if p(s[i]) then f(s[i]) else s[i]
  {
    if s == [] then [] else [if p(s[0]) then f(s[0]) else s[0]] + UpdateWhere(s[1..], p, f)
  }

  /** The columns the screens order by. */
  datatype Column = CreatedAt | ConcludedAt

  function Stamp(b: Bet, col: Column): Option<int> {
    match col
    case CreatedAt => Some(b.createdAt)
    case ConcludedAt => b.concludedAt
  }

  /** `a` may be listed before `b` in a descending order that puts nulls first. */
  predicate NotBelow(a: Option<int>, b: Option<int>) {
    a.None? || (b.Some? && a.value >= b.value)
  }

  predicate SortedDesc(s: seq<Bet>, col: Column) {
    forall i, j :: 0 <= i < j < |s| ==> NotBelow(Stamp(s[i], col), Stamp(s[j], col))
  }

  function InsertDesc(x: Bet, s: seq<Bet>, col: Column): (r: seq<Bet>)
    ensures |r| == |s| + 1
    ensures multiset(r) == multiset(s) + multiset{x}
    ensures forall y :: y in r <==> y == x || y in s
  {
    if s == [] || NotBelow(Stamp(x, col), Stamp(s[0], col)) then [x] + s
    else
      assert s == [s[0]] + s[1..];
      [s[0]] + InsertDesc(x, s[1..], col)
  }

  /** Inserting into a sorted listing keeps it sorted. */
  lemma {:induction false} InsertDescSorted(x: Bet, s: seq<Bet>, col: Column)
    requires SortedDesc(s, col)
    ensures SortedDesc(InsertDesc(x, s, col), col)
  {
    if s == [] || NotBelow(Stamp(x, col), Stamp(s[0], col)) {
      var r := InsertDesc(x, s, col);
      forall i, j | 0 <= i < j < |r| ensures NotBelow(Stamp(r[i], col), Stamp(r[j], col)) {
        if i > 0 { assert r[i] == s[i - 1] && r[j] == s[j - 1]; }
        else if j > 1 { assert NotBelow(Stamp(s[0], col), Stamp(s[j - 1], col)); }
      }
    } else {
      var t := InsertDesc(x, s[1..], col);
      assert SortedDesc(s[1..], col);
      InsertDescSorted(x, s[1..], col);
      var r := [s[0]] + t;
      forall i, j | 0 <= i < j < |r| ensures NotBelow(Stamp(r[i], col), Stamp(r[j], col)) {
        if i == 0 {
          assert r[j] in t;
          if r[j] != x {
            assert r[j] in s[1..];
            var k :| 0 <= k < |s[1..]| && s[1..][k] == r[j];
            assert s[k + 1] == r[j];
          }
        } else {
          assert r[i] == t[i - 1] && r[j] == t[j - 1];
        }
      }
    }
  }

  /** `.order(col, { ascending: false })`: the same rows, latest first, rows without a stamp before all others. */
  function SortDesc(s: seq<Bet>, col: Column): (r: seq<Bet>)
    ensures SortedDesc(r, col)
    ensures multiset(r) == multiset(s)
    ensures |r| == |s|
  {
    if s == [] then []
    else
      assert s == [s[0]] + s[1..];
      InsertDescSorted(s[0], SortDesc(s[1..], col), col);
      InsertDesc(s[0], SortDesc(s[1..], col), col)
  }

  /** A listing contains exactly the rows it was built from. */
  lemma SortDescMembers(s: seq<Bet>, col: Column, b: Bet)
    ensures b in SortDesc(s, col) <==> b in s
  {
    assert b in SortDesc(s, col) <==> b in multiset(SortDesc(s, col));
  }

  /** The backend's tables, which the screens' handlers read and write. */
  class Backend {
    var users: seq<User>
    var couples: seq<Couple>
    var bets: seq<Bet>

    constructor (users0: seq<User>, couples0: seq<Couple>, bets0: seq<Bet>)
      ensures users == users0 && couples == couples0 && bets == bets0
    {
      users, couples, bets := users0, couples0, bets0;
    }
  }
}
