/**
 * The couple-code directory (lib/coupleCode.ts): generating a fresh code
 * against the `couples` table, and the join / rejoin decisions.
 *
 * A query's answer is a `Fetch`: the table's rows, or a backend error. The
 * generator's random draws and the answer to each of its existence queries
 * are parameters, one per attempt.
 */
module CoupleCode {
  import opened Common
  import opened Text
  import opened Tables
  import opened Security
  import Validation

  const MaxAttempts: nat := 10

  /** `isValidCoupleCode`: the pattern `^[A-Z0-9]{6}$`. A valid code is already upper case. */
  predicate IsValidCoupleCode(code: string): (r: bool)
    ensures r ==> |code| == 6 && ToUpper(code) == code
  {
    Validation.PatternIsUpper(code);
    Validation.IsCodePattern(code)
  }

  /** A well-formed code is exactly one that `validateCoupleCode` accepts unchanged. */
  lemma ValidCodeIsFixedPoint(code: string)
    ensures IsValidCoupleCode(code) <==> Validation.ValidateCoupleCode(code) == Validation.Valid(code)
  {
    if IsValidCoupleCode(code) {
      Validation.CodePatternAccepted(code);
    }
  }

  /** The code one attempt builds from its six draws: `characters.charAt(Math.floor(Math.random() * 36))`, six times. */
  function Candidate(draw: seq<real>): (code: string)
    requires |draw| >= 6 && ValidDraws(draw)
    ensures Validation.IsCodePattern(code)
  {
    CodeAlphabetSpelled();
    seq(6, i requires 0 <= i < 6 => CodeAlphabet[DrawIndex(draw[i], 36)])
  }

  /** `isCoupleCodeExists(code)` answered from `couples`: some row has that code; a backend error counts as "exists". */
  function IsCoupleCodeExists(couples: Fetch<Couple>, code: string): (r: bool)
    ensures couples.Failed? ==> r
    ensures couples.Rows? ==> (r <==> exists i :: 0 <= i < |couples.rows| && couples.rows[i].coupleCode == code)
  {
    match couples
    case Failed => true
    case Rows(rows) =>
      var hits := Filter(rows, (c: Couple) => c.coupleCode == code);
      assert hits != [] <==> exists i :: 0 <= i < |rows| && rows[i].coupleCode == code by {
        FilterMembers(rows, (c: Couple) => c.coupleCode == code);
        if hits != [] {
          assert hits[0] in rows;
          var i :| 0 <= i < |rows| && rows[i] == hits[0];
        }
        if exists i :: 0 <= i < |rows| && rows[i].coupleCode == code {
          var i :| 0 <= i < |rows| && rows[i].coupleCode == code;
          assert rows[i] in rows;
          assert rows[i] in hits;
        }
      }
      hits != []
  }

  /** `getCoupleByCode(code)`: the first couple with that code, or `null` (also on a backend error). */
  function GetCoupleByCode(couples: Fetch<Couple>, code: string): (r: Option<Couple>)
    ensures r.None? <==> couples.Failed? || forall i :: 0 <= i < |couples.rows| ==> couples.rows[i].coupleCode != code
    ensures r.Some? ==> exists i :: 0 <= i < |couples.rows| && couples.rows[i] == r.value && r.value.coupleCode == code
                          && forall j :: 0 <= j < i ==> couples.rows[j].coupleCode != code
  {
    match couples
    case Failed => None
    case Rows(rows) => FirstWhere(rows, (c: Couple) => c.coupleCode == code)
  }

  /** On a table the backend did return, a code exists exactly when a couple can be fetched by it. */
  lemma ExistsIffFetchable(couples: Fetch<Couple>, code: string)
    requires couples.Rows?
    ensures IsCoupleCodeExists(couples, code) <==> GetCoupleByCode(couples, code).Some?
  {
  }

  /** The members of couple `coupleId` whose `is_paired` is set. */
  function PairedMembers(users: seq<User>, coupleId: string): (r: seq<User>)
    ensures forall i :: 0 <= i < |r| ==> r[i].coupleId == coupleId && r[i].isPaired
    ensures forall u :: u in r <==> u in users && u.coupleId == coupleId && u.isPaired
  {
    FilterMembers(users, (u: User) => u.coupleId == coupleId && u.isPaired);
    Filter(users, (u: User) => u.coupleId == coupleId && u.isPaired)
  }

  /** `canJoinCouple(code)`: the first couple with the code has at most one paired member;
    * false when either query fails or no couple has the code. */
  function CanJoinCouple(couples: Fetch<Couple>, users: Fetch<User>, code: string): (r: bool)
    ensures r <==> couples.Rows? && users.Rows? && GetCoupleByCode(couples, code).Some?
                   && |PairedMembers(users.rows, GetCoupleByCode(couples, code).value.id)| <= 1
  {
    match couples
    case Failed => false
    case Rows(rows) =>
      var found := Filter(rows, (c: Couple) => c.coupleCode == code);
      FirstWhereIsFilterHead(rows, (c: Couple) => c.coupleCode == code);
      if found == [] then false
      else match users
        case Failed => false
        case Rows(members) => |PairedMembers(members, found[0].id)| <= 1
  }

  /** Two paired rows in a couple put it beyond joining. */
  lemma FullCoupleCannotBeJoined(couples: Fetch<Couple>, users: seq<User>, code: string, i: nat, j: nat)
    requires GetCoupleByCode(couples, code).Some?
    requires i < j < |users|
    requires users[i].isPaired && users[i].coupleId == GetCoupleByCode(couples, code).value.id
    requires users[j].isPaired && users[j].coupleId == GetCoupleByCode(couples, code).value.id
    ensures !CanJoinCouple(couples, Rows(users), code)
  {
    var id := GetCoupleByCode(couples, code).value.id;
    FilterCountsTwo(users, (u: User) => u.coupleId == id && u.isPaired, i, j);
  }

  /** A couple with no more than one paired row can be joined, as long as both queries succeed. */
  lemma HalfCoupleCanBeJoined(couples: seq<Couple>, users: seq<User>, code: string)
    requires GetCoupleByCode(Rows(couples), code).Some?
    requires forall i, j :: 0 <= i < j < |users| && users[i].isPaired && users[j].isPaired
               ==> users[i].coupleId != GetCoupleByCode(Rows(couples), code).value.id
                   || users[j].coupleId != GetCoupleByCode(Rows(couples), code).value.id
    ensures CanJoinCouple(Rows(couples), Rows(users), code)
  {
    var id := GetCoupleByCode(Rows(couples), code).value.id;
    FilterAtMostOne(users, (u: User) => u.coupleId == id && u.isPaired);
  }

  /** A filter keeps at most one row when no two rows satisfy it. */
  lemma {:induction false} FilterAtMostOne<T>(s: seq<T>, p: T -> bool)
    requires forall i, j :: 0 <= i < j < |s| && p(s[i]) ==> !p(s[j])
    ensures |Filter(s, p)| <= 1
  {
    if s != [] {
      FilterAtMostOne(s[1..], p);
      if p(s[0]) {
        forall j | 0 <= j < |s| - 1 ensures !p(s[1..][j]) {
          assert s[1..][j] == s[j + 1];
        }
        FilterNone(s[1..], p);
      }
    }
  }

  /** A filter no row satisfies keeps nothing. */
  lemma {:induction false} FilterNone<T>(s: seq<T>, p: T -> bool)
    requires forall j :: 0 <= j < |s| ==> !p(s[j])
    ensures Filter(s, p) == []
  {
    if s != [] {
      FilterNone(s[1..], p);
    }
  }

  /** A filter keeps at least two rows when two rows satisfy it. */
  lemma {:induction false} FilterCountsTwo<T>(s: seq<T>, p: T -> bool, i: nat, j: nat)
    requires i < j < |s| && p(s[i]) && p(s[j])
    ensures |Filter(s, p)| >= 2
  {
    if i == 0 {
      FilterMembers(s[1..], p);
      assert s[j] == s[1..][j - 1];
      assert s[j] in Filter(s[1..], p);
    } else {
      FilterCountsTwo(s[1..], p, i - 1, j - 1);
    }
  }

  /** `canRejoinCouple(code, token)`: the first member of that couple holding the token is not paired;
    * false when the couple is missing, the query fails or no member holds the token. */
  function CanRejoinCouple(couples: Fetch<Couple>, users: Fetch<User>, code: string, token: string): (r: bool)
    ensures r ==> GetCoupleByCode(couples, code).Some? && users.Rows?
    ensures r ==> exists i :: 0 <= i < |users.rows| && users.rows[i].coupleId == GetCoupleByCode(couples, code).value.id
                            && users.rows[i].authToken == token && !users.rows[i].isPaired
  {
    match GetCoupleByCode(couples, code)
    case None => false
    case Some(couple) =>
      match users
      case Failed => false
      case Rows(members) =>
        match FirstWhere(members, (u: User) => u.coupleId == couple.id && u.authToken == token)
        case None => false
        case Some(member) => !member.isPaired
  }

  /** With tokens unique to one row, rejoining is allowed exactly when the token's holder is in the
    * couple and unpaired. */
  lemma RejoinWithUniqueToken(couples: Fetch<Couple>, users: seq<User>, code: string, k: nat)
    requires GetCoupleByCode(couples, code).Some?
    requires k < |users|
    requires forall i :: 0 <= i < |users| && users[i].authToken == users[k].authToken ==> i == k
    requires users[k].coupleId == GetCoupleByCode(couples, code).value.id
    ensures CanRejoinCouple(couples, Rows(users), code, users[k].authToken) <==> !users[k].isPaired
  {
    var id := GetCoupleByCode(couples, code).value.id;
    var m := FirstWhere(users, (u: User) => u.coupleId == id && u.authToken == users[k].authToken);
    assert m.Some?;
    var i :| 0 <= i < |users| && users[i] == m.value && users[i].coupleId == id && users[i].authToken == users[k].authToken;
    assert i == k;
  }

  /** `generateCoupleCode()`. A `do … while (exists && attempts < 10)` loop: each attempt draws a
    * candidate and asks whether it exists; the loop stops at the first free candidate or after the
    * tenth check, and ten attempts are a failure even when the tenth candidate was free. */
  method GenerateCoupleCode(draws: seq<seq<real>>, lookups: seq<Fetch<Couple>>)
    returns (r: Result<string, string>, attempts: nat)
    requires |draws| >= MaxAttempts && |lookups| >= MaxAttempts
    requires forall k :: 0 <= k < |draws| ==> |draws[k]| >= 6 && ValidDraws(draws[k])
    ensures 1 <= attempts <= MaxAttempts
    ensures forall k :: 0 <= k < attempts - 1 ==> IsCoupleCodeExists(lookups[k], Candidate(draws[k]))
    ensures r.Ok? <==> attempts < MaxAttempts
    ensures r.Ok? ==> r.value == Candidate(draws[attempts - 1]) && IsValidCoupleCode(r.value)
    ensures r.Ok? ==> !IsCoupleCodeExists(lookups[attempts - 1], r.value)
    ensures r.Err? <==> forall k :: 0 <= k < MaxAttempts - 1 ==> IsCoupleCodeExists(lookups[k], Candidate(draws[k]))
    ensures r.Err? ==> r.error == "Unable to generate unique couple code"
  {
    var code: string := "";
    var taken := true;
    attempts := 0;
    while taken && attempts < MaxAttempts
      invariant attempts <= MaxAttempts
      invariant attempts == 0 ==> taken
      invariant attempts > 0 ==> code == Candidate(draws[attempts - 1])
      invariant attempts > 0 ==> taken == IsCoupleCodeExists(lookups[attempts - 1], code)
      invariant forall k :: 0 <= k < attempts - 1 ==> IsCoupleCodeExists(lookups[k], Candidate(draws[k]))
      decreases MaxAttempts - attempts
    {
      code := GenerateSecureCoupleCode(6, draws[attempts]);
      assert code == Candidate(draws[attempts]);
      attempts := attempts + 1;
      taken := IsCoupleCodeExists(lookups[attempts - 1], code);
    }
    if attempts >= MaxAttempts {
      r := Err("Unable to generate unique couple code");
    } else {
      r := Ok(code);
    }
  }
}
