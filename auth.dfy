/**
 * The identity resolver (lib/auth.ts): one auth token kept in device storage
 * under a fixed key, and the user and couple it resolves to.
 *
 * The `users` and `couples` answers and the clock reading are parameters.
 */
module Auth {
  import opened Common
  import opened Tables
  import opened Security

  /** What resolving the stored token gives: the user, and what storage holds afterwards. */
  datatype Resolution = Resolution(user: Option<User>, storedAfter: Option<string>)

  /** `getCurrentUser()` as a function of the stored token, the `users` answer and `now`.
    * No token (or the empty one) gives no user and leaves storage alone; a token of the wrong
    * format or past its thirty days is cleared; otherwise the first user holding the token. */
  function ResolveUser(stored: Option<string>, users: Fetch<User>, now: int): (r: Resolution)
    ensures r.storedAfter == stored || r.storedAfter == None
    ensures r.user.Some? ==> stored.Some? && r.storedAfter == stored
    ensures r.user.Some? ==> users.Rows? && r.user.value in users.rows && r.user.value.authToken == stored.value
    ensures r.user.Some? ==> IsValidTokenFormat(stored.value) && !IsTokenExpired(stored.value, now)
  {
    if stored.None? || stored.value == [] then Resolution(None, stored)
    else
      var token := stored.value;
      if !IsValidTokenFormat(token) || IsTokenExpired(token, now) then Resolution(None, None)
      else match users
        case Failed => Resolution(None, stored)
        case Rows(rows) => Resolution(FirstWhere(rows, (u: User) => u.authToken == token), stored)
  }

  /** With nothing stored there is no user, and storage stays empty. */
  lemma NoTokenNoUser(users: Fetch<User>, now: int)
    ensures ResolveUser(None, users, now) == Resolution(None, None)
  {
  }

  /** A stored token that is malformed or expired is removed, and there is no user. */
  lemma BadTokenCleared(token: string, users: Fetch<User>, now: int)
    requires token != []
    requires !IsValidTokenFormat(token) || IsTokenExpired(token, now)
    ensures ResolveUser(Some(token), users, now) == Resolution(None, None)
  {
  }

  /** A valid, unexpired token resolves to the first user holding it; storage keeps it. */
  lemma GoodTokenResolves(token: string, rows: seq<User>, now: int)
    requires IsValidTokenFormat(token) && !IsTokenExpired(token, now)
    ensures ResolveUser(Some(token), Rows(rows), now) ==
            Resolution(FirstWhere(rows, (u: User) => u.authToken == token), Some(token))
  {
  }

  /** A token issued at `timestamp` with a base64url random part free of `_` logs its holder in until
    * thirty days have passed, when that holder is the only row carrying it. */
  lemma IssuedTokenLogsIn(timestamp: nat, randomPart: string, rows: seq<User>, k: nat, now: int)
    requires |randomPart| > 0 && AllTokenChars(randomPart) && '_' !in randomPart
    requires now <= timestamp + ThirtyDaysMs
    requires k < |rows| && rows[k].authToken == GenerateAuthToken(timestamp, randomPart)
    requires forall i :: 0 <= i < |rows| && i != k ==> rows[i].authToken != rows[k].authToken
    ensures ResolveUser(Some(GenerateAuthToken(timestamp, randomPart)), Rows(rows), now).user == Some(rows[k])
  {
    var token := GenerateAuthToken(timestamp, randomPart);
    GeneratedTokenFormatValid(timestamp, randomPart);
    FreshTokenUnexpired(timestamp, randomPart, now);
    var m := FirstWhere(rows, (u: User) => u.authToken == token);
    assert m.Some?;
    var i :| 0 <= i < |rows| && rows[i] == m.value && rows[i].authToken == token;
    assert i == k;
  }

  /** A token whose random part holds `_` resolves to no user and is cleared, the moment it is issued. */
  lemma UnderscoreTokenLoggedOut(timestamp: nat, randomPart: string, users: Fetch<User>, now: int)
    requires '_' in randomPart
    ensures ResolveUser(Some(GenerateAuthToken(timestamp, randomPart)), users, now) == Resolution(None, None)
  {
    UnderscoreInRandomPartExpires(timestamp, randomPart, now);
  }

  /** `getCurrentCouple()` after the user is resolved: the first couple whose id is the user's
    * `couple_id`; none without a user or when the query fails. */
  function CoupleOf(user: Option<User>, couples: Fetch<Couple>): (r: Option<Couple>)
    ensures user.None? || couples.Failed? ==> r.None?
    ensures r.Some? ==> r.value in couples.rows && r.value.id == user.value.coupleId
    ensures r.Some? ==> exists i :: 0 <= i < |couples.rows| && couples.rows[i] == r.value
                                  && forall j :: 0 <= j < i ==> couples.rows[j].id != user.value.coupleId
    ensures user.Some? && couples.Rows? && r.None? ==>
              forall i :: 0 <= i < |couples.rows| ==> couples.rows[i].id != user.value.coupleId
  {
    match user
    case None => None
    case Some(u) =>
      match couples
      case Failed => None
      case Rows(rows) => FirstWhere(rows, (c: Couple) => c.id == u.coupleId)
  }

  /** Device storage under the key `bet_platform_auth_token`. */
  class AuthStorage {
    var token: Option<string>

    constructor(initial: Option<string>)
      ensures token == initial
    {
      token := initial;
    }

    /** `storeAuthToken(token)`. */
    method StoreAuthToken(t: string)
      modifies this
      ensures token == Some(t)
    {
      token := Some(t);
    }

    /** `clearAuthToken()`. */
    method ClearAuthToken()
      modifies this
      ensures token == None
    {
      token := None;
    }

    /** `logout()`: clears the stored token. */
    method Logout()
      modifies this
      ensures token == None
    {
      ClearAuthToken();
    }

    /** `getCurrentUser()`: resolves the stored token, clearing it when it is malformed or expired. */
    method GetCurrentUser(users: Fetch<User>, now: int) returns (user: Option<User>)
      modifies this
      ensures user == ResolveUser(old(token), users, now).user
      ensures token == ResolveUser(old(token), users, now).storedAfter
    {
      if token.None? || token.value == [] {
        return None;
      }
      var t := token.value;
      if !IsValidTokenFormat(t) || IsTokenExpired(t, now) {
        ClearAuthToken();
        return None;
      }
      match users {
        case Failed =>
          user := None;
        case Rows(rows) =>
          user := FirstWhere(rows, (u: User) => u.authToken == t);
      }
    }

    /** `getCurrentCouple()`. */
    method GetCurrentCouple(users: Fetch<User>, couples: Fetch<Couple>, now: int) returns (couple: Option<Couple>)
      modifies this
      ensures couple == CoupleOf(ResolveUser(old(token), users, now).user, couples)
      ensures token == ResolveUser(old(token), users, now).storedAfter
    {
      var user := GetCurrentUser(users, now);
      if user.None? {
        return None;
      }
      match couples {
        case Failed =>
          couple := None;
        case Rows(rows) =>
          couple := FirstWhere(rows, (c: Couple) => c.id == user.value.coupleId);
      }
    }

    /** `isAuthenticated()`: whether a user resolves. */
    method IsAuthenticated(users: Fetch<User>, now: int) returns (b: bool)
      modifies this
      ensures b <==> ResolveUser(old(token), users, now).user.Some?
      ensures token == ResolveUser(old(token), users, now).storedAfter
    {
      var user := GetCurrentUser(users, now);
      b := user.Some?;
    }

    /** `loginWithToken(t)`: stores `t`, then resolves it. */
    method LoginWithToken(t: string, users: Fetch<User>, now: int) returns (user: Option<User>)
      modifies this
      ensures user == ResolveUser(Some(t), users, now).user
      ensures token == ResolveUser(Some(t), users, now).storedAfter
      ensures t != [] && IsTokenExpired(t, now) ==> user.None? && token.None?
    {
      StoreAuthToken(t);
      user := GetCurrentUser(users, now);
    }
  }
}
