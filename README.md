# betly in Dafny

A model of the logic core of betly, a React Native app in which the two members of a couple
make bets with each other. The app is a thin client over a hosted backend with three tables
(`users`, `couples`, `bets`). Its logic lives in four library modules and six screen handlers.

- **Validators** (`lib/validation.ts`, module `Validation`): `sanitizeString` and the
  name / title / option / amount / couple-code / choice / status validators. Each returns the
  sanitized value or the message the user sees.
- **Tokens and codes** (`lib/security.ts`, module `Security`): auth tokens of the form
  `token_<base36 timestamp>_<random>`, the regular-expression format check, the 30-day expiry
  check that splits on `_`, the base64url random part, and random couple codes.
- **Couple-code directory** (`lib/coupleCode.ts`, module `CoupleCode`): the bounded retry loop
  that generates a fresh code, the existence check that fails safe, and the join and rejoin
  decisions.
- **Identity resolver** (`lib/auth.ts`, module `Auth`): one token kept in device storage, and the
  user and couple it resolves to.
- **Screens** (`app/tabs/*.tsx`, modules `Home`, `Leaderboard`, `Pending`, `Create`, `Settings`,
  `History`): the bet ledger transitions (create → pending → active → concluded, decline, delete),
  the partner unlink, the renaming of a user, and the statistics each screen computes.

Shared pieces:

- `Text` holds the JavaScript string primitives the source relies on: `trim`, ASCII case mapping,
  `replace` with a character class, and `substring`.
- `Numeric` holds `toString(radix)`, `parseInt`, `parseFloat` and `Number`.
- `Tables` holds the rows, the query forms (equality filter, first row of a filter, update-where,
  delete-where, descending order) and the `Backend` class, which holds the three tables.

How the model treats the outside world:

- A query's answer is a `Fetch`: either the rows, or `Failed` for a backend error.
- Whether a write reaches the backend is a boolean parameter (`up`).
- The clock reading (`now`, in milliseconds) and the random draws are parameters.
- Storage is the `Auth.AuthStorage` class.
- Each screen is a class whose fields are the screen's React state. Its methods are the handlers.
- Every handler is stated against a specification function of the old state, and the lemmas
  beside it prove what the source promises about that function.

Some facts about the source come out of the proofs:

- **Tokens with `_` in the random part.** The base64url alphabet contains `_`, so a token whose
  random part holds one splits into more than three parts. Such a token counts as expired the
  moment it is issued, although its format is valid (`Security.UnderscoreInRandomPartExpires`,
  `Auth.UnderscoreTokenLoggedOut`).
- **A timestamp `parseInt` cannot read** gives `NaN`, and such a token never expires
  (`Security.UnreadableTimestampNeverExpires`).
- **The leaderboard streak.** The leaderboard visits the concluded bets newest first and then
  credits the trailing run of wins. So the streak it shows is the run among the *earliest*
  concluded bets (`Leaderboard.BoardStreak`).
- **Who gets credited.** The leaderboard credits list positions 0 and 1, not the bet's creator and
  approver. Position 0's totals equal the home screen's statistics over the same bets
  (`Leaderboard.AgreesWithHome`).
- **Created bets and the home screen.** `create.tsx` inserts a bet without a `couple_id`. The model
  takes the backend to store the row with no couple id. Under that assumption the bet, even once
  approved, is in no couple's active list (`Create.CreatedBetNotOnHome`).
- **Unlink can be left half done.** `unlinkPartner` clears the two rows with two separate writes.
  When the second write fails, the pairing is left one-sided
  (`Settings.HalfUnlinkBreaksSymmetry`).
- **Handlers check neither status nor identity.** Concluding overwrites any earlier outcome, and
  approving applies to a bet of any status.

The model follows the code where the two could be read differently:

- The `bets` table is a sequence of rows rather than a map keyed by id. A listing can then be
  ordered, and update and delete act on every row with the id, as the backend's `eq('id', …)` does.
- Amounts are exact reals.

## Model

| member | source | states |
|---|---|---|
| Text.Trim | lib/validation.ts:26 | `trim()` gives a part of the input that neither starts nor ends with whitespace |
| Text.TrimCutsSpaces | lib/validation.ts:26 | only whitespace is removed, before and after the trimmed part |
| Text.BlankIffAllSpace | lib/validation.ts:51 | `!s.trim()` holds exactly when every character is whitespace |
| Text.TrimIdempotent | lib/validation.ts:26 | trimming twice is trimming once |
| Text.TrimOfTrimmed | lib/validation.ts:26 | text without outer whitespace is its own trim |
| Text.TrimPadded | lib/validation.ts:144 | one space on each side of trimmed text is cut again |
| Text.Remove | lib/validation.ts:27-28 | `replace(/[..]/g, '')` leaves none of the removed characters, and every other character of the input appears in the result |
| Text.RemoveConcat | lib/validation.ts:27-28 | removal distributes over concatenation, so the kept characters stay in order and keep their multiplicity |
| Text.RemoveSingle | lib/validation.ts:27-28 | one character is dropped when it is in the class and kept otherwise |
| Text.RemoveAbsent | lib/validation.ts:27-28 | removing characters the text does not hold changes nothing |
| Text.Prefix | lib/validation.ts:29 | `substring(0, n)` is the first `min(n, length)` characters, counted in code points |
| Text.ToUpper | lib/validation.ts:144 | `toUpperCase()` maps each lower-case ASCII letter to upper case and keeps the rest |
| Text.ToLower | lib/validation.ts:167 | `toLowerCase()` maps each upper-case ASCII letter to lower case and keeps the rest |
| Numeric.ToRadixString | lib/security.ts:35 | `toString(36)` prints digits `[0-9a-z]` with no leading zero |
| Numeric.RadixRoundTrip | lib/security.ts:35 | the digits printed in a radix denote the number printed |
| Numeric.ParseIntOfDigits | lib/security.ts:62 | `parseInt` of a string of radix digits is the number the digits denote |
| Numeric.RadixParseRoundTrip | lib/security.ts:62 | `parseInt(n.toString(36), 36) == n` |
| Numeric.ParseDigits | lib/validation.ts:116 | `parseFloat` and `Number` read a string of decimal digits as its value |
| Numeric.ParseNegativeDigits | lib/validation.ts:116 | `parseFloat` reads `-` followed by digits as the negated value |
| Numeric.DecimalRoundTrip | lib/validation.ts:116 | `parseFloat` and `Number` read back a printed natural number |
| Validation.SanitizeString | lib/validation.ts:24-30 | the result has at most 1000 code points, none of them `<`, `>`, `'` or `"` |
| Validation.SanitizeTwice | lib/validation.ts:25-29 | sanitizing again only trims again |
| Validation.SanitizeNotIdempotent | lib/validation.ts:25-29 | `"< >"` sanitizes to `" "`, which sanitizes to `""` |
| Validation.ValidateField | lib/validation.ts:35-106 | empty input is "required"; valid iff the sanitized text has 1 to max code points and is not all whitespace; the value is the sanitized text |
| Validation.ValidateName | lib/validation.ts:35-56 | valid implies the sanitized name, 1 to 50 code points, with a non-whitespace character; empty gives "Name is required" |
| Validation.ValidateTitle | lib/validation.ts:61-81 | the same with bound 100 and "Title is required" |
| Validation.ValidateOption | lib/validation.ts:86-106 | the same with bound 200 and "Option is required" |
| Validation.WhitespaceNameRejected | lib/validation.ts:40-53 | `"< >"` passes the length checks and is rejected as only whitespace |
| Validation.RoundCents | lib/validation.ts:131 | the result is a whole number of cents within half a cent of the input |
| Validation.ValidateAmount | lib/validation.ts:111-134 | falsy input is "required"; valid iff the parsed amount is in (0, 1000000]; the value is that amount rounded to cents |
| Validation.NegativeAmountRejected | lib/validation.ts:116-124 | `"-5"` parses and is rejected as not greater than 0 |
| Validation.DigitAmount | lib/validation.ts:111-134 | a string of digits is judged by its value: 0 rejected, above 1000000 rejected, otherwise accepted unchanged |
| Validation.ZeroAmountRejected | lib/validation.ts:122-124 | `"0"` is rejected as not greater than 0 |
| Validation.LargeAmountRejected | lib/validation.ts:126-128 | `"2000000"` is rejected with the cap in the message |
| Validation.NonNumericAmountRejected | lib/validation.ts:116-120 | `"abc"` is not a valid number |
| Validation.EmptyAmountRejected | lib/validation.ts:112-114 | the empty string is "Amount is required" |
| Validation.WholeAmountAccepted | lib/validation.ts:111-134 | `"500"` is accepted as 500 |
| Validation.AmountRounding | lib/validation.ts:130-131 | 500.005 rounds to 500.01, and 0.004 passes the positivity check and rounds to 0 |
| Validation.ValidateCoupleCode | lib/validation.ts:139-157 | empty is "required"; valid iff the trimmed, upper-cased code is six of `[A-Z0-9]`; the value is that code |
| Validation.CodePatternAccepted | lib/validation.ts:144-156 | a code that matches the pattern is accepted unchanged |
| Validation.PaddedCodeAccepted | lib/validation.ts:144-156 | spaces around a code and lower-case letters are normalised away |
| Validation.CoupleCodeNormalised | lib/validation.ts:144 | `" x7k2m9 "` is accepted as `"X7K2M9"` |
| Validation.ValidateChoice | lib/validation.ts:162-191 | empty is "required"; valid iff the lower-cased, trimmed input is `a` or `b`, and the value is that letter |
| Validation.ValidateCreatorChoice | lib/validation.ts:162-174 | valid iff the lower-cased, trimmed input is `a` or `b`; the value is that letter |
| Validation.ValidateWinnerOption | lib/validation.ts:179-191 | valid iff the lower-cased, trimmed input is `a` or `b`; the value is that letter |
| Validation.ChoiceOfLetter | lib/validation.ts:167-173 | whatever normalises to a choice's letter validates to that choice |
| Validation.ChoiceRoundTrip | lib/validation.ts:162-191 | each choice's letter validates back to that choice |
| Validation.PaddedChoiceAccepted | lib/validation.ts:167 | an upper-case letter with spaces around it is accepted |
| Validation.ValidateBetStatus | lib/validation.ts:196-208 | empty is "required"; valid iff the lower-cased, trimmed input is `pending`, `active` or `concluded`, and the value is that status |
| Validation.StatusRoundTrip | lib/validation.ts:201-207 | each status's name validates back to that status |
| Security.DrawIndex | lib/security.ts:81 | `Math.floor(draw * size)` is an index into the alphabet |
| Security.TokenAlphabetSpelled | lib/security.ts:22 | the fallback alphabet has 64 characters and is the base64url alphabet in order |
| Security.CodeAlphabetSpelled | lib/security.ts:77 | the code alphabet has 36 characters, `A-Z` then `0-9` |
| Security.Base64Url | lib/security.ts:11 | base64url text of the bytes without padding: `ceil(4n/3)` characters over `[A-Za-z0-9_-]` |
| Security.SextetsRoundTrip | lib/security.ts:11 | the 6-bit groups of the bytes give the bytes back |
| Security.Base64UrlRoundTrip | lib/security.ts:6-18 | decoding the base64url text gives the random bytes back |
| Security.FallbackToken | lib/security.ts:21-26 | `2 * length` characters, character i from draw i, all over `[A-Za-z0-9_-]` |
| Security.GenerateSecureToken | lib/security.ts:6-28 | the token is over `[A-Za-z0-9_-]`; with a crypto source it is the base64url of the bytes and decodes back to them; otherwise `2 * length` characters |
| Security.GenerateAuthToken | lib/security.ts:34-38 | the token starts with `token_` and ends with the random part |
| Security.IsValidTokenFormat | lib/security.ts:45-48 | a token that passes has at least nine characters, the `token_` prefix and a `_` after the timestamp; `TokenFormatIsPattern` states the full iff |
| Security.TokenFormatIsPattern | lib/security.ts:45-48 | the left-to-right check accepts exactly `token_` + `[a-z0-9]+` + `_` + `[A-Za-z0-9_-]+` |
| Security.GeneratedTokenFormatValid | lib/security.ts:34-48 | a generated token with a non-empty random part over `[A-Za-z0-9_-]` has a valid format |
| Security.SplitOn | lib/security.ts:57 | `split('_')` gives at least one part, no part holds `_`, and joining the parts gives the text back |
| Security.SplitJoin | lib/security.ts:57 | joining `_`-free parts and splitting again gives the parts back |
| Security.GeneratedTokenParts | lib/security.ts:57-58 | a generated token with a `_`-free random part splits into `token`, the base36 timestamp and the random part |
| Security.IsTokenExpired | lib/security.ts:55-65 | an unexpired token splits on `_` into exactly three parts, the first `token`; `TokenExpiryWindow` states when an issued token expires |
| Security.TokenExpiryWindow | lib/security.ts:55-65 | such a token is expired iff its timestamp is below `now - 2592000000` |
| Security.FreshTokenUnexpired | lib/security.ts:62-65 | such a token stays unexpired through thirty days after issue |
| Security.UnderscoreInRandomPartExpires | lib/security.ts:57-59 | a random part holding `_` makes the token expired at any time |
| Security.ForeignTokenExpires | lib/security.ts:57-60 | text not starting with `token_` is expired |
| Security.UnreadableTimestampNeverExpires | lib/security.ts:62-65 | `token__x` never expires, and its format is invalid |
| Security.GenerateSecureCoupleCode | lib/security.ts:76-86 | `length` characters, character i from draw i; with length 6 the code matches `^[A-Z0-9]{6}$` |
| CoupleCode.IsValidCoupleCode | lib/coupleCode.ts:53-55 | a valid code has six characters and is already upper case; `ValidCodeIsFixedPoint` states the full iff |
| CoupleCode.ValidCodeIsFixedPoint | lib/coupleCode.ts:53-55 | a code matches the pattern iff `validateCoupleCode` accepts it unchanged |
| CoupleCode.Candidate | lib/coupleCode.ts:11-16 | every candidate matches `^[A-Z0-9]{6}$` |
| CoupleCode.IsCoupleCodeExists | lib/coupleCode.ts:30-50 | true on a backend error; otherwise true iff some couple has the code |
| CoupleCode.GetCoupleByCode | lib/coupleCode.ts:109-125 | none iff the query fails or no couple has the code; otherwise the first couple in the table with that code |
| CoupleCode.ExistsIffFetchable | lib/coupleCode.ts:33-45 | on returned rows, a code exists iff a couple can be fetched by it |
| CoupleCode.PairedMembers | lib/coupleCode.ts:83-87 | a user is returned iff it is in the table, belongs to the couple and is paired |
| CoupleCode.CanJoinCouple | lib/coupleCode.ts:58-106 | true iff both queries succeed, a couple has the code, and the first such couple has at most one paired member |
| CoupleCode.FullCoupleCannotBeJoined | lib/coupleCode.ts:83-101 | two paired members put a couple beyond joining |
| CoupleCode.HalfCoupleCanBeJoined | lib/coupleCode.ts:96-99 | a couple with no more than one paired member can be joined when both queries succeed |
| CoupleCode.CanRejoinCouple | lib/coupleCode.ts:128-164 | true only when the couple exists and a member of it holding the token is unpaired |
| CoupleCode.RejoinWithUniqueToken | lib/coupleCode.ts:140-159 | with unique tokens, rejoining is allowed iff the token's holder is in the couple and unpaired |
| CoupleCode.GenerateCoupleCode | lib/coupleCode.ts:4-27 | 1 to 10 attempts; success iff fewer than 10, with the first candidate found free; failure iff the first nine all exist, even when the tenth is free |
| Auth.ResolveUser | lib/auth.ts:58-97 | a user comes only from a valid, unexpired stored token and holds it; storage is kept or cleared |
| Auth.NoTokenNoUser | lib/auth.ts:60-61 | no stored token gives no user and storage stays empty |
| Auth.BadTokenCleared | lib/auth.ts:64-69 | a malformed or expired token is cleared and gives no user |
| Auth.GoodTokenResolves | lib/auth.ts:71-90 | a valid, unexpired token gives the first user holding it, and storage keeps it |
| Auth.IssuedTokenLogsIn | lib/auth.ts:58-97 | a freshly issued `_`-free token logs in the one user holding it until thirty days have passed |
| Auth.UnderscoreTokenLoggedOut | lib/auth.ts:64-69 | a token whose random part holds `_` is cleared and gives no user as soon as it is issued |
| Auth.CoupleOf | lib/auth.ts:100-124 | no couple without a user or on a failed query; otherwise the first couple in the table whose id is the user's `couple_id` |
| Auth.AuthStorage.StoreAuthToken | lib/auth.ts:22-31 | the token is stored |
| Auth.AuthStorage.ClearAuthToken | lib/auth.ts:46-55 | no token is stored |
| Auth.AuthStorage.Logout | lib/auth.ts:157-166 | no token is stored |
| Auth.AuthStorage.GetCurrentUser | lib/auth.ts:58-97 | the user and the new storage are those `ResolveUser` gives |
| Auth.AuthStorage.GetCurrentCouple | lib/auth.ts:100-124 | the couple of the resolved user, with storage as resolving leaves it |
| Auth.AuthStorage.IsAuthenticated | lib/auth.ts:127-137 | true iff a user resolves |
| Auth.AuthStorage.LoginWithToken | lib/auth.ts:140-154 | stores the token, then resolves it; an expired token gives no user and empty storage |
| Home.CreatorWins | app/tabs/index.tsx:79-81 | a bet is kept iff it is one of the concluded bets and a creator win |
| Home.SumConcat | app/tabs/index.tsx:83-85 | the summed amount of two runs of bets is the sum of their sums |
| Home.ComputeHomeStats | app/tabs/index.tsx:79-94 | wins at most the number of concluded bets; win rate in [0, 100], 0 with no bets, 100 when all were won; streak 0 |
| Home.StatsOfConcat | app/tabs/index.tsx:79-85 | wins and amount won add up over concatenated bets |
| Home.WinsIgnoreOrder | app/tabs/index.tsx:79-85 | wins and amount won do not depend on the order of the bets |
| Home.StatsIgnoreOrder | app/tabs/index.tsx:62-94 | the statistics do not depend on the order the backend returns the bets in |
| Home.ActiveListing | app/tabs/index.tsx:47-52 | the displayed list holds exactly the couple's active bets, newest first |
| Home.ConcludeRows | app/tabs/index.tsx:112-120 | the rows with the id get status, winner, time and concluder; every other row is unchanged |
| Home.ConcludeOverwrites | app/tabs/index.tsx:112-120 | concluding again overwrites the earlier outcome |
| Home.ConcludedLeavesActive | app/tabs/index.tsx:112-129 | a concluded bet leaves the active list |
| Home.DeleteRows | app/tabs/index.tsx:141-145 | no row with the id remains |
| Home.DeleteRowsMembers | app/tabs/index.tsx:141-145 | exactly the rows with the id are removed |
| Home.DeleteAbsent | app/tabs/index.tsx:141-145 | deleting an id no row has changes nothing |
| Home.DeleteKeepsOrder | app/tabs/index.tsx:158 | the rows before and after the deleted one keep their order |
| Home.HomeScreen.LoadAllData | app/tabs/index.tsx:31-102 | nothing changes without a couple id or on a failed query; otherwise the active list and the statistics are replaced |
| Home.HomeScreen.ConcludeBet | app/tabs/index.tsx:110-134 | on success the row is concluded, the modal closes and the screen reloads, keeping the list and statistics when there is no couple id; on failure nothing changes |
| Home.HomeScreen.DeleteBet | app/tabs/index.tsx:136-168 | on success the row leaves the table and the local list, and the refresh counter grows; the deleting marker is cleared either way |
| Leaderboard.Tally | app/tabs/leaderboard.tsx:52-67 | one bet: the winner's position gains a win and the amount, the loser's streak drops to 0 and its wins stay, every other position is kept |
| Leaderboard.FoldTally | app/tabs/leaderboard.tsx:52-68 | the pass over all bets keeps the number of records; `FoldCredits` and `FoldStreak` state what it computes |
| Leaderboard.Board | app/tabs/leaderboard.tsx:41-75 | one record per user; `BoardCredits` and `BoardStreak` state the totals and the streak shown |
| Leaderboard.ComputeBoard | app/tabs/leaderboard.tsx:40-75 | the two loops compute `Board` |
| Leaderboard.FoldKeepsOthers | app/tabs/leaderboard.tsx:54-67 | the pass keeps each record's user and rate, and never touches positions beyond 1 |
| Leaderboard.BoardShape | app/tabs/leaderboard.tsx:41-67 | records name the users in order; users beyond the first two keep all-zero records |
| Leaderboard.WinsPartition | app/tabs/leaderboard.tsx:52-62 | each bet adds one win to positions 0 and 1 together |
| Leaderboard.BoardWinsPartition | app/tabs/leaderboard.tsx:52-62 | with two or more users, wins at positions 0 and 1 add up to the number of concluded bets |
| Leaderboard.FoldCredits | app/tabs/leaderboard.tsx:58-62 | a position gains one win and the amount for each bet credited to it |
| Leaderboard.BoardCredits | app/tabs/leaderboard.tsx:52-62 | positions 0 and 1 hold the wins and amounts of the bets credited to them |
| Leaderboard.FoldStreak | app/tabs/leaderboard.tsx:58-67 | a streak starting from zero ends equal to the final run of wins |
| Leaderboard.BoardStreak | app/tabs/leaderboard.tsx:52-67 | the streak shown is the run of wins at the end of the newest-first pass |
| Leaderboard.LastBetStreaks | app/tabs/leaderboard.tsx:61-66 | after a non-empty pass, the last bet's winner has a streak and its loser none |
| Leaderboard.BoardWinsBound | app/tabs/leaderboard.tsx:52-62 | no record has more wins than there are concluded bets |
| Leaderboard.RateRange | app/tabs/leaderboard.tsx:73 | a rate of wins at most the total lies in [0, 100] |
| Leaderboard.BoardWinRate | app/tabs/leaderboard.tsx:71-74 | every rate is wins over concluded bets times 100, in [0, 100] |
| Leaderboard.AgreesWithHome | app/tabs/leaderboard.tsx:53-73 | position 0's wins, amount and rate equal the home screen's statistics over the same bets |
| Leaderboard.AgreesWithHistory | app/tabs/leaderboard.tsx:53-55 | the history's verdict names the position the leaderboard credits |
| Leaderboard.LeaderboardScreen.LoadStats | app/tabs/leaderboard.tsx:26-83 | nothing changes on a failed query; otherwise the records are rebuilt and the first `min(5, n)` concluded bets kept |
| Pending.PendingListing | app/tabs/pending.tsx:19-26 | the list holds exactly the pending bets, with their multiplicity, newest first |
| Pending.ActivateRows | app/tabs/pending.tsx:41-44 | the rows with the id become active; nothing else changes |
| Pending.ApprovedLeavesPending | app/tabs/pending.tsx:39-49 | an approved bet leaves the pending list |
| Pending.ApprovedJoinsHome | app/tabs/pending.tsx:41-44 | an approved bet of a couple joins that couple's active list |
| Pending.ApproveIdempotent | app/tabs/pending.tsx:41-44 | approving twice is approving once, whatever the status |
| Pending.DeclinedLeavesPending | app/tabs/pending.tsx:56-66 | declining removes exactly that bet from the pending list |
| Pending.Other | app/tabs/pending.tsx:92 | the other option differs from the given one |
| Pending.YouWillGet | app/tabs/pending.tsx:89-92 | "You will get" names the option the creator did not choose, never the creator's own letter |
| Pending.PendingScreen.LoadPendingBets | app/tabs/pending.tsx:17-31 | the list is replaced by the pending listing, or kept on a failed query |
| Pending.PendingScreen.ApproveBet | app/tabs/pending.tsx:39-54 | on success the row is activated and the list reloaded; on failure nothing changes |
| Pending.PendingScreen.DeclineBet | app/tabs/pending.tsx:56-71 | on success the row is deleted and the list reloaded; on failure nothing changes |
| Create.CheckForm | app/tabs/create.tsx:25-44 | a passing form has a non-empty title and options and a positive amount; `CheckOrder` and `CheckPasses` state the order of the checks |
| Create.CheckOrder | app/tabs/create.tsx:25-44 | each message is reported exactly when its check is the first to fail, in the order title, amount, A, B, choice |
| Create.CheckPasses | app/tabs/create.tsx:25-60 | the form passes iff every check does; the draft holds the trimmed texts, the positive amount and the choice |
| Create.NewBetRow | app/tabs/create.tsx:50-60 | the inserted row is pending, by the fixed creator, with the draft's fields and no outcome or couple |
| Create.CreatedBetIsPending | app/tabs/create.tsx:50-60 | a created bet is in the pending list |
| Create.CreatedBetNotOnHome | app/tabs/create.tsx:52-60 | when the backend stores the row as inserted, with no couple id, the bet, even once approved, is in no couple's active list |
| Create.CreateScreen.HandleCreateBet | app/tabs/create.tsx:23-85 | a failed check reports its message and writes nothing; otherwise the row is inserted or the insert error reported; the form is kept |
| Create.CreateScreen.ConfirmCreated | app/tabs/create.tsx:69-76 | every form field is cleared |
| Settings.ClearPairing | app/tabs/settings.tsx:112-118 | the rows with the id become unpaired with no partner; nothing else changes |
| Settings.UnlinkEffect | app/tabs/settings.tsx:112-128 | after both writes, both users are unpaired with no partner and every other row is unchanged |
| Settings.UnlinkSymmetric | app/tabs/settings.tsx:112-128 | the two writes may be issued in either order |
| Settings.UnlinkKeepsSymmetry | app/tabs/settings.tsx:104-130 | a full unlink keeps the pairing symmetric |
| Settings.HalfUnlinkBreaksSymmetry | app/tabs/settings.tsx:122-130 | when the second write fails, the partner row is untouched and the pairing is one-sided |
| Settings.RenameEffect | app/tabs/settings.tsx:82-85 | only the name of the current user's rows changes |
| Settings.SettingsScreen.LoadCurrentUser | app/tabs/settings.tsx:28-66 | no user changes nothing; otherwise user and name are set, the couple code when found, and the partner name only when the user is paired with a partner that is found |
| Settings.SettingsScreen.SaveName | app/tabs/settings.tsx:68-98 | a blank name or no user is refused with nothing written; otherwise only the user's name changes, to the trimmed text, or the error is reported; the partner name and couple code shown are kept |
| Settings.SettingsScreen.UnlinkPartner | app/tabs/settings.tsx:104-150 | no user or partner id writes nothing; otherwise the user's row is cleared, then the partner's only if the first write succeeded |
| History.HistoryListing | app/tabs/history.tsx:22-26 | the history holds exactly the concluded bets, with their multiplicity, latest first |
| History.LoadHistory | app/tabs/history.tsx:20-34 | kept on a failed query; otherwise exactly the concluded bets of the table, with their multiplicity, latest first |
| History.WinnerText | app/tabs/history.tsx:58-64 | "Creator won" iff the winning option is the creator's choice; "Approver won" otherwise, also with no winner |
| History.WinnerColor | app/tabs/history.tsx:66-69 | green exactly for "Creator won", red exactly for "Approver won" |

## Left out

- Rendering, styles, modals, alerts, navigation, pull-to-refresh and date formatting in the screens: these are UI.
- `lib/supabase.ts`, `lib/realtime.ts`, `app/tabs/settings-new.tsx` and the onboarding screens are not part of this model. Queries are filters over the in-memory tables of `Tables.Backend`. `getCurrentCoupleId()` is the couple id parameter of `Home.HomeScreen.LoadAllData`.
- Randomness and the clock: `crypto.getRandomValues`, `randomBytes`, `Math.random` and `Date.now` are parameters.
- Floating point: amounts, rates and `Math.round(x * 100) / 100` are computed on exact reals. `parseFloat` and `Number` do not model `Infinity`, `NaN` literals or the hexadecimal, octal and binary forms `Number` accepts.
- Text.Prefix: the model's strings are sequences of Unicode code points, while JavaScript's `substring` counts UTF-16 code units. For text with characters above U+FFFF the cut falls elsewhere, and a cut that splits a surrogate pair cannot be expressed.
- Validation.SanitizeString: the bound of 1000 is in code points, not in the UTF-16 code units that `substring(0, 1000)` counts.
- Validation.ValidateField: the bounds of 50, 100 and 200 used by `ValidateName`, `ValidateTitle` and `ValidateOption` are in code points, while `.length` counts UTF-16 code units. A character above U+FFFF counts once here and twice in the app, so 26 emoji pass `ValidateName` in the model but get the 50-character message in the app.
- Validation.ValidateCoupleCode: the six-character length check counts code points. A code holding a character above U+FFFF, such as five letters and one emoji, gets the letters-and-numbers message in the model and the length message in the app.
- `toUpperCase` and `toLowerCase` map only ASCII letters. Unicode case mapping is not modelled.
- `typeof x !== 'string'` checks: the model's inputs are strings, so those branches cannot arise.
- AsyncStorage failures, and the `try`/`catch` paths for thrown exceptions other than backend errors.
- Concurrency: overlapping handlers, and reloads that are not awaited.
- The order the backend gives rows that tie on the ordering column: the model keeps them in table order.
- `updateUserStats` in `app/tabs/index.tsx` only logs, so it is left out.
- Auth's `generateAuthToken` re-export only delegates to `Security.GenerateAuthToken`. `getStoredAuthToken` is the read of `Auth.AuthStorage.token`.
- Home.HomeScreen.ConcludeBet: the reload after the write is taken to succeed on the updated table. A failing reload query is not modelled. The same holds for `Pending.PendingScreen.ApproveBet` and `Pending.PendingScreen.DeclineBet`.
- Settings.SettingsScreen.SaveName: the `loadCurrentUser()` reload after a successful save is not modelled. The screen's typed name and current user are stated as unchanged.
- Settings.SettingsScreen.UnlinkPartner: the reload run from the success alert's button is not modelled.
- Create.CreateScreen.HandleCreateBet: the row's id and `created_at` come from the backend, so they are parameters.
- Create.NewBetRow: the stored row's `couple_id` is taken to be empty, as the insert leaves it out. A column default, a trigger, or a rejection of the insert by a NOT NULL constraint are backend behaviour and are not modelled.
