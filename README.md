# Waitlist points ledger in Dafny

This project models the core of a waitlist application. Users earn points by completing
social actions, claim them through a cooldown-governed ledger, and are ranked on a
leaderboard that decides their reward tier. There are four modules, one per source file:

- `Actions` (`actions.dfy`, from `lib/actions.ts`): the claim engine.
  - A 17-entry action catalog and its lookup map.
  - `claimAction`, a chain of guarded rejections followed by a commit. It is modelled as
    the class `ClaimLedger`. The ledger reads and credits the records of a `Users.UserStore`.
    Beside the store it keeps a `progress` map (completed actions and the check-in and
    daily-post stamps, fields the stored record type lacks) and the append-only `logs`
    sequence. The `Claim` method updates all three in place and returns the `ClaimResult`
    object.
  - `getActionCooldowns`, the two loops that build the availability report.
  - `ClaimStep`, `Verdict` and `Cooldowns` are the specification functions the methods
    are proved against. The claim and report properties are lemmas about them, and so are
    properties of whole sequences of claims (`Replay`).
- `TwitterVerify` (`twitter_verify.dfy`, from `lib/twitter-verify.ts`): the pure tweet checks.
  - The capability switches read from the environment.
  - The regular expression that extracts a status id from a tweet link, written out as
    leftmost-match search with greedy runs and ASCII case folding.
  - The `referenced_tweets` predicates.
  - The mapping from TwitterAPI.io flags and official API bodies to `TweetInfo`.
  - The case-insensitive mention check.
- `Leaderboard` (`leaderboard.dfy`, from `lib/leaderboard.ts`).
  - The population is a sequence of members, the projection of the store's user records
    (`Population`). A storage-ordered sort is any non-increasing permutation of it
    (`SortedView`).
  - Rank is 1 plus the number of members with strictly more points.
  - The cutoff is the value at a 1-based position of the sorted view.
  - Also modelled: the top-N list, reward tiers and lottery tickets.
- `Users` (`users.dfy`, from `lib/users.ts`): the user store.
  - The class `UserStore` holds three maps: records by DID, DID by twitter id, and DID by
    referral code.
  - `createUser` with its referral-code retry loop, `updateUserWallet`, the two lookups,
    and the referral code generator.
  - `addPoints`, the increment the claim engine calls, is a method of the store.

`wrappers.dfy` holds the `Option` type shared by all modules.

The environment, the clock, randomness and the network are parameters:

- The environment variables are an `Env` value. A variable is "set" in the JavaScript
  sense when it is present and non-empty.
- `Date.now()` is `now`, in milliseconds.
- Each `Math.random()` result is a real in `[0, 1)`, supplied as a draw.
- The follower check and the two tweet endpoints are functions in a `Remote` value. An
  endpoint yields the decoded JSON body, or `None` for a non-OK reply.

## Model

| member | source | states |
|---|---|---|
| TwitterVerify.HasRefIff | lib/twitter-verify.ts:204 | `referenced_tweets.some(r => r.type === kind)` holds exactly when `kind` occurs in the list |
| TwitterVerify.ReferencePredicates | lib/twitter-verify.ts:203-215 | quote/retweet/reply each hold iff the list is present and contains `quoted`/`retweeted`/`replied_to`; all three are false when the list is absent |
| TwitterVerify.ReferencesFromFlags | lib/twitter-verify.ts:155-162 | the list is absent iff no flag is set; present entries appear in push order retweeted, quoted, replied_to |
| TwitterVerify.FlagsReadBack | lib/twitter-verify.ts:155-163 | after the flag mapping, `tweetIsRetweet`, `tweetIsQuoteTweet` and `tweetIsReply` each equal their input flag |
| TwitterVerify.FromApiIo | lib/twitter-verify.ts:147-164 | a TwitterAPI.io body yields a tweet iff its status is not "error", `tweets` is a non-empty array and the first tweet has a truthy author id; author and text are copied and the three predicates read back the flags |
| TwitterVerify.FromOfficial | lib/twitter-verify.ts:190-199 | an official API body yields a tweet iff `data` is present; author and text are copied and each predicate holds iff its type string is among the referenced types |
| TwitterVerify.FetchTweet | lib/twitter-verify.ts:107-115 | TwitterAPI.io is used when its key is set, else the official API when a bearer token is set, else nothing; a tweet comes back only when tweet verification is enabled |
| TwitterVerify.TrimStart | lib/twitter-verify.ts:36 | the result is a suffix of the input, what was removed is all whitespace, and the result starts with non-whitespace or is empty |
| TwitterVerify.TrimEnd | lib/twitter-verify.ts:36 | the result is a prefix of the input, what was removed is all whitespace, and the result ends with non-whitespace or is empty |
| TwitterVerify.TrimStartSkipsWhitespace | lib/twitter-verify.ts:36 | leading whitespace does not change the left-trimmed string |
| TwitterVerify.TrimEndSkipsWhitespace | lib/twitter-verify.ts:36 | trailing whitespace does not change the right-trimmed string |
| TwitterVerify.TrimStartAppend | lib/twitter-verify.ts:36 | left-trimming a string that is not all whitespace commutes with appending |
| TwitterVerify.TrimIgnoresSurroundingWhitespace | lib/twitter-verify.ts:36 | `trim` of a string wrapped in whitespace equals `trim` of the string |
| TwitterVerify.TrimKeepsNonBlankEnds | lib/twitter-verify.ts:36 | `trim` leaves a string with non-whitespace at both ends unchanged |
| TwitterVerify.StartsWithFoldedSelf | lib/twitter-verify.ts:38 | under the `/i` flag a literal matches a text that begins with it |
| TwitterVerify.StartsWithFoldedMismatch | lib/twitter-verify.ts:38 | under the `/i` flag one position that differs after case folding defeats the match |
| TwitterVerify.NonSlashRun | lib/twitter-verify.ts:38 | `[^/]+` consumes the maximal run of non-slash characters: all skipped characters are not `/`, and it stops at a `/` or the end |
| TwitterVerify.DigitRun | lib/twitter-verify.ts:38 | `\d+` consumes the maximal run of digits, stopping at a non-digit or the end |
| TwitterVerify.MatchAfterHost | lib/twitter-verify.ts:38 | after the host, a successful match captures a non-empty all-digit string |
| TwitterVerify.MatchAt | lib/twitter-verify.ts:38 | a match starting at one position captures a non-empty all-digit string |
| TwitterVerify.Search | lib/twitter-verify.ts:38-39 | the unanchored search captures a non-empty all-digit string when it succeeds |
| TwitterVerify.SearchIsLeftmost | lib/twitter-verify.ts:38-39 | the search returns the capture of the leftmost position that matches, and fails only when no position from the start on matches |
| TwitterVerify.ParseTweetUrl | lib/twitter-verify.ts:34-40 | `parseTweetUrl` is null for the empty string; any id it returns is a non-empty string of digits |
| TwitterVerify.ParseIgnoresSurroundingWhitespace | lib/twitter-verify.ts:34-40 | whitespace around a link does not change the parsed id |
| TwitterVerify.ParseRoundTrip | lib/twitter-verify.ts:38-39 | `https://x.com/<user>/status/<id><tail>` and the same on `twitter.com` parse to `id` for any non-empty slash-free user, non-empty digit id, and a tail that is empty or starts with a non-digit (a query string, a further path) and does not end in whitespace |
| TwitterVerify.ParseOfParts | lib/twitter-verify.ts:34-40 | a string that ends in non-whitespace and is built from scheme, host, user, id and tail parses to the id |
| TwitterVerify.SearchFindsHost | lib/twitter-verify.ts:38 | in such a link the leftmost match starts at the host and captures the id, whatever the tail |
| TwitterVerify.SchemeHasNoMatch | lib/twitter-verify.ts:38 | no match can start inside the `https://` scheme |
| TwitterVerify.HostMatches | lib/twitter-verify.ts:38 | at an `x.com` or `twitter.com` host the match continues after the host |
| TwitterVerify.AfterHostRoundTrip | lib/twitter-verify.ts:38 | the part after the host, `/<user>/status/<id><tail>`, captures exactly `id` |
| TwitterVerify.LinkUserSegment | lib/twitter-verify.ts:38 | the user segment of a built link lies within the string, is bounded by slashes and contains none |
| TwitterVerify.LinkStatusAndId | lib/twitter-verify.ts:38 | a built link continues with `/status/` and ends with the digits of the id |
| TwitterVerify.AfterHostMatches | lib/twitter-verify.ts:38 | a slash, a non-slash run of length `n`, `/status/` and a digit run of length `d` make the part after the host match, capturing those `d` digits |
| TwitterVerify.AfterHostOfRuns | lib/twitter-verify.ts:38 | a user segment without slashes followed by `/status/` and a digit run of length `d` stopping at a non-digit or the end captures those digits |
| TwitterVerify.StatusIdIs | lib/twitter-verify.ts:38 | `(\d+)` captures exactly the digit run that starts where the status path ends |
| TwitterVerify.AfterHostFails | lib/twitter-verify.ts:38 | without a slash, a non-empty user segment, or `/status/` after it, nothing after the host matches |
| TwitterVerify.NonSlashRunIs | lib/twitter-verify.ts:38 | the non-slash run is determined by its stopping point |
| TwitterVerify.DigitRunIs | lib/twitter-verify.ts:38 | the digit run is determined by its stopping point |
| TwitterVerify.SearchSkips | lib/twitter-verify.ts:38 | positions that do not match can be skipped without changing the search result |
| TwitterVerify.LowerCharKeeps | lib/twitter-verify.ts:38 | case folding keeps whitespace, `/` and digits what they are, and folding twice is folding once |
| TwitterVerify.TrimStartLower | lib/twitter-verify.ts:36 | folding case and trimming leading whitespace commute |
| TwitterVerify.TrimEndLower | lib/twitter-verify.ts:36 | folding case and trimming trailing whitespace commute |
| TwitterVerify.LowerIsSameFolded | lib/twitter-verify.ts:38 | a string and its lower-case form agree character by character after case folding |
| TwitterVerify.SameFoldedAt | lib/twitter-verify.ts:38 | two strings that agree after folding have slashes and digits at the same places, with the same digits |
| TwitterVerify.StartsWithFoldedAgree | lib/twitter-verify.ts:38 | under the `/i` flag a literal matches at the start of one such string iff it matches the other |
| TwitterVerify.SameFoldedSuffix | lib/twitter-verify.ts:38 | suffixes of two strings that agree after folding also agree |
| TwitterVerify.NonSlashRunAgree | lib/twitter-verify.ts:38 | `[^/]+` consumes the same run in two strings that agree after folding |
| TwitterVerify.DigitRunAgree | lib/twitter-verify.ts:38 | `\d+` consumes the same run in two strings that agree after folding |
| TwitterVerify.DigitRunsEqual | lib/twitter-verify.ts:38 | a run of digits is the same text in two strings that agree after folding |
| TwitterVerify.MatchAfterHostAgree | lib/twitter-verify.ts:38 | the part after the host captures the same id, or fails, in two strings that agree after folding |
| TwitterVerify.StatusDigitsAgree | lib/twitter-verify.ts:38 | when the status path is found, both strings capture the same digit run |
| TwitterVerify.NoStatusAgree | lib/twitter-verify.ts:38 | when the slash, the user segment or the status path is missing, neither string matches after the host |
| TwitterVerify.MatchAtAgree | lib/twitter-verify.ts:38 | a match at one position captures the same id, or fails, in two strings that agree after folding |
| TwitterVerify.SearchAgree | lib/twitter-verify.ts:38-39 | the unanchored search gives the same result in two strings that agree after folding |
| TwitterVerify.ParseIgnoresCase | lib/twitter-verify.ts:34-40 | `parseTweetUrl` of a link and of its lower-case form are equal: the `/i` flag makes scheme, host and `status` case-insensitive, and the captured digits are unchanged |
| TwitterVerify.ParseUpperCaseLinkWithQuery | lib/twitter-verify.ts:34-40 | `HTTPS://X.COM/u/STATUS/1?s=20` parses to `1` |
| TwitterVerify.ContainsIff | lib/twitter-verify.ts:221 | `text.includes(pattern)` holds iff the pattern occurs at some index |
| TwitterVerify.MentionsHandle | lib/twitter-verify.ts:218-222 | `tweetMentionsHandle` holds iff the lowercased text contains `@` plus the lowercased handle without its leading `@`; missing text gives false |
| TwitterVerify.MentionsIgnoresLeadingAt | lib/twitter-verify.ts:219 | `@h` and `h` give the same answer |
| TwitterVerify.MentionsIgnoresHandleCase | lib/twitter-verify.ts:219-221 | lowercasing the handle first does not change the answer |
| TwitterVerify.MentionHasNoWordBoundary | lib/twitter-verify.ts:221 | the match is a plain substring: "gm @ABCdef" mentions "abc" |
| Actions.FollowNeedsNoTweetLink | lib/actions.ts:85-91 | `follow_twitter` is not one of the tweet-link actions, so the follow gate and the tweet gates never both apply |
| Actions.BuildActionMapLookup | lib/actions.ts:50 | for a list with distinct keys, `new Map(list.map(a => [a.key, a]))` has exactly the listed keys and maps each key to its own definition |
| Actions.CatalogKeysDistinct | lib/actions.ts:28-48 | the 17 catalog keys are pairwise distinct |
| Actions.ActionMapIsCatalog | lib/actions.ts:28-50 | `ACTION_MAP` holds exactly the catalog keys, each mapped to its declared definition |
| Actions.ActionKeyIsOwnKey | lib/actions.ts:50 | the definition found under a key carries that key |
| Actions.ActionKeysAreOwnKeys | lib/actions.ts:50 | every definition in `ACTION_MAP` carries the key it is stored under |
| Actions.CatalogEntryIsMapped | lib/actions.ts:50 | every catalog entry is found under its own key |
| Actions.MappedKeyIsCatalogEntry | lib/actions.ts:50 | every mapped key belongs to a catalog entry |
| Actions.OfficialTwitterHandle | lib/actions.ts:94-97 | the handle is TWITTER_USERNAME, defaulting to "abc", with one leading `@` removed |
| Actions.ToResponse | lib/actions.ts:54-60 | the returned object has `success` iff the claim succeeded; a success carries the points awarded and the new total and nothing else; a failure carries its error message and no points; `cooldownEndsAt` is present exactly for a claim refused on cooldown, with that end time |
| Actions.LastClaimTime | lib/actions.ts:67-73 | `getLastActionLog` is null iff the user has no log entry for the action; otherwise it is the latest `createdAt` among those entries |
| Actions.RequirementCheck | lib/actions.ts:158-181 | the per-action requirement on a fetched tweet fails only with a verification error |
| Actions.TweetCheck | lib/actions.ts:138-182 | the tweet-link gates fail only with verification errors |
| Actions.VerificationCheck | lib/actions.ts:129-183 | the Twitter stage fails only with verification errors: never unknown action, unknown user, already completed or on cooldown |
| Actions.ClaimStep | lib/actions.ts:99-209 | unknown action, then missing user record, are rejected first; a claim is rejected iff some gate fails, and then the state is unchanged and the first failing gate is reported; on success the user's record changes in its points only, which rise by the action's points, one log entry `(user, action, points, now)` is appended, the progress entry is written only by the actions that write one, the action is marked completed only when it is a once action, and the result reports the points awarded and the new total |
| Actions.Cooldowns | lib/actions.ts:211-253 | empty for an unknown user, else one entry per catalog action: once actions are available iff not completed, with no end time; recurring actions are never completed, are available iff never claimed or claimed at least 24 hours ago, and carry the end time `last + 24h` exactly when unavailable |
| Actions.ReportAgreesWithClaim | lib/actions.ts:114-126 | an action is reported available iff the completion/cooldown stage of a claim lets it through; a reported end time is exactly the one an `On cooldown` rejection carries; a once action is reported completed iff its claim is rejected as already completed |
| Actions.CooldownBoundary | lib/actions.ts:119-126 | the 24-hour boundary is inclusive: at `t + 24h` the cooldown stage passes, one millisecond earlier it rejects with end time `t + 24h` |
| Actions.CooldownRejects | lib/actions.ts:114-126 | a claim the completion/cooldown stage refuses changes nothing and carries that stage's error |
| Actions.ClaimSetsLastClaimTime | lib/actions.ts:119-126 | a successful claim of a recurring action at `t0` makes `t0` its latest claim time |
| Actions.RecurringCooldownAfterClaim | lib/actions.ts:119-126 | after a successful recurring claim at `t0`, another claim before `t0 + 24h` is rejected with end time `t0 + 24h`, and from `t0 + 24h` on the cooldown stage passes |
| Actions.OnceActionIsFinal | lib/actions.ts:114-117 | after a successful claim of a once action, every further claim of it is rejected as already completed and changes nothing |
| Actions.VerdictIsTweetCheck | lib/actions.ts:129-183 | with tweet verification on and the cooldown stage passed, a tweet-link action's verdict is that of the tweet gates alone |
| Actions.TweetLinkRequiredWhenVerifying | lib/actions.ts:142-145 | with tweet verification on, a tweet-link action claimed without a link is rejected with "Paste your tweet link" and nothing changes |
| Actions.ForeignTweetRejected | lib/actions.ts:154-156 | with tweet verification on, a link to a tweet by another account is rejected and nothing changes |
| Actions.ClaimCredits | lib/actions.ts:185-208 | a claim that passes every gate reports the action's points and the old total plus those points |
| Actions.OwnTweetCredited | lib/actions.ts:154-208 | with tweet verification on, a link to the user's own tweet that meets the action's requirement is credited with the action's points |
| Actions.ClaimKeepsCompletedOnce | lib/actions.ts:188-190 | a claim keeps the invariant that only once actions are ever marked completed |
| Actions.FollowGate | lib/actions.ts:129-136 | with the follow check on, an uncompleted `follow_twitter` claim by a user who does not follow the official account is refused with "Follow our X account first" and changes nothing; otherwise it credits 250 points |
| Actions.ClaimKeepsIndexesValid | lib/actions.ts:185 | a claim keeps the user store's twitter and referral indexes consistent with its records |
| Actions.ClaimKeepsProgressOnlyForUsers | lib/actions.ts:188-200 | a claim writes progress only for a stored user |
| Actions.FreshAccount | lib/actions.ts:109-117 | a stored user without progress has no completed action and no stamps |
| Actions.ClaimAfterSignUp | lib/users.ts:76-91 | after `createUser` writes a new record (zero points), a claim by that user is never refused as "User not found" nor as already completed, the user starts from 0 points, and a successful claim makes the total exactly the points awarded |
| Actions.OnceCountStep | lib/actions.ts:114-190 | one claim keeps the number of logged credits of a once action equal to 1 if it is marked completed and 0 if not |
| Actions.OnceCreditedAtMostOnce | lib/actions.ts:114-190 | over any sequence of claims, a once action is credited to a user at most once, and it is credited exactly when it is marked completed |
| Actions.ClaimsSpacedAppend | lib/actions.ts:119-126 | appending an entry at least 24 hours after every earlier credit of the same action keeps the credits spaced |
| Actions.RecurringClaimsSpaced | lib/actions.ts:119-126 | over any sequence of claims, successive credits of a recurring action to one user lie at least 24 hours apart |
| Actions.ReplayOnlyAppendsAndAdds | lib/actions.ts:185-186 | over any sequence of claims, the set of users is unchanged, each record changes in its points only, the points never decrease, and the log only grows at its end |
| Actions.VerifyTwitter | lib/actions.ts:129-183 | the verification stage returns the first failing gate: the follow check for `follow_twitter` when enabled, then, for the five tweet-link actions when enabled, link present, parseable, fetchable, own tweet, and the per-action requirement |
| Actions.LastClaimTimeStep | lib/actions.ts:224-229 | one more log entry changes the latest claim time of an action only when it is a later claim of that action |
| Actions.StatusReport | lib/actions.ts:231-250 | every action of the list gets an entry, and each entry is the status computed from some action of the list with that key |
| Actions.ClaimLedger.LogAction | lib/actions.ts:75-83 | exactly one entry `(user, action, points, now)` is appended to the log |
| Actions.ClaimLedger.MarkActionCompleted | lib/actions.ts:188-190 | a stored user gains the action in the completed set of the progress entry; nothing else changes |
| Actions.ClaimLedger.UpdateLastCheckIn | lib/actions.ts:192-194 | a stored user's last check-in becomes `now`; nothing else changes |
| Actions.ClaimLedger.UpdateLastDailyPost | lib/actions.ts:195-200 | a stored user's last daily post on the platform becomes `now`; nothing else changes |
| Actions.ClaimLedger.WriteProgress | lib/actions.ts:188-200 | the three conditional progress writes together give the progress of the commit |
| Actions.ClaimLedger.Credit | lib/actions.ts:185-200 | the commit: the user record gains the points, one log entry is appended, the progress becomes that of the commit; the store's indexes are untouched and stay consistent |
| Actions.ClaimLedger.Claim | lib/actions.ts:99-209 | the new records, progress and log are those of `ClaimStep` on the old state, the returned object is that outcome's response, and the store's indexes are untouched and stay consistent |
| Actions.ClaimLedger.LastClaimsByAction | lib/actions.ts:217-229 | the map built from the log holds, for each action, the user's latest claim time, and no entry for actions the user never claimed |
| Actions.ClaimLedger.ActionCooldowns | lib/actions.ts:211-253 | the report built by the two loops equals `Cooldowns` of the current state |
| Leaderboard.CountAbove | lib/leaderboard.ts:33-35 | `countDocuments({ points: { $gt: v } })` is at most the population size |
| Leaderboard.CountAboveAppend | lib/leaderboard.ts:33-35 | the count over two concatenated populations is the sum of their counts |
| Leaderboard.CountAboveAntitone | lib/leaderboard.ts:33-35 | raising the threshold never raises the count |
| Leaderboard.CountAboveStrict | lib/leaderboard.ts:33-35 | a member between two thresholds makes the count at the lower one strictly larger |
| Leaderboard.CountAboveNone | lib/leaderboard.ts:33-35 | no member above the threshold gives a count of 0 |
| Leaderboard.CountAboveAll | lib/leaderboard.ts:33-35 | every member above the threshold gives the whole population |
| Leaderboard.CountAboveMissesOne | lib/leaderboard.ts:33-35 | one member at or below the threshold keeps the count below the population size |
| Leaderboard.RemoveAt | lib/leaderboard.ts:33-35 | removing one member removes it once from the multiset and from the count exactly when it is above the threshold |
| Leaderboard.CountAbovePermutation | lib/leaderboard.ts:33-35 | the count does not depend on the order of the population |
| Leaderboard.RankValueUnique | lib/leaderboard.ts:40-51 | at most one points value sits at a given 1-based position of the descending order |
| Leaderboard.SortedViewLength | lib/leaderboard.ts:13-18 | the sorted view has one entry per member |
| Leaderboard.SortedPosition | lib/leaderboard.ts:42-48 | in the sorted view, at most `k` members outscore position `k`, and at least `k + 1` have at least its points |
| Leaderboard.CutoffPoints | lib/leaderboard.ts:40-51 | `getCutoffPoints(rank)` is the rank-th largest points value (fewer than `rank` members above it, at least `rank` at or above it) when the population has that many members, else 0 |
| Leaderboard.CutoffIndependentOfTies | lib/leaderboard.ts:42-48 | the cutoff is the same whatever order storage gives tied members |
| Leaderboard.SortedViewNonNegative | lib/leaderboard.ts:42-48 | with non-negative points, every sorted entry is non-negative |
| Leaderboard.CutoffNonIncreasing | lib/leaderboard.ts:40-51 | with non-negative points, the cutoff never rises as the rank grows |
| Leaderboard.FindMember | lib/leaderboard.ts:30-31 | `findOne({ privyDid })` finds a member iff one has that DID, and the member found has it |
| Leaderboard.UserRank | lib/leaderboard.ts:28-38 | `getUserRank` is 0 iff the user is absent, and otherwise lies in `1..population` |
| Leaderboard.RankAntitone | lib/leaderboard.ts:33-37 | equal points give equal rank, strictly more points give a strictly better rank |
| Leaderboard.RankExample | lib/leaderboard.ts:33-37 | with points 500, 500 and 100 the ranks are 1, 1 and 3 |
| Leaderboard.CutoffAtOwnRank | lib/leaderboard.ts:28-51 | the cutoff at a user's rank is that user's points |
| Leaderboard.RankWithinIffAtCutoff | lib/leaderboard.ts:28-51 | with non-negative points, a user's rank is at most `n` iff the user's points reach the cutoff at `n` |
| Leaderboard.GetLeaderboard | lib/leaderboard.ts:11-26 | `limit` (10 when omitted) entries, or the whole population when `limit` is 0 or larger; entry `i` has rank `i + 1`, the username and picture of the `i`-th sorted member and the `(i + 1)`-th largest points value; points never increase down the list |
| Leaderboard.SortedPositionAfter | lib/leaderboard.ts:16-21 | a sorted position strictly below its predecessor has exactly `k` members above it; one tied with its predecessor has fewer |
| Leaderboard.LeaderboardRankVsUserRank | lib/leaderboard.ts:11-38 | a leaderboard entry's positional rank is never better than the `getUserRank` of its points, and equals it iff the entry is first or strictly below the one before |
| Leaderboard.RewardTier | lib/leaderboard.ts:53-58 | rank 0 is "Unranked", ranks up to 100 "$25 Pass", 101 to 500 "$5 Pass", above 500 "Lottery Only" |
| Leaderboard.TierMonotone | lib/leaderboard.ts:53-58 | among ranked users a better rank never gives a worse tier |
| Leaderboard.TierAgreesWithCutoffs | lib/leaderboard.ts:40-58 | with non-negative points, a user has the $25 pass iff the user's points reach the cutoff at 100, and has a pass of either kind iff they reach the cutoff at 500 |
| Leaderboard.LotteryTickets | lib/leaderboard.ts:60-62 | `Math.floor(points / 500)`: 500 tickets' worth of points never exceeds the points, and one more ticket would |
| Leaderboard.LotteryMonotone | lib/leaderboard.ts:60-62 | more points never give fewer tickets |
| Leaderboard.LotteryExamples | lib/leaderboard.ts:60-62 | 0 and 499 points give 0 tickets, 500 gives 1, 1999 gives 3 |
| Leaderboard.Population | lib/leaderboard.ts:13-18 | given an order that lists every stored DID exactly once (`IsStorageOrder`, the enumeration of `find({})`), the population has one member per stored DID in that order, carrying that record's DID, username, picture and points |
| Leaderboard.RankedIffStored | lib/leaderboard.ts:28-39 | over the population of a store whose records carry their own DID, `findOne` finds exactly the stored record, and `getUserRank` is 0 iff the DID has no record and otherwise 1 plus the number of users with more points than that record |
| Leaderboard.WalletUpdateKeepsRanks | lib/users.ts:96-109 | setting a user's wallet leaves the population unchanged, hence every rank, cutoff and leaderboard |
| Users.AlphabetShape | lib/users.ts:36 | the alphabet has 32 characters, none of them I, O, 0 or 1 |
| Users.CharIndex | lib/users.ts:39 | `Math.floor(r * chars.length)` is a valid index into the alphabet, namely the integer part of `32 r` |
| Users.CodeFromDraws | lib/users.ts:35-42 | the code has 8 characters, character `i` being the alphabet letter picked by draw `i` |
| Users.GenerateReferralCode | lib/users.ts:35-42 | the loop builds the code picked by the draws: 8 characters from the alphabet |
| Users.IndexIn | lib/users.ts:39 | a character of the alphabet has a position in it |
| Users.DrawsFor | lib/users.ts:35-42 | for a well-formed code, valid draws can be chosen |
| Users.EveryCodeIsGenerable | lib/users.ts:35-42 | every 8-character code over the alphabet is produced by some draws |
| Users.ReferralCodesUnique | lib/users.ts:69-90 | while the indexes are consistent, no two users share a referral code |
| Users.FirstFree | lib/users.ts:69-74 | the code the retry loop settles on is not taken (that it is one of the candidates is `FirstFreeIsFirst`) |
| Users.FirstFreeIsFirst | lib/users.ts:69-74 | the loop finds a code iff some candidate is free, and every candidate tried before it is taken |
| Users.CandidateAt | lib/users.ts:69-73 | candidate `k` is the supplied code when `k` is before the offset (1 with a supplied code, 0 without), and otherwise the code generated from batch `k - offset` |
| Users.FirstFreeAfter | lib/users.ts:71-74 | once every candidate before `k` is taken, the first free code is candidate `k` when that one is free, and otherwise a later candidate exists |
| Users.UserStore.ReferralHolder | lib/users.ts:70-73 | the referral lookup answers a truthy DID exactly when the code is taken, and that DID is the index entry |
| Users.InsertKeepsIndexesValid | lib/users.ts:87-91 | writing a new record under a fresh non-empty DID, with a code that is not taken, together with its two index entries keeps the indexes consistent |
| Users.PointsUpdateKeepsIndexesValid | lib/actions.ts:185 | changing one record's points keeps the indexes consistent |
| Users.UserStore.GetUserByPrivyDid | lib/users.ts:44-49 | a record comes back iff the DID is stored, it is the record stored under that DID, and, while the indexes are consistent, it carries that DID |
| Users.UserStore.GetUserByTwitterId | lib/users.ts:51-57 | null without an index entry and when the entry is an empty (falsy) DID; otherwise exactly `getUserByPrivyDid` of the indexed DID, which while the indexes are consistent has the twitter id asked for |
| Users.UserStore.ChooseReferralCode | lib/users.ts:69-74 | the retry loop returns the first candidate code whose index entry is not a truthy DID; that code is unindexed or indexed to an empty DID |
| Users.UserStore.CreateUser | lib/users.ts:59-94 | a known DID returns the stored record and writes nothing; otherwise the new record has points 0, no wallet, the given fields and the first free code (the supplied code when it is free), and is written with its twitter and referral entries; `getUserByTwitterId` then returns it; index consistency is kept |
| Users.UserStore.AddPoints | lib/actions.ts:185 | a stored user's points rise by exactly the amount; no other record, no index changes, and consistency is kept |
| Users.UserStore.UpdateUserWallet | lib/users.ts:96-109 | null and no write for an unknown DID; otherwise only the wallet of that record changes, and both indexes are untouched |

## Left out

- Network: `twitterFetch`, the follower pagination of `verifyUserFollowsAccount` and the HTTP
  and JSON handling of the two tweet endpoints are oracles in `Remote`. The decoding into
  `TweetInfo` is modelled.
- Thrown network errors: a `fetch` or `res.json()` that throws (lib/twitter-verify.ts:47,
  82, 134, 182) is modelled as a failed lookup (`false` or `None`). In the source such an
  error propagates out of `claimAction`, which has no `try`/`catch` around the calls at
  lib/actions.ts:132 and 150. In both cases nothing has been written yet, so the state is
  unchanged either way; only the returned object differs.
- Storage plumbing: the Mongo and Redis clients are not modelled. One set of user records,
  the `UserStore`, serves all three modules. The claim engine reads and credits those
  records, and the leaderboard's population is their projection (`Leaderboard.Population`).
  The source keeps user records in Redis (`lib/users.ts`), while `lib/leaderboard.ts` reads
  a Mongo `users` collection; the model takes them to hold the same records. The storage
  order of the population is a parameter.
- `completedActions`, `lastCheckIn` and `lastDailyPost`: `lib/actions.ts` reads and writes
  these per-user fields, but the stored record type (lib/users.ts:8-17) does not declare
  them. The model keeps them in the ledger's `progress` map beside the store; a user without
  an entry has none completed and no stamps.
- `addPoints`, `markActionCompleted`, `updateLastCheckIn` and `updateLastDailyPost` are
  imported by `lib/actions.ts` but not defined in any file of this model. `addPoints` is
  modelled as `Users.UserStore.AddPoints`, an addition to a stored record's `points`. The
  other three are ledger methods over `progress`: a set insertion and two timestamp
  updates. All four write nothing for an unknown DID.
- Referral bonuses: no cascade is implemented in the modelled files, so none is modelled.
- Concurrency: the check-then-commit race in `claimAction` and the atomicity of the
  increments are not modelled; claims are sequential.
- Clock and formatting: `cooldownEndsAt` is an integer millisecond time rather than an
  ISO string; `createdAt` of a user record is an opaque string supplied by the caller.
- Users.UserStore.CreateUser: the source's retry loop calls `Math.random` until it finds
  a free code and has no bound. The model takes the supplied code followed by a finite
  list of draw batches, and requires that one of these candidates is free. It does not
  model a run that never finds a free code.
- Users.UserStore.CreateUser: the three Redis key families share one keyspace
  (`waitlist:user:<did>`, `waitlist:user:twitter:<id>`, `waitlist:user:ref:<code>`). A DID
  beginning with `twitter:` or `ref:` would collide with an index key. The model keeps
  the three maps apart and does not capture such collisions.
- Users.UserStore.CreateUser: index consistency is promised only for a non-empty DID.
  With an empty DID the truthiness test on the index entry treats the record as absent.
- Environment: `process.env` reads are the `Env` value; `getTwitterAccountId()!` relies on
  the id being set whenever the follow check is enabled, which holds by the definition of
  that switch.
- HTTP routes, the Privy wrapper, UI pages and constants are outside the modelled core.
- Leaderboard.GetLeaderboard: a negative `limit` is not modelled (the parameter is a
  `nat`).
- Leaderboard.CutoffPoints: ranks below 1 are excluded by a precondition, because
  `skip` with a negative argument is an error in the storage driver.
- Tie order in the storage sort is chosen by storage; the model accepts any non-increasing
  permutation of the population as the sorted view.
- TwitterVerify.Lower: `toLowerCase` is modelled on ASCII letters only; other scripts
  keep their case in the model.
- TwitterVerify.MentionsIgnoresLeadingAt: proved for handles that do not already start
  with `@`. The source strips only one `@`, so `"@@abc"` and `"@abc"` differ.
- Actions.ClaimLedger.LastClaimsByAction: the source sorts the user's log by descending
  `createdAt` and keeps the first entry seen per action. The model scans the log in
  insertion order and keeps the maximum time per action, which is the same map.
- Actions.ToResponse: the message of each failure is recorded as the source writes it, but
  no lemma shows that distinct failures have distinct messages.
- The referral-code lookup `getUserByReferralCode` and the fields `referralCount` and
  `referredBy` are not defined in the modelled files and are not modelled.
