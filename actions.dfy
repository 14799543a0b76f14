/**
  The action-claim ledger (lib/actions.ts): the fixed action catalog, the claim engine
  with its short-circuiting check chain, and the per-action availability report.

  A claim reads and credits the user records of `Users.UserStore`. The per-user fields
  the claim engine also relies on (completed actions and the check-in and daily-post
  stamps) are not part of that record type; `ClaimLedger` keeps them beside the store,
  together with the `action_logs` collection. `LedgerState` is the value of all three,
  on which the claim is specified (`ClaimStep`) and on which the lemmas about sequences
  of claims are stated.
  Time is an integer count of milliseconds, and the clock is the parameter `now`.
*/
module Actions {
  import opened Wrappers
  import opened TwitterVerify
  import Users

  // ---------------------------------------------------------------------------
  // The catalog
  // ---------------------------------------------------------------------------

  /** `'once'` or `'24h'` */
  datatype Cooldown = Once | Every24h

  datatype Category = SocialOnce | SocialRecurring | Daily

  datatype Platform = Twitter | Farcaster | Discord | Telegram

  datatype ActionDef = ActionDef(
    key: string,
    title: string,
    points: nat,
    cooldown: Cooldown,
    category: Category,
    platform: Option<Platform>,
    url: Option<string>)

  const FOLLOW_TWITTER := "follow_twitter"
  const QT_TWITTER := "qt_twitter"
  const POST_TWITTER := "post_twitter"
  const RT_TWITTER := "rt_twitter"
  const COMMENT_TWITTER := "comment_twitter"
  const DAILY_CHECKIN := "daily_checkin"
  const DAILY_POST_TWITTER := "daily_post_twitter"
  const DAILY_POST_FARCASTER := "daily_post_farcaster"

  const ACTIONS: seq<ActionDef> := [
    ActionDef(FOLLOW_TWITTER, "Follow @abc on Twitter", 250, Once, SocialOnce, Some(Twitter),
      Some("https://twitter.com/intent/follow?screen_name=abc")),
    ActionDef("follow_farcaster", "Follow @abc on Farcaster", 250, Once, SocialOnce, Some(Farcaster),
      Some("https://warpcast.com/abc")),
    ActionDef("join_discord", "Join Discord", 250, Once, SocialOnce, Some(Discord),
      Some("https://discord.gg/placeholder")),
    ActionDef("join_tg", "Join Telegram", 250, Once, SocialOnce, Some(Telegram),
      Some("https://t.me/placeholder")),

    ActionDef(QT_TWITTER, "Quote Tweet", 200, Every24h, SocialRecurring, Some(Twitter), None),
    ActionDef("qt_farcaster", "Quote Cast", 200, Every24h, SocialRecurring, Some(Farcaster), None),
    ActionDef(POST_TWITTER, "Post tagging @abc on Twitter", 300, Every24h, SocialRecurring, Some(Twitter), None),
    ActionDef("post_farcaster", "Post tagging @abc on Farcaster", 300, Every24h, SocialRecurring, Some(Farcaster), None),
    ActionDef(RT_TWITTER, "Retweet", 150, Every24h, SocialRecurring, Some(Twitter), None),
    ActionDef("rt_farcaster", "Recast", 150, Every24h, SocialRecurring, Some(Farcaster), None),
    ActionDef(COMMENT_TWITTER, "Comment on Twitter", 100, Every24h, SocialRecurring, Some(Twitter), None),
    ActionDef("comment_farcaster", "Comment on Farcaster", 100, Every24h, SocialRecurring, Some(Farcaster), None),
    ActionDef("like_twitter", "Like on Twitter", 50, Every24h, SocialRecurring, Some(Twitter), None),
    ActionDef("like_farcaster", "Like on Farcaster", 50, Every24h, SocialRecurring, Some(Farcaster), None),

    ActionDef(DAILY_CHECKIN, "Daily Check-in", 50, Every24h, Daily, None, None),
    ActionDef(DAILY_POST_TWITTER, "Daily Post on Twitter", 250, Every24h, Daily, Some(Twitter), None),
    ActionDef(DAILY_POST_FARCASTER, "Daily Post on Farcaster", 250, Every24h, Daily, Some(Farcaster), None)
  ]

  /** `new Map(ACTIONS.map((a) => [a.key, a]))`: a later entry with the same key would
      replace an earlier one. */
  function BuildActionMap(defs: seq<ActionDef>): map<string, ActionDef>
    decreases |defs|
  {
    if defs == [] then map[]
    else BuildActionMap(defs[..|defs| - 1])[defs[|defs| - 1].key := defs[|defs| - 1]]
  }

  const ACTION_MAP: map<string, ActionDef> := BuildActionMap(ACTIONS)

  const TWENTY_FOUR_HOURS_MS: int := 24 * 60 * 60 * 1000

  /** The actions whose claim needs a tweet link when tweet verification is on. */
  const TWEET_URL_ACTIONS: set<string> :=
    {QT_TWITTER, RT_TWITTER, POST_TWITTER, COMMENT_TWITTER, DAILY_POST_TWITTER}

  /** The follow action needs no tweet link. */
  lemma FollowNeedsNoTweetLink()
    ensures FOLLOW_TWITTER !in TWEET_URL_ACTIONS
  {
  }

  predicate KeysDistinct(defs: seq<ActionDef>) {
    forall i, j | 0 <= i < j < |defs| :: defs[i].key != defs[j].key
  }

  function KeysOf(defs: seq<ActionDef>): set<string> {
    set i | 0 <= i < |defs| :: defs[i].key
  }

  /** With distinct keys, the map holds exactly the declared definitions. */
  lemma {:induction false} BuildActionMapLookup(defs: seq<ActionDef>)
    requires KeysDistinct(defs)
    ensures BuildActionMap(defs).Keys == KeysOf(defs)
    ensures forall i | 0 <= i < |defs| :: BuildActionMap(defs)[defs[i].key] == defs[i]
    decreases |defs|
  {
    if defs != [] {
      var init := defs[..|defs| - 1];
      var last := defs[|defs| - 1];
      BuildActionMapLookup(init);
      assert KeysOf(defs) == KeysOf(init) + {last.key} by {
        assert forall i | 0 <= i < |init| :: init[i] == defs[i];
      }
      forall i | 0 <= i < |defs|
        ensures BuildActionMap(defs)[defs[i].key] == defs[i]
      {
        if i < |defs| - 1 {
          assert init[i] == defs[i] && defs[i].key != last.key;
        }
      }
    }
  }

  lemma CatalogKeysDistinct()
    ensures KeysDistinct(ACTIONS)
  {
  }

  /** Every catalog key looks up its own declaration, and nothing else is in the map. */
  lemma ActionMapIsCatalog()
    ensures ACTION_MAP.Keys == KeysOf(ACTIONS)
    ensures forall i | 0 <= i < |ACTIONS| :: ACTION_MAP[ACTIONS[i].key] == ACTIONS[i]
  {
    CatalogKeysDistinct();
    BuildActionMapLookup(ACTIONS);
  }

  lemma ActionKeyIsOwnKey(key: string)
    requires key in ACTION_MAP
    ensures ACTION_MAP[key].key == key
  {
    ActionMapIsCatalog();
  }

  lemma ActionKeysAreOwnKeys()
    ensures forall key | key in ACTION_MAP :: ACTION_MAP[key].key == key
  {
    ActionMapIsCatalog();
  }

  lemma CatalogEntryIsMapped(i: int)
    requires 0 <= i < |ACTIONS|
    ensures ACTIONS[i].key in ACTION_MAP && ACTION_MAP[ACTIONS[i].key] == ACTIONS[i]
  {
    ActionMapIsCatalog();
  }

  lemma MappedKeyIsCatalogEntry(key: string)
    requires key in ACTION_MAP
    ensures exists i | 0 <= i < |ACTIONS| :: ACTIONS[i].key == key
  {
    ActionMapIsCatalog();
  }

  /** `getOfficialTwitterHandle`: TWITTER_USERNAME, default "abc", without one leading `@`. */
  function OfficialTwitterHandle(env: Env): (h: string)
    ensures env.twitterUsername.None? ==> h == "abc"
    ensures var raw := env.twitterUsername.GetOr("abc");
      if |raw| > 0 && raw[0] == '@' then raw == "@" + h else h == raw
  {
    StripAt(env.twitterUsername.GetOr("abc"))
  }

  // ---------------------------------------------------------------------------
  // Accounts, the log and claim results
  // ---------------------------------------------------------------------------

  /** The claim engine's fields of a user that the stored record type does not have. */
  datatype Progress = Progress(
    completedActions: set<string>,
    lastCheckIn: Option<int>,
    lastDailyPost: map<Platform, int>)

  /** What a user without any such field has: nothing completed, no stamps. */
  const NO_PROGRESS := Progress({}, None, map[])

  /** The user as the claim checks read it: the stored record's twitter id and points, and
      the user's progress. */
  datatype Account = Account(
    twitterId: string,
    points: int,
    completedActions: set<string>,
    lastCheckIn: Option<int>,
    lastDailyPost: map<Platform, int>)

  /** One document of `action_logs`. */
  datatype LogEntry = LogEntry(privyDid: string, action: string, points: int, createdAt: int)

  /** The user records by DID, the progress by DID, and the log. */
  datatype LedgerState = LedgerState(
    users: map<string, Users.User>,
    progress: map<string, Progress>,
    logs: seq<LogEntry>)

  function ProgressOf(progress: map<string, Progress>, did: string): Progress {
    if did in progress then progress[did] else NO_PROGRESS
  }

  function AccountOf(st: LedgerState, did: string): Account
    requires did in st.users
  {
    var p := ProgressOf(st.progress, did);
    Account(st.users[did].twitterId, st.users[did].points, p.completedActions, p.lastCheckIn, p.lastDailyPost)
  }

  /** Progress is only ever recorded for stored users. */
  predicate ProgressOnlyForUsers(st: LedgerState) {
    forall did | did in st.progress :: did in st.users
  }

  datatype ClaimError =
    | UnknownAction
    | UserNotFound
    | AlreadyCompleted
    | OnCooldown(cooldownEndsAt: int)
    | FollowNotVerified
    | TweetLinkRequired
    | TweetLinkInvalid
    | TweetUnavailable
    | NotOwnTweet
    | NotQuoteTweet
    | NotRetweet
    | NotReply
    | MissingMention(handle: string)

  /** The `error` string the source returns for each failure. */
  function Message(e: ClaimError): string {
    match e
    case UnknownAction => "Unknown action"
    case UserNotFound => "User not found"
    case AlreadyCompleted => "Action already completed"
    case OnCooldown(_) => "On cooldown"
    case FollowNotVerified => "Follow our X account first, then try again."
    case TweetLinkRequired => "Paste your tweet link to verify."
    case TweetLinkInvalid => "Invalid tweet link. Use a link like https://x.com/username/status/123..."
    case TweetUnavailable => "Could not load that tweet. Check the link or try again later."
    case NotOwnTweet => "That tweet was not posted by your account."
    case NotQuoteTweet => "That tweet is not a Quote Tweet."
    case NotRetweet => "That tweet is not a Retweet."
    case NotReply => "That tweet is not a reply/comment."
    case MissingMention(handle) => "Your post must mention @" + handle + "."
  }

  datatype ClaimResult =
    | Claimed(pointsAwarded: int, totalPoints: int)
    | Rejected(error: ClaimError)

  /** `ClaimResult`, the object `claimAction` returns; an absent field is `None`. */
  datatype ClaimResponse = ClaimResponse(
    success: bool,
    error: Option<string>,
    pointsAwarded: Option<int>,
    totalPoints: Option<int>,
    cooldownEndsAt: Option<int>)

  /** The object returned for each outcome: the points on success, the message on failure,
      and the end of the cooldown only for a claim refused on cooldown. */
  function ToResponse(r: ClaimResult): (resp: ClaimResponse)
    ensures resp.success <==> r.Claimed?
    ensures r.Claimed? ==> resp == ClaimResponse(true, None, Some(r.pointsAwarded), Some(r.totalPoints), None)
    ensures r.Rejected? ==> resp.error == Some(Message(r.error)) && resp.pointsAwarded.None? && resp.totalPoints.None?
    ensures resp.cooldownEndsAt.Some? <==> r.Rejected? && r.error.OnCooldown?
    ensures resp.cooldownEndsAt.Some? ==> resp.cooldownEndsAt.value == r.error.cooldownEndsAt
  {
    match r
    case Claimed(awarded, total) => ClaimResponse(true, None, Some(awarded), Some(total), None)
    case Rejected(e) =>
      ClaimResponse(false, Some(Message(e)), None, None, if e.OnCooldown? then Some(e.cooldownEndsAt) else None)
  }

  predicate IsClaimOf(e: LogEntry, did: string, key: string) {
    e.privyDid == did && e.action == key
  }

  /** `getLastActionLog`: the latest `createdAt` among the user's entries for the action. */
  function LastClaimTime(logs: seq<LogEntry>, did: string, key: string): (r: Option<int>)
    ensures r.None? <==> forall i | 0 <= i < |logs| :: !IsClaimOf(logs[i], did, key)
    ensures r.Some? ==> exists i | 0 <= i < |logs| :: IsClaimOf(logs[i], did, key) && logs[i].createdAt == r.value
    ensures r.Some? ==> forall i | 0 <= i < |logs| && IsClaimOf(logs[i], did, key) :: logs[i].createdAt <= r.value
    decreases |logs|
  {
    if logs == [] then None
    else
      var prev := LastClaimTime(logs[..|logs| - 1], did, key);
      var e := logs[|logs| - 1];
      assert forall i | 0 <= i < |logs| - 1 :: logs[..|logs| - 1][i] == logs[i];
      if IsClaimOf(e, did, key) && (prev.None? || prev.value < e.createdAt) then Some(e.createdAt)
      else prev
  }

  // ---------------------------------------------------------------------------
  // The check chain
  // ---------------------------------------------------------------------------

  /** Completion (once) or cooldown (24h) stage. */
  function CooldownCheck(acct: Account, def: ActionDef, logs: seq<LogEntry>, did: string, now: int): Option<ClaimError> {
    if def.cooldown == Once then
      if def.key in acct.completedActions then Some(AlreadyCompleted) else None
    else
      match LastClaimTime(logs, did, def.key)
      case None => None
      case Some(t) =>
        if now - t < TWENTY_FOUR_HOURS_MS then Some(OnCooldown(t + TWENTY_FOUR_HOURS_MS)) else None
  }

  /** The failures only the external verification stage reports. */
  predicate IsVerificationFailure(e: ClaimError) {
    !(e.UnknownAction? || e.UserNotFound? || e.AlreadyCompleted? || e.OnCooldown?)
  }

  /** The per-action structural requirement on a fetched tweet. */
  function RequirementCheck(key: string, tweet: TweetInfo, handle: string): (r: Option<ClaimError>)
    ensures r.Some? ==> IsVerificationFailure(r.value)
  {
    if key == QT_TWITTER then
      if IsQuoteTweet(tweet) then None else Some(NotQuoteTweet)
    else if key == RT_TWITTER then
      if IsRetweet(tweet) then None else Some(NotRetweet)
    else if key == COMMENT_TWITTER then
      if IsReply(tweet) then None else Some(NotReply)
    else if key == POST_TWITTER || key == DAILY_POST_TWITTER then
      if MentionsHandle(tweet, handle) then None else Some(MissingMention(handle))
    else None
  }

  /** The tweet-link gates, in order: link present, parseable, fetchable, own, structural. */
  function TweetCheck(acct: Account, key: string, tweetUrl: Option<string>, env: Env, remote: Remote): (r: Option<ClaimError>)
    ensures r.Some? ==> IsVerificationFailure(r.value)
  {
    var url := if tweetUrl.Some? then Trim(tweetUrl.value) else "";
    if url == "" then Some(TweetLinkRequired)
    else
      match ParseTweetUrl(url)
      case None => Some(TweetLinkInvalid)
      case Some(tweetId) =>
        match FetchTweet(env, remote, tweetId)
        case None => Some(TweetUnavailable)
        case Some(tweet) =>
          if tweet.authorId != acct.twitterId then Some(NotOwnTweet)
          else RequirementCheck(key, tweet, OfficialTwitterHandle(env))
  }

  /** The external verification stage: the follow check, then the tweet checks. */
  function VerificationCheck(acct: Account, key: string, tweetUrl: Option<string>, env: Env, remote: Remote): (r: Option<ClaimError>)
    ensures r.Some? ==> IsVerificationFailure(r.value)
  {
    if key == FOLLOW_TWITTER && FollowCheckEnabled(env) && !remote.follows(acct.twitterId, env.accountId.value) then
      Some(FollowNotVerified)
    else if TweetCheckEnabled(env) && key in TWEET_URL_ACTIONS then
      TweetCheck(acct, key, tweetUrl, env, remote)
    else None
  }

  /** The first failing check of a claim, or `None` when the claim may be committed. */
  function Verdict(st: LedgerState, did: string, key: string, tweetUrl: Option<string>, env: Env, remote: Remote, now: int): Option<ClaimError> {
    if key !in ACTION_MAP then Some(UnknownAction)
    else if did !in st.users then Some(UserNotFound)
    else
      var c := CooldownCheck(AccountOf(st, did), ACTION_MAP[key], st.logs, did, now);
      if c.Some? then c else VerificationCheck(AccountOf(st, did), key, tweetUrl, env, remote)
  }

  /** The commit: points, completion for once actions, and the display-only stamps. */
  function Commit(acct: Account, def: ActionDef, now: int): Account {
    acct.(
      points := acct.points + def.points,
      completedActions := if def.cooldown == Once then acct.completedActions + {def.key} else acct.completedActions,
      lastCheckIn := if def.key == DAILY_CHECKIN then Some(now) else acct.lastCheckIn,
      lastDailyPost :=
        if def.key == DAILY_POST_TWITTER then acct.lastDailyPost[Twitter := now]
        else if def.key == DAILY_POST_FARCASTER then acct.lastDailyPost[Farcaster := now]
        else acct.lastDailyPost)
  }

  /** The actions whose commit writes the user's progress. */
  predicate WritesProgress(def: ActionDef) {
    def.cooldown == Once || def.key == DAILY_CHECKIN || def.key == DAILY_POST_TWITTER || def.key == DAILY_POST_FARCASTER
  }

  /** The writes of a successful claim: the points on the user's record, the progress
      fields the action touches, and one log entry. */
  function CommitClaim(st: LedgerState, did: string, def: ActionDef, now: int): LedgerState
    requires did in st.users
  {
    var after := Commit(AccountOf(st, did), def, now);
    LedgerState(
      st.users[did := st.users[did].(points := after.points)],
      if WritesProgress(def) then st.progress[did := Progress(after.completedActions, after.lastCheckIn, after.lastDailyPost)]
      else st.progress,
      st.logs + [LogEntry(did, def.key, def.points, now)])
  }

  /** One claim: the new state and the result. */
  function ClaimStep(st: LedgerState, did: string, key: string, tweetUrl: Option<string>, env: Env, remote: Remote, now: int): (r: (LedgerState, ClaimResult))
    ensures key !in ACTION_MAP ==> r.1 == Rejected(UnknownAction)
    ensures key in ACTION_MAP && did !in st.users ==> r.1 == Rejected(UserNotFound)
    ensures r.1.Rejected? <==> Verdict(st, did, key, tweetUrl, env, remote, now).Some?
    ensures r.1.Rejected? ==> r.0 == st && r.1.error == Verdict(st, did, key, tweetUrl, env, remote, now).value
    ensures r.1.Claimed? ==>
      && key in ACTION_MAP && did in st.users && did in r.0.users
      && var def := ACTION_MAP[key];
      && var before := AccountOf(st, did);
      && var after := AccountOf(r.0, did);
      && r.0.users == st.users[did := st.users[did].(points := after.points)]
      && r.0.progress == (if WritesProgress(def)
           then st.progress[did := Progress(after.completedActions, after.lastCheckIn, after.lastDailyPost)]
           else st.progress)
      && r.0.logs == st.logs + [LogEntry(did, key, def.points, now)]
      && after.points == before.points + def.points
      && after.twitterId == before.twitterId
      && after.completedActions == (if def.cooldown == Once then before.completedActions + {key} else before.completedActions)
      && r.1 == Claimed(def.points, after.points)
  {
    match Verdict(st, did, key, tweetUrl, env, remote, now)
    case Some(e) => (st, Rejected(e))
    case None =>
      var def := ACTION_MAP[key];
      ActionKeyIsOwnKey(key);
      var st' := CommitClaim(st, did, def, now);
      (st', Claimed(def.points, st'.users[did].points))
  }

  // ---------------------------------------------------------------------------
  // The availability report
  // ---------------------------------------------------------------------------

  datatype ActionStatus = ActionStatus(available: bool, cooldownEndsAt: Option<int>, completed: bool)

  function StatusOf(acct: Account, def: ActionDef, last: Option<int>, now: int): ActionStatus {
    if def.cooldown == Once then
      var completed := def.key in acct.completedActions;
      ActionStatus(!completed, None, completed)
    else
      match last
      case None => ActionStatus(true, None, false)
      case Some(t) =>
        var available := now - t >= TWENTY_FOUR_HOURS_MS;
        ActionStatus(available, if available then None else Some(t + TWENTY_FOUR_HOURS_MS), false)
  }

  /** `getActionCooldowns` as a value: empty for an unknown user, else one entry per action. */
  function Cooldowns(st: LedgerState, did: string, now: int): (r: map<string, ActionStatus>)
    ensures did !in st.users ==> r == map[]
    ensures did in st.users ==> r.Keys == ACTION_MAP.Keys
    ensures did in st.users ==> forall k | k in r ::
      var acct := AccountOf(st, did);
      var last := LastClaimTime(st.logs, did, k);
      if ACTION_MAP[k].cooldown == Once then
        r[k] == ActionStatus(k !in acct.completedActions, None, k in acct.completedActions)
      else
        && !r[k].completed
        && (r[k].available <==> last.None? || now - last.value >= TWENTY_FOUR_HOURS_MS)
        && (r[k].cooldownEndsAt.None? <==> r[k].available)
        && (r[k].cooldownEndsAt.Some? ==> r[k].cooldownEndsAt.value == last.value + TWENTY_FOUR_HOURS_MS)
  {
    ActionKeysAreOwnKeys();
    if did !in st.users then map[]
    else map k | k in ACTION_MAP :: StatusOf(AccountOf(st, did), ACTION_MAP[k], LastClaimTime(st.logs, did, k), now)
  }

  /** The report and the claim's completion/cooldown stage agree: an action is reported
      available exactly when that stage lets a claim through, and a reported end of
      cooldown is the one a rejected claim carries. */
  lemma ReportAgreesWithClaim(st: LedgerState, did: string, key: string, now: int)
    requires did in st.users && key in ACTION_MAP
    ensures var check := CooldownCheck(AccountOf(st, did), ACTION_MAP[key], st.logs, did, now);
      var status := Cooldowns(st, did, now)[key];
      && (status.available <==> check.None?)
      && (ACTION_MAP[key].cooldown == Every24h ==>
            forall e :: status.cooldownEndsAt == Some(e) <==> check == Some(OnCooldown(e)))
      && (ACTION_MAP[key].cooldown == Once ==> (status.completed <==> check == Some(AlreadyCompleted)))
  {
    ActionKeyIsOwnKey(key);
  }

  // ---------------------------------------------------------------------------
  // Properties of claims
  // ---------------------------------------------------------------------------

  /** The recurring boundary is inclusive: exactly 24 hours after the last claim the
      cooldown no longer blocks; one millisecond earlier it does, until `t + 24h`. */
  lemma CooldownBoundary(acct: Account, key: string, logs: seq<LogEntry>, did: string, t: int)
    requires key in ACTION_MAP && ACTION_MAP[key].cooldown == Every24h
    requires LastClaimTime(logs, did, key) == Some(t)
    ensures CooldownCheck(acct, ACTION_MAP[key], logs, did, t + TWENTY_FOUR_HOURS_MS).None?
    ensures CooldownCheck(acct, ACTION_MAP[key], logs, did, t + TWENTY_FOUR_HOURS_MS - 1)
      == Some(OnCooldown(t + TWENTY_FOUR_HOURS_MS))
  {
    ActionKeyIsOwnKey(key);
  }

  /** A claim the cooldown stage refuses changes nothing and carries that stage's error. */
  lemma CooldownRejects(st: LedgerState, did: string, key: string, tweetUrl: Option<string>, env: Env, remote: Remote, now: int)
    requires key in ACTION_MAP && did in st.users
    requires CooldownCheck(AccountOf(st, did), ACTION_MAP[key], st.logs, did, now).Some?
    ensures ClaimStep(st, did, key, tweetUrl, env, remote, now) ==
      (st, Rejected(CooldownCheck(AccountOf(st, did), ACTION_MAP[key], st.logs, did, now).value))
  {
  }

  /** A successful claim at `t0` makes `t0` the latest claim time of that action. */
  lemma ClaimSetsLastClaimTime(st: LedgerState, did: string, key: string, tweetUrl: Option<string>,
                               env: Env, remote: Remote, t0: int)
    requires key in ACTION_MAP && ACTION_MAP[key].cooldown == Every24h
    requires ClaimStep(st, did, key, tweetUrl, env, remote, t0).1.Claimed?
    ensures LastClaimTime(ClaimStep(st, did, key, tweetUrl, env, remote, t0).0.logs, did, key) == Some(t0)
  {
    ActionKeyIsOwnKey(key);
    var st' := ClaimStep(st, did, key, tweetUrl, env, remote, t0).0;
    assert CooldownCheck(AccountOf(st, did), ACTION_MAP[key], st.logs, did, t0).None?;
    var prev := LastClaimTime(st.logs, did, key);
    assert prev.Some? ==> prev.value < t0;
    assert st'.logs[..|st'.logs| - 1] == st.logs;
  }

  /** After a successful claim of a recurring action at `t0`, every claim of it by the same
      user before `t0 + 24h` fails with that end time, and from `t0 + 24h` on the cooldown
      stage lets it through. */
  lemma RecurringCooldownAfterClaim(st: LedgerState, did: string, key: string, tweetUrl: Option<string>,
                                    env: Env, remote: Remote, t0: int,
                                    tweetUrl': Option<string>, env': Env, remote': Remote, now: int)
    requires key in ACTION_MAP && ACTION_MAP[key].cooldown == Every24h
    requires ClaimStep(st, did, key, tweetUrl, env, remote, t0).1.Claimed?
    ensures var st' := ClaimStep(st, did, key, tweetUrl, env, remote, t0).0;
      && (now < t0 + TWENTY_FOUR_HOURS_MS ==>
            ClaimStep(st', did, key, tweetUrl', env', remote', now).1 == Rejected(OnCooldown(t0 + TWENTY_FOUR_HOURS_MS)))
      && (now >= t0 + TWENTY_FOUR_HOURS_MS ==>
            CooldownCheck(AccountOf(st', did), ACTION_MAP[key], st'.logs, did, now).None?)
  {
    ActionKeyIsOwnKey(key);
    ClaimSetsLastClaimTime(st, did, key, tweetUrl, env, remote, t0);
    var st' := ClaimStep(st, did, key, tweetUrl, env, remote, t0).0;
    if now < t0 + TWENTY_FOUR_HOURS_MS {
      CooldownRejects(st', did, key, tweetUrl', env', remote', now);
    }
  }

  /** After a successful claim of a once action, every later claim of it fails. */
  lemma OnceActionIsFinal(st: LedgerState, did: string, key: string, tweetUrl: Option<string>,
                          env: Env, remote: Remote, now: int,
                          tweetUrl': Option<string>, env': Env, remote': Remote, now': int)
    requires key in ACTION_MAP && ACTION_MAP[key].cooldown == Once
    requires ClaimStep(st, did, key, tweetUrl, env, remote, now).1.Claimed?
    ensures var st' := ClaimStep(st, did, key, tweetUrl, env, remote, now).0;
      ClaimStep(st', did, key, tweetUrl', env', remote', now') == (st', Rejected(AlreadyCompleted))
  {
    ActionKeyIsOwnKey(key);
  }

  /** With tweet verification on and the cooldown stage passed, a tweet-link action's
      verdict is decided by the tweet-link gates alone. */
  lemma VerdictIsTweetCheck(st: LedgerState, did: string, key: string, tweetUrl: Option<string>,
                            env: Env, remote: Remote, now: int)
    requires key in ACTION_MAP && key in TWEET_URL_ACTIONS && did in st.users && TweetCheckEnabled(env)
    requires CooldownCheck(AccountOf(st, did), ACTION_MAP[key], st.logs, did, now).None?
    ensures Verdict(st, did, key, tweetUrl, env, remote, now) == TweetCheck(AccountOf(st, did), key, tweetUrl, env, remote)
  {
    FollowNeedsNoTweetLink();
  }

  /** With tweet verification on, a tweet-link action claimed without a link is refused. */
  lemma TweetLinkRequiredWhenVerifying(st: LedgerState, did: string, key: string, env: Env, remote: Remote, now: int)
    requires key in ACTION_MAP && key in TWEET_URL_ACTIONS && did in st.users && TweetCheckEnabled(env)
    requires CooldownCheck(AccountOf(st, did), ACTION_MAP[key], st.logs, did, now).None?
    ensures ClaimStep(st, did, key, None, env, remote, now) == (st, Rejected(TweetLinkRequired))
  {
    VerdictIsTweetCheck(st, did, key, None, env, remote, now);
  }

  /** With tweet verification on, a link to a tweet by another account is refused. */
  lemma ForeignTweetRejected(st: LedgerState, did: string, key: string, url: string, tweet: TweetInfo,
                             env: Env, remote: Remote, now: int)
    requires key in ACTION_MAP && key in TWEET_URL_ACTIONS && did in st.users && TweetCheckEnabled(env)
    requires CooldownCheck(AccountOf(st, did), ACTION_MAP[key], st.logs, did, now).None?
    requires Trim(url) != "" && ParseTweetUrl(Trim(url)).Some?
    requires FetchTweet(env, remote, ParseTweetUrl(Trim(url)).value) == Some(tweet)
    requires tweet.authorId != AccountOf(st, did).twitterId
    ensures ClaimStep(st, did, key, Some(url), env, remote, now) == (st, Rejected(NotOwnTweet))
  {
    VerdictIsTweetCheck(st, did, key, Some(url), env, remote, now);
  }

  /** A claim that no check refuses credits the action's points to the user's total. */
  lemma ClaimCredits(st: LedgerState, did: string, key: string, tweetUrl: Option<string>, env: Env, remote: Remote, now: int)
    requires key in ACTION_MAP && did in st.users
    requires Verdict(st, did, key, tweetUrl, env, remote, now).None?
    ensures ClaimStep(st, did, key, tweetUrl, env, remote, now).1 ==
      Claimed(ACTION_MAP[key].points, AccountOf(st, did).points + ACTION_MAP[key].points)
  {
    ActionKeyIsOwnKey(key);
  }

  /** With tweet verification on, a link to the user's own tweet that meets the action's
      requirement credits the action's points. */
  lemma OwnTweetCredited(st: LedgerState, did: string, key: string, url: string, tweet: TweetInfo,
                         env: Env, remote: Remote, now: int)
    requires key in ACTION_MAP && key in TWEET_URL_ACTIONS && did in st.users && TweetCheckEnabled(env)
    requires CooldownCheck(AccountOf(st, did), ACTION_MAP[key], st.logs, did, now).None?
    requires Trim(url) != "" && ParseTweetUrl(Trim(url)).Some?
    requires FetchTweet(env, remote, ParseTweetUrl(Trim(url)).value) == Some(tweet)
    requires tweet.authorId == AccountOf(st, did).twitterId
    requires RequirementCheck(key, tweet, OfficialTwitterHandle(env)).None?
    ensures ClaimStep(st, did, key, Some(url), env, remote, now).1 ==
      Claimed(ACTION_MAP[key].points, AccountOf(st, did).points + ACTION_MAP[key].points)
  {
    VerdictIsTweetCheck(st, did, key, Some(url), env, remote, now);
    assert TweetCheck(AccountOf(st, did), key, Some(url), env, remote).None?;
    ClaimCredits(st, did, key, Some(url), env, remote, now);
  }

  /** The invariant that only once actions are ever marked completed. */
  predicate CompletedAreOnce(st: LedgerState) {
    forall did, k | did in st.progress && k in st.progress[did].completedActions ::
      k in ACTION_MAP && ACTION_MAP[k].cooldown == Once
  }

  lemma ClaimKeepsCompletedOnce(st: LedgerState, did: string, key: string, tweetUrl: Option<string>, env: Env, remote: Remote, now: int)
    requires CompletedAreOnce(st)
    ensures CompletedAreOnce(ClaimStep(st, did, key, tweetUrl, env, remote, now).0)
  {
  }

  /** The follow gate: with the follow check on, an uncompleted follow claim is refused
      unless the user follows the official account; otherwise it credits 250 points. */
  lemma FollowGate(st: LedgerState, did: string, tweetUrl: Option<string>, env: Env, remote: Remote, now: int)
    requires did in st.users && FOLLOW_TWITTER !in AccountOf(st, did).completedActions
    ensures var r := ClaimStep(st, did, FOLLOW_TWITTER, tweetUrl, env, remote, now);
      if FollowCheckEnabled(env) && !remote.follows(AccountOf(st, did).twitterId, env.accountId.value)
      then r == (st, Rejected(FollowNotVerified))
      else r.1 == Claimed(250, AccountOf(st, did).points + 250)
  {
    CatalogEntryIsMapped(0);
    FollowNeedsNoTweetLink();
    if !(FollowCheckEnabled(env) && !remote.follows(AccountOf(st, did).twitterId, env.accountId.value)) {
      ClaimCredits(st, did, FOLLOW_TWITTER, tweetUrl, env, remote, now);
    }
  }

  /** A claim keeps the store's indexes valid: it changes a record's points only. */
  lemma ClaimKeepsIndexesValid(st: LedgerState, did: string, key: string, tweetUrl: Option<string>, env: Env, remote: Remote, now: int,
                               byTwitter: map<string, string>, byReferral: map<string, string>)
    requires Users.IndexesValid(st.users, byTwitter, byReferral)
    ensures Users.IndexesValid(ClaimStep(st, did, key, tweetUrl, env, remote, now).0.users, byTwitter, byReferral)
  {
    var r := ClaimStep(st, did, key, tweetUrl, env, remote, now);
    if r.1.Claimed? {
      Users.PointsUpdateKeepsIndexesValid(st.users, byTwitter, byReferral, did, r.0.users[did].points);
    }
  }

  lemma ClaimKeepsProgressOnlyForUsers(st: LedgerState, did: string, key: string, tweetUrl: Option<string>, env: Env, remote: Remote, now: int)
    requires ProgressOnlyForUsers(st)
    ensures ProgressOnlyForUsers(ClaimStep(st, did, key, tweetUrl, env, remote, now).0)
  {
  }

  /** A stored user without progress has an empty account. */
  lemma FreshAccount(st: LedgerState, did: string)
    requires did in st.users && did !in st.progress
    ensures AccountOf(st, did) == Account(st.users[did].twitterId, st.users[did].points, {}, None, map[])
  {
  }

  /** A user `createUser` has just written (no record before, zero points) claims from an
      empty account: never refused as unknown or as already completed, and a credit makes
      the total exactly the action's points. */
  lemma ClaimAfterSignUp(st: LedgerState, user: Users.User, key: string, tweetUrl: Option<string>, env: Env, remote: Remote, now: int)
    requires ProgressOnlyForUsers(st)
    requires user.privyDid !in st.users && user.points == 0
    ensures var st' := st.(users := st.users[user.privyDid := user]);
      var r := ClaimStep(st', user.privyDid, key, tweetUrl, env, remote, now).1;
      && AccountOf(st', user.privyDid) == Account(user.twitterId, 0, {}, None, map[])
      && r != Rejected(UserNotFound)
      && r != Rejected(AlreadyCompleted)
      && (r.Claimed? ==> r.totalPoints == r.pointsAwarded)
  {
    var st' := st.(users := st.users[user.privyDid := user]);
    FreshAccount(st', user.privyDid);
    var v := Verdict(st', user.privyDid, key, tweetUrl, env, remote, now);
    assert v.Some? ==> v.value != UserNotFound && v.value != AlreadyCompleted;
  }

  // ---------------------------------------------------------------------------
  // Sequences of claims
  // ---------------------------------------------------------------------------

  datatype ClaimCall = ClaimCall(privyDid: string, actionKey: string, tweetUrl: Option<string>, env: Env, remote: Remote, now: int)

  function Step(st: LedgerState, c: ClaimCall): LedgerState {
    ClaimStep(st, c.privyDid, c.actionKey, c.tweetUrl, c.env, c.remote, c.now).0
  }

  /** The state after a sequence of claims, one after another. */
  function Replay(st: LedgerState, calls: seq<ClaimCall>): LedgerState
    decreases |calls|
  {
    if calls == [] then st else Replay(Step(st, calls[0]), calls[1..])
  }

  /** Number of log entries crediting `key` to `did`. */
  function CountClaims(logs: seq<LogEntry>, did: string, key: string): nat
    decreases |logs|
  {
    if logs == [] then 0
    else CountClaims(logs[..|logs| - 1], did, key) + (if IsClaimOf(logs[|logs| - 1], did, key) then 1 else 0)
  }

  /** Whether a once action is logged for a user matches whether it is marked completed. */
  predicate OnceLoggedIffCompleted(st: LedgerState, did: string, key: string)
    requires did in st.users
  {
    CountClaims(st.logs, did, key) == if key in AccountOf(st, did).completedActions then 1 else 0
  }

  /** One claim keeps a once action's log count in step with its completion mark. */
  lemma OnceCountStep(st: LedgerState, c: ClaimCall, did: string, key: string)
    requires key in ACTION_MAP && ACTION_MAP[key].cooldown == Once && did in st.users
    requires OnceLoggedIffCompleted(st, did, key)
    ensures did in Step(st, c).users && OnceLoggedIffCompleted(Step(st, c), did, key)
  {
    var st' := Step(st, c);
    var r := ClaimStep(st, c.privyDid, c.actionKey, c.tweetUrl, c.env, c.remote, c.now);
    if r.1.Claimed? {
      assert st'.logs[..|st'.logs| - 1] == st.logs;
      ActionKeyIsOwnKey(key);
    }
  }

  /** A once action is credited to a user at most once, and exactly when it is marked
      completed, whatever claims follow. */
  lemma {:induction false} OnceCreditedAtMostOnce(st: LedgerState, calls: seq<ClaimCall>, did: string, key: string)
    requires key in ACTION_MAP && ACTION_MAP[key].cooldown == Once && did in st.users
    requires OnceLoggedIffCompleted(st, did, key)
    ensures did in Replay(st, calls).users && OnceLoggedIffCompleted(Replay(st, calls), did, key)
    decreases |calls|
  {
    if calls != [] {
      OnceCountStep(st, calls[0], did, key);
      OnceCreditedAtMostOnce(Step(st, calls[0]), calls[1..], did, key);
    }
  }

  /** Successive credits of a recurring action to one user lie at least 24 hours apart. */
  predicate ClaimsSpaced(logs: seq<LogEntry>, did: string, key: string) {
    forall i, j | 0 <= i < j < |logs| && IsClaimOf(logs[i], did, key) && IsClaimOf(logs[j], did, key) ::
      logs[j].createdAt - logs[i].createdAt >= TWENTY_FOUR_HOURS_MS
  }

  /** Appending an entry that is not a credit of `key` to `did`, or one at least 24 hours
      after every earlier such credit, keeps the credits spaced. */
  lemma ClaimsSpacedAppend(logs: seq<LogEntry>, e: LogEntry, did: string, key: string)
    requires ClaimsSpaced(logs, did, key)
    requires IsClaimOf(e, did, key) ==>
      forall i | 0 <= i < |logs| && IsClaimOf(logs[i], did, key) :: e.createdAt - logs[i].createdAt >= TWENTY_FOUR_HOURS_MS
    ensures ClaimsSpaced(logs + [e], did, key)
  {
    var logs' := logs + [e];
    forall i, j | 0 <= i < j < |logs'| && IsClaimOf(logs'[i], did, key) && IsClaimOf(logs'[j], did, key)
      ensures logs'[j].createdAt - logs'[i].createdAt >= TWENTY_FOUR_HOURS_MS
    {
      assert logs'[i] == logs[i];
      if j < |logs| {
        assert logs'[j] == logs[j];
      }
    }
  }

  lemma {:induction false} RecurringClaimsSpaced(st: LedgerState, calls: seq<ClaimCall>, did: string, key: string)
    requires key in ACTION_MAP && ACTION_MAP[key].cooldown == Every24h
    requires ClaimsSpaced(st.logs, did, key)
    ensures ClaimsSpaced(Replay(st, calls).logs, did, key)
    decreases |calls|
  {
    if calls != [] {
      var c := calls[0];
      var st' := Step(st, c);
      var r := ClaimStep(st, c.privyDid, c.actionKey, c.tweetUrl, c.env, c.remote, c.now);
      if r.1.Claimed? {
        var e := LogEntry(c.privyDid, c.actionKey, ACTION_MAP[c.actionKey].points, c.now);
        if c.privyDid == did && c.actionKey == key {
          ActionKeyIsOwnKey(key);
          assert CooldownCheck(AccountOf(st, did), ACTION_MAP[key], st.logs, did, c.now).None?;
          forall i | 0 <= i < |st.logs| && IsClaimOf(st.logs[i], did, key)
            ensures c.now - st.logs[i].createdAt >= TWENTY_FOUR_HOURS_MS
          {
            assert LastClaimTime(st.logs, did, key).Some?;
          }
        }
        ClaimsSpacedAppend(st.logs, e, did, key);
        assert st'.logs == st.logs + [e];
      }
      RecurringClaimsSpaced(st', calls[1..], did, key);
    }
  }

  /** Whatever claims are made, the set of users stays the same, each record changes at
      most in its points, those never decrease, and the log only grows. */
  lemma {:induction false} ReplayOnlyAppendsAndAdds(st: LedgerState, calls: seq<ClaimCall>)
    ensures var fin := Replay(st, calls);
      && fin.users.Keys == st.users.Keys
      && |st.logs| <= |fin.logs| && fin.logs[..|st.logs|] == st.logs
      && forall did | did in st.users ::
           && fin.users[did] == st.users[did].(points := fin.users[did].points)
           && fin.users[did].points >= st.users[did].points
    decreases |calls|
  {
    if calls != [] {
      var st' := Step(st, calls[0]);
      ReplayOnlyAppendsAndAdds(st', calls[1..]);
      var fin := Replay(st', calls[1..]);
      assert fin.logs[..|st'.logs|][..|st.logs|] == fin.logs[..|st.logs|];
    }
  }

  /** The Twitter part of `claimAction`: the follow check, then the tweet-link gates,
      each returning its error as soon as it fails. */
  method VerifyTwitter(user: Account, actionKey: string, tweetUrl: Option<string>, env: Env, remote: Remote)
    returns (failure: Option<ClaimError>)
    ensures failure == VerificationCheck(user, actionKey, tweetUrl, env, remote)
  {
    if actionKey == FOLLOW_TWITTER && FollowCheckEnabled(env) {
      var accountId := env.accountId.value;
      var follows := remote.follows(user.twitterId, accountId);
      if !follows {
        return Some(FollowNotVerified);
      }
    }

    if TweetCheckEnabled(env) && actionKey in TWEET_URL_ACTIONS {
      var url := if tweetUrl.Some? then Trim(tweetUrl.value) else "";
      if url == "" {
        return Some(TweetLinkRequired);
      }
      var tweetId := ParseTweetUrl(url);
      if tweetId.None? {
        return Some(TweetLinkInvalid);
      }
      var tweet := FetchTweet(env, remote, tweetId.value);
      if tweet.None? {
        return Some(TweetUnavailable);
      }
      if tweet.value.authorId != user.twitterId {
        return Some(NotOwnTweet);
      }
      var handle := OfficialTwitterHandle(env);
      if actionKey == QT_TWITTER {
        if !IsQuoteTweet(tweet.value) {
          return Some(NotQuoteTweet);
        }
      } else if actionKey == RT_TWITTER {
        if !IsRetweet(tweet.value) {
          return Some(NotRetweet);
        }
      } else if actionKey == COMMENT_TWITTER {
        if !IsReply(tweet.value) {
          return Some(NotReply);
        }
      } else if actionKey == POST_TWITTER || actionKey == DAILY_POST_TWITTER {
        if !MentionsHandle(tweet.value, handle) {
          return Some(MissingMention(handle));
        }
      }
    }
    return None;
  }

  /** One more log entry: the latest claim time changes only for that entry's user and
      action, and only when the entry is later. */
  lemma LastClaimTimeStep(logs: seq<LogEntry>, i: nat, did: string, key: string)
    requires i < |logs|
    ensures var prev := LastClaimTime(logs[..i], did, key);
      LastClaimTime(logs[..i + 1], did, key) ==
        if IsClaimOf(logs[i], did, key) && (prev.None? || prev.value < logs[i].createdAt) then Some(logs[i].createdAt)
        else prev
  {
    assert logs[..i + 1][..i] == logs[..i];
  }

  function LastOf(lastClaimByAction: map<string, int>, key: string): Option<int> {
    if key in lastClaimByAction then Some(lastClaimByAction[key]) else None
  }

  /** The second loop of `getActionCooldowns`: one status per action of `defs`, a later
      action replacing an earlier one with the same key. */
  method StatusReport(user: Account, defs: seq<ActionDef>, lastClaimByAction: map<string, int>, now: int)
    returns (result: map<string, ActionStatus>)
    ensures forall i | 0 <= i < |defs| :: defs[i].key in result
    ensures forall k | k in result :: exists i | 0 <= i < |defs| ::
      defs[i].key == k && result[k] == StatusOf(user, defs[i], LastOf(lastClaimByAction, k), now)
  {
    result := map[];
    for j := 0 to |defs|
      invariant forall i | 0 <= i < j :: defs[i].key in result
      invariant forall k | k in result :: exists i | 0 <= i < j ::
        defs[i].key == k && result[k] == StatusOf(user, defs[i], LastOf(lastClaimByAction, k), now)
    {
      var action := defs[j];
      var lastClaim := if action.key in lastClaimByAction then Some(lastClaimByAction[action.key]) else None;
      result := result[action.key := StatusOf(user, action, lastClaim, now)];
    }
  }

  class ClaimLedger {
    /** The user records the claims read and credit. */
    const store: Users.UserStore
    /** The claim engine's own fields of each user, by Privy DID. */
    var progress: map<string, Progress>
    /** The `action_logs` collection, in insertion order. */
    var logs: seq<LogEntry>

    constructor (store: Users.UserStore)
      ensures this.store == store && progress == map[] && logs == []
    {
      this.store := store;
      progress := map[];
      logs := [];
    }

    function State(): LedgerState
      reads this, store
    {
      LedgerState(store.users, progress, logs)
    }

    /** `logAction`: one new entry stamped with the current time. */
    method LogAction(privyDid: string, action: string, points: int, now: int)
      modifies this
      ensures logs == old(logs) + [LogEntry(privyDid, action, points, now)]
      ensures progress == old(progress)
    {
      logs := logs + [LogEntry(privyDid, action, points, now)];
    }

    /** `markActionCompleted`: the key joins the completed set; nothing is written for an
        unknown DID. */
    method MarkActionCompleted(privyDid: string, action: string)
      modifies this
      ensures progress == if privyDid in store.users
        then old(progress)[privyDid := ProgressOf(old(progress), privyDid).(
          completedActions := ProgressOf(old(progress), privyDid).completedActions + {action})]
        else old(progress)
      ensures logs == old(logs)
    {
      if privyDid in store.users {
        var p := ProgressOf(progress, privyDid);
        progress := progress[privyDid := p.(completedActions := p.completedActions + {action})];
      }
    }

    /** `updateLastCheckIn`: stamps the check-in time. */
    method UpdateLastCheckIn(privyDid: string, now: int)
      modifies this
      ensures progress == if privyDid in store.users
        then old(progress)[privyDid := ProgressOf(old(progress), privyDid).(lastCheckIn := Some(now))]
        else old(progress)
      ensures logs == old(logs)
    {
      if privyDid in store.users {
        progress := progress[privyDid := ProgressOf(progress, privyDid).(lastCheckIn := Some(now))];
      }
    }

    /** `updateLastDailyPost`: stamps the daily-post time for one platform. */
    method UpdateLastDailyPost(privyDid: string, platform: Platform, now: int)
      modifies this
      ensures progress == if privyDid in store.users
        then old(progress)[privyDid := ProgressOf(old(progress), privyDid).(
          lastDailyPost := ProgressOf(old(progress), privyDid).lastDailyPost[platform := now])]
        else old(progress)
      ensures logs == old(logs)
    {
      if privyDid in store.users {
        var p := ProgressOf(progress, privyDid);
        progress := progress[privyDid := p.(lastDailyPost := p.lastDailyPost[platform := now])];
      }
    }

    /** The progress writes of a successful claim, in the order `claimAction` makes them. */
    method WriteProgress(privyDid: string, actionDef: ActionDef, now: int)
      requires privyDid in store.users
      modifies this
      ensures progress == CommitClaim(old(State()), privyDid, actionDef, now).progress
      ensures logs == old(logs)
    {
      if actionDef.cooldown == Once {
        MarkActionCompleted(privyDid, actionDef.key);
      }
      if actionDef.key == DAILY_CHECKIN {
        UpdateLastCheckIn(privyDid, now);
      }
      if actionDef.key == DAILY_POST_TWITTER {
        UpdateLastDailyPost(privyDid, Twitter, now);
      }
      if actionDef.key == DAILY_POST_FARCASTER {
        UpdateLastDailyPost(privyDid, Farcaster, now);
      }
    }

    /** The writes of a successful claim: the points, the log entry, then the progress. */
    method Credit(privyDid: string, actionDef: ActionDef, now: int)
      requires privyDid in store.users
      modifies this, store
      ensures State() == CommitClaim(old(State()), privyDid, actionDef, now)
      ensures store.byTwitter == old(store.byTwitter) && store.byReferral == old(store.byReferral)
      ensures old(store.Valid()) ==> store.Valid()
    {
      ghost var before := State();
      store.AddPoints(privyDid, actionDef.points);
      LogAction(privyDid, actionDef.key, actionDef.points, now);
      assert State() == CommitClaim(before, privyDid, actionDef, now).(progress := before.progress);
      WriteProgress(privyDid, actionDef, now);
    }

    /** `claimAction`: the checks in order, each returning on failure, then the commit. */
    method Claim(privyDid: string, actionKey: string, tweetUrl: Option<string>, env: Env, remote: Remote, now: int)
      returns (response: ClaimResponse)
      modifies this, store
      ensures var (st, r) := ClaimStep(old(State()), privyDid, actionKey, tweetUrl, env, remote, now);
        State() == st && response == ToResponse(r)
      ensures store.byTwitter == old(store.byTwitter) && store.byReferral == old(store.byReferral)
      ensures old(store.Valid()) ==> store.Valid()
      ensures old(ProgressOnlyForUsers(State())) ==> ProgressOnlyForUsers(State())
    {
      if actionKey !in ACTION_MAP {
        return ToResponse(Rejected(UnknownAction));
      }
      var actionDef := ACTION_MAP[actionKey];
      ActionKeyIsOwnKey(actionKey);

      var record := store.GetUserByPrivyDid(privyDid);
      if record.None? {
        return ToResponse(Rejected(UserNotFound));
      }
      var user := AccountOf(State(), privyDid);

      if actionDef.cooldown == Once {
        if actionKey in user.completedActions {
          return ToResponse(Rejected(AlreadyCompleted));
        }
      } else {
        var lastClaim := LastClaimTime(logs, privyDid, actionKey);
        if lastClaim.Some? {
          var elapsed := now - lastClaim.value;
          if elapsed < TWENTY_FOUR_HOURS_MS {
            return ToResponse(Rejected(OnCooldown(lastClaim.value + TWENTY_FOUR_HOURS_MS)));
          }
        }
      }

      var failure := VerifyTwitter(user, actionKey, tweetUrl, env, remote);
      if failure.Some? {
        return ToResponse(Rejected(failure.value));
      }

      Credit(privyDid, actionDef, now);

      var updatedUser := store.GetUserByPrivyDid(privyDid);
      return ToResponse(Claimed(actionDef.points, if updatedUser.Some? then updatedUser.value.points else 0));
    }

    /** The first half of `getActionCooldowns`: the latest claim time of each action the
        user has claimed. */
    method LastClaimsByAction(privyDid: string) returns (lastClaimByAction: map<string, int>)
      ensures forall a ::
        LastClaimTime(logs, privyDid, a) ==
        (if a in lastClaimByAction then Some(lastClaimByAction[a]) else None)
    {
      lastClaimByAction := map[];
      for i := 0 to |logs|
        invariant forall a ::
          LastClaimTime(logs[..i], privyDid, a) ==
          (if a in lastClaimByAction then Some(lastClaimByAction[a]) else None)
      {
        var log := logs[i];
        forall a
          ensures var prev := LastClaimTime(logs[..i], privyDid, a);
            LastClaimTime(logs[..i + 1], privyDid, a) ==
              if IsClaimOf(log, privyDid, a) && (prev.None? || prev.value < log.createdAt) then Some(log.createdAt)
              else prev
        {
          LastClaimTimeStep(logs, i, privyDid, a);
        }
        if log.privyDid == privyDid && (log.action !in lastClaimByAction || lastClaimByAction[log.action] < log.createdAt) {
          lastClaimByAction := lastClaimByAction[log.action := log.createdAt];
        }
      }
      assert logs[..|logs|] == logs;
    }

    /** `getActionCooldowns`: the latest claim times, then one status per catalog action. */
    method ActionCooldowns(privyDid: string, now: int) returns (result: map<string, ActionStatus>)
      ensures result == Cooldowns(State(), privyDid, now)
    {
      if privyDid !in store.users {
        return map[];
      }
      var user := AccountOf(State(), privyDid);
      var lastClaimByAction := LastClaimsByAction(privyDid);
      result := StatusReport(user, ACTIONS, lastClaimByAction, now);

      forall k | k in ACTION_MAP
        ensures k in result
      {
        MappedKeyIsCatalogEntry(k);
      }
      forall k | k in result
        ensures k in ACTION_MAP && result[k] == StatusOf(user, ACTION_MAP[k], LastClaimTime(logs, privyDid, k), now)
      {
        var i :| 0 <= i < |ACTIONS| && ACTIONS[i].key == k &&
          result[k] == StatusOf(user, ACTIONS[i], LastOf(lastClaimByAction, k), now);
        CatalogEntryIsMapped(i);
      }
    }
  }
}
