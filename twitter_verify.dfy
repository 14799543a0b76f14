/**
  Tweet verification (lib/twitter-verify.ts): which checks the deployment can run,
  extraction of a status id from a tweet link, the referenced-tweet predicates, the
  mention check, and the conversion of a fetched tweet into `TweetInfo`.

  The HTTP calls themselves are oracles (`Remote`): the follower check is a boolean,
  and each tweet endpoint yields the decoded JSON body, or `None` for a non-OK reply.
*/
module TwitterVerify {
  import opened Wrappers

  // ---------------------------------------------------------------------------
  // Environment and capability switches
  // ---------------------------------------------------------------------------

  /** The environment variables the verification code reads. */
  datatype Env = Env(
    bearerToken: Option<string>,     // TWITTER_BEARER_TOKEN
    accountId: Option<string>,       // TWITTER_ACCOUNT_ID
    apiIoKey: Option<string>,        // TWITTERAPI_IO_API_KEY
    twitterUsername: Option<string>) // TWITTER_USERNAME (read by the claim engine)

  /** JavaScript truthiness of an optional string: set, and not the empty string. */
  predicate Truthy(v: Option<string>) {
    v.Some? && v.value != ""
  }

  /** Follow checks need the official API: a bearer token and the brand's account id. */
  predicate FollowCheckEnabled(env: Env) {
    Truthy(env.bearerToken) && Truthy(env.accountId)
  }

  /** Tweet checks work through either TwitterAPI.io or the official API. */
  predicate TweetCheckEnabled(env: Env) {
    Truthy(env.apiIoKey) || Truthy(env.bearerToken)
  }

  // ---------------------------------------------------------------------------
  // Tweets and their references
  // ---------------------------------------------------------------------------

  /** A `referenced_tweets` entry type. The official API's strings are cast without a
      check, so any other string can appear at run time (`Other`). */
  datatype RefKind = Retweeted | Quoted | RepliedTo | Other(tag: string)

  datatype TweetInfo = TweetInfo(
    authorId: string,
    referenced: Option<seq<RefKind>>, // `referenced_tweets`, possibly undefined
    text: Option<string>)

  /** `refs.some((r) => r.type === kind)` */
  function HasRef(refs: seq<RefKind>, kind: RefKind): bool {
    |refs| > 0 && (refs[0] == kind || HasRef(refs[1..], kind))
  }

  lemma {:induction false} HasRefIff(refs: seq<RefKind>, kind: RefKind)
    ensures HasRef(refs, kind) <==> kind in refs
  {
    if |refs| > 0 {
      HasRefIff(refs[1..], kind);
      assert refs == [refs[0]] + refs[1..];
    }
  }

  predicate IsQuoteTweet(info: TweetInfo) {
    info.referenced.Some? && HasRef(info.referenced.value, Quoted)
  }

  predicate IsRetweet(info: TweetInfo) {
    info.referenced.Some? && HasRef(info.referenced.value, Retweeted)
  }

  predicate IsReply(info: TweetInfo) {
    info.referenced.Some? && HasRef(info.referenced.value, RepliedTo)
  }

  /** Each predicate holds exactly when some entry has its type; an absent list gives false. */
  lemma ReferencePredicates(info: TweetInfo)
    ensures IsQuoteTweet(info) <==> info.referenced.Some? && Quoted in info.referenced.value
    ensures IsRetweet(info) <==> info.referenced.Some? && Retweeted in info.referenced.value
    ensures IsReply(info) <==> info.referenced.Some? && RepliedTo in info.referenced.value
    ensures info.referenced.None? ==> !IsQuoteTweet(info) && !IsRetweet(info) && !IsReply(info)
  {
    if info.referenced.Some? {
      HasRefIff(info.referenced.value, Quoted);
      HasRefIff(info.referenced.value, Retweeted);
      HasRefIff(info.referenced.value, RepliedTo);
    }
  }

  /** Position of a kind in the order the TwitterAPI.io conversion pushes them. */
  function PushOrder(kind: RefKind): nat {
    match kind
    case Retweeted => 0
    case Quoted => 1
    case RepliedTo => 2
    case Other(_) => 3
  }

  /** The `referenced_tweets` list built from TwitterAPI.io's three flags: pushed in the
      order retweeted, quoted, replied_to, and left undefined when it stays empty. */
  function ReferencesFromFlags(retweeted: bool, quoted: bool, reply: bool): (r: Option<seq<RefKind>>)
    ensures r.None? <==> !retweeted && !quoted && !reply
    ensures r.Some? ==> forall i, j | 0 <= i < j < |r.value| :: PushOrder(r.value[i]) < PushOrder(r.value[j])
  {
    var refs := (if retweeted then [Retweeted] else [])
      + (if quoted then [Quoted] else [])
      + (if reply then [RepliedTo] else []);
    if |refs| > 0 then Some(refs) else None
  }

  /** After the mapping, each predicate reads back its own flag. */
  lemma FlagsReadBack(author: string, retweeted: bool, quoted: bool, reply: bool, text: Option<string>)
    ensures var info := TweetInfo(author, ReferencesFromFlags(retweeted, quoted, reply), text);
      IsRetweet(info) == retweeted && IsQuoteTweet(info) == quoted && IsReply(info) == reply
  {
    var info := TweetInfo(author, ReferencesFromFlags(retweeted, quoted, reply), text);
    ReferencePredicates(info);
  }

  // ---------------------------------------------------------------------------
  // Decoded response bodies of the two tweet endpoints
  // ---------------------------------------------------------------------------

  /** One tweet of a TwitterAPI.io reply; `quoted_tweet`, `retweeted_tweet` and `isReply`
      are reduced to their truthiness. */
  datatype ApiIoTweet = ApiIoTweet(
    id: string,
    text: Option<string>,
    isReply: bool,
    hasQuotedTweet: bool,
    hasRetweetedTweet: bool,
    authorId: Option<string>) // `author?.id`

  /** `tweets` is `None` when the field is missing or not an array. */
  datatype ApiIoResponse = ApiIoResponse(status: Option<string>, tweets: Option<seq<ApiIoTweet>>)

  function FromApiIo(body: ApiIoResponse): (r: Option<TweetInfo>)
    ensures r.Some? <==>
      && body.status != Some("error")
      && body.tweets.Some? && |body.tweets.value| > 0
      && Truthy(body.tweets.value[0].authorId)
    ensures r.Some? ==>
      var t := body.tweets.value[0];
      && r.value.authorId == t.authorId.value
      && r.value.text == t.text
      && IsRetweet(r.value) == t.hasRetweetedTweet
      && IsQuoteTweet(r.value) == t.hasQuotedTweet
      && IsReply(r.value) == t.isReply
  {
    if body.status == Some("error") || body.tweets.None? || |body.tweets.value| == 0 then None
    else
      var t := body.tweets.value[0];
      if !Truthy(t.authorId) then None
      else
        FlagsReadBack(t.authorId.value, t.hasRetweetedTweet, t.hasQuotedTweet, t.isReply, t.text);
        Some(TweetInfo(t.authorId.value,
          ReferencesFromFlags(t.hasRetweetedTweet, t.hasQuotedTweet, t.isReply), t.text))
  }

  datatype OfficialTweet = OfficialTweet(
    authorId: string,
    referencedTypes: Option<seq<string>>, // the `type` of each `referenced_tweets` entry
    text: Option<string>)

  datatype OfficialResponse = OfficialResponse(data: Option<OfficialTweet>)

  /** The unchecked cast of an official API type string. */
  function KindOf(tag: string): RefKind {
    if tag == "retweeted" then Retweeted
    else if tag == "quoted" then Quoted
    else if tag == "replied_to" then RepliedTo
    else Other(tag)
  }

  function FromOfficial(body: OfficialResponse): (r: Option<TweetInfo>)
    ensures r.Some? <==> body.data.Some?
    ensures r.Some? ==>
      var t := body.data.value;
      && r.value.authorId == t.authorId
      && r.value.text == t.text
      && (IsQuoteTweet(r.value) <==> t.referencedTypes.Some? && "quoted" in t.referencedTypes.value)
      && (IsRetweet(r.value) <==> t.referencedTypes.Some? && "retweeted" in t.referencedTypes.value)
      && (IsReply(r.value) <==> t.referencedTypes.Some? && "replied_to" in t.referencedTypes.value)
  {
    match body.data
    case None => None
    case Some(t) =>
      var refs := if t.referencedTypes.None? then None
        else Some(seq(|t.referencedTypes.value|, i requires 0 <= i < |t.referencedTypes.value| =>
          KindOf(t.referencedTypes.value[i])));
      var info := TweetInfo(t.authorId, refs, t.text);
      ReferencePredicates(info);
      assert t.referencedTypes.Some? ==> forall i | 0 <= i < |t.referencedTypes.value| ::
        refs.value[i] == KindOf(t.referencedTypes.value[i]);
      Some(info)
  }

  // ---------------------------------------------------------------------------
  // Remote services and fetching
  // ---------------------------------------------------------------------------

  /** The network, as oracles. */
  datatype Remote = Remote(
    follows: (string, string) -> bool,               // verifyUserFollowsAccount(user, account)
    apiIoLookup: string -> Option<ApiIoResponse>,     // GET /twitter/tweets; None: non-OK status
    officialLookup: string -> Option<OfficialResponse>) // GET /2/tweets/:id; None: non-OK status

  /** TwitterAPI.io when its key is set, else the official API when a bearer token is set,
      else nothing. */
  function FetchTweet(env: Env, remote: Remote, tweetId: string): (r: Option<TweetInfo>)
    ensures r.Some? ==> TweetCheckEnabled(env)
    ensures Truthy(env.apiIoKey) ==>
      r == (match remote.apiIoLookup(tweetId) case None => None case Some(b) => FromApiIo(b))
    ensures !Truthy(env.apiIoKey) && Truthy(env.bearerToken) ==>
      r == (match remote.officialLookup(tweetId) case None => None case Some(b) => FromOfficial(b))
  {
    if Truthy(env.apiIoKey) then
      match remote.apiIoLookup(tweetId)
      case None => None
      case Some(b) => FromApiIo(b)
    else if Truthy(env.bearerToken) then
      match remote.officialLookup(tweetId)
      case None => None
      case Some(b) => FromOfficial(b)
    else None
  }

  // ---------------------------------------------------------------------------
  // Characters and strings
  // ---------------------------------------------------------------------------

  /** The characters JavaScript's `String.prototype.trim` removes (WhiteSpace and LineTerminator). */
  predicate IsJsWhitespace(c: char) {
    || c == '\t' || c == '\n' || c == '\U{000B}' || c == '\U{000C}' || c == '\r' || c == ' '
    || c == '\U{00A0}' || c == '\U{1680}' || ('\U{2000}' <= c <= '\U{200A}')
    || c == '\U{2028}' || c == '\U{2029}' || c == '\U{202F}' || c == '\U{205F}'
    || c == '\U{3000}' || c == '\U{FEFF}'
  }

  predicate AllWhitespace(s: string) {
    forall i | 0 <= i < |s| :: IsJsWhitespace(s[i])
  }

  predicate IsDigit(c: char) {
    '0' <= c <= '9'
  }

  predicate AllDigits(s: string) {
    forall i | 0 <= i < |s| :: IsDigit(s[i])
  }

  function TrimStart(s: string): (r: string)
    ensures |r| <= |s| && r == s[|s| - |r|..]
    ensures AllWhitespace(s[..|s| - |r|])
    ensures r == [] || !IsJsWhitespace(r[0])
  {
    if |s| > 0 && IsJsWhitespace(s[0]) then TrimStart(s[1..]) else s
  }

  function TrimEnd(s: string): (r: string)
    ensures |r| <= |s| && r == s[..|r|]
    ensures AllWhitespace(s[|r|..])
    ensures r == [] || !IsJsWhitespace(r[|r| - 1])
  {
    if |s| > 0 && IsJsWhitespace(s[|s| - 1]) then TrimEnd(s[..|s| - 1]) else s
  }

  /** `s.trim()` */
  function Trim(s: string): string {
    TrimEnd(TrimStart(s))
  }

  lemma {:induction false} TrimStartSkipsWhitespace(w: string, s: string)
    requires AllWhitespace(w)
    ensures TrimStart(w + s) == TrimStart(s)
  {
    if |w| > 0 {
      assert (w + s)[1..] == w[1..] + s;
      TrimStartSkipsWhitespace(w[1..], s);
    } else {
      assert w + s == s;
    }
  }

  lemma {:induction false} TrimEndSkipsWhitespace(s: string, w: string)
    requires AllWhitespace(w)
    ensures TrimEnd(s + w) == TrimEnd(s)
  {
    if |w| > 0 {
      assert (s + w)[..|s + w| - 1] == s + w[..|w| - 1];
      TrimEndSkipsWhitespace(s, w[..|w| - 1]);
    } else {
      assert s + w == s;
    }
  }

  /** Trailing text is carried through `TrimStart` once a non-blank character is met. */
  lemma {:induction false} TrimStartAppend(s: string, w: string)
    requires !AllWhitespace(s)
    ensures TrimStart(s + w) == TrimStart(s) + w
  {
    assert |s| > 0;
    if IsJsWhitespace(s[0]) {
      assert (s + w)[1..] == s[1..] + w;
      assert !AllWhitespace(s[1..]) by {
        var i :| 0 <= i < |s| && !IsJsWhitespace(s[i]);
        assert s[1..][i - 1] == s[i];
      }
      TrimStartAppend(s[1..], w);
    }
  }

  /** Surrounding blanks do not change the trimmed text. */
  lemma TrimIgnoresSurroundingWhitespace(w1: string, s: string, w2: string)
    requires AllWhitespace(w1) && AllWhitespace(w2)
    ensures Trim(w1 + s + w2) == Trim(s)
  {
    assert w1 + s + w2 == w1 + (s + w2);
    TrimStartSkipsWhitespace(w1, s + w2);
    if AllWhitespace(s) {
      assert AllWhitespace(s + w2);
      assert s + w2 == s + w2 + "";
      TrimStartSkipsWhitespace(s + w2, "");
      TrimStartSkipsWhitespace(s, "");
      assert s + w2 + "" == s + w2 && s + "" == s;
    } else {
      TrimStartAppend(s, w2);
      TrimEndSkipsWhitespace(TrimStart(s), w2);
    }
  }

  /** ASCII case folding: the regular expression's `i` flag and `toLowerCase` on the
      characters the model covers. */
  function LowerChar(c: char): char {
    if 'A' <= c <= 'Z' then (c as int + 32) as char else c
  }

  function Lower(s: string): string {
    seq(|s|, i requires 0 <= i < |s| => LowerChar(s[i]))
  }

  /** `t` begins with `lit`, comparing case-insensitively. */
  predicate StartsWithFolded(t: string, lit: string) {
    |lit| <= |t| && (lit == [] || (LowerChar(t[0]) == LowerChar(lit[0]) && StartsWithFolded(t[1..], lit[1..])))
  }

  lemma {:induction false} StartsWithFoldedSelf(t: string, lit: string)
    requires |lit| <= |t| && t[..|lit|] == lit
    ensures StartsWithFolded(t, lit)
  {
    if lit != [] {
      assert t[1..][..|lit| - 1] == lit[1..];
      StartsWithFoldedSelf(t[1..], lit[1..]);
    }
  }

  lemma {:induction false} StartsWithFoldedMismatch(t: string, lit: string, k: nat)
    requires k < |lit| && k < |t| && LowerChar(t[k]) != LowerChar(lit[k])
    ensures !StartsWithFolded(t, lit)
  {
    if k > 0 {
      StartsWithFoldedMismatch(t[1..], lit[1..], k - 1);
    }
  }

  // ---------------------------------------------------------------------------
  // parseTweetUrl: /(?:twitter\.com|x\.com)\/[^/]+\/status\/(\d+)/i
  // ---------------------------------------------------------------------------

  const TWITTER_HOST := "twitter.com"
  const X_HOST := "x.com"
  const STATUS_PATH := "/status/"

  /** Length of the longest run of non-slash characters starting at `i`. */
  function NonSlashRun(s: string, i: nat): (n: nat)
    requires i <= |s|
    ensures i + n <= |s|
    ensures forall k | i <= k < i + n :: s[k] != '/'
    ensures i + n == |s| || s[i + n] == '/'
    decreases |s| - i
  {
    if i < |s| && s[i] != '/' then 1 + NonSlashRun(s, i + 1) else 0
  }

  /** Length of the longest run of ASCII digits starting at `i` (`\d` without the `u` flag). */
  function DigitRun(s: string, i: nat): (n: nat)
    requires i <= |s|
    ensures i + n <= |s|
    ensures forall k | i <= k < i + n :: IsDigit(s[k])
    ensures i + n == |s| || !IsDigit(s[i + n])
    decreases |s| - i
  {
    if i < |s| && IsDigit(s[i]) then 1 + DigitRun(s, i + 1) else 0
  }

  /** `(\d+)` at `from`: the whole digit run there, or no match when it is empty. */
  function StatusId(s: string, from: nat): (r: Option<string>)
    requires from <= |s|
    ensures r.Some? ==> r.value != "" && AllDigits(r.value)
  {
    var d := DigitRun(s, from);
    if d > 0 then Some(s[from..from + d]) else None
  }

  /** The part of the pattern after the host, tried at `j`: `\/[^/]+\/status\/(\d+)`.
      The greedy `[^/]+` can only succeed with the whole run, and `(\d+)` captures the
      whole digit run. */
  function MatchAfterHost(s: string, j: nat): (r: Option<string>)
    requires j <= |s|
    ensures r.Some? ==> r.value != "" && AllDigits(r.value)
  {
    if j < |s| && s[j] == '/' then AfterUser(s, j, NonSlashRun(s, j + 1)) else None
  }

  /** After a slash at `j` and a user segment of `n` characters: `\/status\/(\d+)`. */
  function AfterUser(s: string, j: nat, n: nat): (r: Option<string>)
    requires j + 1 + n <= |s|
    ensures r.Some? ==> r.value != "" && AllDigits(r.value)
  {
    if n > 0 && StartsWithFolded(s[j + 1 + n..], STATUS_PATH) then StatusId(s, j + 1 + n + |STATUS_PATH|)
    else None
  }

  /** A match starting at `i`: the alternatives are tried in order. */
  function MatchAt(s: string, i: nat): (r: Option<string>)
    requires i <= |s|
    ensures r.Some? ==> r.value != "" && AllDigits(r.value)
  {
    if StartsWithFolded(s[i..], TWITTER_HOST) then MatchAfterHost(s, i + |TWITTER_HOST|)
    else if StartsWithFolded(s[i..], X_HOST) then MatchAfterHost(s, i + |X_HOST|)
    else None
  }

  /** The unanchored search: the leftmost start position at which the pattern matches. */
  function Search(s: string, i: nat): (r: Option<string>)
    requires i <= |s|
    ensures r.Some? ==> r.value != "" && AllDigits(r.value)
    decreases |s| - i
  {
    var m := MatchAt(s, i);
    if m.Some? then m
    else if i < |s| then Search(s, i + 1)
    else None
  }

  /** The search result is the match at the leftmost position where one exists. */
  lemma {:induction false} SearchIsLeftmost(s: string, i: nat)
    requires i <= |s|
    ensures Search(s, i).Some? ==>
      exists p | i <= p <= |s| :: MatchAt(s, p) == Search(s, i) && forall q | i <= q < p :: MatchAt(s, q).None?
    ensures Search(s, i).None? ==> forall q | i <= q <= |s| :: MatchAt(s, q).None?
    decreases |s| - i
  {
    if MatchAt(s, i).Some? {
      assert MatchAt(s, i) == Search(s, i);
    } else if i < |s| {
      SearchIsLeftmost(s, i + 1);
      if Search(s, i).Some? {
        var p :| i + 1 <= p <= |s| && MatchAt(s, p) == Search(s, i + 1) && forall q | i + 1 <= q < p :: MatchAt(s, q).None?;
        assert forall q | i <= q < p :: MatchAt(s, q).None?;
      }
    }
  }

  /** `parseTweetUrl`: the status id of an x.com or twitter.com link, or `None`. */
  function ParseTweetUrl(url: string): (r: Option<string>)
    ensures url == "" ==> r.None?
    ensures r.Some? ==> r.value != "" && AllDigits(r.value)
  {
    if url == "" then None else Search(Trim(url), 0)
  }

  lemma TrimKeepsNonBlankEnds(s: string)
    requires |s| > 0 && !IsJsWhitespace(s[0]) && !IsJsWhitespace(s[|s| - 1])
    ensures Trim(s) == s
  {
  }

  /** Surrounding whitespace is ignored. */
  lemma ParseIgnoresSurroundingWhitespace(w1: string, url: string, w2: string)
    requires AllWhitespace(w1) && AllWhitespace(w2)
    ensures ParseTweetUrl(w1 + url + w2) == ParseTweetUrl(url)
  {
    var s := w1 + url + w2;
    TrimIgnoresSurroundingWhitespace(w1, url, w2);
    if url == "" {
      assert Trim(s) == "";
      if s != "" {
        assert ParseTweetUrl(s) == Search("", 0);
      }
    } else {
      assert s != "";
      assert ParseTweetUrl(s) == Search(Trim(url), 0);
    }
  }

  /** Text that may follow the status id of a link: nothing, or something that does not
      continue the digit run and does not end in a blank. */
  predicate IsLinkTail(tail: string) {
    tail == "" || (!IsDigit(tail[0]) && !IsJsWhitespace(tail[|tail| - 1]))
  }

  /** A link of the documented form, with any query string or fragment after it, yields
      exactly its whole status id. */
  lemma ParseRoundTrip(host: string, user: string, id: string, tail: string)
    requires host == X_HOST || host == TWITTER_HOST
    requires user != "" && forall k | 0 <= k < |user| :: user[k] != '/'
    requires id != "" && AllDigits(id)
    requires IsLinkTail(tail)
    ensures ParseTweetUrl("https://" + host + "/" + user + STATUS_PATH + id + tail) == Some(id)
  {
    var rest := "/" + user + STATUS_PATH + id + tail;
    var s := "https://" + host + rest;
    assert s == "https://" + host + "/" + user + STATUS_PATH + id + tail;
    assert s[..8] == "https://" && s[8..][..|host|] == host && s[8 + |host|..] == rest;
    if tail == "" {
      assert s[|s| - 1] == id[|id| - 1];
    } else {
      assert s[|s| - 1] == tail[|tail| - 1];
    }
    ParseOfParts(s, host, user, id, tail);
  }

  lemma ParseOfParts(s: string, host: string, user: string, id: string, tail: string)
    requires host == X_HOST || host == TWITTER_HOST
    requires user != "" && forall k | 0 <= k < |user| :: user[k] != '/'
    requires id != "" && AllDigits(id)
    requires IsLinkTail(tail)
    requires |s| > 8 + |host| && s[..8] == "https://" && s[8..][..|host|] == host
    requires s[8 + |host|..] == "/" + user + STATUS_PATH + id + tail
    requires !IsJsWhitespace(s[|s| - 1])
    ensures ParseTweetUrl(s) == Some(id)
  {
    assert s[0] == 'h';
    TrimKeepsNonBlankEnds(s);
    SearchFindsHost(s, host, user, id, tail);
  }

  lemma SearchFindsHost(s: string, host: string, user: string, id: string, tail: string)
    requires host == X_HOST || host == TWITTER_HOST
    requires user != "" && forall k | 0 <= k < |user| :: user[k] != '/'
    requires id != "" && AllDigits(id)
    requires IsLinkTail(tail)
    requires |s| > 8 + |host| && s[..8] == "https://" && s[8..][..|host|] == host
    requires s[8 + |host|..] == "/" + user + STATUS_PATH + id + tail
    ensures Search(s, 0) == Some(id)
  {
    SchemeHasNoMatch(s);
    SearchSkips(s, 0, 8);
    HostMatches(s, host);
    AfterHostRoundTrip(s, 8 + |host|, user, id, tail);
  }

  lemma SchemeHasNoMatch(s: string)
    requires |s| > 8 && s[..8] == "https://"
    ensures forall q | 0 <= q < 8 :: MatchAt(s, q).None?
  {
    forall q | 0 <= q < 8
      ensures MatchAt(s, q).None?
    {
      assert s[q] == "https://"[q];
      assert s[q..][0] == s[q];
      if q == 1 || q == 2 {
        assert s[q + 1] == "https://"[q + 1];
        assert s[q..][1] == s[q + 1];
      }
      var m := if q == 1 || q == 2 then 1 else 0;
      StartsWithFoldedMismatch(s[q..], TWITTER_HOST, m);
      StartsWithFoldedMismatch(s[q..], X_HOST, 0);
    }
  }

  lemma HostMatches(s: string, host: string)
    requires host == X_HOST || host == TWITTER_HOST
    requires |s| >= 8 + |host| && s[8..][..|host|] == host
    ensures MatchAt(s, 8) == MatchAfterHost(s, 8 + |host|)
  {
    if host == X_HOST {
      assert s[8..][0] == 'x';
      StartsWithFoldedMismatch(s[8..], TWITTER_HOST, 0);
    }
    StartsWithFoldedSelf(s[8..], host);
  }

  lemma AfterHostRoundTrip(s: string, j: nat, user: string, id: string, tail: string)
    requires j <= |s| && s[j..] == "/" + user + STATUS_PATH + id + tail
    requires user != "" && forall k | 0 <= k < |user| :: user[k] != '/'
    requires id != "" && AllDigits(id)
    requires IsLinkTail(tail)
    ensures MatchAfterHost(s, j) == Some(id)
  {
    LinkUserSegment(s, j, user, id, tail);
    LinkStatusAndId(s, j, user, id, tail);
    AfterHostOfRuns(s, j, |user|, j + 1 + |user| + |STATUS_PATH|, |id|);
  }

  /** The part after the host matches once its user run, `/status/` and digit run are
      laid out position by position. */
  lemma AfterHostOfRuns(s: string, j: nat, n: nat, from: nat, d: nat)
    requires from == j + 1 + n + |STATUS_PATH| && from + d <= |s| && n > 0 && d > 0
    requires s[j] == '/' && s[j + 1 + n] == '/'
    requires forall i | j + 1 <= i < j + 1 + n :: s[i] != '/'
    requires s[j + 1 + n..][..|STATUS_PATH|] == STATUS_PATH
    requires forall i | from <= i < from + d :: IsDigit(s[i])
    requires from + d == |s| || !IsDigit(s[from + d])
    ensures MatchAfterHost(s, j) == Some(s[from..from + d])
  {
    NonSlashRunIs(s, j + 1, n);
    StartsWithFoldedSelf(s[j + 1 + n..], STATUS_PATH);
    DigitRunIs(s, from, d);
    AfterHostMatches(s, j, n, from, d);
  }

  lemma LinkUserSegment(s: string, j: nat, user: string, id: string, tail: string)
    requires j <= |s| && s[j..] == "/" + user + STATUS_PATH + id + tail
    requires forall k | 0 <= k < |user| :: user[k] != '/'
    ensures j + 1 + |user| < |s|
    ensures s[j] == '/' && s[j + 1 + |user|] == '/'
    ensures forall i | j + 1 <= i < j + 1 + |user| :: s[i] != '/'
  {
    var t := s[j..];
    assert t == "/" + user + (STATUS_PATH + id + tail);
    assert t[0] == '/';
    assert t[1 + |user|] == STATUS_PATH[0];
    forall i | j + 1 <= i < j + 1 + |user| ensures s[i] != '/' {
      assert s[i] == t[i - j] == user[i - j - 1];
    }
  }

  lemma LinkStatusAndId(s: string, j: nat, user: string, id: string, tail: string)
    requires j <= |s| && s[j..] == "/" + user + STATUS_PATH + id + tail
    requires AllDigits(id) && IsLinkTail(tail)
    ensures |s| == j + 1 + |user| + |STATUS_PATH| + |id| + |tail|
    ensures s[j + 1 + |user|..][..|STATUS_PATH|] == STATUS_PATH
    ensures s[j + 1 + |user| + |STATUS_PATH|..j + 1 + |user| + |STATUS_PATH| + |id|] == id
    ensures forall i | j + 1 + |user| + |STATUS_PATH| <= i < j + 1 + |user| + |STATUS_PATH| + |id| :: IsDigit(s[i])
    ensures j + 1 + |user| + |STATUS_PATH| + |id| == |s| || !IsDigit(s[j + 1 + |user| + |STATUS_PATH| + |id|])
  {
    var k := j + 1 + |user|;
    var t := s[j..];
    assert t == ("/" + user) + STATUS_PATH + id + tail;
    assert s[k..][..|STATUS_PATH|] == t[1 + |user|..1 + |user| + |STATUS_PATH|] == STATUS_PATH;
    assert s[k + |STATUS_PATH|..k + |STATUS_PATH| + |id|] == t[1 + |user| + |STATUS_PATH|..1 + |user| + |STATUS_PATH| + |id|] == id;
    forall i | k + |STATUS_PATH| <= i < k + |STATUS_PATH| + |id| ensures IsDigit(s[i]) {
      assert s[i] == id[i - k - 8];
    }
    if tail != "" {
      assert s[k + |STATUS_PATH| + |id|] == t[1 + |user| + |STATUS_PATH| + |id|] == tail[0];
    }
  }

  lemma AfterHostMatches(s: string, j: nat, n: nat, from: nat, d: nat)
    requires from == j + 1 + n + |STATUS_PATH| && from + d <= |s|
    requires s[j] == '/' && n > 0 && NonSlashRun(s, j + 1) == n
    requires StartsWithFolded(s[j + 1 + n..], STATUS_PATH)
    requires d > 0 && DigitRun(s, from) == d
    ensures MatchAfterHost(s, j) == Some(s[from..from + d])
  {
    assert MatchAfterHost(s, j) == AfterUser(s, j, n);
    assert AfterUser(s, j, n) == StatusId(s, from);
    StatusIdIs(s, from, d);
  }

  lemma StatusIdIs(s: string, from: nat, d: nat)
    requires from + d <= |s| && d > 0 && DigitRun(s, from) == d
    ensures StatusId(s, from) == Some(s[from..from + d])
  {
  }

  lemma {:induction false} NonSlashRunIs(s: string, i: nat, m: nat)
    requires i + m <= |s|
    requires forall k | i <= k < i + m :: s[k] != '/'
    requires i + m == |s| || s[i + m] == '/'
    ensures NonSlashRun(s, i) == m
    decreases m
  {
    if m > 0 {
      NonSlashRunIs(s, i + 1, m - 1);
    }
  }

  lemma {:induction false} DigitRunIs(s: string, i: nat, m: nat)
    requires i + m <= |s|
    requires forall k | i <= k < i + m :: IsDigit(s[k])
    requires i + m == |s| || !IsDigit(s[i + m])
    ensures DigitRun(s, i) == m
    decreases m
  {
    if m > 0 {
      DigitRunIs(s, i + 1, m - 1);
    }
  }

  /** A search starting before a stretch of failed positions continues past it. */
  lemma {:induction false} SearchSkips(s: string, i: nat, p: nat)
    requires i <= p <= |s|
    requires forall q | i <= q < p :: MatchAt(s, q).None?
    ensures Search(s, i) == Search(s, p)
    decreases p - i
  {
    if i < p {
      SearchSkips(s, i + 1, p);
    }
  }

  /** Case folding keeps blanks blank, non-blanks non-blank, and slashes and digits as
      they are. */
  lemma LowerCharKeeps(c: char)
    ensures IsJsWhitespace(LowerChar(c)) <==> IsJsWhitespace(c)
    ensures LowerChar(c) == '/' <==> c == '/'
    ensures IsDigit(LowerChar(c)) <==> IsDigit(c)
    ensures IsDigit(c) ==> LowerChar(c) == c
    ensures LowerChar(LowerChar(c)) == LowerChar(c)
  {
  }

  lemma {:induction false} TrimStartLower(s: string)
    ensures TrimStart(Lower(s)) == Lower(TrimStart(s))
    decreases |s|
  {
    if |s| > 0 {
      LowerCharKeeps(s[0]);
      if IsJsWhitespace(s[0]) {
        assert Lower(s)[1..] == Lower(s[1..]);
        TrimStartLower(s[1..]);
      }
    }
  }

  lemma {:induction false} TrimEndLower(s: string)
    ensures TrimEnd(Lower(s)) == Lower(TrimEnd(s))
    decreases |s|
  {
    if |s| > 0 {
      LowerCharKeeps(s[|s| - 1]);
      if IsJsWhitespace(s[|s| - 1]) {
        assert Lower(s)[..|s| - 1] == Lower(s[..|s| - 1]);
        TrimEndLower(s[..|s| - 1]);
      }
    }
  }

  /** `s` and `t` are the same text up to letter case. */
  predicate SameFolded(s: string, t: string) {
    |s| == |t| && forall i | 0 <= i < |s| :: LowerChar(s[i]) == LowerChar(t[i])
  }

  lemma LowerIsSameFolded(s: string)
    ensures SameFolded(s, Lower(s))
  {
    forall i | 0 <= i < |s| ensures LowerChar(s[i]) == LowerChar(Lower(s)[i]) {
      LowerCharKeeps(s[i]);
    }
  }

  /** Characters that agree after folding agree on slashes and digits, and digits are equal. */
  lemma SameFoldedAt(s: string, t: string, i: nat)
    requires SameFolded(s, t) && i < |s|
    ensures s[i] == '/' <==> t[i] == '/'
    ensures IsDigit(s[i]) <==> IsDigit(t[i])
    ensures IsDigit(s[i]) ==> s[i] == t[i]
  {
    LowerCharKeeps(s[i]);
    LowerCharKeeps(t[i]);
  }

  lemma {:induction false} StartsWithFoldedAgree(s: string, t: string, lit: string)
    requires SameFolded(s, t)
    ensures StartsWithFolded(s, lit) == StartsWithFolded(t, lit)
    decreases |lit|
  {
    if lit != [] && |lit| <= |s| {
      assert SameFolded(s[1..], t[1..]) by {
        forall i | 0 <= i < |s| - 1 ensures LowerChar(s[1..][i]) == LowerChar(t[1..][i]) {
          assert s[1..][i] == s[i + 1] && t[1..][i] == t[i + 1];
        }
      }
      StartsWithFoldedAgree(s[1..], t[1..], lit[1..]);
    }
  }

  lemma SameFoldedSuffix(s: string, t: string, k: nat)
    requires SameFolded(s, t) && k <= |s|
    ensures SameFolded(s[k..], t[k..])
  {
    forall i | 0 <= i < |s| - k ensures LowerChar(s[k..][i]) == LowerChar(t[k..][i]) {
      assert s[k..][i] == s[k + i] && t[k..][i] == t[k + i];
    }
  }

  lemma {:induction false} NonSlashRunAgree(s: string, t: string, i: nat)
    requires SameFolded(s, t) && i <= |s|
    ensures NonSlashRun(s, i) == NonSlashRun(t, i)
    decreases |s| - i
  {
    if i < |s| {
      SameFoldedAt(s, t, i);
      NonSlashRunAgree(s, t, i + 1);
    }
  }

  lemma {:induction false} DigitRunAgree(s: string, t: string, i: nat)
    requires SameFolded(s, t) && i <= |s|
    ensures DigitRun(s, i) == DigitRun(t, i)
    decreases |s| - i
  {
    if i < |s| {
      SameFoldedAt(s, t, i);
      DigitRunAgree(s, t, i + 1);
    }
  }

  lemma DigitRunsEqual(s: string, t: string, from: nat, d: nat)
    requires SameFolded(s, t) && from + d <= |s|
    requires forall i | from <= i < from + d :: IsDigit(s[i])
    ensures s[from..from + d] == t[from..from + d]
  {
    forall i | from <= i < from + d ensures s[i] == t[i] {
      SameFoldedAt(s, t, i);
    }
  }

  lemma MatchAfterHostAgree(s: string, t: string, j: nat)
    requires SameFolded(s, t) && j <= |s|
    ensures MatchAfterHost(s, j) == MatchAfterHost(t, j)
  {
    if j < |s| {
      var n := NonSlashRun(s, j + 1);
      if s[j] == '/' && n > 0 && StartsWithFolded(s[j + 1 + n..], STATUS_PATH) {
        StatusDigitsAgree(s, t, j, n);
      } else {
        NoStatusAgree(s, t, j, n);
      }
    }
  }

  /** Past a user segment and `/status/`, both texts capture the same digits. */
  lemma StatusDigitsAgree(s: string, t: string, j: nat, n: nat)
    requires SameFolded(s, t) && j < |s|
    requires s[j] == '/' && n > 0 && NonSlashRun(s, j + 1) == n
    requires StartsWithFolded(s[j + 1 + n..], STATUS_PATH)
    ensures MatchAfterHost(s, j) == MatchAfterHost(t, j)
  {
    SameFoldedAt(s, t, j);
    NonSlashRunAgree(s, t, j + 1);
    SameFoldedSuffix(s, t, j + 1 + n);
    StartsWithFoldedAgree(s[j + 1 + n..], t[j + 1 + n..], STATUS_PATH);
    var from := j + 1 + n + |STATUS_PATH|;
    var d := DigitRun(s, from);
    DigitRunAgree(s, t, from);
    DigitRunsEqual(s, t, from, d);
    if d > 0 {
      AfterHostMatches(s, j, n, from, d);
      AfterHostMatches(t, j, n, from, d);
    } else {
      AfterHostFails(s, j, n);
      AfterHostFails(t, j, n);
    }
  }

  /** Without a slash, a user segment and `/status/` after the host, neither text matches. */
  lemma NoStatusAgree(s: string, t: string, j: nat, n: nat)
    requires SameFolded(s, t) && j < |s| && NonSlashRun(s, j + 1) == n
    requires !(s[j] == '/' && n > 0 && StartsWithFolded(s[j + 1 + n..], STATUS_PATH))
    ensures MatchAfterHost(s, j).None? && MatchAfterHost(t, j).None?
  {
    SameFoldedAt(s, t, j);
    NonSlashRunAgree(s, t, j + 1);
    SameFoldedSuffix(s, t, j + 1 + n);
    StartsWithFoldedAgree(s[j + 1 + n..], t[j + 1 + n..], STATUS_PATH);
    AfterHostFails(s, j, n);
    AfterHostFails(t, j, n);
  }

  lemma AfterHostFails(s: string, j: nat, n: nat)
    requires j < |s| && NonSlashRun(s, j + 1) == n
    requires s[j] != '/' || n == 0 || !StartsWithFolded(s[j + 1 + n..], STATUS_PATH)
      || DigitRun(s, j + 1 + n + |STATUS_PATH|) == 0
    ensures MatchAfterHost(s, j).None?
  {
  }

  lemma MatchAtAgree(s: string, t: string, i: nat)
    requires SameFolded(s, t) && i <= |s|
    ensures MatchAt(s, i) == MatchAt(t, i)
  {
    SameFoldedSuffix(s, t, i);
    StartsWithFoldedAgree(s[i..], t[i..], TWITTER_HOST);
    StartsWithFoldedAgree(s[i..], t[i..], X_HOST);
    if i + |TWITTER_HOST| <= |s| {
      MatchAfterHostAgree(s, t, i + |TWITTER_HOST|);
    }
    if i + |X_HOST| <= |s| {
      MatchAfterHostAgree(s, t, i + |X_HOST|);
    }
  }

  lemma {:induction false} SearchAgree(s: string, t: string, i: nat)
    requires SameFolded(s, t) && i <= |s|
    ensures Search(s, i) == Search(t, i)
    decreases |s| - i
  {
    MatchAtAgree(s, t, i);
    if i < |s| {
      SearchAgree(s, t, i + 1);
    }
  }

  /** The pattern carries the `i` flag: the letter case of a link never changes its parse. */
  lemma ParseIgnoresCase(url: string)
    ensures ParseTweetUrl(Lower(url)) == ParseTweetUrl(url)
  {
    TrimStartLower(url);
    TrimEndLower(TrimStart(url));
    LowerIsSameFolded(Trim(url));
    SearchAgree(Trim(url), Lower(Trim(url)), 0);
  }

  /** An upper-case link with a query string still yields its whole status id. */
  lemma ParseUpperCaseLinkWithQuery()
    ensures ParseTweetUrl("HTTPS://X.COM/u/STATUS/1?s=20") == Some("1")
  {
    var url := "HTTPS://X.COM/u/STATUS/1?s=20";
    var link := "https://" + X_HOST + "/" + "u" + STATUS_PATH + "1" + "?s=20";
    assert Lower(url) == link;
    ParseRoundTrip(X_HOST, "u", "1", "?s=20");
    ParseIgnoresCase(url);
  }

  // ---------------------------------------------------------------------------
  // tweetMentionsHandle
  // ---------------------------------------------------------------------------

  /** Drops one leading `@`. */
  function StripAt(handle: string): string {
    if |handle| > 0 && handle[0] == '@' then handle[1..] else handle
  }

  predicate OccursAt(text: string, pattern: string, i: int) {
    0 <= i && i + |pattern| <= |text| && text[i..i + |pattern|] == pattern
  }

  /** `text.includes(pattern)` */
  function Contains(text: string, pattern: string): bool
    decreases |text|
  {
    if |pattern| > |text| then false
    else if text[..|pattern|] == pattern then true
    else Contains(text[1..], pattern)
  }

  lemma {:induction false} ContainsIff(text: string, pattern: string)
    ensures Contains(text, pattern) <==> exists i :: OccursAt(text, pattern, i)
    decreases |text|
  {
    if |pattern| > |text| {
      forall i ensures !OccursAt(text, pattern, i) { }
    } else if text[..|pattern|] == pattern {
      assert OccursAt(text, pattern, 0);
    } else {
      ContainsIff(text[1..], pattern);
      if Contains(text[1..], pattern) {
        var i :| OccursAt(text[1..], pattern, i);
        assert text[i + 1..i + 1 + |pattern|] == text[1..][i..i + |pattern|];
        assert OccursAt(text, pattern, i + 1);
      } else {
        forall i | OccursAt(text, pattern, i)
          ensures false
        {
          assert i != 0;
          assert text[1..][i - 1..i - 1 + |pattern|] == text[i..i + |pattern|];
          assert OccursAt(text[1..], pattern, i - 1);
        }
      }
    }
  }

  /** `tweetMentionsHandle`: the lower-cased text contains `@` and the lower-cased handle,
      as a plain substring (no word boundary). */
  function MentionsHandle(info: TweetInfo, handle: string): (r: bool)
    ensures r <==> exists i :: OccursAt(Lower(info.text.GetOr("")), "@" + Lower(StripAt(handle)), i)
    ensures info.text.None? ==> !r
  {
    var text := Lower(info.text.GetOr(""));
    var pattern := "@" + Lower(StripAt(handle));
    ContainsIff(text, pattern);
    Contains(text, pattern)
  }

  /** A leading `@` on the handle makes no difference. */
  lemma MentionsIgnoresLeadingAt(info: TweetInfo, handle: string)
    requires handle == "" || handle[0] != '@'
    ensures MentionsHandle(info, "@" + handle) == MentionsHandle(info, handle)
  {
    var h := "@" + handle;
    assert |h| > 0 && h[0] == '@' && h[1..] == handle;
    assert StripAt(h) == handle == StripAt(handle);
  }

  /** The handle's letter case makes no difference. */
  lemma MentionsIgnoresHandleCase(info: TweetInfo, handle: string)
    ensures MentionsHandle(info, Lower(handle)) == MentionsHandle(info, handle)
  {
    assert Lower(StripAt(Lower(handle))) == Lower(StripAt(handle));
  }

  /** The match is a substring match: a longer handle in the text still counts. */
  lemma MentionHasNoWordBoundary()
    ensures MentionsHandle(TweetInfo("1", None, Some("gm @ABCdef")), "abc")
  {
    var text := Lower("gm @ABCdef");
    assert text[3..7] == "@abc";
    assert OccursAt(text, "@" + Lower(StripAt("abc")), 3);
  }
}
