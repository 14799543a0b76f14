/**
  The user table (lib/users.ts): a keyed store of user records with two secondary
  indexes, twitter id to DID and referral code to DID, and the referral-code
  generator.

  `Math.random()` is an oracle: each call is a draw in [0, 1) supplied by the caller.
  The ISO creation timestamp is a parameter.
*/
module Users {
  import opened Wrappers

  /** `WaitlistUser` */
  datatype User = User(
    privyDid: string,
    twitterId: string,
    username: string,
    pfpUrl: Option<string>,
    walletAddress: Option<string>,
    points: int,
    referralCode: string,
    createdAt: string)

  // ---------------------------------------------------------------------------
  // Referral codes
  // ---------------------------------------------------------------------------

  /** The capital letters and digits without I, O, 0 and 1. */
  const REFERRAL_ALPHABET: string := "ABCDEFGHJKLMNPQRSTUVWXYZ23456789"

  const REFERRAL_CODE_LENGTH: nat := 8

  /** The alphabet has 32 characters, none of them the look-alikes I, O, 0 or 1. */
  lemma AlphabetShape()
    ensures |REFERRAL_ALPHABET| == 32
    ensures forall i | 0 <= i < |REFERRAL_ALPHABET| ::
      && REFERRAL_ALPHABET[i] != 'I' && REFERRAL_ALPHABET[i] != 'O'
      && REFERRAL_ALPHABET[i] != '0' && REFERRAL_ALPHABET[i] != '1'
  {
  }

  /** A value `Math.random()` can return. */
  predicate IsDraw(r: real) {
    0.0 <= r < 1.0
  }

  predicate ValidDraws(draws: seq<real>) {
    |draws| == REFERRAL_CODE_LENGTH && forall i | 0 <= i < |draws| :: IsDraw(draws[i])
  }

  /** `Math.floor(r * chars.length)` */
  function CharIndex(r: real): (k: int)
    requires IsDraw(r)
    ensures 0 <= k < |REFERRAL_ALPHABET|
    ensures k as real <= r * 32.0 < (k + 1) as real
  {
    (r * (|REFERRAL_ALPHABET| as real)).Floor
  }

  /** The code the generator builds from eight draws. */
  function CodeFromDraws(draws: seq<real>): (code: string)
    requires ValidDraws(draws)
    ensures |code| == REFERRAL_CODE_LENGTH
    ensures forall i | 0 <= i < |code| :: code[i] == REFERRAL_ALPHABET[CharIndex(draws[i])]
  {
    seq(REFERRAL_CODE_LENGTH, i requires 0 <= i < REFERRAL_CODE_LENGTH => REFERRAL_ALPHABET[CharIndex(draws[i])])
  }

  predicate IsReferralCode(code: string) {
    |code| == REFERRAL_CODE_LENGTH && forall i | 0 <= i < |code| :: code[i] in REFERRAL_ALPHABET
  }

  /** `generateReferralCode`: eight characters, each picked by one draw. */
  method GenerateReferralCode(draws: seq<real>) returns (code: string)
    requires ValidDraws(draws)
    ensures code == CodeFromDraws(draws)
    ensures IsReferralCode(code)
  {
    var chars := REFERRAL_ALPHABET;
    code := "";
    for i := 0 to REFERRAL_CODE_LENGTH
      invariant |code| == i
      invariant forall j | 0 <= j < i :: code[j] == chars[CharIndex(draws[j])]
    {
      code := code + [chars[CharIndex(draws[i])]];
    }
  }

  function IndexIn(c: char, s: string): (k: int)
    requires c in s
    ensures 0 <= k < |s| && s[k] == c
  {
    if s[0] == c then 0 else 1 + IndexIn(c, s[1..])
  }

  /** Draws that make the generator produce `code`. */
  function DrawsFor(code: string): (draws: seq<real>)
    requires IsReferralCode(code)
    ensures ValidDraws(draws)
  {
    seq(REFERRAL_CODE_LENGTH, i requires 0 <= i < REFERRAL_CODE_LENGTH =>
      IndexIn(code[i], REFERRAL_ALPHABET) as real / 32.0)
  }

  /** Every well-formed code can come out of the generator: the draws `DrawsFor(code)`
      yield exactly `code`. */
  lemma EveryCodeIsGenerable(code: string)
    requires IsReferralCode(code)
    ensures CodeFromDraws(DrawsFor(code)) == code
  {
    var draws := DrawsFor(code);
    forall i | 0 <= i < REFERRAL_CODE_LENGTH
      ensures CodeFromDraws(draws)[i] == code[i]
    {
      var k := IndexIn(code[i], REFERRAL_ALPHABET);
      assert draws[i] * 32.0 == k as real;
      assert CharIndex(draws[i]) == k;
    }
  }

  // ---------------------------------------------------------------------------
  // The store
  // ---------------------------------------------------------------------------

  /** The index entries of the store agree with the records: each record sits under its own
      DID, which is not empty; each referral entry names the record holding that code, and
      every record's code is indexed; each twitter entry names a record with that twitter id. */
  predicate IndexesValid(users: map<string, User>, byTwitter: map<string, string>, byReferral: map<string, string>) {
    && "" !in users
    && (forall d | d in users :: users[d].privyDid == d)
    && (forall d | d in users :: users[d].referralCode in byReferral && byReferral[users[d].referralCode] == d)
    && (forall c | c in byReferral :: byReferral[c] in users && users[byReferral[c]].referralCode == c)
    && (forall t | t in byTwitter :: byTwitter[t] in users && users[byTwitter[t]].twitterId == t)
  }

  /** No two users share a referral code. */
  lemma ReferralCodesUnique(users: map<string, User>, byTwitter: map<string, string>, byReferral: map<string, string>,
                            d1: string, d2: string)
    requires IndexesValid(users, byTwitter, byReferral)
    requires d1 in users && d2 in users && d1 != d2
    ensures users[d1].referralCode != users[d2].referralCode
  {
  }

  /** The codes the retry loop treats as taken: `redis.get` returned a truthy DID, that is,
      the index has an entry for the code and it is not the empty string. */
  function TakenCodes(byReferral: map<string, string>): set<string> {
    set c | c in byReferral && byReferral[c] != ""
  }

  /** The codes `createUser` tries, in order: the supplied one, if any, then one generated
      code per batch of draws. */
  function Candidates(referralCode: Option<string>, draws: seq<seq<real>>): seq<string>
    requires forall i | 0 <= i < |draws| :: ValidDraws(draws[i])
  {
    (if referralCode.Some? then [referralCode.value] else [])
      + seq(|draws|, i requires 0 <= i < |draws| => CodeFromDraws(draws[i]))
  }

  /** The first candidate not taken (`FirstFreeIsFirst` places it among the candidates). */
  function FirstFree(candidates: seq<string>, taken: set<string>): (r: Option<string>)
    ensures r.Some? ==> r.value !in taken
    decreases |candidates|
  {
    if candidates == [] then None
    else if candidates[0] !in taken then Some(candidates[0])
    else FirstFree(candidates[1..], taken)
  }

  /** `FirstFree` finds a candidate exactly when one is free, and every candidate before the
      one it finds is taken. */
  lemma {:induction false} FirstFreeIsFirst(candidates: seq<string>, taken: set<string>)
    ensures FirstFree(candidates, taken).Some? <==> exists i | 0 <= i < |candidates| :: candidates[i] !in taken
    ensures FirstFree(candidates, taken).Some? ==>
      exists i | 0 <= i < |candidates| ::
        candidates[i] == FirstFree(candidates, taken).value && forall j | 0 <= j < i :: candidates[j] in taken
    decreases |candidates|
  {
    if candidates != [] && candidates[0] in taken {
      var rest := candidates[1..];
      FirstFreeIsFirst(rest, taken);
      assert forall i | 1 <= i < |candidates| :: candidates[i] == rest[i - 1];
      if FirstFree(rest, taken).Some? {
        var i :| 0 <= i < |rest| && rest[i] == FirstFree(rest, taken).value && forall j | 0 <= j < i :: rest[j] in taken;
        assert candidates[i + 1] == FirstFree(candidates, taken).value;
      }
    } else if candidates != [] {
      assert candidates[0] !in taken;
    }
  }

  /** The `k`-th candidate: the supplied code first, then the code of each batch of draws. */
  lemma CandidateAt(referralCode: Option<string>, draws: seq<seq<real>>, offset: int, k: int)
    requires forall i | 0 <= i < |draws| :: ValidDraws(draws[i])
    requires offset == if referralCode.Some? then 1 else 0
    requires 0 <= k < offset + |draws|
    ensures |Candidates(referralCode, draws)| == offset + |draws|
    ensures k < offset ==> Candidates(referralCode, draws)[k] == referralCode.value
    ensures offset <= k ==> Candidates(referralCode, draws)[k] == CodeFromDraws(draws[k - offset])
  {
  }

  /** With every candidate before `k` taken, the first free one is candidate `k` when that is
      free, and otherwise lies further on. */
  lemma {:induction false} FirstFreeAfter(candidates: seq<string>, taken: set<string>, k: int)
    requires 0 <= k < |candidates|
    requires forall j | 0 <= j < k :: candidates[j] in taken
    ensures candidates[k] !in taken ==> FirstFree(candidates, taken) == Some(candidates[k])
    ensures candidates[k] in taken && FirstFree(candidates, taken).Some? ==> k + 1 < |candidates|
    decreases k
  {
    if k > 0 {
      assert candidates[0] in taken;
      var rest := candidates[1..];
      forall j | 0 <= j < k - 1
        ensures rest[j] in taken
      {
        assert rest[j] == candidates[j + 1];
      }
      FirstFreeAfter(rest, taken, k - 1);
    } else if |candidates| == 1 {
      assert candidates[1..] == [];
      assert FirstFree(candidates[1..], taken).None?;
    }
  }

  /** Adding a record under a new, non-empty DID with a code that is not taken, together with
      its two index entries, keeps the indexes valid. */
  lemma InsertKeepsIndexesValid(users: map<string, User>, byTwitter: map<string, string>, byReferral: map<string, string>,
                                user: User)
    requires IndexesValid(users, byTwitter, byReferral)
    requires user.privyDid !in users && user.privyDid != ""
    requires user.referralCode !in TakenCodes(byReferral)
    ensures IndexesValid(users[user.privyDid := user], byTwitter[user.twitterId := user.privyDid],
                         byReferral[user.referralCode := user.privyDid])
  {
    assert user.referralCode !in byReferral;
  }

  /** A change to one record's points leaves the indexes valid. */
  lemma PointsUpdateKeepsIndexesValid(users: map<string, User>, byTwitter: map<string, string>,
                                      byReferral: map<string, string>, privyDid: string, points: int)
    requires IndexesValid(users, byTwitter, byReferral) && privyDid in users
    ensures IndexesValid(users[privyDid := users[privyDid].(points := points)], byTwitter, byReferral)
  {
    var users' := users[privyDid := users[privyDid].(points := points)];
    forall c | c in byReferral
      ensures byReferral[c] in users' && users'[byReferral[c]].referralCode == c
    {
    }
    forall t | t in byTwitter
      ensures byTwitter[t] in users' && users'[byTwitter[t]].twitterId == t
    {
    }
  }

  class UserStore {
    /** `waitlist:user:<privyDid>` */
    var users: map<string, User>
    /** `waitlist:user:twitter:<twitterId>` */
    var byTwitter: map<string, string>
    /** `waitlist:user:ref:<referralCode>` */
    var byReferral: map<string, string>

    constructor ()
      ensures users == map[] && byTwitter == map[] && byReferral == map[]
      ensures Valid()
    {
      users := map[];
      byTwitter := map[];
      byReferral := map[];
    }

    predicate Valid()
      reads this
    {
      IndexesValid(users, byTwitter, byReferral)
    }

    /** `getUserByPrivyDid` */
    function GetUserByPrivyDid(privyDid: string): (r: Option<User>)
      reads this
      ensures r.Some? <==> privyDid in users
      ensures r.Some? ==> r.value == users[privyDid]
      ensures Valid() && r.Some? ==> r.value.privyDid == privyDid
    {
      if privyDid in users then Some(users[privyDid]) else None
    }

    /** `getUserByTwitterId`: null without an index entry, for an empty DID, and for an entry
        naming a missing record. */
    function GetUserByTwitterId(twitterId: string): (r: Option<User>)
      reads this
      ensures twitterId !in byTwitter ==> r.None?
      ensures twitterId in byTwitter && byTwitter[twitterId] == "" ==> r.None?
      ensures twitterId in byTwitter && byTwitter[twitterId] != "" ==> r == GetUserByPrivyDid(byTwitter[twitterId])
      ensures twitterId in byTwitter && byTwitter[twitterId] !in users ==> r.None?
      ensures r.Some? ==> twitterId in byTwitter && r == GetUserByPrivyDid(byTwitter[twitterId])
      ensures Valid() && r.Some? ==> r.value.twitterId == twitterId
    {
      if twitterId !in byTwitter || byTwitter[twitterId] == "" then None
      else GetUserByPrivyDid(byTwitter[twitterId])
    }

    /** `redis.get(userByReferralKey(code))`: the DID holding a referral code, or "" when the
        index has no entry; the code is taken exactly when the answer is truthy. */
    function ReferralHolder(code: string): (holder: string)
      reads this
      ensures holder != "" <==> code in TakenCodes(byReferral)
      ensures holder != "" ==> byReferral[code] == holder
    {
      if code in byReferral then byReferral[code] else ""
    }

    /** The retry loop of `createUser`: the supplied code, then generated ones, until the
        referral index has no truthy entry for the code. */
    method ChooseReferralCode(referralCode: Option<string>, draws: seq<seq<real>>) returns (code: string)
      requires forall i | 0 <= i < |draws| :: ValidDraws(draws[i])
      requires FirstFree(Candidates(referralCode, draws), TakenCodes(byReferral)).Some?
      ensures code == FirstFree(Candidates(referralCode, draws), TakenCodes(byReferral)).value
      ensures code !in byReferral || byReferral[code] == ""
    {
      ghost var taken := TakenCodes(byReferral);
      ghost var candidates := Candidates(referralCode, draws);
      var offset := if referralCode.Some? then 1 else 0;
      var k := 0;
      CandidateAt(referralCode, draws, offset, 0);
      if referralCode.Some? {
        code := referralCode.value;
      } else {
        code := GenerateReferralCode(draws[0]);
      }
      var holder := ReferralHolder(code);
      while holder != ""
        invariant 0 <= k < |candidates|
        invariant code == candidates[k]
        invariant holder != "" <==> code in taken
        invariant forall j | 0 <= j < k :: candidates[j] in taken
        decreases |candidates| - k
      {
        FirstFreeAfter(candidates, taken, k);
        CandidateAt(referralCode, draws, offset, k + 1);
        code := GenerateReferralCode(draws[k + 1 - offset]);
        k := k + 1;
        holder := ReferralHolder(code);
      }
      FirstFreeAfter(candidates, taken, k);
    }

    /** `createUser`: the stored record if the DID is known; otherwise a new record with the
        first free referral code, written with its two index entries. */
    method CreateUser(privyDid: string, twitterId: string, username: string, pfpUrl: Option<string>,
                      referralCode: Option<string>, draws: seq<seq<real>>, createdAt: string)
      returns (user: User)
      requires forall i | 0 <= i < |draws| :: ValidDraws(draws[i])
      requires privyDid !in users ==> FirstFree(Candidates(referralCode, draws), TakenCodes(byReferral)).Some?
      modifies this
      ensures old(privyDid in users) ==> user == old(users[privyDid])
      ensures old(privyDid in users) ==>
        users == old(users) && byTwitter == old(byTwitter) && byReferral == old(byReferral)
      ensures old(privyDid !in users) ==>
        && user.referralCode == FirstFree(Candidates(referralCode, draws), TakenCodes(old(byReferral))).value
        && user == User(privyDid, twitterId, username, pfpUrl, None, 0, user.referralCode, createdAt)
        && users == old(users)[privyDid := user]
        && byTwitter == old(byTwitter)[twitterId := privyDid]
        && byReferral == old(byReferral)[user.referralCode := privyDid]
      ensures old(privyDid !in users) ==> user.referralCode !in TakenCodes(old(byReferral))
      ensures old(privyDid !in users) && referralCode.Some? && referralCode.value !in TakenCodes(old(byReferral)) ==>
        user.referralCode == referralCode.value
      ensures old(privyDid !in users) && privyDid != "" ==> GetUserByTwitterId(twitterId) == Some(user)
      ensures old(Valid()) && privyDid != "" ==> Valid()
    {
      var existing := GetUserByPrivyDid(privyDid);
      if existing.Some? {
        return existing.value;
      }

      var code := ChooseReferralCode(referralCode, draws);
      user := User(privyDid, twitterId, username, pfpUrl, None, 0, code, createdAt);
      if Valid() && privyDid != "" {
        InsertKeepsIndexesValid(users, byTwitter, byReferral, user);
      }
      users := users[privyDid := user];
      byTwitter := byTwitter[twitterId := privyDid];
      byReferral := byReferral[code := privyDid];
    }

    /** `addPoints`: an increment of the stored total; nothing is written for an unknown DID. */
    method AddPoints(privyDid: string, points: int)
      modifies this
      ensures users == if privyDid in old(users)
        then old(users)[privyDid := old(users)[privyDid].(points := old(users)[privyDid].points + points)]
        else old(users)
      ensures byTwitter == old(byTwitter) && byReferral == old(byReferral)
      ensures old(Valid()) ==> Valid()
    {
      if privyDid in users {
        if Valid() {
          PointsUpdateKeepsIndexesValid(users, byTwitter, byReferral, privyDid, users[privyDid].points + points);
        }
        users := users[privyDid := users[privyDid].(points := users[privyDid].points + points)];
      }
    }

    /** `updateUserWallet`: null for an unknown DID; otherwise only the wallet changes. */
    method UpdateUserWallet(privyDid: string, walletAddress: string) returns (r: Option<User>)
      modifies this
      ensures privyDid !in old(users) ==> r.None? && users == old(users)
      ensures privyDid in old(users) ==>
        && r == Some(old(users[privyDid]).(walletAddress := Some(walletAddress)))
        && users == old(users)[privyDid := r.value]
      ensures byTwitter == old(byTwitter) && byReferral == old(byReferral)
      ensures old(Valid()) ==> Valid()
    {
      var user := GetUserByPrivyDid(privyDid);
      if user.None? {
        return None;
      }
      var updated := user.value.(walletAddress := Some(walletAddress));
      users := users[privyDid := updated];
      return Some(updated);
    }
  }
}
