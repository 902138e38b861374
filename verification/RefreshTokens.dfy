/**
 The refresh_tokens table and the handlers that write it. A handler is atomic and its writes
 succeed; what the JWT library reads out of a token is a parameter.
 */
module RefreshTokens {
  import opened Basics

  type Jti = int   // an opaque identifier
  type UserId = int

  datatype Token = Token(user: UserId, expiresAt: Instant, revoked: bool)

  type Tokens = map<Jti, Token>

  predicate Active(t: Tokens, jti: Jti, now: Instant) {
    jti in t && !t[jti].revoked && now < t[jti].expiresAt
  }

  function Created(t: Tokens, user: UserId, jti: Jti, expiresAt: Instant): Tokens {
    if jti in t then t else t[jti := Token(user, expiresAt, false)]
  }

  function Revoked(t: Tokens, jti: Jti): Tokens {
    if jti in t then t[jti := t[jti].(revoked := true)] else t
  }

  function AllRevoked(t: Tokens, user: UserId): Tokens {
    map j | j in t :: if t[j].user == user then t[j].(revoked := true) else t[j]
  }

  /** Lifetime of a refresh token: seven days. */
  const LIFETIME: int := 7 * 24 * 3600 * SECOND

  /** What follows the revocation: the user lookup and both signatures succeed, or nothing is issued. */
  datatype Issue = Issue(user: Option<UserId>, signs: bool, jti: Jti)

  predicate Issues(i: Issue) {
    i.user.Some? && i.signs
  }

  function Refreshed(t: Tokens, jti: Jti, i: Issue, now: Instant): Tokens {
    if !Active(t, jti, now) then t
    else if !Issues(i) then Revoked(t, jti)
    else Created(Revoked(t, jti), i.user.value, i.jti, now + LIFETIME)
  }

  datatype RefreshAnswer = MissingToken | InvalidToken | NotActive | InvalidUser | SigningFailed | Rotated

  class TokenStore {
    var tokens: Tokens

    constructor ()
      ensures tokens == map[]
    {
      tokens := map[];
    }

    /** INSERT; a jti that exists violates UNIQUE and inserts nothing. */
    method Create(user: UserId, jti: Jti, expiresAt: Instant)
      modifies this
      ensures tokens == Created(old(tokens), user, jti, expiresAt)
      ensures forall j, now ::
        Active(tokens, j, now) <==> Active(old(tokens), j, now) || (j == jti && j !in old(tokens) && now < expiresAt)
    {
      if jti !in tokens {
        tokens := tokens[jti := Token(user, expiresAt, false)];
      }
    }

    method Revoke(jti: Jti)
      modifies this
      ensures tokens == Revoked(old(tokens), jti)
      ensures forall j, now :: Active(tokens, j, now) <==> Active(old(tokens), j, now) && j != jti
    {
      if jti in tokens {
        tokens := tokens[jti := tokens[jti].(revoked := true)];
      }
    }

    method IsActive(jti: Jti, now: Instant) returns (active: bool)
      ensures active <==> Active(tokens, jti, now)
    {
      active := jti in tokens && !tokens[jti].revoked && now < tokens[jti].expiresAt;
    }

    /** No token of the user is accepted from now on; every other token is as good as before. */
    method RevokeAllForUser(user: UserId)
      modifies this
      ensures tokens.Keys == old(tokens).Keys
      ensures forall j | j in tokens && old(tokens)[j].user == user :: tokens[j] == old(tokens)[j].(revoked := true)
      ensures forall j | j in tokens && old(tokens)[j].user != user :: tokens[j] == old(tokens)[j]
      ensures forall j, now :: Active(tokens, j, now) <==> Active(old(tokens), j, now) && old(tokens)[j].user != user
    {
      tokens := map j | j in tokens :: if tokens[j].user == user then tokens[j].(revoked := true) else tokens[j];
    }

    /** Refresh: revoke first, then look up the user, sign and create. */
    method Refresh(bearer: bool, claims: Option<Jti>, i: Issue, now: Instant) returns (answer: RefreshAnswer)
      modifies this
      ensures tokens == if bearer && claims.Some? then Refreshed(old(tokens), claims.value, i, now) else old(tokens)
      ensures answer.MissingToken? <==> !bearer
      ensures answer.InvalidToken? <==> bearer && claims.None?
      ensures bearer && claims.Some? ==>
        var before, jti := old(tokens), claims.value;
        var active := jti in before && !before[jti].revoked && now < before[jti].expiresAt;
        && (answer.NotActive? <==> !active)
        && (answer.InvalidUser? <==> active && i.user.None?)
        && (answer.SigningFailed? <==> active && i.user.Some? && !i.signs)
        && (answer.Rotated? <==> active && i.user.Some? && i.signs)
        && (active ==> jti in tokens && tokens[jti].revoked)
        && (answer.Rotated? && i.jti !in before ==>
              i.jti in tokens && tokens[i.jti] == Token(i.user.value, now + 7 * 86400 * SECOND, false))
        && (forall j | j in before && j != jti :: j in tokens && tokens[j] == before[j])
        && (forall j | j in tokens && j !in before :: answer.Rotated? && j == i.jti)
      ensures answer.InvalidUser? || answer.SigningFailed? ==>
        claims.Some? && tokens == Revoked(old(tokens), claims.value)
    {
      if !bearer {
        return MissingToken;
      }
      if claims.None? {
        return InvalidToken;
      }
      var active := IsActive(claims.value, now);
      if !active {
        return NotActive;
      }
      Revoke(claims.value);
      if i.user.None? {
        return InvalidUser;
      }
      if !i.signs {
        return SigningFailed;
      }
      Create(i.user.value, i.jti, now + LIFETIME);
      return Rotated;
    }

    /** Logout of an authenticated user. */
    method Logout(user: UserId)
      modifies this
      ensures tokens == AllRevoked(old(tokens), user)
      ensures forall j, now | j in tokens && tokens[j].user == user :: !Active(tokens, j, now)
    {
      RevokeAllForUser(user);
      assert tokens.Keys == AllRevoked(old(tokens), user).Keys;
      assert forall j | j in tokens :: tokens[j] == AllRevoked(old(tokens), user)[j];
    }
  }
}

/** Sessions over whole histories of logins, refreshes and logouts. */
module Sessions {
  import opened Basics
  import opened RefreshTokens

  datatype SessionEvent =
    | LoginOk(user: UserId, jti: Jti, at: Instant)
    | Refresh(presented: Jti, issue: Issue, at: Instant)
    | Logout(user: UserId)

  function After(es: seq<SessionEvent>): Tokens {
    if es == [] then map[]
    else
      var t := After(Init(es));
      match Last(es)
      case LoginOk(user, jti, at) => Created(t, user, jti, at + LIFETIME)
      case Refresh(presented, issue, at) => Refreshed(t, presented, issue, at)
      case Logout(user) => AllRevoked(t, user)
  }

  /** The refresh is let past the IsActive check. */
  predicate Accepted(t: Tokens, e: SessionEvent) {
    e.Refresh? && Active(t, e.presented, e.at)
  }

  /** The token ids handed out are new, and a token's user name still leads to the token's user. */
  predicate IsHistory(es: seq<SessionEvent>) {
    es == [] ||
    (IsHistory(Init(es)) &&
     var t := After(Init(es));
     match Last(es)
     case LoginOk(_, jti, _) => jti !in t
     case Refresh(presented, issue, at) =>
       Active(t, presented, at) && Issues(issue) ==> issue.jti !in t && issue.user.value == t[presented].user
     case Logout(_) => true)
  }

  /** How often Refresh accepted the token. */
  function Acceptances(es: seq<SessionEvent>, jti: Jti): nat {
    if es == [] then 0
    else Acceptances(Init(es), jti)
         + if Accepted(After(Init(es)), Last(es)) && Last(es).presented == jti then 1 else 0
  }

  /** The token issued by the login a token descends from, through rotations. */
  function Roots(es: seq<SessionEvent>): map<Jti, Jti> {
    if es == [] then map[]
    else
      var roots := Roots(Init(es));
      match Last(es)
      case LoginOk(_, jti, _) => roots[jti := jti]
      case Refresh(presented, issue, _) =>
        if Accepted(After(Init(es)), Last(es)) && Issues(issue) && presented in roots
        then roots[issue.jti := roots[presented]] else roots
      case Logout(_) => roots
  }

  /** Successful logins of the user since the last logout. */
  function LoginsSinceLogout(es: seq<SessionEvent>, user: UserId): nat {
    if es == [] then 0
    else match Last(es)
      case LoginOk(u, _, _) => LoginsSinceLogout(Init(es), user) + if u == user then 1 else 0
      case Refresh(_, _, _) => LoginsSinceLogout(Init(es), user)
      case Logout(u) => if u == user then 0 else LoginsSinceLogout(Init(es), user)
  }

  function Unrevoked(t: Tokens, user: UserId): set<Jti> {
    set j | j in t && t[j].user == user && !t[j].revoked
  }

  function ActiveOf(t: Tokens, user: UserId, now: Instant): set<Jti> {
    set j | j in t && t[j].user == user && Active(t, j, now)
  }

  // ---------------------------------------------------------------- single use

  /** An accepted token is revoked, and no token is ever reinstated. */
  lemma {:induction false} AcceptedIsSpent(es: seq<SessionEvent>, jti: Jti)
    requires IsHistory(es)
    ensures Acceptances(es, jti) <= 1
    ensures Acceptances(es, jti) == 1 ==> jti in After(es) && After(es)[jti].revoked
  {
    if es == [] {
    } else {
      AcceptedIsSpent(Init(es), jti);
    }
  }

  /** In every history each refresh token is accepted at most once. */
  lemma SingleUse(es: seq<SessionEvent>, jti: Jti)
    requires IsHistory(es)
    ensures Acceptances(es, jti) <= 1
  {
    AcceptedIsSpent(es, jti);
  }

  // ---------------------------------------------------------------- one active token a chain

  /** The token has a root, which is a token itself. */
  predicate HasRoot(t: Tokens, roots: map<Jti, Jti>, j: Jti) {
    j in roots && roots[j] in t
  }

  /** Two different tokens that are not revoked have different roots. */
  predicate Apart(t: Tokens, roots: map<Jti, Jti>, j: Jti, k: Jti) {
    j in roots && k in roots && j in t && k in t && j != k && !t[j].revoked && !t[k].revoked ==> roots[j] != roots[k]
  }

  /** Exactly the tokens have roots, and unrevoked tokens have different ones. */
  ghost predicate OnePerRoot(t: Tokens, roots: map<Jti, Jti>) {
    && roots.Keys == t.Keys
    && (forall j | j in t :: HasRoot(t, roots, j))
    && (forall j, k :: Apart(t, roots, j, k))
  }

  lemma LoginAddsRoot(t: Tokens, roots: map<Jti, Jti>, user: UserId, jti: Jti, expiresAt: Instant)
    requires OnePerRoot(t, roots) && jti !in t
    ensures OnePerRoot(Created(t, user, jti, expiresAt), roots[jti := jti])
  {
    var t', roots' := Created(t, user, jti, expiresAt), roots[jti := jti];
    forall j | j in t'
      ensures HasRoot(t', roots', j)
    {
      assert j in t ==> HasRoot(t, roots, j);
    }
    forall j, k
      ensures Apart(t', roots', j, k)
    {
      assert Apart(t, roots, j, k);
      assert (j in t ==> HasRoot(t, roots, j)) && (k in t ==> HasRoot(t, roots, k));
    }
  }

  /** Revoking any number of tokens. */
  lemma RevokingKeepsRoots(t: Tokens, t': Tokens, roots: map<Jti, Jti>)
    requires OnePerRoot(t, roots)
    requires t'.Keys == t.Keys && forall j | j in t :: t[j].revoked ==> t'[j].revoked
    ensures OnePerRoot(t', roots)
  {
    forall j | j in t'
      ensures HasRoot(t', roots, j)
    {
      assert HasRoot(t, roots, j);
    }
    forall j, k
      ensures Apart(t', roots, j, k)
    {
      assert Apart(t, roots, j, k);
    }
  }

  /** The new token takes the place of the presented one in its chain. */
  lemma RotationKeepsRoots(t: Tokens, roots: map<Jti, Jti>, presented: Jti, user: UserId, jti: Jti, expiresAt: Instant)
    requires OnePerRoot(t, roots) && presented in t && !t[presented].revoked && jti !in t
    ensures OnePerRoot(Created(Revoked(t, presented), user, jti, expiresAt), roots[jti := roots[presented]])
  {
    var t', roots' := Created(Revoked(t, presented), user, jti, expiresAt), roots[jti := roots[presented]];
    forall j | j in t'
      ensures HasRoot(t', roots', j)
    {
      assert HasRoot(t, roots, if j == jti then presented else j);
    }
    forall j, k
      ensures Apart(t', roots', j, k)
    {
      assert Apart(t, roots, if j == jti then presented else j, if k == jti then presented else k);
    }
  }

  lemma {:induction false} RootsStayDistinct(es: seq<SessionEvent>)
    requires IsHistory(es)
    ensures OnePerRoot(After(es), Roots(es))
  {
    if es == [] {
    } else {
      RootsStayDistinct(Init(es));
      var t, roots := After(Init(es)), Roots(Init(es));
      match Last(es)
      case LoginOk(user, jti, at) => LoginAddsRoot(t, roots, user, jti, at + LIFETIME);
      case Refresh(presented, issue, at) =>
        if Active(t, presented, at) {
          if Issues(issue) {
            RotationKeepsRoots(t, roots, presented, issue.user.value, issue.jti, at + LIFETIME);
          } else {
            RevokingKeepsRoots(t, Revoked(t, presented), roots);
          }
        }
      case Logout(user) => RevokingKeepsRoots(t, AllRevoked(t, user), roots);
    }
  }

  /** Each login's rotation chain has at most one active token. */
  lemma OneActivePerLogin(es: seq<SessionEvent>, j: Jti, k: Jti, now: Instant)
    requires IsHistory(es) && Active(After(es), j, now) && Active(After(es), k, now)
    ensures j in Roots(es) && k in Roots(es) && (Roots(es)[j] == Roots(es)[k] ==> j == k)
  {
    RootsStayDistinct(es);
    assert HasRoot(After(es), Roots(es), j) && HasRoot(After(es), Roots(es), k) && Apart(After(es), Roots(es), j, k);
  }

  // ---------------------------------------------------------------- lifetimes

  /** A login's token is accepted for seven days, and no longer. */
  lemma LoginGrants(es: seq<SessionEvent>, user: UserId, jti: Jti, at: Instant, now: Instant)
    requires jti !in After(es)
    ensures Active(After(es + [LoginOk(user, jti, at)]), jti, now) <==> now < at + 7 * 86400 * SECOND
  {
    assert Init(es + [LoginOk(user, jti, at)]) == es;
  }

  /** A refresh that is accepted ends the presented token and grants a new one for seven days. */
  lemma RefreshGrants(es: seq<SessionEvent>, presented: Jti, issue: Issue, at: Instant, now: Instant)
    requires Active(After(es), presented, at) && issue.jti !in After(es)
    ensures var t := After(es + [Refresh(presented, issue, at)]);
      && !Active(t, presented, now)
      && (Active(t, issue.jti, now) <==> issue.user.Some? && issue.signs && now < at + 7 * 86400 * SECOND)
  {
    assert Init(es + [Refresh(presented, issue, at)]) == es;
  }

  // ---------------------------------------------------------------- conservation

  lemma LoginAddsOne(t: Tokens, u: UserId, jti: Jti, expiresAt: Instant, user: UserId)
    requires jti !in t
    ensures |Unrevoked(Created(t, u, jti, expiresAt), user)| == |Unrevoked(t, user)| + if u == user then 1 else 0
  {
    assert Unrevoked(Created(t, u, jti, expiresAt), user) == Unrevoked(t, user) + if u == user then {jti} else {};
  }

  lemma LogoutLeavesNone(t: Tokens, u: UserId, user: UserId)
    ensures |Unrevoked(AllRevoked(t, u), user)| == if u == user then 0 else |Unrevoked(t, user)|
  {
    assert Unrevoked(AllRevoked(t, u), user) == if u == user then {} else Unrevoked(t, user);
  }

  lemma RevokingShrinks(t: Tokens, jti: Jti, user: UserId)
    ensures Unrevoked(Revoked(t, jti), user) == Unrevoked(t, user) - {jti}
  {
  }

  /** An accepted refresh that issues nothing costs its user one token; any other costs nobody any. */
  lemma RefreshConserves(t: Tokens, presented: Jti, issue: Issue, at: Instant, user: UserId)
    requires Active(t, presented, at) && Issues(issue) ==> issue.jti !in t && issue.user.value == t[presented].user
    ensures |Unrevoked(Refreshed(t, presented, issue, at), user)|
            == |Unrevoked(t, user)|
               - if Active(t, presented, at) && !Issues(issue) && t[presented].user == user then 1 else 0
  {
    if Active(t, presented, at) {
      var before := Unrevoked(t, user);
      RevokingShrinks(t, presented, user);
      if Issues(issue) {
        LoginAddsOne(Revoked(t, presented), issue.user.value, issue.jti, at + LIFETIME, user);
      }
      assert presented in before <==> t[presented].user == user;
      assert |before - {presented}| == |before| - if presented in before then 1 else 0;
    }
  }

  /** The refreshes since the last logout that were accepted for a token of the user but issued nothing. */
  function BrokenOff(es: seq<SessionEvent>, user: UserId): nat {
    if es == [] then 0
    else match Last(es)
      case LoginOk(_, _, _) => BrokenOff(Init(es), user)
      case Refresh(presented, issue, at) =>
        var t := After(Init(es));
        BrokenOff(Init(es), user)
        + if Active(t, presented, at) && t[presented].user == user && !(issue.user.Some? && issue.signs) then 1 else 0
      case Logout(u) => if u == user then 0 else BrokenOff(Init(es), user)
  }

  /**
   Rotation conserves sessions: the unrevoked tokens of a user are as many as the logins since the
   last logout, less the refreshes in between that broke off.
   */
  lemma {:induction false} SessionsAddUp(es: seq<SessionEvent>, user: UserId)
    requires IsHistory(es)
    ensures |Unrevoked(After(es), user)| + BrokenOff(es, user) == LoginsSinceLogout(es, user)
  {
    if es == [] {
    } else {
      SessionsAddUp(Init(es), user);
      var t := After(Init(es));
      match Last(es)
      case LoginOk(u, jti, at) => LoginAddsOne(t, u, jti, at + LIFETIME, user);
      case Refresh(presented, issue, at) => RefreshConserves(t, presented, issue, at, user);
      case Logout(u) => LogoutLeavesNone(t, u, user);
    }
  }

  /** A user's active tokens, at any time, never exceed the successful logins since the last logout. */
  lemma SessionsAreConserved(es: seq<SessionEvent>, user: UserId, now: Instant)
    requires IsHistory(es)
    ensures |ActiveOf(After(es), user, now)| <= LoginsSinceLogout(es, user)
  {
    SessionsAddUp(es, user);
    assert ActiveOf(After(es), user, now) <= Unrevoked(After(es), user);
    SubsetSize(ActiveOf(After(es), user, now), Unrevoked(After(es), user));
  }
}
