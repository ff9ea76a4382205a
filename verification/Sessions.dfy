/** Sign-in sessions and API tokens (backend/app/auth/service.py): when a session is
    accepted, when it is refused, and what ends every way in. */
module Sessions {
  import opened Text

  /** Seconds. */
  type Time = real

  const DAY: Time := 86400.0

  const SESSION_ABSOLUTE: Time := 2592000.0
  const SESSION_IDLE: Time := 604800.0
  const TOUCH_INTERVAL: Time := 300.0

  type UserId = string

  /** Tokens are taken as unguessable and unique, so a token stands for its hash. */
  type Token = string

  datatype Session = Session(user: UserId, lastSeen: Time, expires: Time)

  datatype ApiToken = ApiToken(revoked: bool, lastUsed: Option<Time>)

  datatype State = State(users: set<UserId>, sessions: map<Token, Session>, tokens: map<Token, ApiToken>)

  // What each operation does to the rows.

  predicate Current(s: Session, now: Time) {
    now < s.expires && now < s.lastSeen + SESSION_IDLE
  }

  predicate Accepts(st: State, token: Token, now: Time) {
    token in st.sessions && Current(st.sessions[token], now) && st.sessions[token].user in st.users
  }

  function Touched(s: Session, now: Time): Session {
    if now - s.lastSeen >= TOUCH_INTERVAL then s.(lastSeen := now) else s
  }

  function AfterResolve(st: State, token: Token, now: Time): State {
    if token !in st.sessions then st
    else if !Current(st.sessions[token], now) then st.(sessions := st.sessions - {token})
    else if st.sessions[token].user !in st.users then st
    else st.(sessions := st.sessions[token := Touched(st.sessions[token], now)])
  }

  function Started(st: State, user: UserId, token: Token, now: Time): State {
    st.(sessions := st.sessions[token := Session(user, now, now + SESSION_ABSOLUTE)])
  }

  /** A password change ends every session of the account but the one it was made from. */
  function SignedOut(st: State, user: UserId, keep: Option<Token>): State {
    st.(sessions := map t | t in st.sessions && (st.sessions[t].user != user || Some(t) == keep) :: st.sessions[t])
  }

  function AllRevoked(st: State): State {
    st.(tokens := map t | t in st.tokens :: st.tokens[t].(revoked := true))
  }

  predicate TokenAccepted(st: State, token: Token) {
    token in st.tokens && !st.tokens[token].revoked
  }

  function AfterTokenUse(st: State, token: Token, now: Time): State {
    if !TokenAccepted(st, token) then st
    else
      var row := st.tokens[token];
      if row.lastUsed.None? || now - row.lastUsed.value >= TOUCH_INTERVAL
      then st.(tokens := st.tokens[token := row.(lastUsed := Some(now))]) else st
  }

  /** The service over its tables. */
  class AuthService {
    var users: set<UserId>
    var sessions: map<Token, Session>
    var tokens: map<Token, ApiToken>

    ghost function Rows(): State
      reads this
    {
      State(users, sessions, tokens)
    }

    constructor ()
      ensures Rows() == State({}, map[], map[])
    {
      users, sessions, tokens := {}, map[], map[];
    }

    method StartSession(user: UserId, token: Token, now: Time)
      requires token !in sessions
      modifies this
      ensures Rows() == Started(old(Rows()), user, token, now)
    {
      sessions := sessions[token := Session(user, now, now + SESSION_ABSOLUTE)];
    }

    method EndSession(token: Token)
      modifies this
      ensures Rows() == old(Rows()).(sessions := old(sessions) - {token})
    {
      sessions := sessions - {token};
    }

    method ResolveSession(token: Token, now: Time) returns (principal: Option<UserId>)
      modifies this
      ensures principal == if Accepts(old(Rows()), token, now) then Some(old(sessions)[token].user) else None
      ensures Rows() == AfterResolve(old(Rows()), token, now)
    {
      if token !in sessions {
        return None;
      }
      var row := sessions[token];
      if row.expires <= now || row.lastSeen + SESSION_IDLE <= now {
        sessions := sessions - {token};
        return None;
      }
      if row.user !in users {
        return None;
      }
      if now - row.lastSeen >= TOUCH_INTERVAL {
        row := row.(lastSeen := now);
      }
      sessions := sessions[token := row];
      return Some(row.user);
    }

    method SetPassword(user: UserId, keep: Option<Token>)
      modifies this
      ensures Rows() == SignedOut(old(Rows()), user, keep)
    {
      sessions := map t | t in sessions && (sessions[t].user != user || Some(t) == keep) :: sessions[t];
    }

    /** The recovery path: end every session of the account and every API token. */
    method ResetPassword(user: UserId) returns (revoked: Option<nat>)
      modifies this
      ensures user !in old(users) ==> revoked == None && Rows() == old(Rows())
      ensures user in old(users) ==>
                && Rows() == AllRevoked(SignedOut(old(Rows()), user, None))
                && revoked == Some(|set t | t in old(tokens) && !old(tokens)[t].revoked|)
    {
      if user !in users {
        return None;
      }
      SetPassword(user, None);
      var n := RevokeAllApiTokens();
      return Some(n);
    }

    method RevokeAllApiTokens() returns (live: nat)
      modifies this
      ensures Rows() == AllRevoked(old(Rows()))
      ensures live == |set t | t in old(tokens) && !old(tokens)[t].revoked|
    {
      live := |set t | t in tokens && !tokens[t].revoked|;
      tokens := map t | t in tokens :: tokens[t].(revoked := true);
    }

    method ResolveApiToken(token: Token, now: Time) returns (ok: bool)
      modifies this
      ensures ok == TokenAccepted(old(Rows()), token)
      ensures Rows() == AfterTokenUse(old(Rows()), token, now)
    {
      if token !in tokens || tokens[token].revoked {
        return false;
      }
      var row := tokens[token];
      if row.lastUsed.None? || now - row.lastUsed.value >= TOUCH_INTERVAL {
        tokens := tokens[token := row.(lastUsed := Some(now))];
      }
      return true;
    }
  }

  // One session over every run of requests.

  /** Everything that can happen to the tables. New tokens are fresh. */
  datatype Event =
    | SignIn(user: UserId, token: Token)
    | SignOut(token: Token)
    | Request(token: Token)
    | ChangePassword(user: UserId, keep: Option<Token>)
    | Reset(user: UserId)
    | NewUser(user: UserId)
    | RemoveUser(user: UserId)
    | NewApiToken(token: Token)
    | RevokeApiToken(token: Token)
    | ApiRequest(token: Token)

  function Step(st: State, e: Event, now: Time): State {
    match e
    case SignIn(user, token) => Started(st, user, token, now)
    case SignOut(token) => st.(sessions := st.sessions - {token})
    case Request(token) => AfterResolve(st, token, now)
    case ChangePassword(user, keep) => SignedOut(st, user, keep)
    case Reset(user) => if user in st.users then AllRevoked(SignedOut(st, user, None)) else st
    case NewUser(user) => st.(users := st.users + {user})
    case RemoveUser(user) => st.(users := st.users - {user})
    case NewApiToken(token) => st.(tokens := st.tokens[token := ApiToken(false, None)])
    case RevokeApiToken(token) =>
      if token in st.tokens then st.(tokens := st.tokens[token := st.tokens[token].(revoked := true)]) else st
    case ApiRequest(token) => AfterTokenUse(st, token, now)
  }

  datatype Timed = Timed(event: Event, at: Time)

  function After(st: State, run: seq<Timed>): State {
    if run == [] then st else Step(After(st, run[..|run| - 1]), run[|run| - 1].event, run[|run| - 1].at)
  }

  /** The clock does not run backwards, and nothing happens before `start`. */
  predicate InOrder(run: seq<Timed>, start: Time) {
    && (forall i :: 0 <= i < |run| ==> start <= run[i].at)
    && (forall i, j :: 0 <= i < j < |run| ==> run[i].at <= run[j].at)
  }

  /** Tokens are fresh: none is issued twice. */
  predicate NotIssuedAgain(token: Token, run: seq<Timed>) {
    forall i :: 0 <= i < |run| ==> !(run[i].event.SignIn? && run[i].event.token == token)
  }

  /** The latest moment the session was used: an accepted request, or the sign-in. */
  function LastUse(st: State, token: Token, start: Time, run: seq<Timed>): Time {
    if run == [] then start
    else
      var n := |run| - 1;
      if run[n].event == Request(token) && Accepts(After(st, run[..n]), token, run[n].at) then run[n].at
      else LastUse(st, token, start, run[..n])
  }

  /** What a stored session's row says about the sign-in and about its real last use,
      which `lastSeen` may trail by less than the touch interval. */
  ghost predicate Tracks(st: State, token: Token, user: UserId, start: Time, lastUse: Time) {
    token in st.sessions ==>
      var s := st.sessions[token];
      && s.user == user && s.expires == start + SESSION_ABSOLUTE
      && s.lastSeen <= lastUse < s.lastSeen + TOUCH_INTERVAL
  }

  lemma StepTracks(st: State, token: Token, user: UserId, start: Time, lastUse: Time, e: Event, now: Time)
    requires Tracks(st, token, user, start, lastUse) && lastUse <= now
    requires !(e.SignIn? && e.token == token)
    ensures Tracks(Step(st, e, now), token, user, start,
                   if e == Request(token) && Accepts(st, token, now) then now else lastUse)
    ensures token in Step(st, e, now).sessions ==> token in st.sessions
  {
  }

  lemma {:induction false} LastUseBefore(st: State, token: Token, start: Time, run: seq<Timed>, now: Time)
    requires start <= now && forall i :: 0 <= i < |run| ==> run[i].at <= now
    ensures LastUse(st, token, start, run) <= now
  {
    if run != [] {
      LastUseBefore(st, token, start, run[..|run| - 1], now);
    }
  }

  lemma {:induction false} RunTracks(st: State, token: Token, user: UserId, start: Time, run: seq<Timed>)
    requires NotIssuedAgain(token, run) && InOrder(run, start)
    ensures var began := Started(st, user, token, start);
            Tracks(After(began, run), token, user, start, LastUse(began, token, start, run))
  {
    if run != [] {
      var n := |run| - 1;
      var began := Started(st, user, token, start);
      RunTracks(st, token, user, start, run[..n]);
      LastUseBefore(began, token, start, run[..n], run[n].at);
      StepTracks(After(began, run[..n]), token, user, start, LastUse(began, token, start, run[..n]),
                 run[n].event, run[n].at);
    }
  }

  /** Whatever happens after a sign-in, the session is refused from thirty days on, and
      after any seven days without use. */
  lemma RefusedInTheEnd(st: State, token: Token, user: UserId, start: Time, run: seq<Timed>, now: Time)
    requires NotIssuedAgain(token, run) && InOrder(run, start)
    requires var began := Started(st, user, token, start);
             now >= start + 30.0 * DAY || now - LastUse(began, token, start, run) >= 7.0 * DAY
    ensures !Accepts(After(Started(st, user, token, start), run), token, now)
  {
    RunTracks(st, token, user, start, run);
  }

  /** A session refused once is refused for ever, account ids not being reused. */
  lemma {:induction false} RefusedForEver(st: State, token: Token, refused: Time, run: seq<Timed>, now: Time)
    requires !Accepts(st, token, refused)
    requires NotIssuedAgain(token, run) && InOrder(run, refused) && refused <= now
    requires forall i :: 0 <= i < |run| ==> run[i].at <= now
    requires token in st.sessions ==> forall i :: 0 <= i < |run| ==> run[i].event != NewUser(st.sessions[token].user)
    ensures !Accepts(After(st, run), token, now)
    ensures token in After(st, run).sessions ==>
              token in st.sessions && After(st, run).sessions[token].user == st.sessions[token].user
    decreases run
  {
    if run != [] {
      var n := |run| - 1;
      var before := After(st, run[..n]);
      RefusedForEver(st, token, refused, run[..n], run[n].at);
      StillRefused(before, token, run[n].at, run[n].event, now);
    }
  }

  lemma StillRefused(st: State, token: Token, at: Time, e: Event, now: Time)
    requires !Accepts(st, token, at) && at <= now
    requires !(e.SignIn? && e.token == token)
    requires token in st.sessions ==> e != NewUser(st.sessions[token].user)
    ensures !Accepts(Step(st, e, at), token, now)
    ensures token in Step(st, e, at).sessions ==>
              token in st.sessions && Step(st, e, at).sessions[token].user == st.sessions[token].user
  {
  }

  /** Nothing in the run ends this session on purpose. */
  predicate Undisturbed(token: Token, user: UserId, run: seq<Timed>) {
    forall i :: 0 <= i < |run| ==>
      match run[i].event
      case SignIn(_, t) => t != token
      case SignOut(t) => t != token
      case ChangePassword(u, keep) => u != user || keep == Some(token)
      case Reset(u) => u != user
      case RemoveUser(u) => u != user
      case _ => true
  }

  function LastRequest(token: Token, start: Time, run: seq<Timed>): Time {
    if run == [] then start
    else
      var n := |run| - 1;
      if run[n].event == Request(token) then run[n].at else LastRequest(token, start, run[..n])
  }

  /** A moment soon enough after the one before, and before the thirty days are up. */
  predicate SoonEnough(at: Time, previous: Time, start: Time) {
    at - previous < 7.0 * DAY - 300.0 && at < start + 30.0 * DAY
  }

  predicate Steady(token: Token, start: Time, run: seq<Timed>) {
    forall i :: 0 <= i < |run| && run[i].event == Request(token) ==>
      SoonEnough(run[i].at, LastRequest(token, start, run[..i]), start)
  }

  /** Used at least every seven days less five minutes, a session lasts its thirty days:
      every request is accepted although `lastSeen` trails real use. */
  lemma {:induction false} SteadyUseIsAccepted(st: State, token: Token, user: UserId, start: Time,
                                               run: seq<Timed>, now: Time)
    requires user in st.users && Undisturbed(token, user, run) && Steady(token, start, run) && InOrder(run, start)
    requires SoonEnough(now, LastRequest(token, start, run), start)
    ensures var began := Started(st, user, token, start);
            && Accepts(After(began, run), token, now)
            && LastUse(began, token, start, run) == LastRequest(token, start, run)
  {
    var began := Started(st, user, token, start);
    if run != [] {
      var n := |run| - 1;
      var e, init := run[n], run[..n];
      assert forall i :: 0 <= i <= n ==> init[..i] == run[..i];
      if e.event == Request(token) {
        SteadyUseIsAccepted(st, token, user, start, init, e.at);
      } else {
        SteadyUseIsAccepted(st, token, user, start, init, now);
      }
      RunTracks(st, token, user, start, init);
      UndisturbedStep(After(began, init), token, user, e.event, e.at);
    }
    assert NotIssuedAgain(token, run);
    RunTracks(st, token, user, start, run);
    assert user in After(began, run).users && token in After(began, run).sessions;
  }

  lemma UndisturbedStep(st: State, token: Token, user: UserId, e: Event, now: Time)
    requires token in st.sessions && st.sessions[token].user == user && user in st.users
    requires Undisturbed(token, user, [Timed(e, now)])
    requires e == Request(token) ==> Accepts(st, token, now)
    ensures token in Step(st, e, now).sessions && user in Step(st, e, now).users
  {
    assert [Timed(e, now)][0].event == e;
  }

  // Recovery.

  lemma {:induction false} GoneStaysGone(st: State, token: Token, run: seq<Timed>)
    requires token !in st.sessions && NotIssuedAgain(token, run)
    ensures token !in After(st, run).sessions
  {
    if run != [] {
      GoneStaysGone(st, token, run[..|run| - 1]);
    }
  }

  lemma {:induction false} RevokedStaysRevoked(st: State, token: Token, run: seq<Timed>)
    requires token in st.tokens && st.tokens[token].revoked
    requires forall i :: 0 <= i < |run| ==> run[i].event != NewApiToken(token)
    ensures !TokenAccepted(After(st, run), token)
    ensures token in After(st, run).tokens
  {
    if run != [] {
      RevokedStaysRevoked(st, token, run[..|run| - 1]);
    }
  }

  /** A reset ends every way in: whatever happens next, no session the account had and
      no API token that existed is ever accepted again. */
  lemma ResetEndsEveryWayIn(st: State, user: UserId, at: Time, token: Token, run: seq<Timed>, now: Time)
    requires user in st.users
    requires NotIssuedAgain(token, run) && forall i :: 0 <= i < |run| ==> run[i].event != NewApiToken(token)
    ensures var after := After(Step(st, Reset(user), at), run);
            && (token in st.sessions && st.sessions[token].user == user ==> !Accepts(after, token, now))
            && (token in st.tokens ==> !TokenAccepted(after, token))
  {
    var reset := Step(st, Reset(user), at);
    if token in st.sessions && st.sessions[token].user == user {
      GoneStaysGone(reset, token, run);
    }
    if token in st.tokens {
      RevokedStaysRevoked(reset, token, run);
    }
  }

  /** A password change ends every other session of the account, and only those. */
  lemma ChangeEndsOtherSessions(st: State, user: UserId, keep: Option<Token>, at: Time, token: Token)
    requires token in st.sessions
    ensures var after := Step(st, ChangePassword(user, keep), at);
            && (token in after.sessions <==> st.sessions[token].user != user || Some(token) == keep)
            && (token in after.sessions ==> after.sessions[token] == st.sessions[token])
  {
  }

  /** Signed out, a session is never accepted again. */
  lemma SignedOutForEver(st: State, token: Token, at: Time, run: seq<Timed>, now: Time)
    requires NotIssuedAgain(token, run)
    ensures !Accepts(After(Step(st, SignOut(token), at), run), token, now)
  {
    GoneStaysGone(Step(st, SignOut(token), at), token, run);
  }

  /** Nor is any session of an account that was removed. */
  lemma RemovedForEver(st: State, token: Token, user: UserId, at: Time, run: seq<Timed>, now: Time)
    requires token in st.sessions && st.sessions[token].user == user
    requires NotIssuedAgain(token, run) && InOrder(run, at) && at <= now
    requires forall i :: 0 <= i < |run| ==> run[i].at <= now && run[i].event != NewUser(user)
    ensures !Accepts(After(Step(st, RemoveUser(user), at), run), token, now)
  {
    RefusedForEver(Step(st, RemoveUser(user), at), token, at, run, now);
  }

  /** An accepted API token's stored use trails the real one by less than five minutes, and
      nothing else is written. */
  lemma TokenUseWritten(st: State, token: Token, now: Time)
    requires TokenAccepted(st, token)
    ensures var after := AfterTokenUse(st, token, now);
            && TokenAccepted(after, token) && after.tokens[token].lastUsed.Some?
            && now - after.tokens[token].lastUsed.value < 300.0
            && (after != st ==> after.tokens[token].lastUsed == Some(now))
            && after.users == st.users && after.sessions == st.sessions && after.tokens.Keys == st.tokens.Keys
            && forall t :: t in st.tokens && t != token ==> after.tokens[t] == st.tokens[t]
  {
  }
}
