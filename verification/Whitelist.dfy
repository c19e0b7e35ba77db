/** Login sessions with automatic logout: every token has a key in Redis that expires unless it is refreshed. */
module Whitelist {
  import opened Options
  import Text

  type Seconds = n: int | n > 0 witness 1

  datatype Config = Config(timeout: Seconds, extendedEnabled: bool, extendedTimeout: Option<Seconds>)

  // getRedisData: private devices stay logged in longer if the feature is on and configured.
  function ExpirationInSeconds(config: Config, privateDevice: bool): Seconds {
    if config.extendedEnabled && config.extendedTimeout.Some? && privateDevice then config.extendedTimeout.value
    else config.timeout
  }

  datatype Token = Token(accountId: string, jti: string)

  // Account ids are hexadecimal.
  predicate IsToken(token: Token) {
    ':' !in token.accountId
  }

  function Key(token: Token): string {
    "jwt:" + token.accountId + ":" + token.jti
  }

  /** Two tokens never share a key. */
  lemma KeysDiffer(s: Token, t: Token)
    requires IsToken(s) && IsToken(t) && Key(s) == Key(t)
    ensures s == t
  {
    assert Key(s)[4..] == s.accountId + ":" + s.jti;
    assert Key(t)[4..] == t.accountId + ":" + t.jti;
    Text.FirstSeparatorSplits(':', s.accountId, t.accountId, s.jti, t.jti);
  }

  // Redis: keys with the millisecond at which they expire.
  type Redis = map<string, int>

  predicate Exists(redis: Redis, key: string, now: int) {
    key in redis && now < redis[key]
  }

  function SetEx(redis: Redis, key: string, seconds: Seconds, now: int): Redis {
    redis[key := now + 1000 * seconds]
  }

  // The answer of TTL: rounded seconds, negative for a key that does not exist.
  function Ttl(redis: Redis, key: string, now: int): int {
    if Exists(redis, key, now) then (redis[key] - now + 500) / 1000 else -2
  }

  datatype Kind =
    | Login         // the token is added
    | Check         // a request with the token is checked, and refreshes it
    | ResetTimer    // the timer service refreshes it
    | ReadTimer     // the timer service reports the remaining time
    | Logout        // the token is removed

  datatype Event = Event(at: int, kind: Kind, token: Token, privateDevice: bool)

  // Whether the request is served; otherwise it ends with an automatic logout.
  predicate Accepts(redis: Redis, e: Event) {
    match e.kind
    case Check => Exists(redis, Key(e.token), e.at)
    case ResetTimer => Ttl(redis, Key(e.token), e.at) >= 0
    case _ => true
  }

  function Next(config: Config, redis: Redis, e: Event): Redis {
    if e.kind.Logout? then redis - {Key(e.token)}
    else if e.kind.ReadTimer? || !Accepts(redis, e) then redis
    else SetEx(redis, Key(e.token), ExpirationInSeconds(config, e.privateDevice), e.at)
  }

  function After(config: Config, events: seq<Event>): Redis {
    if events == [] then map[] else Next(config, After(config, events[..|events| - 1]), events[|events| - 1])
  }

  // Time does not run backwards, up to the moment `now`.
  ghost predicate Timed(events: seq<Event>, now: int) {
    && (forall i :: 0 <= i < |events| ==> events[i].at <= now && IsToken(events[i].token))
    && (forall i, j :: 0 <= i < j < |events| ==> events[i].at <= events[j].at)
  }

  // What a session is, said about the events alone.

  predicate Uses(e: Event, token: Token) {
    e.token == token && (e.kind.Login? || e.kind.Check? || e.kind.ResetTimer?)
  }

  // The moment of the first use from position `i` on, or `now`.
  function NextUse(events: seq<Event>, token: Token, i: nat, now: int): int
    requires i <= |events|
    decreases |events| - i
  {
    if i == |events| then now
    else if Uses(events[i], token) then events[i].at
    else NextUse(events, token, i + 1, now)
  }

  // Public devices have the plain timeout; private ones the extended one, if the feature is on and configured.
  predicate GapIsShort(config: Config, events: seq<Event>, token: Token, i: nat, now: int)
    requires i < |events|
  {
    var gap := NextUse(events, token, i + 1, now) - events[i].at;
    if !events[i].privateDevice then gap < 1000 * config.timeout
    else if !config.extendedEnabled || config.extendedTimeout.None? then gap < 1000 * config.timeout
    else gap < 1000 * config.extendedTimeout.value
  }

  // The login at `start` is followed by no logout, and every use since then came soon enough for the next one.
  predicate SessionSince(config: Config, events: seq<Event>, token: Token, start: nat, now: int) {
    && start < |events| && events[start].token == token && events[start].kind.Login?
    && (forall i :: start <= i < |events| && events[i].token == token ==> !events[i].kind.Logout?)
    && (forall i :: start <= i < |events| && Uses(events[i], token) ==> GapIsShort(config, events, token, i, now))
  }

  ghost predicate InSession(config: Config, events: seq<Event>, token: Token, now: int) {
    exists start :: SessionSince(config, events, token, start, now)
  }

  lemma {:induction false} NextUseOfLonger(events: seq<Event>, e: Event, token: Token, i: nat, now: int)
    requires i <= |events|
    ensures NextUse(events + [e], token, i, now) == NextUse(events, token, i, if Uses(e, token) then e.at else now)
    decreases |events| - i
  {
    if i < |events| {
      assert (events + [e])[i] == events[i];
      NextUseOfLonger(events, e, token, i + 1, now);
    }
  }

  // A start before the last event stays one exactly if the last event came in time and is no logout.
  lemma SessionGoesOn(config: Config, events: seq<Event>, e: Event, token: Token, start: nat, now: int)
    requires start < |events|
    ensures SessionSince(config, events + [e], token, start, now) <==>
      && SessionSince(config, events, token, start, if Uses(e, token) then e.at else now)
      && (e.token == token ==> !e.kind.Logout?)
      && (Uses(e, token) ==> now - e.at < 1000 * ExpirationInSeconds(config, e.privateDevice))
  {
    var longer, then' := events + [e], if Uses(e, token) then e.at else now;
    forall i | start <= i < |events|
      ensures longer[i] == events[i]
      ensures GapIsShort(config, longer, token, i, now) <==> GapIsShort(config, events, token, i, then')
    {
      NextUseOfLonger(events, e, token, i + 1, now);
    }
    assert longer[|events|] == e;
    assert NextUse(longer, token, |events| + 1, now) == now;
    assert Uses(e, token) ==> (GapIsShort(config, longer, token, |events|, now) <==>
                               now - e.at < 1000 * ExpirationInSeconds(config, e.privateDevice));
  }

  lemma LastEventDecides(config: Config, events: seq<Event>, e: Event, token: Token, now: int)
    requires e.at <= now
    ensures var inTime := now - e.at < 1000 * ExpirationInSeconds(config, e.privateDevice);
            InSession(config, events + [e], token, now) <==>
              if e.token != token || e.kind.ReadTimer? then InSession(config, events, token, now)
              else if e.kind.Logout? then false
              else if e.kind.Login? then inTime
              else InSession(config, events, token, e.at) && inTime
  {
    var longer, then' := events + [e], if Uses(e, token) then e.at else now;
    assert longer[|events|] == e;
    if start: nat :| start < |events| && SessionSince(config, longer, token, start, now) {
      SessionGoesOn(config, events, e, token, start, now);
    }
    if SessionSince(config, longer, token, |events|, now) {
      assert GapIsShort(config, longer, token, |events|, now);
    }
    if start: nat :| SessionSince(config, events, token, start, then') {
      SessionGoesOn(config, events, e, token, start, now);
      assert InSession(config, events, token, then');
    }
    if e.token == token && e.kind.Login? && now - e.at < 1000 * ExpirationInSeconds(config, e.privateDevice) {
      assert NextUse(longer, token, |events| + 1, now) == now;
      assert SessionSince(config, longer, token, |events|, now);
    }
  }

  // The same about the key in Redis.
  lemma LastEventSetsKey(config: Config, redis: Redis, e: Event, token: Token, now: int)
    requires e.at <= now && IsToken(e.token) && IsToken(token)
    ensures var inTime := now - e.at < 1000 * ExpirationInSeconds(config, e.privateDevice);
            Exists(Next(config, redis, e), Key(token), now) <==>
              if e.token != token || e.kind.ReadTimer? then Exists(redis, Key(token), now)
              else if e.kind.Logout? then false
              else if e.kind.Login? then inTime
              else Exists(redis, Key(token), e.at) && inTime
  {
    if e.token != token && Key(e.token) == Key(token) {
      KeysDiffer(e.token, token);
    }
  }

  /** A token is accepted at a moment if and only if it was added, not removed since, and every gap between
      consecutive uses up to that moment is shorter than the timeout of the earlier use. */
  lemma {:induction false} AcceptedIffInSession(config: Config, events: seq<Event>, token: Token, now: int)
    requires Timed(events, now) && IsToken(token)
    ensures Exists(After(config, events), Key(token), now) <==> InSession(config, events, token, now)
    decreases |events|
  {
    if events != [] {
      var n := |events| - 1;
      var e, before := events[n], events[..n];
      assert events == before + [e];
      assert Timed(before, e.at) && Timed(before, now);
      LastEventDecides(config, before, e, token, now);
      LastEventSetsKey(config, After(config, before), e, token, now);
      AcceptedIffInSession(config, before, token, now);
      AcceptedIffInSession(config, before, token, e.at);
    }
  }

  // Events of other tokens, and reports of the remaining time, leave a key alone.
  lemma {:induction false} KeyIsKept(config: Config, events: seq<Event>, later: seq<Event>, token: Token)
    requires IsToken(token)
    requires forall e :: e in later ==> IsToken(e.token) && (e.token == token ==> e.kind.ReadTimer?)
    ensures var (before, after) := (After(config, events), After(config, events + later));
            (Key(token) in after <==> Key(token) in before) && (Key(token) in before ==> after[Key(token)] == before[Key(token)])
    decreases |later|
  {
    if later == [] {
      assert events + later == events;
    } else {
      var n := |later| - 1;
      var longer := events + later;
      assert longer[..|longer| - 1] == events + later[..n] && longer[|longer| - 1] == later[n];
      assert later[n] in later;
      KeyIsKept(config, events, later[..n], token);
      if Key(later[n].token) == Key(token) {
        KeysDiffer(later[n].token, token);
      }
    }
  }

  /** How long a use lasts.  After an accepted use, and with none since, a token is accepted on a public device for exactly
      the plain timeout, and on a private one for the extended one if and only if the feature is on and configured;
      what the timer reports in the meantime is the remaining time, rounded to seconds. */
  lemma UseLasts(config: Config, events: seq<Event>, use: Event, later: seq<Event>, token: Token, now: int)
    requires IsToken(token) && use.token == token && use.at <= now
    requires use.kind.Login? || ((use.kind.Check? || use.kind.ResetTimer?) && Exists(After(config, events), Key(token), use.at))
    requires forall e :: e in later ==> IsToken(e.token) && (e.token == token ==> e.kind.ReadTimer?)
    ensures var redis := After(config, events + [use] + later);
            var gap := now - use.at;
            && (!use.privateDevice ==> (Exists(redis, Key(token), now) <==> gap < 1000 * config.timeout))
            && (use.privateDevice && (!config.extendedEnabled || config.extendedTimeout.None?) ==>
                  (Exists(redis, Key(token), now) <==> gap < 1000 * config.timeout))
            && (use.privateDevice && config.extendedEnabled && config.extendedTimeout.Some? ==>
                  (Exists(redis, Key(token), now) <==> gap < 1000 * config.extendedTimeout.value))
            && (Exists(redis, Key(token), now) && !use.privateDevice ==>
                  -500 <= 1000 * Ttl(redis, Key(token), now) - (1000 * config.timeout - gap) <= 500)
  {
    var longer := events + [use];
    assert longer[..|longer| - 1] == events && longer[|longer| - 1] == use;
    KeyIsKept(config, longer, later, token);
  }

  /** What the timer reports: at any moment the remaining time is negative if and only if the token is in no session. */
  lemma RemainingTimeTellsSession(config: Config, events: seq<Event>, token: Token, now: int)
    requires Timed(events, now) && IsToken(token)
    ensures Ttl(After(config, events), Key(token), now) < 0 <==> !InSession(config, events, token, now)
  {
    AcceptedIffInSession(config, events, token, now);
  }

  /** Operations on one token never change another: leaving them out of the history changes no answer. */
  lemma {:induction false} TokensAreIndependent(config: Config, events: seq<Event>, token: Token, now: int)
    requires Timed(events, now) && IsToken(token)
    ensures var own := OwnEvents(events, token);
            Timed(own, now) && (Exists(After(config, events), Key(token), now) <==> Exists(After(config, own), Key(token), now))
    decreases |events|
  {
    var own := OwnEvents(events, token);
    OwnEventsOrdered(events, token, now);
    SameKey(config, events, token);
  }

  function OwnEvents(events: seq<Event>, token: Token): seq<Event> {
    if events == [] then []
    else
      var rest, e := OwnEvents(events[..|events| - 1], token), events[|events| - 1];
      if e.token == token then rest + [e] else rest
  }

  lemma {:induction false} OwnEventsOrdered(events: seq<Event>, token: Token, now: int)
    requires Timed(events, now)
    ensures Timed(OwnEvents(events, token), now)
    ensures forall e :: e in OwnEvents(events, token) ==> e in events
    decreases |events|
  {
    if events != [] {
      var before, e := events[..|events| - 1], events[|events| - 1];
      assert Timed(before, e.at);
      OwnEventsOrdered(before, token, e.at);
    }
  }

  lemma {:induction false} SameKey(config: Config, events: seq<Event>, token: Token)
    requires IsToken(token) && forall i :: 0 <= i < |events| ==> IsToken(events[i].token)
    ensures var all, own := After(config, events), After(config, OwnEvents(events, token));
            (Key(token) in all <==> Key(token) in own) && (Key(token) in all ==> all[Key(token)] == own[Key(token)])
    decreases |events|
  {
    if events != [] {
      var before, e := events[..|events| - 1], events[|events| - 1];
      SameKey(config, before, token);
      var own := OwnEvents(before, token);
      if e.token == token {
        assert (own + [e])[..|own|] == own;
      } else if Key(e.token) == Key(token) {
        KeysDiffer(e.token, token);
      }
    }
  }

  lemma TimedBefore(events: seq<Event>, now: int)
    requires Timed(events, now) && events != []
    ensures Timed(events[..|events| - 1], events[|events| - 1].at)
  {
  }

  /** Once rejected, a token stays rejected until it is added again. */
  lemma {:induction false} RejectedUntilLogin(config: Config, events: seq<Event>, later: seq<Event>, token: Token, then': int, now: int)
    requires Timed(events, then') && Timed(events + later, now) && IsToken(token)
    requires forall e :: e in later ==> then' <= e.at && (e.token == token ==> !e.kind.Login?)
    requires then' <= now
    requires !Exists(After(config, events), Key(token), then')
    ensures !Exists(After(config, events + later), Key(token), now)
    decreases |later|
  {
    if later == [] {
      assert events + later == events;
    } else {
      var n := |later| - 1;
      var e := later[n];
      var longer := events + later;
      assert longer[..|longer| - 1] == events + later[..n];
      assert e in later && e == longer[|longer| - 1];
      TimedBefore(longer, now);
      RejectedUntilLogin(config, events, later[..n], token, then', e.at);
      if Key(e.token) == Key(token) {
        KeysDiffer(e.token, token);
      }
    }
  }

  datatype Response = Done | RemainingTime(ttl: int) | AutoLogout | MethodNotAllowed

  // The functions that talk to Redis.  Without a connection there are no sessions to end.
  class SessionStore {
    var redis: Redis
    const connected: bool
    const config: Config

    constructor (connected: bool, config: Config)
      ensures redis == map[] && this.connected == connected && this.config == config
    {
      redis, this.connected, this.config := map[], connected, config;
    }

    // addTokenToWhitelistWithIdAndJti
    method AddToken(token: Token, privateDevice: bool, now: int)
      modifies this
      ensures connected && !privateDevice ==> redis == old(redis)[Key(token) := now + 1000 * config.timeout]
      ensures connected && privateDevice && config.extendedEnabled && config.extendedTimeout.Some? ==>
        redis == old(redis)[Key(token) := now + 1000 * config.extendedTimeout.value]
      ensures redis == if connected then Next(config, old(redis), Event(now, Login, token, privateDevice)) else old(redis)
    {
      if connected {
        redis := SetEx(redis, Key(token), ExpirationInSeconds(config, privateDevice), now);
      }
    }

    // ensureTokenIsWhitelisted
    method EnsureTokenIsWhitelisted(token: Token, privateDevice: bool, now: int) returns (response: Response)
      modifies this
      ensures var e := Event(now, Check, token, privateDevice);
              && redis == (if connected then Next(config, old(redis), e) else old(redis))
              && response == (if connected && !Accepts(old(redis), e) then AutoLogout else Done)
    {
      if connected {
        if !Exists(redis, Key(token), now) {
          return AutoLogout;
        }
        redis := SetEx(redis, Key(token), ExpirationInSeconds(config, privateDevice), now);
      }
      response := Done;
    }

    // JwtTimerService.find
    method FindTimer(token: Token, now: int) returns (response: Response)
      ensures response == if connected then RemainingTime(Ttl(redis, Key(token), now)) else MethodNotAllowed
    {
      response := if connected then RemainingTime(Ttl(redis, Key(token), now)) else MethodNotAllowed;
    }

    // JwtTimerService.create
    method CreateTimer(token: Token, privateDevice: bool, now: int) returns (response: Response)
      modifies this
      ensures var e := Event(now, ResetTimer, token, privateDevice);
              && redis == (if connected then Next(config, old(redis), e) else old(redis))
              && response == (if !connected then MethodNotAllowed
                              else if Accepts(old(redis), e) then RemainingTime(ExpirationInSeconds(config, privateDevice))
                              else AutoLogout)
      ensures !privateDevice && response.RemainingTime? ==> response.ttl == config.timeout
      ensures privateDevice && config.extendedEnabled && config.extendedTimeout.Some? && response.RemainingTime? ==>
        response.ttl == config.extendedTimeout.value
    {
      if !connected {
        return MethodNotAllowed;
      }
      if Ttl(redis, Key(token), now) < 0 {
        return AutoLogout;
      }
      var seconds := ExpirationInSeconds(config, privateDevice);
      redis := SetEx(redis, Key(token), seconds, now);
      response := RemainingTime(seconds);
    }

    // removeJwtFromWhitelist
    method RemoveToken(token: Token, now: int)
      modifies this
      ensures redis == if connected then Next(config, old(redis), Event(now, Logout, token, false)) else old(redis)
    {
      if connected {
        redis := redis - {Key(token)};
      }
    }
  }
}
