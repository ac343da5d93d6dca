/**
 * The in-memory session store: contest lifecycle (waiting, active, completed,
 * with a pause flag), accepted and rejected submissions with the two
 * duplicate sets, the socket registry with its disconnect records, and the
 * derived leaderboard and user list.
 *
 * Time is a whole number of seconds passed in as `now`; the random choice of
 * session codes is a parameter.
 */
module SessionManager {
  import opened Common
  import opened Text

  /** A game lasts two hours from its start. */
  const GameDuration := 7200
  /** A disconnected user may reclaim the name for five minutes. */
  const ReclaimWindow := 300
  const CodeLength := 6

  datatype Status = Waiting | Active | Completed

  datatype Athlete = Athlete(
    name: string, normalizedName: string, sport: string, sportDisplay: Option<string>,
    submittedBy: string, submittedAt: int, validated: bool,
    entityId: Option<string>, hint: Option<string>, canonicalName: Option<string>)

  datatype RejectedSubmission = RejectedSubmission(
    name: string, sport: string, username: string, reason: string, submittedAt: int)

  datatype DisconnectedUser = DisconnectedUser(disconnectedAt: int, submissionsCount: nat)

  datatype Session = Session(
    code: string, status: Status, createdAt: int, startedAt: Option<int>, endsAt: Option<int>,
    hostUsername: Option<string>,
    athletes: seq<Athlete>, athleteNames: set<string>, athleteEntityIds: set<string>,
    connectedUsers: map<string, string>, disconnectedUsers: map<string, DisconnectedUser>,
    rejectedSubmissions: seq<RejectedSubmission>,
    isPaused: bool, pausedAt: Option<int>, timeRemainingAtPause: Option<int>)

  // ---------------------------------------------------------------------------
  // what the athlete list determines

  /** The truthy entity IDs of the athletes. */
  function EntityIds(athletes: seq<Athlete>): set<string>
    decreases |athletes|
  {
    if athletes == [] then {}
    else
      var a := athletes[|athletes| - 1];
      EntityIds(athletes[..|athletes| - 1]) + (if Truthy(a.entityId) then {a.entityId.value} else {})
  }

  /** The normalised names of the athletes. */
  function NormalizedNames(athletes: seq<Athlete>): set<string>
    decreases |athletes|
  {
    if athletes == [] then {}
    else NormalizedNames(athletes[..|athletes| - 1]) + {athletes[|athletes| - 1].normalizedName}
  }

  /** How many athletes `username` submitted. */
  function CountBy(athletes: seq<Athlete>, username: string): (n: nat)
    ensures n <= |athletes|
    decreases |athletes|
  {
    if athletes == [] then 0
    else CountBy(athletes[..|athletes| - 1], username) + (if athletes[|athletes| - 1].submittedBy == username then 1 else 0)
  }

  lemma AthletesSnoc(athletes: seq<Athlete>, a: Athlete)
    ensures EntityIds(athletes + [a]) == EntityIds(athletes) + (if Truthy(a.entityId) then {a.entityId.value} else {})
    ensures NormalizedNames(athletes + [a]) == NormalizedNames(athletes) + {a.normalizedName}
    ensures forall u :: CountBy(athletes + [a], u) == CountBy(athletes, u) + (if a.submittedBy == u then 1 else 0)
  {
    assert (athletes + [a])[..|athletes|] == athletes;
  }

  /** The entity set holds exactly the truthy entity IDs of accepted athletes. */
  lemma {:induction false} EntityIdsExact(athletes: seq<Athlete>)
    ensures forall e :: e in EntityIds(athletes) <==>
      exists i :: 0 <= i < |athletes| && Truthy(athletes[i].entityId) && athletes[i].entityId.value == e
    decreases |athletes|
  {
    if athletes != [] {
      var p, a := athletes[..|athletes| - 1], athletes[|athletes| - 1];
      assert athletes == p + [a];
      EntityIdsExact(p);
      AthletesSnoc(p, a);
      forall e ensures e in EntityIds(athletes) <==>
        exists i :: 0 <= i < |athletes| && Truthy(athletes[i].entityId) && athletes[i].entityId.value == e
      {
        if exists i :: 0 <= i < |athletes| && Truthy(athletes[i].entityId) && athletes[i].entityId.value == e {
          var i :| 0 <= i < |athletes| && Truthy(athletes[i].entityId) && athletes[i].entityId.value == e;
          if i < |p| { assert p[i] == athletes[i]; }
        }
        if exists i :: 0 <= i < |p| && Truthy(p[i].entityId) && p[i].entityId.value == e {
          var i :| 0 <= i < |p| && Truthy(p[i].entityId) && p[i].entityId.value == e;
          assert athletes[i] == p[i];
        }
      }
    }
  }

  /** The name set holds exactly the normalised names of accepted athletes. */
  lemma {:induction false} NormalizedNamesExact(athletes: seq<Athlete>)
    ensures forall n :: n in NormalizedNames(athletes) <==> exists i :: 0 <= i < |athletes| && athletes[i].normalizedName == n
    decreases |athletes|
  {
    if athletes != [] {
      var p, a := athletes[..|athletes| - 1], athletes[|athletes| - 1];
      assert athletes == p + [a];
      NormalizedNamesExact(p);
      AthletesSnoc(p, a);
      forall n ensures n in NormalizedNames(athletes) <==> exists i :: 0 <= i < |athletes| && athletes[i].normalizedName == n {
        if exists i :: 0 <= i < |athletes| && athletes[i].normalizedName == n {
          var i :| 0 <= i < |athletes| && athletes[i].normalizedName == n;
          if i < |p| { assert p[i] == athletes[i]; }
        }
        if exists i :: 0 <= i < |p| && p[i].normalizedName == n {
          var i :| 0 <= i < |p| && p[i].normalizedName == n;
          assert athletes[i] == p[i];
        }
      }
    }
  }

  // ---------------------------------------------------------------------------
  // the session invariant

  /** No two sockets hold the same name. */
  predicate Injective(m: map<string, string>) {
    forall a, b :: a in m && b in m && a != b ==> m[a] != m[b]
  }

  /** A name is never both connected and on the disconnect list. */
  predicate ConnectedNotDisconnected(s: Session) {
    forall sid :: sid in s.connectedUsers ==> s.connectedUsers[sid] !in s.disconnectedUsers
  }

  /**
   * What every reachable session satisfies: it is stored under its own code,
   * the duplicate sets are those of its athletes, an active game has a
   * deadline, a paused one a remaining time, and each name has at most one
   * socket.
   */
  predicate SessionOk(code: string, s: Session) {
    s.code == code
    && s.athleteEntityIds == EntityIds(s.athletes)
    && s.athleteNames == NormalizedNames(s.athletes)
    && (s.status == Active ==> s.endsAt.Some?)
    && (s.isPaused ==> s.timeRemainingAtPause.Some?)
    && Injective(s.connectedUsers)
    && ConnectedNotDisconnected(s)
  }

  // ---------------------------------------------------------------------------
  // session transitions as functions

  function NewSession(code: string, now: int, host: Option<string>): Session {
    Session(code, Waiting, now, None, None, host, [], {}, {}, map[], map[], [], false, None, None)
  }

  /** start_session on a waiting session: active, with a deadline two hours on. */
  function Started(s: Session, now: int): Session {
    s.(status := Active, startedAt := Some(now), endsAt := Some(now + GameDuration))
  }

  function Ended(s: Session): Session {
    s.(status := Completed)
  }

  function WithAthlete(s: Session, a: Athlete): Session {
    s.(athletes := s.athletes + [a],
       athleteNames := s.athleteNames + {a.normalizedName},
       athleteEntityIds := if Truthy(a.entityId) then s.athleteEntityIds + {a.entityId.value} else s.athleteEntityIds)
  }

  function WithRejection(s: Session, r: RejectedSubmission): Session {
    s.(rejectedSubmissions := s.rejectedSubmissions + [r])
  }

  function Max(a: int, b: int): int {
    if a >= b then a else b
  }

  /**
   * pause_session: `(remaining, new session)`; nothing happens unless the game
   * is active and not paused.
   */
  function Paused(s: Session, now: int): (Option<int>, Session)
    requires s.status == Active ==> s.endsAt.Some?
  {
    if s.status != Active || s.isPaused then (None, s)
    else
      var remaining := Max(s.endsAt.value - now, 0);
      (Some(remaining), s.(isPaused := true, pausedAt := Some(now), timeRemainingAtPause := Some(remaining)))
  }

  /**
   * resume_session: `(new deadline, new session)`; nothing happens unless the
   * game is active and paused.
   */
  function Resumed(s: Session, now: int): (Option<int>, Session) {
    if s.status != Active || !s.isPaused then (None, s)
    else
      var endsAt := now + s.timeRemainingAtPause.GetOr(0);
      (Some(endsAt), s.(endsAt := Some(endsAt), isPaused := false, pausedAt := None, timeRemainingAtPause := None))
  }

  /** `map` without the sockets holding `username`. */
  function WithoutHolders(m: map<string, string>, username: string): map<string, string> {
    map k | k in m && m[k] != username :: m[k]
  }

  /** add_connected_user: stale sockets of the name dropped, its disconnect record cleared, the socket bound. */
  function Connected(s: Session, sid: string, username: string): Session {
    s.(connectedUsers := WithoutHolders(s.connectedUsers, username)[sid := username],
       disconnectedUsers := s.disconnectedUsers - {username})
  }

  /** remove_connected_user for a bound socket: unbound, with a disconnect record carrying the user's count. */
  function Disconnected(s: Session, sid: string, now: int): Session
    requires sid in s.connectedUsers
  {
    var username := s.connectedUsers[sid];
    s.(connectedUsers := s.connectedUsers - {sid},
       disconnectedUsers := s.disconnectedUsers[username := DisconnectedUser(now, CountBy(s.athletes, username))])
  }

  // ---------------------------------------------------------------------------
  // the invariant is kept

  lemma WithAthleteOk(code: string, s: Session, a: Athlete)
    requires SessionOk(code, s)
    ensures SessionOk(code, WithAthlete(s, a))
  {
    AthletesSnoc(s.athletes, a);
  }

  lemma ConnectedOk(code: string, s: Session, sid: string, username: string)
    requires SessionOk(code, s)
    ensures SessionOk(code, Connected(s, sid, username))
  {
    var c := Connected(s, sid, username).connectedUsers;
    forall a, b | a in c && b in c && a != b ensures c[a] != c[b] {
      if a != sid && b != sid {
        assert c[a] == s.connectedUsers[a] && c[b] == s.connectedUsers[b];
      }
    }
  }

  lemma DisconnectedOk(code: string, s: Session, sid: string, now: int)
    requires SessionOk(code, s) && sid in s.connectedUsers
    ensures SessionOk(code, Disconnected(s, sid, now))
  {
    var d := Disconnected(s, sid, now);
    forall k | k in d.connectedUsers ensures d.connectedUsers[k] !in d.disconnectedUsers {
      assert k != sid && d.connectedUsers[k] == s.connectedUsers[k];
    }
  }

  /** The name has a disconnect record younger than the reclaim window. */
  predicate Reclaimable(s: Session, username: string, now: int) {
    username in s.disconnectedUsers && now - s.disconnectedUsers[username].disconnectedAt < ReclaimWindow
  }

  /** A socket other than `sid` holds the name. */
  predicate HeldByOther(s: Session, username: string, sid: string) {
    exists k :: k in s.connectedUsers && s.connectedUsers[k] == username && k != sid
  }

  // ---------------------------------------------------------------------------
  // properties of the transitions

  /** Pausing and resuming at the same instant leaves the deadline at `max(ends_at, now)`. */
  lemma PauseResumeSameInstant(s: Session, now: int)
    requires s.status == Active && !s.isPaused && s.endsAt.Some?
    ensures var r := Resumed(Paused(s, now).1, now);
      r.0 == Some(Max(s.endsAt.value, now))
      && r.1 == s.(endsAt := Some(Max(s.endsAt.value, now)), pausedAt := None, timeRemainingAtPause := None)
  {
  }

  /** A pause of a running game, from `t1` to `t2`, moves the deadline on by the paused time. */
  lemma PauseExtendsDeadline(s: Session, t1: int, t2: int)
    requires s.status == Active && !s.isPaused && s.endsAt.Some? && t1 <= s.endsAt.value
    ensures Resumed(Paused(s, t1).1, t2).1.endsAt == Some(s.endsAt.value + (t2 - t1))
  {
  }

  /** A second pause is refused, and so is a resume of a running game. */
  lemma PauseNotTwice(s: Session, now: int, later: int)
    requires s.status == Active ==> s.endsAt.Some?
    ensures Paused(Paused(s, now).1, later).0 == None
    ensures !s.isPaused ==> Resumed(s, now) == (None, s)
  {
  }

  /** After connecting, exactly one socket holds the name, it has no disconnect record, and other names keep their sockets. */
  lemma ConnectBindsOnce(s: Session, sid: string, username: string)
    ensures var c := Connected(s, sid, username);
      (forall k :: k in c.connectedUsers && c.connectedUsers[k] == username <==> k == sid)
      && username !in c.disconnectedUsers
      && (forall k :: k in s.connectedUsers && k != sid && s.connectedUsers[k] != username ==>
            k in c.connectedUsers && c.connectedUsers[k] == s.connectedUsers[k])
      && (forall k :: k in c.connectedUsers && k != sid ==> k in s.connectedUsers)
  {
  }

  /** A disconnected user may reclaim the name exactly while its record is younger than five minutes. */
  lemma DisconnectThenReclaim(s: Session, sid: string, t: int, now: int)
    requires sid in s.connectedUsers
    ensures var u := s.connectedUsers[sid];
      var d := Disconnected(s, sid, t);
      u in d.disconnectedUsers && sid !in d.connectedUsers
      && (Reclaimable(d, u, now) <==> now - t < ReclaimWindow)
      && d.disconnectedUsers[u].submissionsCount == CountBy(s.athletes, u)
  {
  }

  // ---------------------------------------------------------------------------
  // leaderboard arithmetic

  /** The submission counts of `names`, summed. */
  function SumCounts(names: seq<string>, athletes: seq<Athlete>): nat
    decreases |names|
  {
    if names == [] then 0 else SumCounts(names[..|names| - 1], athletes) + CountBy(athletes, names[|names| - 1])
  }

  predicate Distinct(names: seq<string>) {
    forall i, j :: 0 <= i < j < |names| ==> names[i] != names[j]
  }

  function Occurrences(names: seq<string>, x: string): nat
    decreases |names|
  {
    if names == [] then 0 else Occurrences(names[..|names| - 1], x) + (if names[|names| - 1] == x then 1 else 0)
  }

  lemma {:induction false} OccursOnce(names: seq<string>, x: string)
    requires Distinct(names)
    ensures Occurrences(names, x) == (if x in names then 1 else 0)
    decreases |names|
  {
    if names != [] {
      var p := names[..|names| - 1];
      OccursOnce(p, x);
      if names[|names| - 1] == x {
        assert x !in p by {
          forall i | 0 <= i < |p| ensures p[i] != x {
            assert names[i] == p[i];
          }
        }
      } else {
        assert x in names <==> x in p by {
          if x in names {
            var i :| 0 <= i < |names| && names[i] == x;
            assert p[i] == x;
          }
        }
      }
    }
  }

  lemma {:induction false} SumCountsSnoc(names: seq<string>, athletes: seq<Athlete>, a: Athlete)
    ensures SumCounts(names, athletes + [a]) == SumCounts(names, athletes) + Occurrences(names, a.submittedBy)
    decreases |names|
  {
    AthletesSnoc(athletes, a);
    if names != [] {
      SumCountsSnoc(names[..|names| - 1], athletes, a);
    }
  }

  /** When every submitter is listed once, the scores add up to the number of athletes. */
  lemma {:induction false} ScoresSumToAthletes(names: seq<string>, athletes: seq<Athlete>)
    requires Distinct(names)
    requires forall i :: 0 <= i < |athletes| ==> athletes[i].submittedBy in names
    ensures SumCounts(names, athletes) == |athletes|
    decreases |athletes|
  {
    if athletes == [] {
      ZeroCounts(names, athletes);
    } else {
      var p, a := athletes[..|athletes| - 1], athletes[|athletes| - 1];
      assert athletes == p + [a];
      ScoresSumToAthletes(names, p);
      SumCountsSnoc(names, p, a);
      OccursOnce(names, a.submittedBy);
    }
  }

  lemma {:induction false} ZeroCounts(names: seq<string>, athletes: seq<Athlete>)
    requires athletes == []
    ensures SumCounts(names, athletes) == 0
    decreases |names|
  {
    if names != [] {
      ZeroCounts(names[..|names| - 1], athletes);
    }
  }

  // ---------------------------------------------------------------------------
  // ordering of the derived lists

  /** `(key, name) < (key', name')` as Python compares such tuples. */
  predicate KeyLt(k1: int, n1: string, k2: int, n2: string) {
    k1 < k2 || (k1 == k2 && StrLt(n1, n2))
  }

  lemma KeyLtTransitive(k1: int, n1: string, k2: int, n2: string, k3: int, n3: string)
    requires KeyLt(k1, n1, k2, n2) && KeyLt(k2, n2, k3, n3)
    ensures KeyLt(k1, n1, k3, n3)
  {
    if k1 == k2 && k2 == k3 {
      StrLtTransitive(n1, n2, n3);
    }
  }

  lemma KeyLtTotal(k1: int, n1: string, k2: int, n2: string)
    requires n1 != n2
    ensures KeyLt(k1, n1, k2, n2) || KeyLt(k2, n2, k1, n1)
  {
    StrLtTotal(n1, n2);
  }

  /** Every non-empty set of names has a least one in `(key, name)` order. */
  lemma {:induction false} MinOf(names: set<string>, key: string -> int) returns (m: string)
    requires names != {}
    ensures m in names && forall y :: y in names && y != m ==> KeyLt(key(m), m, key(y), y)
    decreases names
  {
    var x :| x in names;
    var rest := names - {x};
    if rest == {} {
      m := x;
      assert names == {x};
    } else {
      var n := MinOf(rest, key);
      if KeyLt(key(x), x, key(n), n) {
        m := x;
        forall y | y in names && y != x ensures KeyLt(key(x), x, key(y), y) {
          if y != n {
            KeyLtTransitive(key(x), x, key(n), n, key(y), y);
          }
        }
      } else {
        m := n;
        KeyLtTotal(key(x), x, key(n), n);
      }
    }
  }

  /** The names in increasing `(key, name)` order: `sorted(names, key=...)` on distinct names. */
  method SortByKey(names: set<string>, key: string -> int) returns (r: seq<string>)
    ensures forall x :: x in r <==> x in names
    ensures forall i, j :: 0 <= i < j < |r| ==> KeyLt(key(r[i]), r[i], key(r[j]), r[j])
  {
    r := [];
    var rest := names;
    while rest != {}
      invariant rest <= names
      invariant forall x :: x in r <==> x in names && x !in rest
      invariant forall i, j :: 0 <= i < j < |r| ==> KeyLt(key(r[i]), r[i], key(r[j]), r[j])
      invariant forall i, y :: 0 <= i < |r| && y in rest ==> KeyLt(key(r[i]), r[i], key(y), y)
      decreases rest
    {
      var least := MinOf(rest, key);
      var m :| m in rest && forall y :: y in rest && y != m ==> KeyLt(key(m), m, key(y), y);
      r := r + [m];
      rest := rest - {m};
    }
  }

  lemma StrictlyOrderedDistinct(r: seq<string>, key: string -> int)
    requires forall i, j :: 0 <= i < j < |r| ==> KeyLt(key(r[i]), r[i], key(r[j]), r[j])
    ensures Distinct(r)
  {
    forall i, j | 0 <= i < j < |r| ensures r[i] != r[j] {
      StrLtIrreflexive(r[i]);
    }
  }

  datatype LeaderboardEntry = LeaderboardEntry(username: string, score: nat, rank: nat)

  datatype UserStatus = UserStatus(username: string, isConnected: bool, isHost: bool)

  /** The names a session knows of: connected, disconnected, and anyone who submitted. */
  function Participants(s: Session): set<string> {
    s.connectedUsers.Values + s.disconnectedUsers.Keys + (set i | 0 <= i < |s.athletes| :: s.athletes[i].submittedBy)
  }

  function BoardScoreSum(board: seq<LeaderboardEntry>): nat
    decreases |board|
  {
    if board == [] then 0 else BoardScoreSum(board[..|board| - 1]) + board[|board| - 1].score
  }

  /** The user-list sort key `(not is_host, not is_connected)` as one number. */
  function StatusKey(isHost: bool, isConnected: bool): int {
    (if isHost then 0 else 2) + (if isConnected then 0 else 1)
  }

  // ---------------------------------------------------------------------------
  // the store

  predicate IsCodeChar(c: char) {
    ('A' <= c <= 'Z') || ('0' <= c <= '9')
  }

  /** What `random.choices(ascii_uppercase + digits, k=6)` yields. */
  predicate IsCodeShape(code: string) {
    |code| == CodeLength && forall i :: 0 <= i < |code| ==> IsCodeChar(code[i])
  }

  class SessionStore {
    var sessions: map<string, Session>

    ghost predicate Valid()
      reads this
    {
      forall code :: code in sessions ==> SessionOk(code, sessions[code])
    }

    constructor()
      ensures Valid() && sessions == map[]
    {
      sessions := map[];
    }

    /**
     * generate_session_code: `draws` are the successive random codes; the
     * first one not in use is taken.
     */
    method GenerateSessionCode(draws: seq<string>) returns (code: string)
      requires forall i :: 0 <= i < |draws| ==> IsCodeShape(draws[i])
      requires exists i :: 0 <= i < |draws| && draws[i] !in sessions
      ensures code !in sessions && IsCodeShape(code)
      ensures exists i :: 0 <= i < |draws| && draws[i] == code && forall j :: 0 <= j < i ==> draws[j] in sessions
    {
      var i := 0;
      while draws[i] in sessions
        invariant 0 <= i < |draws|
        invariant forall j :: 0 <= j < i ==> draws[j] in sessions
        invariant exists k :: i <= k < |draws| && draws[k] !in sessions
        decreases |draws| - i
      {
        i := i + 1;
      }
      code := draws[i];
    }

    method CreateSession(host: Option<string>, now: int, draws: seq<string>) returns (s: Session)
      requires Valid()
      requires forall i :: 0 <= i < |draws| ==> IsCodeShape(draws[i])
      requires exists i :: 0 <= i < |draws| && draws[i] !in sessions
      modifies this
      ensures Valid()
      ensures s.code !in old(sessions) && IsCodeShape(s.code)
      ensures s == NewSession(s.code, now, host) && sessions == old(sessions)[s.code := s]
    {
      var code := GenerateSessionCode(draws);
      s := NewSession(code, now, host);
      sessions := sessions[code := s];
    }

    function GetSession(code: string): Option<Session>
      reads this
    {
      if code in sessions then Some(sessions[code]) else None
    }

    method StartSession(code: string, now: int) returns (ok: bool)
      requires Valid()
      modifies this
      ensures Valid()
      ensures ok <==> code in old(sessions) && old(sessions)[code].status == Waiting
      ensures sessions == if ok then old(sessions)[code := Started(old(sessions)[code], now)] else old(sessions)
    {
      if code !in sessions || sessions[code].status != Waiting {
        return false;
      }
      sessions := sessions[code := Started(sessions[code], now)];
      return true;
    }

    method EndSession(code: string) returns (ok: bool)
      requires Valid()
      modifies this
      ensures Valid()
      ensures ok <==> code in old(sessions)
      ensures sessions == if ok then old(sessions)[code := Ended(old(sessions)[code])] else old(sessions)
    {
      if code !in sessions {
        return false;
      }
      sessions := sessions[code := Ended(sessions[code])];
      return true;
    }

    method AddAthlete(code: string, a: Athlete) returns (ok: bool)
      requires Valid()
      modifies this
      ensures Valid()
      ensures ok <==> code in old(sessions)
      ensures sessions == if ok then old(sessions)[code := WithAthlete(old(sessions)[code], a)] else old(sessions)
    {
      if code !in sessions {
        return false;
      }
      WithAthleteOk(code, sessions[code], a);
      sessions := sessions[code := WithAthlete(sessions[code], a)];
      return true;
    }

    method AddRejectedSubmission(code: string, name: string, sport: string, username: string, reason: string, now: int)
      returns (ok: bool)
      requires Valid()
      modifies this
      ensures Valid()
      ensures ok <==> code in old(sessions)
      ensures sessions == if ok then
        old(sessions)[code := WithRejection(old(sessions)[code], RejectedSubmission(name, sport, username, reason, now))]
        else old(sessions)
    {
      if code !in sessions {
        return false;
      }
      sessions := sessions[code := WithRejection(sessions[code], RejectedSubmission(name, sport, username, reason, now))];
      return true;
    }

    /** is_duplicate: with a truthy entity ID only the entity set decides; otherwise the name set. */
    function IsDuplicate(code: string, normalizedName: string, entityId: Option<string>): (r: bool)
      reads this
      requires Valid()
      ensures code !in sessions ==> !r
      ensures code in sessions && Truthy(entityId) ==>
        (r <==> exists i :: 0 <= i < |sessions[code].athletes| &&
                  Truthy(sessions[code].athletes[i].entityId) && sessions[code].athletes[i].entityId == entityId)
      ensures code in sessions && !Truthy(entityId) ==>
        (r <==> exists i :: 0 <= i < |sessions[code].athletes| && sessions[code].athletes[i].normalizedName == normalizedName)
    {
      if code !in sessions then false
      else
        var s := sessions[code];
        EntityIdsExact(s.athletes);
        NormalizedNamesExact(s.athletes);
        if Truthy(entityId) then entityId.value in s.athleteEntityIds
        else normalizedName in s.athleteNames
    }

    /** get_non_duplicate_entity_ids: the IDs not yet accepted, in their order; all of them for an unknown session. */
    function GetNonDuplicateEntityIds(code: string, ids: seq<string>): (r: seq<string>)
      reads this
      ensures code !in sessions ==> r == ids
      ensures code in sessions ==> r == FilterOut(ids, sessions[code].athleteEntityIds)
    {
      if code !in sessions then ids else FilterOut(ids, sessions[code].athleteEntityIds)
    }

    /** are_all_entity_ids_duplicates: a non-empty list none of whose IDs is still free. */
    function AreAllEntityIdsDuplicates(code: string, ids: seq<string>): (r: bool)
      reads this
      ensures r <==> ids != [] && code in sessions && forall i :: 0 <= i < |ids| ==> ids[i] in sessions[code].athleteEntityIds
    {
      if code !in sessions then false
      else
        FilterOutEmpty(ids, sessions[code].athleteEntityIds);
        ids != [] && |GetNonDuplicateEntityIds(code, ids)| == 0
    }

    method AddConnectedUser(code: string, sid: string, username: string) returns (ok: bool)
      requires Valid()
      modifies this
      ensures Valid()
      ensures ok <==> code in old(sessions)
      ensures sessions == if ok then old(sessions)[code := Connected(old(sessions)[code], sid, username)] else old(sessions)
    {
      if code !in sessions {
        return false;
      }
      var s := sessions[code];
      var users := DropHolders(s.connectedUsers, username);
      var disconnected := s.disconnectedUsers;
      if username in disconnected {
        disconnected := disconnected - {username};
      }
      users := users[sid := username];
      assert disconnected == s.disconnectedUsers - {username};
      assert s.(connectedUsers := users, disconnectedUsers := disconnected) == Connected(s, sid, username);
      ConnectedOk(code, s, sid, username);
      sessions := sessions[code := s.(connectedUsers := users, disconnectedUsers := disconnected)];
      return true;
    }

    method RemoveConnectedUser(code: string, sid: string, now: int) returns (r: Option<string>)
      requires Valid()
      modifies this
      ensures Valid()
      ensures r.None? <==> !(code in old(sessions) && sid in old(sessions)[code].connectedUsers)
      ensures r.Some? ==> (r.value == old(sessions)[code].connectedUsers[sid]
        && sessions == old(sessions)[code := Disconnected(old(sessions)[code], sid, now)])
      ensures r.None? ==> sessions == old(sessions)
    {
      if code !in sessions || sid !in sessions[code].connectedUsers {
        return None;
      }
      var s := sessions[code];
      DisconnectedOk(code, s, sid, now);
      sessions := sessions[code := Disconnected(s, sid, now)];
      return Some(s.connectedUsers[sid]);
    }

    /** is_username_taken_by_other: some socket other than `sid` holds the name. */
    method IsUsernameTakenByOther(code: string, username: string, sid: string) returns (r: bool)
      ensures r <==> code in sessions && HeldByOther(sessions[code], username, sid)
    {
      if code !in sessions {
        return false;
      }
      var users := sessions[code].connectedUsers;
      var keys := users.Keys;
      while keys != {}
        invariant keys <= users.Keys
        invariant forall k :: k in users && k !in keys ==> !(users[k] == username && k != sid)
        decreases keys
      {
        var k :| k in keys;
        if users[k] == username && k != sid {
          return true;
        }
        keys := keys - {k};
      }
      return false;
    }

    /** can_reclaim_username: a disconnect record younger than five minutes. */
    function CanReclaimUsername(code: string, username: string, now: int): bool
      reads this
    {
      code in sessions && Reclaimable(sessions[code], username, now)
    }

    function GetUserSubmissionsCount(code: string, username: string): (n: nat)
      reads this
      ensures code in sessions ==> n <= |sessions[code].athletes|
    {
      if code in sessions then CountBy(sessions[code].athletes, username) else 0
    }

    function IsHost(code: string, username: string): bool
      reads this
    {
      code in sessions && sessions[code].hostUsername == Some(username)
    }

    /**
     * remove_user_by_username: the socket holding the name is unbound and
     * returned; failing that the disconnect record is dropped; None when
     * neither exists. A socket ID that is the empty string is falsy and is
     * treated as not found, but still returned.
     */
    method RemoveUserByUsername(code: string, username: string) returns (r: Option<string>)
      requires Valid()
      modifies this
      ensures Valid()
      ensures code !in old(sessions) ==> r == None && sessions == old(sessions)
      ensures code in old(sessions) ==>
        var s := old(sessions)[code];
        (Truthy(r) ==> (r.value in s.connectedUsers && s.connectedUsers[r.value] == username
           && sessions == old(sessions)[code := s.(connectedUsers := s.connectedUsers - {r.value})]))
        && ((exists k :: k in s.connectedUsers && s.connectedUsers[k] == username && k != "") ==> Truthy(r))
        && (!Truthy(r) && username in s.disconnectedUsers ==>
              (r.Some? <==> "" in s.connectedUsers && s.connectedUsers[""] == username)
              && sessions == old(sessions)[code := s.(disconnectedUsers := s.disconnectedUsers - {username})])
        && (!Truthy(r) && username !in s.disconnectedUsers ==> r == None && sessions == old(sessions))
    {
      if code !in sessions {
        return None;
      }
      var s := sessions[code];
      var target: Option<string> := None;
      var keys := s.connectedUsers.Keys;
      while keys != {}
        invariant keys <= s.connectedUsers.Keys
        invariant target.None? ==> forall k :: k in s.connectedUsers && k !in keys ==> s.connectedUsers[k] != username
        invariant target.Some? ==> target.value in s.connectedUsers && s.connectedUsers[target.value] == username
        decreases keys
      {
        var k :| k in keys;
        if s.connectedUsers[k] == username {
          target := Some(k);
          break;
        }
        keys := keys - {k};
      }
      if Truthy(target) {
        var s' := s.(connectedUsers := s.connectedUsers - {target.value});
        assert SessionOk(code, s') by {
          forall k | k in s'.connectedUsers ensures s'.connectedUsers[k] !in s'.disconnectedUsers {
            assert s'.connectedUsers[k] == s.connectedUsers[k];
          }
        }
        sessions := sessions[code := s'];
      } else if username in s.disconnectedUsers {
        sessions := sessions[code := s.(disconnectedUsers := s.disconnectedUsers - {username})];
      } else {
        return None;
      }
      return target;
    }

    /**
     * get_leaderboard: one entry per participant with its submission count,
     * by score descending then name, ranked from 1.
     */
    method GetLeaderboard(code: string) returns (board: seq<LeaderboardEntry>)
      ensures code !in sessions ==> board == []
      ensures code in sessions ==>
        var s := sessions[code];
        (forall u :: u in Participants(s) <==> exists i :: 0 <= i < |board| && board[i].username == u)
        && (forall i :: 0 <= i < |board| ==>
              board[i].score == CountBy(s.athletes, board[i].username) && board[i].rank == i + 1)
        && (forall i, j :: 0 <= i < j < |board| ==>
              KeyLt(-(board[i].score as int), board[i].username, -(board[j].score as int), board[j].username))
        && BoardScoreSum(board) == |s.athletes|
    {
      if code !in sessions {
        return [];
      }
      var s := sessions[code];
      var athletes := s.athletes;
      var names := SortByKey(Participants(s), u => -(CountBy(athletes, u) as int));
      StrictlyOrderedDistinct(names, u => -(CountBy(athletes, u) as int));
      board := RankBoard(names, athletes);
      forall i | 0 <= i < |athletes| ensures athletes[i].submittedBy in names {
        assert athletes[i].submittedBy in Participants(s);
      }
      ScoresSumToAthletes(names, athletes);
      forall u ensures u in Participants(s) <==> exists i :: 0 <= i < |board| && board[i].username == u {
        if u in Participants(s) {
          var i :| 0 <= i < |names| && names[i] == u;
          assert board[i].username == u;
        }
      }
    }

    /**
     * get_users_with_status: every connected name (connected) and every
     * disconnected name not also connected, with the host flag; host first,
     * then connected, then by name.
     */
    method GetUsersWithStatus(code: string) returns (users: seq<UserStatus>)
      ensures code !in sessions ==> users == []
      ensures code in sessions ==>
        var s := sessions[code];
        (forall u :: u in s.connectedUsers.Values + s.disconnectedUsers.Keys <==>
           exists i :: 0 <= i < |users| && users[i].username == u)
        && (forall i :: 0 <= i < |users| ==>
              users[i].isConnected == (users[i].username in s.connectedUsers.Values)
              && users[i].isHost == (s.hostUsername == Some(users[i].username)))
        && (forall i, j :: 0 <= i < j < |users| ==>
              KeyLt(StatusKey(users[i].isHost, users[i].isConnected), users[i].username,
                    StatusKey(users[j].isHost, users[j].isConnected), users[j].username))
    {
      if code !in sessions {
        return [];
      }
      var s := sessions[code];
      var connected := s.connectedUsers.Values;
      var host := s.hostUsername;
      var key := u => StatusKey(host == Some(u), u in connected);
      var names := SortByKey(connected + s.disconnectedUsers.Keys, key);
      users := [];
      for i := 0 to |names|
        invariant |users| == i
        invariant forall k :: 0 <= k < i ==> users[k] == UserStatus(names[k], names[k] in connected, host == Some(names[k]))
      {
        users := users + [UserStatus(names[i], names[i] in connected, host == Some(names[i]))];
      }
      forall u ensures u in connected + s.disconnectedUsers.Keys <==> exists i :: 0 <= i < |users| && users[i].username == u {
        if u in connected + s.disconnectedUsers.Keys {
          var i :| 0 <= i < |names| && names[i] == u;
          assert users[i].username == u;
        }
      }
    }

    method PauseSession(code: string, now: int) returns (r: Option<int>)
      requires Valid()
      modifies this
      ensures Valid()
      ensures code !in old(sessions) ==> r == None && sessions == old(sessions)
      ensures code in old(sessions) ==>
        (r, sessions) == (Paused(old(sessions)[code], now).0, old(sessions)[code := Paused(old(sessions)[code], now).1])
    {
      if code !in sessions {
        return None;
      }
      var s := sessions[code];
      if s.status != Active || s.isPaused {
        sessions := sessions[code := s];
        return None;
      }
      var remaining := s.endsAt.value - now;
      remaining := Max(remaining, 0);
      sessions := sessions[code := s.(isPaused := true, pausedAt := Some(now), timeRemainingAtPause := Some(remaining))];
      return Some(remaining);
    }

    method ResumeSession(code: string, now: int) returns (r: Option<int>)
      requires Valid()
      modifies this
      ensures Valid()
      ensures code !in old(sessions) ==> r == None && sessions == old(sessions)
      ensures code in old(sessions) ==>
        (r, sessions) == (Resumed(old(sessions)[code], now).0, old(sessions)[code := Resumed(old(sessions)[code], now).1])
    {
      if code !in sessions {
        return None;
      }
      var s := sessions[code];
      if s.status != Active || !s.isPaused {
        sessions := sessions[code := s];
        return None;
      }
      var remaining := s.timeRemainingAtPause.GetOr(0);
      var endsAt := now + remaining;
      sessions := sessions[code := s.(endsAt := Some(endsAt), isPaused := false, pausedAt := None, timeRemainingAtPause := None)];
      return Some(endsAt);
    }
  }

  /** The leaderboard rows for names already in order: each with its count and its 1-based position. */
  method RankBoard(names: seq<string>, athletes: seq<Athlete>) returns (board: seq<LeaderboardEntry>)
    ensures |board| == |names|
    ensures forall k :: 0 <= k < |names| ==> board[k] == LeaderboardEntry(names[k], CountBy(athletes, names[k]), k + 1)
    ensures BoardScoreSum(board) == SumCounts(names, athletes)
  {
    board := [];
    for i := 0 to |names|
      invariant |board| == i
      invariant forall k :: 0 <= k < i ==> board[k] == LeaderboardEntry(names[k], CountBy(athletes, names[k]), k + 1)
      invariant BoardScoreSum(board) == SumCounts(names[..i], athletes)
    {
      assert names[..i + 1][..i] == names[..i];
      assert (board + [LeaderboardEntry(names[i], CountBy(athletes, names[i]), i + 1)])[..i] == board;
      board := board + [LeaderboardEntry(names[i], CountBy(athletes, names[i]), i + 1)];
    }
    assert names[..|names|] == names;
  }

  /** Deletes, one by one, every socket bound to `username` (the stale-socket loop of add_connected_user). */
  method DropHolders(m: map<string, string>, username: string) returns (r: map<string, string>)
    ensures r == WithoutHolders(m, username)
  {
    r := m;
    var stale := set k | k in m && m[k] == username;
    while stale != {}
      invariant stale <= r.Keys
      invariant r.Keys == (set k | k in m && (m[k] != username || k in stale))
      invariant forall k :: k in r ==> r[k] == m[k]
      decreases stale
    {
      var k :| k in stale;
      r := r - {k};
      stale := stale - {k};
    }
  }

  /** `[eid for eid in ids if eid not in taken]`. */
  function FilterOut(ids: seq<string>, taken: set<string>): (r: seq<string>)
    ensures |r| <= |ids|
    ensures forall x :: x in r <==> x in ids && x !in taken
    decreases |ids|
  {
    if ids == [] then []
    else (if ids[0] in taken then [] else [ids[0]]) + FilterOut(ids[1..], taken)
  }

  /** The filter keeps input order: filtering a concatenation filters each part, in turn. */
  lemma {:induction false} FilterOutAppend(a: seq<string>, b: seq<string>, taken: set<string>)
    ensures FilterOut(a + b, taken) == FilterOut(a, taken) + FilterOut(b, taken)
    decreases |a|
  {
    if a == [] {
      assert a + b == b;
    } else {
      assert (a + b)[0] == a[0] && (a + b)[1..] == a[1..] + b;
      FilterOutAppend(a[1..], b, taken);
    }
  }

  lemma FilterOutEmpty(ids: seq<string>, taken: set<string>)
    ensures FilterOut(ids, taken) == [] <==> forall i :: 0 <= i < |ids| ==> ids[i] in taken
  {
    if FilterOut(ids, taken) != [] {
      var x := FilterOut(ids, taken)[0];
      assert x in FilterOut(ids, taken);
    }
  }

  /** Nothing is dropped from a list none of whose IDs is taken, and only taken ones are dropped. */
  lemma {:induction false} FilterOutKeepsOrder(ids: seq<string>, taken: set<string>)
    ensures (forall i :: 0 <= i < |ids| ==> ids[i] !in taken) ==> FilterOut(ids, taken) == ids
    ensures |FilterOut(ids, taken)| == |ids| ==> FilterOut(ids, taken) == ids
    decreases |ids|
  {
    if ids != [] {
      FilterOutKeepsOrder(ids[1..], taken);
      assert ids == [ids[0]] + ids[1..];
    }
  }
}
