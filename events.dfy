/**
 * The real-time handlers: sender verification, join admission, the athlete
 * submission pipeline (guards, disambiguation, duplicate check and commit)
 * and the host's pause / resume / end commands with their timer entries.
 *
 * Each handler is a method of `GameServer` that drives the session store;
 * each is proved equal to a function on the store's map, and the
 * properties are lemmas about those functions. The resolver's answer
 * (`validate_athlete_full`) is an input, either a result record or the fact
 * that it raised.
 */
module Events {
  import opened Common
  import opened Validation
  import opened SportsConfig
  import opened SessionManager

  // ---------------------------------------------------------------------------
  // sender verification and join

  /** verify_sender: the session exists and the socket is bound to the claimed name. */
  predicate SenderOk(sessions: map<string, Session>, code: string, sid: string, username: string) {
    code in sessions && sid in sessions[code].connectedUsers && sessions[code].connectedUsers[sid] == username
  }

  datatype JoinOutcome = Joined(reconnected: bool) | JoinRefused(message: string)

  /** handle_join_session on the session map. */
  function Join(sessions: map<string, Session>, sid: string, code: Option<string>, username: Option<string>, now: int)
    : (JoinOutcome, map<string, Session>)
  {
    if !Truthy(code) || !Truthy(username) then (JoinRefused("Missing code or username"), sessions)
    else if code.value !in sessions then (JoinRefused("Session not found"), sessions)
    else
      var s := sessions[code.value];
      if s.status == Completed then (JoinRefused("This session has ended"), sessions)
      else
        var reconnecting := Reclaimable(s, username.value, now);
        if !reconnecting && HeldByOther(s, username.value, sid) then (JoinRefused("Username already in use"), sessions)
        else (Joined(reconnecting), sessions[code.value := Connected(s, sid, username.value)])
  }

  /**
   * A join is admitted exactly for an open session whose name is free or
   * reclaimable; it then leaves the joining socket verified as that name and
   * no other socket verified as it. A refused join changes nothing.
   */
  lemma JoinAdmission(sessions: map<string, Session>, sid: string, code: Option<string>, username: Option<string>, now: int)
    ensures var (o, after) := Join(sessions, sid, code, username, now);
      (o.Joined? <==> Truthy(code) && Truthy(username) && code.value in sessions
                      && sessions[code.value].status != Completed
                      && (Reclaimable(sessions[code.value], username.value, now) || !HeldByOther(sessions[code.value], username.value, sid)))
      && (o.JoinRefused? ==> after == sessions)
      && (o.Joined? ==>
            o.reconnected == Reclaimable(sessions[code.value], username.value, now)
            && SenderOk(after, code.value, sid, username.value)
            && (forall k :: SenderOk(after, code.value, k, username.value) ==> k == sid)
            && (forall c :: c in sessions && c != code.value ==> c in after && after[c] == sessions[c]))
  {
    var (o, after) := Join(sessions, sid, code, username, now);
    if o.Joined? {
      ConnectBindsOnce(sessions[code.value], sid, username.value);
    }
  }

  // ---------------------------------------------------------------------------
  // submission

  datatype SubmitRequest = SubmitRequest(
    code: Option<string>, athleteName: Option<string>, sport: Option<string>,
    username: Option<string>, hint: Option<string>)

  /**
   * What a submission ends in: the athlete accepted, a `submission_error`
   * with its error code, or the request for a hint (`someSubmitted` tells
   * the two disambiguation messages apart).
   */
  datatype SubmitOutcome = Accepted(athlete: Athlete) | Refused(error: string) | NeedsHint(someSubmitted: bool)

  /** A submission that passed every guard, with the sanitised and normalised name. */
  datatype Admission = Admission(
    code: string, name: string, sport: string, sportDisplay: string, username: string, normalized: string)

  datatype GuardResult = Stopped(outcome: SubmitOutcome, after: map<string, Session>) | Passed(admission: Admission)

  /** add_rejected_submission on the session map. */
  function RecordRejection(sessions: map<string, Session>, code: string, r: RejectedSubmission): map<string, Session> {
    if code in sessions then sessions[code := WithRejection(sessions[code], r)] else sessions
  }

  predicate AllPresent(req: SubmitRequest) {
    Truthy(req.code) && Truthy(req.athleteName) && Truthy(req.sport) && Truthy(req.username)
  }

  /**
   * The guard chain at the head of handle_submit_athlete, in its order;
   * `sanitized` is what sanitize_athlete_name returned for the submitted
   * name, `normalize` is normalize_name.
   */
  function Guards(sessions: map<string, Session>, sportLabels: map<string, string>, sid: string, req: SubmitRequest,
                  sanitized: SanitizeResult, now: int, normalize: string -> string): (g: GuardResult)
    ensures g.Passed? ==>
      var a := g.admission;
      AllPresent(req) && a.code == req.code.value && a.username == req.username.value && a.sport == req.sport.value
      && SenderOk(sessions, a.code, sid, a.username) && a.sport in sportLabels
      && sessions[a.code].status == Active && !sessions[a.code].isPaused
      && sanitized.isValid && a.name == sanitized.sanitized && a.normalized == normalize(a.name)
    ensures g.Stopped? ==> g.outcome.Refused? && g.outcome.error != "session_not_found"
    ensures g.Stopped? && g.outcome.error != "invalid_input" ==> g.after == sessions
    ensures g.Stopped? && g.outcome.error == "invalid_input" ==>
      AllPresent(req) && req.code.value in sessions
      && g.after == RecordRejection(sessions, req.code.value,
           RejectedSubmission(req.athleteName.value, req.sport.value, req.username.value, "invalid_input", now))
  {
    if !AllPresent(req) then Stopped(Refused("missing_fields"), sessions)
    else
      var code, name, sport, username := req.code.value, req.athleteName.value, req.sport.value, req.username.value;
      if !SenderOk(sessions, code, sid, username) then Stopped(Refused("auth_failed"), sessions)
      else if sport !in sportLabels then Stopped(Refused("invalid_sport"), sessions)
      else
        var sportDisplay := OrElse(Some(sportLabels[sport]), sport);
        if !sanitized.isValid then
          Stopped(Refused("invalid_input"),
                  RecordRejection(sessions, code, RejectedSubmission(name, sport, username, "invalid_input", now)))
        else if code !in sessions then Stopped(Refused("session_not_found"), sessions)
        else if sessions[code].status != Active then Stopped(Refused("game_not_active"), sessions)
        else if sessions[code].isPaused then Stopped(Refused("game_paused"), sessions)
        else Passed(Admission(code, sanitized.sanitized, sport, sportDisplay, username,
                              normalize(sanitized.sanitized)))
  }

  /** With the sanitiser's own verdict, an admitted name is clean: letters, single spaces and `-'.,` only. */
  lemma AdmittedNameIsClean(sessions: map<string, Session>, sportLabels: map<string, string>, sid: string, req: SubmitRequest,
                            now: int, normalize: string -> string)
    ensures var sanitized := SanitizeAthleteName(req.athleteName.GetOr(""));
      var g := Guards(sessions, sportLabels, sid, req, sanitized, now, normalize);
      g.Passed? ==> CleanName(g.admission.name) && |g.admission.name| >= MinNameLength
  {
  }

  /** The guards as an ordered list of (holds, error to report otherwise). */
  function GuardChecks(sessions: map<string, Session>, sportLabels: map<string, string>, sid: string, req: SubmitRequest,
                       sanitized: SanitizeResult): seq<(bool, string)>
  {
    var code, sport, username := req.code.GetOr(""), req.sport.GetOr(""), req.username.GetOr("");
    [(AllPresent(req), "missing_fields"),
     (SenderOk(sessions, code, sid, username), "auth_failed"),
     (sport in sportLabels, "invalid_sport"),
     (sanitized.isValid, "invalid_input"),
     (code in sessions, "session_not_found"),
     (code in sessions && sessions[code].status == Active, "game_not_active"),
     (code in sessions && !sessions[code].isPaused, "game_paused")]
  }

  /** The error of the first check that fails, if any. */
  function FirstFailure(checks: seq<(bool, string)>): Option<string> {
    if checks == [] then None
    else if !checks[0].0 then Some(checks[0].1)
    else FirstFailure(checks[1..])
  }

  /** The guard chain reports exactly the first failing check, and passes when none fails. */
  lemma GuardsReportFirstFailure(sessions: map<string, Session>, sportLabels: map<string, string>, sid: string,
                                 req: SubmitRequest, sanitized: SanitizeResult, now: int, normalize: string -> string)
    ensures var g := Guards(sessions, sportLabels, sid, req, sanitized, now, normalize);
      var first := FirstFailure(GuardChecks(sessions, sportLabels, sid, req, sanitized));
      (g.Passed? <==> first.None?) && (g.Stopped? ==> g.outcome == Refused(first.value))
  {
    var c := GuardChecks(sessions, sportLabels, sid, req, sanitized);
    assert FirstFailure(c[7..]) == None;
    forall k | 0 <= k < 7
      ensures FirstFailure(c[k..]) == if !c[k].0 then Some(c[k].1) else FirstFailure(c[k + 1..])
    {
      assert c[k..][1..] == c[k + 1..];
    }
    assert c[0..] == c;
    assert |c| == 7;
    var g := Guards(sessions, sportLabels, sid, req, sanitized, now, normalize);
    assert FirstFailure(c) == None ==> c[0].0 && c[1].0 && c[2].0 && c[3].0 && c[4].0 && c[5].0 && c[6].0;
    assert c[0].0 && c[1].0 && c[2].0 && c[3].0 && c[4].0 && c[5].0 && c[6].0 ==> g.Passed?;
  }

  /** `error == "disambiguation_required" and multiple_matches`. */
  predicate Ambiguous(v: ValidationResult) {
    v.error == Some("disambiguation_required") && v.multipleMatches
  }

  /** A rejection record touches no athlete list and no other session. */
  lemma RecordRejectionKeepsAthletes(sessions: map<string, Session>, code: string, r: RejectedSubmission)
    ensures RecordRejection(sessions, code, r).Keys == sessions.Keys
    ensures forall c :: c in sessions ==> RecordRejection(sessions, code, r)[c].athletes == sessions[c].athletes
    ensures forall c :: c in sessions && c != code ==> RecordRejection(sessions, code, r)[c] == sessions[c]
  {
  }

  /** What the handler does when the lookup raises: the validation_failed rejection. */
  function Failed(sessions: map<string, Session>, a: Admission, now: int): (SubmitOutcome, map<string, Session>) {
    (Refused("validation_failed"),
     RecordRejection(sessions, a.code, RejectedSubmission(a.name, a.sport, a.username, "validation_failed", now)))
  }

  /** The three-way classification of an ambiguous result by its candidates still available. */
  function Disambiguate(sessions: map<string, Session>, a: Admission, v: ValidationResult, now: int)
    : (SubmitOutcome, map<string, Session>)
    requires a.code in sessions
  {
    var available := FilterOut(v.allMatchingIds, sessions[a.code].athleteEntityIds);
    if |available| == 0 then
      (Refused("duplicate"), RecordRejection(sessions, a.code, RejectedSubmission(a.name, a.sport, a.username, "duplicate", now)))
    else if |available| < |v.allMatchingIds| then (NeedsHint(true), sessions)
    else (NeedsHint(false), sessions)
  }

  /** The athlete an accepted submission stores: the canonical name when there is one. */
  function NewAthlete(a: Admission, v: ValidationResult, hint: Option<string>, now: int): Athlete {
    Athlete(OrElse(v.canonicalName, a.name), a.normalized, a.sport, Some(a.sportDisplay), a.username, now,
            true, v.entityId, hint, v.canonicalName)
  }

  /** The duplicate check of is_duplicate as the handler calls it, over the session's athletes. */
  predicate AlreadySubmitted(s: Session, a: Admission, v: ValidationResult) {
    if Truthy(v.entityId) then v.entityId.value in s.athleteEntityIds else a.normalized in s.athleteNames
  }

  /** The duplicate check, then the validity check, then the commit: one atomic step. */
  function Commit(sessions: map<string, Session>, a: Admission, v: ValidationResult, hint: Option<string>, now: int)
    : (SubmitOutcome, map<string, Session>)
    requires a.code in sessions
  {
    var s := sessions[a.code];
    if AlreadySubmitted(s, a, v) then
      (Refused("duplicate"), RecordRejection(sessions, a.code, RejectedSubmission(a.name, a.sport, a.username, "duplicate", now)))
    else if !v.isValid then
      var reason := OrElse(v.error, "unknown");
      (Refused(reason), RecordRejection(sessions, a.code, RejectedSubmission(a.name, a.sport, a.username, reason, now)))
    else
      var athlete := NewAthlete(a, v, hint, now);
      (Accepted(athlete), sessions[a.code := WithAthlete(s, athlete)])
  }

  /**
   * handle_submit_athlete with the duplicate check and the commit as one
   * atomic step, which is what the per-session lock is there to give.
   */
  function Submit(sessions: map<string, Session>, sportLabels: map<string, string>, sid: string, req: SubmitRequest,
                  sanitized: SanitizeResult, now: int, resolution: Fallible<ValidationResult>, normalize: string -> string)
    : (SubmitOutcome, map<string, Session>)
  {
    match Guards(sessions, sportLabels, sid, req, sanitized, now, normalize)
    case Stopped(o, after) => (o, after)
    case Passed(a) => Resolve(sessions, a, resolution, req.hint, now)
  }

  /** What follows the guards: the lookup's outcome decides between the rejection, disambiguation and the commit. */
  function Resolve(sessions: map<string, Session>, a: Admission, resolution: Fallible<ValidationResult>,
                   hint: Option<string>, now: int): (SubmitOutcome, map<string, Session>)
    requires a.code in sessions
  {
    match resolution
    case Raised => Failed(sessions, a, now)
    case Returned(v) =>
      if Ambiguous(v) then Disambiguate(sessions, a, v, now) else Commit(sessions, a, v, hint, now)
  }

  /**
   * handle_submit_athlete as written: the lock is fetched with
   * `sm.get_session_lock`, which the session manager does not define, so the
   * lookup raises inside the `try` and every submission that reaches it ends
   * in the validation_failed rejection.
   */
  function SubmitAsWritten(sessions: map<string, Session>, sportLabels: map<string, string>, sid: string, req: SubmitRequest,
                           sanitized: SanitizeResult, now: int, resolution: Fallible<ValidationResult>, normalize: string -> string)
    : (SubmitOutcome, map<string, Session>)
  {
    match Guards(sessions, sportLabels, sid, req, sanitized, now, normalize)
    case Stopped(o, after) => (o, after)
    case Passed(a) =>
      match resolution
      case Raised => Failed(sessions, a, now)
      case Returned(v) =>
        if Ambiguous(v) then Disambiguate(sessions, a, v, now) else Failed(sessions, a, now)
  }

  /** As written, no submission is ever accepted and no athlete list ever grows. */
  lemma AsWrittenNeverAccepts(sessions: map<string, Session>, sportLabels: map<string, string>, sid: string, req: SubmitRequest,
                              sanitized: SanitizeResult, now: int, resolution: Fallible<ValidationResult>, normalize: string -> string)
    ensures var (o, after) := SubmitAsWritten(sessions, sportLabels, sid, req, sanitized, now, resolution, normalize);
      !o.Accepted? && after.Keys == sessions.Keys
      && forall c :: c in sessions ==> after[c].athletes == sessions[c].athletes
  {
    var g := Guards(sessions, sportLabels, sid, req, sanitized, now, normalize);
    if g.Stopped? {
      if g.outcome.error == "invalid_input" {
        RecordRejectionKeepsAthletes(sessions, req.code.value,
          RejectedSubmission(req.athleteName.value, req.sport.value, req.username.value, "invalid_input", now));
      }
    } else {
      var a := g.admission;
      RecordRejectionKeepsAthletes(sessions, a.code, RejectedSubmission(a.name, a.sport, a.username, "validation_failed", now));
      RecordRejectionKeepsAthletes(sessions, a.code, RejectedSubmission(a.name, a.sport, a.username, "duplicate", now));
    }
  }

  /**
   * The discrepancy: a valid, unambiguous, not yet submitted athlete from an
   * admitted request is accepted by the atomic commit, but rejected as
   * validation_failed by the program as written.
   */
  lemma AsWrittenRejectsFreshValidAthlete(sessions: map<string, Session>, sportLabels: map<string, string>, sid: string,
                                          req: SubmitRequest, sanitized: SanitizeResult, now: int, v: ValidationResult,
                                          normalize: string -> string)
    requires Guards(sessions, sportLabels, sid, req, sanitized, now, normalize).Passed?
    requires v.isValid && !Ambiguous(v)
    requires !AlreadySubmitted(sessions[req.code.value], Guards(sessions, sportLabels, sid, req, sanitized, now, normalize).admission, v)
    ensures Submit(sessions, sportLabels, sid, req, sanitized, now, Returned(v), normalize).0.Accepted?
    ensures SubmitAsWritten(sessions, sportLabels, sid, req, sanitized, now, Returned(v), normalize).0 == Refused("validation_failed")
  {
  }

  /**
   * The ambiguous case: with every candidate already taken it is a
   * duplicate (one record appended); otherwise a hint is asked for, saying
   * whether some were taken, and nothing changes.
   */
  lemma DisambiguationClassified(sessions: map<string, Session>, a: Admission, v: ValidationResult, now: int)
    requires a.code in sessions
    ensures var (o, after) := Disambiguate(sessions, a, v, now);
      var ids, taken := v.allMatchingIds, sessions[a.code].athleteEntityIds;
      (o == Refused("duplicate") <==> forall i :: 0 <= i < |ids| ==> ids[i] in taken)
      && (o == NeedsHint(true) <==> (exists i :: 0 <= i < |ids| && ids[i] in taken) && (exists i :: 0 <= i < |ids| && ids[i] !in taken))
      && (o == NeedsHint(false) <==> ids != [] && forall i :: 0 <= i < |ids| ==> ids[i] !in taken)
      && (o.NeedsHint? ==> after == sessions)
      && (o.Refused? ==> after == RecordRejection(sessions, a.code, RejectedSubmission(a.name, a.sport, a.username, "duplicate", now)))
  {
    var ids, taken := v.allMatchingIds, sessions[a.code].athleteEntityIds;
    FilterOutEmpty(ids, taken);
    FilterOutKeepsOrder(ids, taken);
    if exists i :: 0 <= i < |ids| && ids[i] in taken {
      var i :| 0 <= i < |ids| && ids[i] in taken;
      FilterOutDrops(ids, taken, i);
    }
  }

  /** Dropping an ID that is taken makes the filtered list shorter. */
  lemma {:induction false} FilterOutDrops(ids: seq<string>, taken: set<string>, i: nat)
    requires i < |ids| && ids[i] in taken
    ensures |FilterOut(ids, taken)| < |ids|
    decreases |ids|
  {
    if i > 0 {
      FilterOutDrops(ids[1..], taken, i - 1);
    }
  }

  /**
   * The commit step over a consistent session: a duplicate (by entity ID
   * when the result has one, by normalised name otherwise) is rejected as
   * such before validity is looked at; a fresh invalid result is rejected
   * with its error or "unknown"; a fresh valid one appends exactly the new
   * athlete, named by the canonical label when there is one.
   */
  lemma CommitDecides(sessions: map<string, Session>, a: Admission, v: ValidationResult, hint: Option<string>, now: int)
    requires a.code in sessions && SessionOk(a.code, sessions[a.code])
    ensures var (o, after) := Commit(sessions, a, v, hint, now);
      var athletes := sessions[a.code].athletes;
      var taken := if Truthy(v.entityId)
        then exists i :: 0 <= i < |athletes| && Truthy(athletes[i].entityId) && athletes[i].entityId == v.entityId
        else exists i :: 0 <= i < |athletes| && athletes[i].normalizedName == a.normalized;
      (taken ==> (o == Refused("duplicate")
         && after == RecordRejection(sessions, a.code, RejectedSubmission(a.name, a.sport, a.username, "duplicate", now))))
      && (!taken && !v.isValid ==> (o == Refused(OrElse(v.error, "unknown"))
         && after == RecordRejection(sessions, a.code, RejectedSubmission(a.name, a.sport, a.username, OrElse(v.error, "unknown"), now))))
      && (o.Accepted? <==> !taken && v.isValid)
      && (o.Accepted? ==>
            o.athlete.name == (if Truthy(v.canonicalName) then v.canonicalName.value else a.name)
            && o.athlete.validated && o.athlete.entityId == v.entityId && o.athlete.submittedBy == a.username
            && o.athlete.normalizedName == a.normalized
            && after == sessions[a.code := WithAthlete(sessions[a.code], o.athlete)])
  {
    EntityIdsExact(sessions[a.code].athletes);
    NormalizedNamesExact(sessions[a.code].athletes);
  }

  /** No two athletes of a session share a (non-empty) entity ID. */
  predicate DistinctEntities(athletes: seq<Athlete>) {
    forall i, j :: 0 <= i < j < |athletes| && Truthy(athletes[i].entityId) && Truthy(athletes[j].entityId) ==>
      athletes[i].entityId != athletes[j].entityId
  }

  predicate StoreOk(sessions: map<string, Session>) {
    forall c :: c in sessions ==> SessionOk(c, sessions[c]) && DistinctEntities(sessions[c].athletes)
  }

  lemma RecordRejectionOk(sessions: map<string, Session>, code: string, r: RejectedSubmission)
    requires StoreOk(sessions)
    ensures StoreOk(RecordRejection(sessions, code, r))
  {
    RecordRejectionKeepsAthletes(sessions, code, r);
  }

  lemma AcceptKeepsDistinct(sessions: map<string, Session>, a: Admission, v: ValidationResult, hint: Option<string>, now: int)
    requires StoreOk(sessions) && a.code in sessions
    requires !AlreadySubmitted(sessions[a.code], a, v)
    ensures StoreOk(sessions[a.code := WithAthlete(sessions[a.code], NewAthlete(a, v, hint, now))])
  {
    var s := sessions[a.code];
    var athlete := NewAthlete(a, v, hint, now);
    WithAthleteOk(a.code, s, athlete);
    EntityIdsExact(s.athletes);
    var xs := s.athletes + [athlete];
    forall i, j | 0 <= i < j < |xs| && Truthy(xs[i].entityId) && Truthy(xs[j].entityId)
      ensures xs[i].entityId != xs[j].entityId
    {
      if j == |s.athletes| {
        assert xs[i] == s.athletes[i];
      } else {
        assert xs[i] == s.athletes[i] && xs[j] == s.athletes[j];
      }
    }
  }

  /**
   * A submission keeps every session consistent and never lets two athletes
   * share an entity ID; only an acceptance grows an athlete list, by exactly
   * the accepted athlete, and a hint request changes nothing.
   */
  lemma SubmitKeepsStore(sessions: map<string, Session>, sportLabels: map<string, string>, sid: string, req: SubmitRequest,
                         sanitized: SanitizeResult, now: int, resolution: Fallible<ValidationResult>, normalize: string -> string)
    requires StoreOk(sessions)
    ensures var (o, after) := Submit(sessions, sportLabels, sid, req, sanitized, now, resolution, normalize);
      StoreOk(after) && after.Keys == sessions.Keys
      && (o.NeedsHint? ==> after == sessions)
      && (!o.Accepted? ==> forall c :: c in sessions ==> after[c].athletes == sessions[c].athletes)
      && (o.Accepted? ==> AllPresent(req) && after == sessions[req.code.value := WithAthlete(sessions[req.code.value], o.athlete)])
  {
    var g := Guards(sessions, sportLabels, sid, req, sanitized, now, normalize);
    if g.Stopped? {
      if g.outcome.error == "invalid_input" {
        RecordRejectionOk(sessions, req.code.value,
          RejectedSubmission(req.athleteName.value, req.sport.value, req.username.value, "invalid_input", now));
      }
    } else {
      ResolveKeepsStore(sessions, g.admission, resolution, req.hint, now);
    }
  }

  /** The steps after the guards keep the store consistent; only an acceptance adds, and only its athlete. */
  lemma ResolveKeepsStore(sessions: map<string, Session>, a: Admission, resolution: Fallible<ValidationResult>,
                          hint: Option<string>, now: int)
    requires StoreOk(sessions) && a.code in sessions
    ensures var (o, after) := Resolve(sessions, a, resolution, hint, now);
      StoreOk(after) && after.Keys == sessions.Keys
      && (o.NeedsHint? ==> after == sessions)
      && (!o.Accepted? ==> forall c :: c in sessions ==> after[c].athletes == sessions[c].athletes)
      && (o.Accepted? ==> after == sessions[a.code := WithAthlete(sessions[a.code], o.athlete)])
  {
    match resolution
    case Raised =>
      RecordRejectionOk(sessions, a.code, RejectedSubmission(a.name, a.sport, a.username, "validation_failed", now));
    case Returned(v) =>
      if Ambiguous(v) {
        RecordRejectionOk(sessions, a.code, RejectedSubmission(a.name, a.sport, a.username, "duplicate", now));
      } else if AlreadySubmitted(sessions[a.code], a, v) {
        RecordRejectionOk(sessions, a.code, RejectedSubmission(a.name, a.sport, a.username, "duplicate", now));
      } else if !v.isValid {
        RecordRejectionOk(sessions, a.code, RejectedSubmission(a.name, a.sport, a.username, OrElse(v.error, "unknown"), now));
      } else {
        AcceptKeepsDistinct(sessions, a, v, hint, now);
      }
  }

  // ---------------------------------------------------------------------------
  // host commands and the end of the game

  datatype CommandOutcome = Done | CommandRefused(message: string)

  /** The sender is present, verified, and the session's host. */
  predicate VerifiedHost(sessions: map<string, Session>, sid: string, code: Option<string>, username: Option<string>) {
    Truthy(code) && Truthy(username) && SenderOk(sessions, code.value, sid, username.value)
    && sessions[code.value].hostUsername == Some(username.value)
  }

  /** The three checks every host command makes, with the refusal each gives. */
  function HostGuard(sessions: map<string, Session>, sid: string, code: Option<string>, username: Option<string>, notHost: string)
    : (r: Option<string>)
    ensures r.None? <==> VerifiedHost(sessions, sid, code, username)
  {
    if !Truthy(code) || !Truthy(username) then Some("Missing code or username")
    else if !SenderOk(sessions, code.value, sid, username.value) then Some("Authentication failed")
    else if !(code.value in sessions && sessions[code.value].hostUsername == Some(username.value)) then
      Some(notHost)
    else None
  }

  /** end_game: a no-op for a missing or completed session; otherwise completed, and its timer entry gone. */
  function EndGame(sessions: map<string, Session>, timers: set<string>, code: string): (map<string, Session>, set<string>) {
    if code !in sessions || sessions[code].status == Completed then (sessions, timers)
    else (sessions[code := Ended(sessions[code])], timers - {code})
  }

  /** Ending is idempotent, and an ended session is completed with no timer. */
  lemma EndGameIdempotent(sessions: map<string, Session>, timers: set<string>, code: string)
    ensures var (s1, t1) := EndGame(sessions, timers, code);
      EndGame(s1, t1, code) == (s1, t1)
      && (code in sessions ==> code in s1 && s1[code].status == Completed && (sessions[code].status != Completed ==> code !in t1))
      && (code !in sessions ==> (s1, t1) == (sessions, timers))
  {
  }

  /** handle_pause_game. */
  function PauseGame(sessions: map<string, Session>, timers: set<string>, sid: string, code: Option<string>,
                     username: Option<string>, now: int): (CommandOutcome, map<string, Session>, set<string>)
    requires forall c :: c in sessions ==> SessionOk(c, sessions[c])
  {
    var refusal := HostGuard(sessions, sid, code, username, "Only the host can pause the game");
    if refusal.Some? then (CommandRefused(refusal.value), sessions, timers)
    else
      assert SessionOk(code.value, sessions[code.value]);
      var (remaining, s) := Paused(sessions[code.value], now);
      if remaining.None? then (CommandRefused("Cannot pause game (not active or already paused)"), sessions, timers)
      else (Done, sessions[code.value := s], timers - {code.value})
  }

  /** handle_resume_game. */
  function ResumeGame(sessions: map<string, Session>, timers: set<string>, sid: string, code: Option<string>,
                      username: Option<string>, now: int): (CommandOutcome, map<string, Session>, set<string>)
  {
    var refusal := HostGuard(sessions, sid, code, username, "Only the host can resume the game");
    if refusal.Some? then (CommandRefused(refusal.value), sessions, timers)
    else
      var (endsAt, s) := Resumed(sessions[code.value], now);
      if endsAt.None? then (CommandRefused("Cannot resume game (not active or not paused)"), sessions, timers)
      else (Done, sessions[code.value := s], timers + {code.value})
  }

  /** handle_end_game_early. */
  function EndGameEarly(sessions: map<string, Session>, timers: set<string>, sid: string, code: Option<string>,
                        username: Option<string>): (CommandOutcome, map<string, Session>, set<string>)
  {
    var refusal := HostGuard(sessions, sid, code, username, "Only the host can end the game");
    if refusal.Some? then (CommandRefused(refusal.value), sessions, timers)
    else if sessions[code.value].status != Active then (CommandRefused("Game is not active"), sessions, timers)
    else
      var (s, t) := EndGame(sessions, timers, code.value);
      (Done, s, t)
  }

  /** pause_game: refused with nothing changed, or the host pauses an active running game and its timer stops. */
  lemma PauseGameEffects(sessions: map<string, Session>, timers: set<string>, sid: string, code: Option<string>,
                         username: Option<string>, now: int)
    requires forall c :: c in sessions ==> SessionOk(c, sessions[c])
    ensures var (o, s, t) := PauseGame(sessions, timers, sid, code, username, now);
      (o.CommandRefused? ==> s == sessions && t == timers)
      && (o == Done <==> VerifiedHost(sessions, sid, code, username)
                         && sessions[code.value].status == Active && !sessions[code.value].isPaused)
      && (o == Done ==> code.value !in t && t == timers - {code.value}
                        && s[code.value].isPaused
                        && s[code.value].timeRemainingAtPause == Some(Max(sessions[code.value].endsAt.value - now, 0)))
  {
  }

  /** resume_game: refused with nothing changed, or the host resumes a paused game with its remaining time. */
  lemma ResumeGameEffects(sessions: map<string, Session>, timers: set<string>, sid: string, code: Option<string>,
                          username: Option<string>, now: int)
    requires forall c :: c in sessions ==> SessionOk(c, sessions[c])
    ensures var (o, s, t) := ResumeGame(sessions, timers, sid, code, username, now);
      (o.CommandRefused? ==> s == sessions && t == timers)
      && (o == Done <==> VerifiedHost(sessions, sid, code, username)
                         && sessions[code.value].status == Active && sessions[code.value].isPaused)
      && (o == Done ==> t == timers + {code.value} && !s[code.value].isPaused
                        && sessions[code.value].timeRemainingAtPause.Some?
                        && s[code.value].endsAt == Some(now + sessions[code.value].timeRemainingAtPause.value))
  {
  }

  /** end_game_early: refused with nothing changed, or the host ends an active game and its timer stops. */
  lemma EndGameEarlyEffects(sessions: map<string, Session>, timers: set<string>, sid: string, code: Option<string>,
                            username: Option<string>)
    ensures var (o, s, t) := EndGameEarly(sessions, timers, sid, code, username);
      (o.CommandRefused? ==> s == sessions && t == timers)
      && (o == Done <==> VerifiedHost(sessions, sid, code, username) && sessions[code.value].status == Active)
      && (o == Done ==> s[code.value].status == Completed && code.value !in t)
  {
  }

  // ---------------------------------------------------------------------------
  // the server

  /** The handlers' shared state: the session store, the sport catalogue, and the running timers by code. */
  class GameServer {
    const store: SessionStore
    const cache: SportsCache
    var timerTasks: set<string>

    ghost predicate Valid()
      reads this, store, cache
    {
      store.Valid() && cache.Valid()
    }

    constructor(store: SessionStore, cache: SportsCache)
      requires store.Valid() && cache.Valid()
      ensures Valid() && this.store == store && this.cache == cache && timerTasks == {}
    {
      this.store := store;
      this.cache := cache;
      timerTasks := {};
    }

    predicate VerifySender(code: string, sid: string, username: string)
      reads store
    {
      SenderOk(store.sessions, code, sid, username)
    }

    method HandleJoinSession(sid: string, code: Option<string>, username: Option<string>, now: int)
      returns (out: JoinOutcome)
      requires Valid()
      modifies store
      ensures Valid()
      ensures (out, store.sessions) == Join(old(store.sessions), sid, code, username, now)
    {
      if !Truthy(code) || !Truthy(username) {
        return JoinRefused("Missing code or username");
      }
      var c, u := code.value, username.value;
      if c !in store.sessions {
        return JoinRefused("Session not found");
      }
      if store.sessions[c].status == Completed {
        return JoinRefused("This session has ended");
      }
      var reconnecting := store.CanReclaimUsername(c, u, now);
      if !reconnecting {
        var taken := store.IsUsernameTakenByOther(c, u, sid);
        if taken {
          return JoinRefused("Username already in use");
        }
      }
      var _ := store.AddConnectedUser(c, sid, u);
      return Joined(reconnecting);
    }

    method HandleSubmitAthlete(sid: string, req: SubmitRequest, now: int, resolution: Fallible<ValidationResult>,
                               translit: string -> string) returns (out: SubmitOutcome)
      requires Valid()
      modifies store
      ensures Valid()
      ensures (out, store.sessions) ==
        Submit(old(store.sessions), cache.qidToLabel, sid, req, SanitizeAthleteName(req.athleteName.GetOr("")), now,
               resolution, n => NormalizeName(n, translit))
    {
      var stop, a := CheckSubmission(sid, req, now, translit);
      if stop.Some? {
        return stop.value;
      }
      if resolution.Raised? {
        var _ := store.AddRejectedSubmission(a.code, a.name, a.sport, a.username, "validation_failed", now);
        return Refused("validation_failed");
      }
      out := ResolveSubmission(a, resolution.value, req.hint, now);
    }

    /** The guard chain of handle_submit_athlete, up to the normalised name. */
    method CheckSubmission(sid: string, req: SubmitRequest, now: int, translit: string -> string)
      returns (stop: Option<SubmitOutcome>, a: Admission)
      requires Valid()
      modifies store
      ensures Valid()
      ensures var g := Guards(old(store.sessions), cache.qidToLabel, sid, req, SanitizeAthleteName(req.athleteName.GetOr("")),
                              now, n => NormalizeName(n, translit));
        (stop.Some? ==> g.Stopped? && g.outcome == stop.value && store.sessions == g.after)
        && (stop.None? ==> g == Passed(a) && store.sessions == old(store.sessions))
    {
      a := Admission("", "", "", "", "", "");
      if !AllPresent(req) {
        return Some(Refused("missing_fields")), a;
      }
      var code, name, sport, username := req.code.value, req.athleteName.value, req.sport.value, req.username.value;
      if !VerifySender(code, sid, username) {
        return Some(Refused("auth_failed")), a;
      }
      if !cache.IsValidSportQid(sport) {
        return Some(Refused("invalid_sport")), a;
      }
      var sportDisplay := OrElse(cache.GetSportLabel(sport), sport);
      var sanitized := SanitizeAthleteName(name);
      if !sanitized.isValid {
        var _ := store.AddRejectedSubmission(code, name, sport, username, "invalid_input", now);
        return Some(Refused("invalid_input")), a;
      }
      name := sanitized.sanitized;
      if code !in store.sessions {
        return Some(Refused("session_not_found")), a;
      }
      if store.sessions[code].status != Active {
        return Some(Refused("game_not_active")), a;
      }
      if store.sessions[code].isPaused {
        return Some(Refused("game_paused")), a;
      }
      var normalized := NormalizeName(name, translit);
      a := Admission(code, name, sport, sportDisplay, username, normalized);
      stop := None;
    }

    /** The rest of the `try` block: disambiguation, then the duplicate check and the commit as one step. */
    method ResolveSubmission(a: Admission, v: ValidationResult, hint: Option<string>, now: int) returns (out: SubmitOutcome)
      requires Valid() && a.code in store.sessions
      modifies store
      ensures Valid()
      ensures (out, store.sessions) == if Ambiguous(v) then Disambiguate(old(store.sessions), a, v, now)
                                       else Commit(old(store.sessions), a, v, hint, now)
    {
      if v.error == Some("disambiguation_required") && v.multipleMatches {
        var available := store.GetNonDuplicateEntityIds(a.code, v.allMatchingIds);
        if |available| == 0 {
          var _ := store.AddRejectedSubmission(a.code, a.name, a.sport, a.username, "duplicate", now);
          return Refused("duplicate");
        } else if |available| < |v.allMatchingIds| {
          return NeedsHint(true);
        } else {
          return NeedsHint(false);
        }
      }
      if Truthy(v.entityId) && store.IsDuplicate(a.code, a.normalized, v.entityId) {
        var _ := store.AddRejectedSubmission(a.code, a.name, a.sport, a.username, "duplicate", now);
        return Refused("duplicate");
      }
      if !Truthy(v.entityId) && store.IsDuplicate(a.code, a.normalized, None) {
        var _ := store.AddRejectedSubmission(a.code, a.name, a.sport, a.username, "duplicate", now);
        return Refused("duplicate");
      }
      if !v.isValid {
        var reason := OrElse(v.error, "unknown");
        var _ := store.AddRejectedSubmission(a.code, a.name, a.sport, a.username, reason, now);
        return Refused(reason);
      }
      var athlete := Athlete(if Truthy(v.canonicalName) then v.canonicalName.value else a.name, a.normalized, a.sport,
                             Some(a.sportDisplay), a.username, now, true, v.entityId, hint, v.canonicalName);
      var _ := store.AddAthlete(a.code, athlete);
      return Accepted(athlete);
    }

    method EndGameNow(code: string)
      requires Valid()
      modifies this, store
      ensures Valid()
      ensures (store.sessions, timerTasks) == EndGame(old(store.sessions), old(timerTasks), code)
    {
      if code !in store.sessions || store.sessions[code].status == Completed {
        return;
      }
      var _ := store.EndSession(code);
      if code in timerTasks {
        timerTasks := timerTasks - {code};
      } else {
        assert timerTasks == timerTasks - {code};
      }
    }

    method HandlePauseGame(sid: string, code: Option<string>, username: Option<string>, now: int)
      returns (out: CommandOutcome)
      requires Valid()
      modifies this, store
      ensures Valid()
      ensures (out, store.sessions, timerTasks) == PauseGame(old(store.sessions), old(timerTasks), sid, code, username, now)
    {
      if !Truthy(code) || !Truthy(username) {
        return CommandRefused("Missing code or username");
      }
      if !VerifySender(code.value, sid, username.value) {
        return CommandRefused("Authentication failed");
      }
      if !store.IsHost(code.value, username.value) {
        return CommandRefused("Only the host can pause the game");
      }
      var remaining := store.PauseSession(code.value, now);
      if remaining.None? {
        assert store.sessions == old(store.sessions);
        return CommandRefused("Cannot pause game (not active or already paused)");
      }
      if code.value in timerTasks {
        timerTasks := timerTasks - {code.value};
      } else {
        assert timerTasks == timerTasks - {code.value};
      }
      return Done;
    }

    method HandleResumeGame(sid: string, code: Option<string>, username: Option<string>, now: int)
      returns (out: CommandOutcome)
      requires Valid()
      modifies this, store
      ensures Valid()
      ensures (out, store.sessions, timerTasks) == ResumeGame(old(store.sessions), old(timerTasks), sid, code, username, now)
    {
      if !Truthy(code) || !Truthy(username) {
        return CommandRefused("Missing code or username");
      }
      if !VerifySender(code.value, sid, username.value) {
        return CommandRefused("Authentication failed");
      }
      if !store.IsHost(code.value, username.value) {
        return CommandRefused("Only the host can resume the game");
      }
      var endsAt := store.ResumeSession(code.value, now);
      if endsAt.None? {
        assert store.sessions == old(store.sessions);
        return CommandRefused("Cannot resume game (not active or not paused)");
      }
      timerTasks := timerTasks + {code.value};
      return Done;
    }

    method HandleEndGameEarly(sid: string, code: Option<string>, username: Option<string>)
      returns (out: CommandOutcome)
      requires Valid()
      modifies this, store
      ensures Valid()
      ensures (out, store.sessions, timerTasks) == EndGameEarly(old(store.sessions), old(timerTasks), sid, code, username)
    {
      if !Truthy(code) || !Truthy(username) {
        return CommandRefused("Missing code or username");
      }
      if !VerifySender(code.value, sid, username.value) {
        return CommandRefused("Authentication failed");
      }
      if !store.IsHost(code.value, username.value) {
        return CommandRefused("Only the host can end the game");
      }
      if code.value !in store.sessions || store.sessions[code.value].status != Active {
        return CommandRefused("Game is not active");
      }
      EndGameNow(code.value);
      return Done;
    }
  }
}
