# Athletes 2000 Challenge: session engine model

This project models the in-memory engine of the "Athletes 2000 Challenge"
game server in Dafny. Players join a timed session and submit athlete names
for a sport. Each name is sanitized and normalised, then resolved against
Wikidata to an entity. It is accepted unless that entity, or when there is
no entity the normalised name, was already submitted in the session.

The model has six modules:

- `Common`: Python's `Optional` and its truthiness.
- `Text`: the string operations the source relies on: `str.lower`,
  `str.strip`, `str.split`, `" ".join`, substring and string order.
- `Validation`: the pure parts of `backend/validation.py`:
  - name sanitisation;
  - `normalize_name`;
  - the containment shortcut of the similarity check;
  - candidate selection with hint narrowing;
  - the outcome mapping of `validate_athlete_full`.
- `SportsConfig`: the sport catalogue of `backend/sports_config.py`:
  - parsing the SPARQL bindings;
  - merging lists, where the first occurrence of a Q-ID wins, then sorting by label;
  - the display-name overrides and the two lookup indices;
  - a `SportsCache` class holding the catalogue.
- `SessionManager`: the session store of `backend/session_manager.py`.
  - It is a `SessionStore` class whose `sessions` field is a
    `map<string, Session>` that its methods reassign.
  - Each state change is tied to a transition function on `Session`
    (`Started`, `WithAthlete`, `Connected`, `Disconnected`, `Paused`,
    `Resumed`, ...).
  - The store keeps the invariant `SessionOk`. The duplicate sets equal the
    names and the non-empty entity IDs of the accepted athletes. An active
    game has a deadline, and a paused one has a remaining time. At most one
    socket holds each name, and a connected name has no disconnect record.
- `Events`: the Socket.IO handlers of `backend/events.py` as methods of a
  `GameServer` class.
  - The class holds the store, the sport cache and the set of codes with a
    running timer task.
  - Each handler is proved equal to a specification function on the session
    map: `Join`, `Submit`, `PauseGame`, `ResumeGame`, `EndGameEarly` and
    `EndGame`.
  - The properties are lemmas about those functions. They cover the guard
    order, the three-way disambiguation classification, the duplicate check
    before commit, and timer bookkeeping.

Several things enter the model as parameters:

- Time is an integer number of seconds `now`.
- The outcomes of network calls are parameters: Wikidata search results,
  SPARQL verification, entity labels and the resolver's eight-field tuple.
  `Fallible` says whether such a call raised.
- Transliteration (`unidecode`) and `partial_ratio` are function parameters.
- The random draws of `generate_session_code` are a sequence parameter.

## Model

| member | source | states |
|---|---|---|
| Text.Lower | backend/validation.py:88 | `str.lower` keeps the length and maps each character on its own (ASCII and Latin-1 letters) |
| Text.LowerCharIdempotent | backend/validation.py:88 | lowering a character twice is lowering it once, and lowering never turns a space into a non-space or back |
| Text.DropSpaces | backend/validation.py:45 | leading-whitespace removal returns a suffix of the input that does not start with whitespace |
| Text.DropTrailingSpaces | backend/validation.py:45 | trailing-whitespace removal returns a prefix of the input that does not end with whitespace |
| Text.WordLength | backend/validation.py:89 | the first word of `str.split()` runs up to, and not including, the first whitespace |
| Text.WordsAreWords | backend/validation.py:89 | every piece `str.split()` returns is non-empty and free of whitespace |
| Text.WordsKeepChars | backend/validation.py:89 | splitting introduces no character that was not in the input |
| Text.JoinShape | backend/validation.py:89 | `" ".join` of whitespace-free words is single-spaced, starts with the first word and does not end with a space |
| Text.JoinKeepChars | backend/validation.py:89 | joining with single spaces adds only spaces |
| Text.CollapseShape | backend/validation.py:75 | `" ".join(s.split())` has no leading, trailing or repeated whitespace, and every whitespace left is a plain space |
| Text.CollapseKeepChars | backend/validation.py:75 | collapsing whitespace keeps every character class that admits a space |
| Text.CollapseFixpoint | backend/validation.py:89 | collapsing an already single-spaced string returns it unchanged |
| Text.StripSingleSpaced | backend/validation.py:88 | stripping a single-spaced string returns it unchanged |
| Text.SubstringOfSelf | backend/validation.py:117 | a string contains itself, so equal normalised names also pass the containment test |
| Text.StrLtIrreflexive | backend/session_manager.py:312 | Python's string order used in the sort keys is irreflexive |
| Text.StrLtTransitive | backend/session_manager.py:312 | that order is transitive |
| Text.StrLtTotal | backend/session_manager.py:312 | that order is total on distinct strings, so the sort keys order every pair of distinct users |
| Validation.FilterChars | backend/validation.py:74 | the character filter leaves only letters of the allowed ranges, whitespace, `-`, `'`, `.` and `,` |
| Validation.FilterCharsIdentity | backend/validation.py:74 | the filter leaves a string of allowed characters unchanged |
| Validation.SanitizeAthleteName | backend/validation.py:35-83 | valid exactly when no error is given; empty input gives `(False, "", "Invalid input")`; a valid result holds only allowed characters, is single-spaced and unpadded, has at least 2 characters and a letter, and comes from a stripped input of 2 to 100 characters that passes every format check |
| Validation.SanitizeLengthChecks | backend/validation.py:42-51 | after stripping, fewer than 2 characters gives "Name too short" and more than 100 gives "Name too long", each with the stripped name |
| Validation.SanitizeKeepsCleanName | backend/validation.py:73-83 | a stripped name that is already clean, at most 100 characters long and passes the format checks is returned unchanged as valid (e.g. "Shaquille O'Neal", "J.J. Watt") |
| Validation.StripLowerFixed | backend/validation.py:88 | every character of the lowered, stripped name is a fixed point of lowering |
| Validation.CollapseKeepsLowerFixed | backend/validation.py:89 | collapsing whitespace keeps that property |
| Validation.LowerOfFixed | backend/validation.py:88 | lowering a string of fixed points changes nothing |
| Validation.NormalizeIdempotent | backend/validation.py:86-91 | with transliteration as identity, `normalize_name` yields a lower-case single-spaced name and applying it twice equals applying it once |
| Validation.CheckNameSimilarity | backend/validation.py:109-118 | when either normalised name contains the other, which includes equality, the names are similar whatever the fuzzy ratio says |
| Validation.SimilaritySymmetricOnContainment | backend/validation.py:109-118 | on the equality and containment branches the check holds in both argument orders |
| Validation.CandidateIds | backend/validation.py:192 | the candidates are exactly the truthy `id`s of the search results |
| Validation.CandidateIdsAppend | backend/validation.py:192 | the candidates keep search order: those of two result lists one after the other are the candidates of each, in turn |
| Validation.CandidateIdsFirst | backend/validation.py:192-212 | `candidate_ids[0]` is the id of the first search hit that has a truthy id |
| Validation.HintMatches | backend/validation.py:219-229 | the hint matches are verified IDs; an ID is a match exactly when some search result carries it, is verified and has a lower-cased description containing the lower-cased hint; there are at most as many matches as results |
| Validation.HintMatchesFirst | backend/validation.py:224-232 | matches keep search order: the first matching result gives the first match |
| Validation.ChooseCandidate | backend/validation.py:210-245 | nothing verified gives `(first candidate or None, False, [])`; exactly one verified ID gives `(it, False, [it])`; several verified IDs without a hint give `(first verified, True, verified_ids)`; the match list is empty exactly when nothing was verified; the tuple is consistent (a multiple-match flag comes with more than one match, the first being the chosen person, and a non-empty match list contains the chosen person) |
| Validation.HintNarrowing | backend/validation.py:218-242 | with several verified IDs and a hint: one hint match gives `(it, False, verified_ids)`, several give `(first, True, hint_matches)`, none gives `(first verified, True, verified_ids)` |
| Validation.SearchWikidataPerson | backend/validation.py:183-249 | a failing call raises; an empty first search, or one without candidate ids, gives `(None, False, [])`; when the first search verified something or already asked for 10 results, the answer is the choice over its results; otherwise it is the choice over the widened 10-result search; every answer is consistent |
| Validation.ValidateAthleteFull | backend/validation.py:507-602 | no person found gives `invalid_athlete`; a person with no match in the sport gives `validation_failed` if the athlete check raised, `invalid_athlete` if it says not an athlete, and otherwise `wrong_sport` with the athlete's sports and no entity ID; several matches without a hint give `disambiguation_required` with the person and all matches; otherwise the result is valid exactly when there is no canonical name or it passes the similarity check, a failure being `invalid_athlete`, and a valid result carries the person, the canonical name and the sport label (or the Q-ID); an exception gives `validation_failed` with `api_succeeded` False; the result is well formed (valid implies no error, a truthy entity ID and no multiple matches; invalid implies an error; `api_succeeded` fails exactly on `validation_failed`; multiple matches go exactly with `disambiguation_required`) |
| Validation.HintBypassesDisambiguation | backend/validation.py:557-569 | with a hint, a multiple-match search result is not sent back for disambiguation: the first candidate is validated |
| SportsConfig.LastSegmentIsSuffix | backend/sports_config.py:80 | `uri.split("/")[-1]` is the suffix after the last `/` and holds no `/` |
| SportsConfig.ParseSeen | backend/sports_config.py:78-97 | after the loop, the seen set holds exactly the Q-IDs of bindings with a URI, a label and a Q-ID starting with `Q`, including those skipped for an unresolved label |
| SportsConfig.ParseEntriesWellFormed | backend/sports_config.py:90-105 | parsed entries have distinct Q-IDs, `value == wikidata_id`, a Q-ID starting with `Q` and a label that is not `Q` followed by characters `str.isdigit` accepts (any Unicode digit) |
| SportsConfig.ParseEntriesFirst | backend/sports_config.py:90-105 | each parsed entry comes from the first eligible binding of its Q-ID, with that binding's label |
| SportsConfig.ParseComplete | backend/sports_config.py:90-105 | every Q-ID whose first eligible binding has a resolved label (not `Q` followed only by `str.isdigit` characters) is parsed |
| SportsConfig.ParseSkipsUnresolvedFirst | backend/sports_config.py:90-97 | a Q-ID whose first binding has an unresolved label (`Q` followed only by `str.isdigit` characters, any Unicode digit) never appears, even when a later binding resolves it |
| SportsConfig.UnicodeDigitLabels | backend/sports_config.py:96 | a label is unresolved when `Q` is followed only by characters for which `str.isdigit` holds, non-ASCII digits included (e.g. "Q²"), and not when it is `Q` alone or has another character |
| SportsConfig.FirstForUnique | backend/sports_config.py:90-97 | the first eligible binding of a Q-ID is unique |
| SportsConfig.ParseBindings | backend/sports_config.py:70-107 | the loop yields the parse specification, with unique Q-IDs and `value == wikidata_id` starting with `Q` |
| SportsConfig.DedupSeen | backend/sports_config.py:115-124 | the merge's seen set is exactly the set of Q-IDs in the concatenated lists |
| SportsConfig.DedupUnique | backend/sports_config.py:115-124 | the deduplicated list has unique Q-IDs |
| SportsConfig.DedupKeepsFirst | backend/sports_config.py:115-124 | each kept entry is the first occurrence of its Q-ID |
| SportsConfig.DedupComplete | backend/sports_config.py:115-124 | every Q-ID of the input is kept |
| SportsConfig.InsertByLabel | backend/sports_config.py:126 | insertion adds exactly the new entry to the multiset of entries |
| SportsConfig.InsertKeepsSorted | backend/sports_config.py:126 | insertion into a list sorted by lower-case label keeps it sorted |
| SportsConfig.SortByLabel | backend/sports_config.py:126 | the sort is a permutation |
| SportsConfig.SortByLabelSorted | backend/sports_config.py:126 | the sort's output is ordered by lower-case label |
| SportsConfig.SortKeepsUnique | backend/sports_config.py:126 | sorting keeps Q-IDs unique |
| SportsConfig.InsertStable | backend/sports_config.py:126 | insertion places the new entry after every entry with the same lower-case label |
| SportsConfig.SortStable | backend/sports_config.py:126 | the sort is stable: for every lower-case label, the entries carrying it come out in their input order |
| SportsConfig.WithKeyAppend | backend/sports_config.py:126 | the entries with a given label in two lists one after the other are those of each list, in turn |
| SportsConfig.MergeFacts | backend/sports_config.py:110-127 | the merge has unique Q-IDs, is sorted by lower-case label, holds exactly the Q-IDs of its inputs, and keeps for each the entry of its earliest occurrence |
| SportsConfig.MergeTakesFirst | backend/sports_config.py:110-127 | each merged entry is the earliest occurrence of its Q-ID across the lists |
| SportsConfig.ReorderKeepsFirst | backend/sports_config.py:126 | reordering by the sort keeps every entry the first occurrence of its Q-ID |
| SportsConfig.MergeLists | backend/sports_config.py:110-127 | the merge loop with its seen set computes the merge specification |
| SportsConfig.FetchedSports | backend/sports_config.py:130-180 | a successful fetch yields a non-empty list, because the supplemental sports are merged in; a failed fetch yields the empty list |
| SportsConfig.FallbackSports | backend/sports_config.py:241-282 | the fallback list has 27 entries, each with `value == wikidata_id`, a Q-ID starting with `Q` and a non-empty label |
| SportsConfig.QidIndexFacts | backend/sports_config.py:205-210 | the Q-ID index has exactly the cached Q-IDs as keys, each mapped to the label of its last entry |
| SportsConfig.LabelIndexFacts | backend/sports_config.py:205-210 | the label index has exactly the cached lower-case labels as keys, each mapped to the Q-ID of the last entry with that label |
| SportsConfig.SportsCache.constructor | backend/sports_config.py:25-31 | the cache starts empty |
| SportsConfig.SportsCache.Initialize | backend/sports_config.py:183-212 | the cache holds the fetched sports, or the fallback list when the fetch is empty, with the override table applied to each label and everything else kept |
| SportsConfig.SportsCache.IsValidSportQid | backend/sports_config.py:236-238 | a Q-ID is valid exactly when some cached sport has it |
| SportsConfig.SportsCache.GetSportLabel | backend/sports_config.py:228-233 | the label is absent exactly when no cached sport has the Q-ID; otherwise it is the label of the last such sport |
| SportsConfig.SportsCache.GetSportQid | backend/sports_config.py:220-225 | the case-insensitive reverse lookup is absent exactly when no cached lower-case label matches; otherwise the last matching sport wins |
| SportsConfig.OverrideVisible | backend/sports_config.py:197-201 | after initialisation, a cached Q-ID in the override table reports its display name |
| SessionManager.CountBy | backend/session_manager.py:260-266 | a user's submission count never exceeds the number of athletes |
| SessionManager.EntityIdsExact | backend/session_manager.py:73-86 | the entity-ID set is exactly the truthy entity IDs of the athletes |
| SessionManager.NormalizedNamesExact | backend/session_manager.py:73-86 | the name set is exactly the normalised names of the athletes |
| SessionManager.WithAthleteOk | backend/session_manager.py:73-86 | appending an athlete preserves the session invariant |
| SessionManager.ConnectedOk | backend/session_manager.py:173-193 | connecting preserves the session invariant |
| SessionManager.DisconnectedOk | backend/session_manager.py:196-212 | disconnecting preserves the session invariant |
| SessionManager.PauseResumeSameInstant | backend/session_manager.py:321-367 | pause then resume at the same instant leaves the deadline at `max(ends_at, now)` and clears the pause fields |
| SessionManager.PauseExtendsDeadline | backend/session_manager.py:321-367 | a pause from `t1` to `t2` before the deadline moves the deadline by `t2 - t1` |
| SessionManager.PauseNotTwice | backend/session_manager.py:321-367 | a paused session cannot be paused again, and a session that is not paused cannot be resumed |
| SessionManager.ConnectBindsOnce | backend/session_manager.py:173-193 | after connect, exactly the new socket holds the name, the name has no disconnect record, other users' sockets are unchanged and no socket is added |
| SessionManager.DisconnectThenReclaim | backend/session_manager.py:196-257 | a removed socket is unbound; its user's disconnect record counts that user's athletes; the name is reclaimable exactly when less than 300 s have passed |
| SessionManager.OccursOnce | backend/session_manager.py:306-309 | a name occurs once in a duplicate-free leaderboard |
| SessionManager.SumCountsSnoc | backend/session_manager.py:295 | one more athlete adds one to its submitter's count |
| SessionManager.ScoresSumToAthletes | backend/session_manager.py:295-309 | when all submitters are listed once, the scores sum to the number of athletes |
| SessionManager.ZeroCounts | backend/session_manager.py:295 | with no athletes every count is zero |
| SessionManager.KeyLtTransitive | backend/session_manager.py:312 | the `(key, username)` order is transitive |
| SessionManager.KeyLtTotal | backend/session_manager.py:312 | the `(key, username)` order is total on distinct usernames |
| SessionManager.MinOf | backend/session_manager.py:312 | every non-empty set of names has a least element under the order |
| SessionManager.SortByKey | backend/session_manager.py:306-312 | the sort returns exactly the given names, strictly ordered by `(key, username)` |
| SessionManager.StrictlyOrderedDistinct | backend/session_manager.py:306-312 | a strictly ordered list has no repeated name |
| SessionManager.SessionStore.constructor | backend/session_manager.py:12 | the store starts with no sessions |
| SessionManager.SessionStore.GenerateSessionCode | backend/session_manager.py:15-24 | the code is the first draw not already in use, six upper-case letters or digits |
| SessionManager.SessionStore.CreateSession | backend/session_manager.py:27-38 | a new waiting session with a fresh code is stored and nothing else changes |
| SessionManager.SessionStore.StartSession | backend/session_manager.py:46-59 | succeeds exactly on an existing waiting session, which becomes active with a deadline 7200 s on; otherwise nothing changes, so a second call fails |
| SessionManager.SessionStore.EndSession | backend/session_manager.py:62-70 | succeeds exactly on an existing session, which becomes completed; an unknown code changes nothing |
| SessionManager.SessionStore.AddAthlete | backend/session_manager.py:73-86 | appends exactly one athlete, adds its name and only a truthy entity ID to the sets, and keeps the invariant; an unknown code changes nothing |
| SessionManager.SessionStore.AddRejectedSubmission | backend/session_manager.py:89-108 | appends one rejection record to an existing session; an unknown code changes nothing |
| SessionManager.SessionStore.IsDuplicate | backend/session_manager.py:111-132 | with a truthy entity ID: true exactly when an athlete has that ID, with no name fallback; without one: true exactly when an athlete has that normalised name; an unknown session gives false |
| SessionManager.SessionStore.GetNonDuplicateEntityIds | backend/session_manager.py:135-153 | the input filtered of IDs already taken; an unknown session returns the input unchanged |
| SessionManager.SessionStore.AreAllEntityIdsDuplicates | backend/session_manager.py:156-170 | true exactly when the input is non-empty, the session exists and every ID is taken |
| SessionManager.SessionStore.AddConnectedUser | backend/session_manager.py:173-193 | drops the name's stale sockets, clears its disconnect record and binds the socket; an unknown code changes nothing |
| SessionManager.SessionStore.RemoveConnectedUser | backend/session_manager.py:196-212 | an unknown socket gives None with nothing changed; otherwise it returns the bound name and records the disconnect |
| SessionManager.SessionStore.IsUsernameTakenByOther | backend/session_manager.py:224-244 | true exactly when a socket other than the requester holds the name |
| SessionManager.SessionStore.GetUserSubmissionsCount | backend/session_manager.py:260-266 | the count is at most the number of athletes |
| SessionManager.SessionStore.RemoveUserByUsername | backend/session_manager.py:370-408 | unbinds the socket holding the name; failing that, deletes its disconnect record; returns None when neither exists |
| SessionManager.SessionStore.GetLeaderboard | backend/session_manager.py:285-318 | one entry per participant (connected, disconnected or submitter); scores are submission counts; ranks are 1..n; sorted by score descending then username; scores sum to the number of athletes |
| SessionManager.SessionStore.GetUsersWithStatus | backend/session_manager.py:411-447 | one entry per connected or disconnected user, with the right connection and host flags, sorted host first, then connected, then by username |
| SessionManager.SessionStore.PauseSession | backend/session_manager.py:321-343 | returns None and changes nothing unless the session is active and not paused; otherwise stores and returns `max(ends_at - now, 0)` and sets the pause flag |
| SessionManager.SessionStore.ResumeSession | backend/session_manager.py:346-367 | returns None unless the session is active and paused; otherwise sets `ends_at = now + remaining` and clears the pause fields |
| SessionManager.RankBoard | backend/session_manager.py:304-317 | each entry carries its user, that user's count and rank `position + 1`; the scores sum to the users' total count |
| SessionManager.DropHolders | backend/session_manager.py:179-185 | the stale-socket loop removes exactly the sockets holding the name |
| SessionManager.FilterOut | backend/session_manager.py:135-153 | keeps exactly the IDs not taken, and is never longer than its input |
| SessionManager.FilterOutAppend | backend/session_manager.py:135-153 | the filter keeps input order: filtering two lists one after the other filters each, in turn |
| SessionManager.FilterOutEmpty | backend/session_manager.py:156-170 | the filter is empty exactly when every ID is taken |
| SessionManager.FilterOutKeepsOrder | backend/session_manager.py:135-153 | with nothing taken, or when nothing is dropped, the filter returns the input in order |
| Events.JoinAdmission | backend/events.py:27-58 | a join succeeds exactly with code and username given, on an existing session that is not completed, when the name is reclaimable or held by no other socket; a refusal changes nothing; a success binds exactly this socket to the name and leaves other sessions alone |
| Events.Guards | backend/events.py:180-256 | passing means every field is present, the sender is verified, the sport is known, the name sanitises, and the game is active and not paused; a stop is a refusal; only `invalid_input` records a rejection, holding the raw name |
| Events.GuardsReportFirstFailure | backend/events.py:180-256 | the chain `missing_fields`, `auth_failed`, `invalid_sport`, `invalid_input`, `session_not_found`, `game_not_active`, `game_paused` reports exactly its first failing check and passes when none fails |
| Events.AdmittedNameIsClean | backend/events.py:212-228 | an admitted name is a clean, sanitised name of at least 2 characters |
| Events.RecordRejectionKeepsAthletes | backend/events.py:280-375 | a rejection record changes no athlete list and no other session |
| Events.DisambiguationClassified | backend/events.py:276-318 | for an ambiguous result: all candidates taken gives `duplicate` with one rejection record; some taken gives a hint request flagged as partly submitted; none taken gives a plain hint request; hint requests change nothing |
| Events.FilterOutDrops | backend/events.py:281-290 | a taken candidate shrinks the list of still-available candidates |
| Events.CommitDecides | backend/events.py:324-395 | a truthy entity ID is checked only against athletes' IDs, otherwise the name only against athletes' names; a duplicate is refused with a `duplicate` record before the validity check; a non-duplicate invalid result records its error or `unknown`; acceptance happens exactly when there is no duplicate and the result is valid, and appends one validated athlete named by the canonical name if present, else the sanitised name |
| Events.AsWrittenNeverAccepts | backend/events.py:320-322 | as written, no submission is ever accepted and no athlete list changes |
| Events.AsWrittenRejectsFreshValidAthlete | backend/events.py:320-322 | an admitted, valid, unambiguous, non-duplicate submission is accepted by the intended handler but refused `validation_failed` as written |
| Events.RecordRejectionOk | backend/events.py:280-375 | a rejection record preserves the store invariant |
| Events.AcceptKeepsDistinct | backend/events.py:377-395 | accepting a non-duplicate keeps the entity IDs of a session's athletes distinct |
| Events.SubmitKeepsStore | backend/events.py:172-412 | a submission preserves the store invariant and the session codes; a hint request changes nothing; a refusal changes no athlete list; an acceptance appends exactly the new athlete to the submitter's session |
| Events.ResolveKeepsStore | backend/events.py:258-412 | the post-guard part of a submission preserves the store invariant with the same effects |
| Events.HostGuard | backend/events.py:453-466 | a host command is allowed exactly when code and username are given, the sender is verified and the sender is the session's host |
| Events.EndGameIdempotent | backend/events.py:676-691 | ending twice equals ending once; an existing session ends completed with its timer entry removed; a missing session changes nothing |
| Events.PauseGameEffects | backend/events.py:448-489 | a refusal changes nothing; pause succeeds exactly for the verified host of an active, unpaused game, and then sets the pause flag, stores the remaining time and removes the timer entry |
| Events.ResumeGameEffects | backend/events.py:492-531 | a refusal changes nothing; resume succeeds exactly for the verified host of an active, paused game, and then sets the deadline to now plus the stored remainder and installs a timer entry |
| Events.EndGameEarlyEffects | backend/events.py:534-560 | a refusal changes nothing; ending early succeeds exactly for the verified host of an active game, and then completes it and removes the timer entry |
| Events.GameServer.constructor | backend/events.py:13 | the server starts with no timer tasks over the given store and cache |
| Events.GameServer.HandleJoinSession | backend/events.py:27-58 | the handler's outcome and new sessions are those of the join specification |
| Events.GameServer.HandleSubmitAthlete | backend/events.py:172-412 | the handler's outcome and new sessions are those of the submission specification, with the sanitiser and `normalize_name` of the model |
| Events.GameServer.CheckSubmission | backend/events.py:180-271 | the guard part of the handler behaves as the guard chain |
| Events.GameServer.ResolveSubmission | backend/events.py:276-395 | an ambiguous result is classified; any other result goes through the atomic duplicate-check-then-commit step |
| Events.GameServer.EndGameNow | backend/events.py:676-691 | sessions and timer set change as the end-game specification says |
| Events.GameServer.HandlePauseGame | backend/events.py:448-489 | outcome, sessions and timer set are those of the pause specification |
| Events.GameServer.HandleResumeGame | backend/events.py:492-531 | outcome, sessions and timer set are those of the resume specification |
| Events.GameServer.HandleEndGameEarly | backend/events.py:534-560 | outcome, sessions and timer set are those of the end-early specification |

## Left out

- Network I/O is not modelled. This covers the Wikidata search and SPARQL
  calls, `verify_is_athlete`, `get_entity_label` and
  `fetch_sports_from_wikidata`. Their replies, or the fact that they raised,
  are parameters.
- Socket.IO transport is not modelled: `emit`, rooms, `register_events` and
  the messages sent. Handlers return an outcome value instead.
- Where the handler emits a `None` error, the model shows `unknown`. The
  source records `error or "unknown"` in the rejection but emits the raw
  error.
- `run_timer` and its `asyncio` sleeping and cancellation are not modelled.
  Only the presence of a `timer_tasks` entry per code is kept.
- The per-session `asyncio` lock is not modelled. The duplicate check and the
  commit are one atomic step.
- Concurrency between handlers is not modelled: every handler runs to
  completion.
- `handle_start_game`, `handle_remove_player` and `handle_disconnect` are not
  modelled as handlers. Each is a short guard chain over operations that are
  modelled (`SessionStore.StartSession`, `SessionStore.RemoveUserByUsername`,
  `SessionStore.RemoveConnectedUser`), followed by socket emits.
- `find_session_by_socket` is not modelled. Its result depends on the
  iteration order of the global session dictionary, which the map-based store
  does not keep.
- `is_username_taken` is not modelled. Admission uses
  `is_username_taken_by_other`, which is `SessionStore.IsUsernameTakenByOther`.
- `get_cached_sports` is not modelled. It only returns the cache field that
  `SportsCache.Initialize` states.
- `backend/main.py` (HTTP endpoints) is not part of this model.
- `backend/models.py` is not modelled as code. Its records are the datatypes
  `Session`, `Athlete`, `RejectedSubmission` and `DisconnectedUser`.
- Time is whole seconds. Sub-second `datetime` precision and
  `int(total_seconds())` truncation of fractions are not modelled.
- `unidecode` and `partial_ratio` are function parameters.
  - Only the exact and containment branches of the similarity check are
    proved.
  - The fuzzy branch is the parameter compared with the threshold 45.
- `Text.Lower` covers only ASCII and Latin-1 letters, not all of Unicode
  `str.lower`.
- `Text.IsDigit` is Python's `str.isdigit` as of Unicode 15.0; later Unicode
  versions may add digits.
- Validation.SearchHit: a search hit whose `description` is JSON `null` is not
  modelled. In the source, `.lower()` on it raises and the resolution becomes
  `validation_failed`; the model reads an absent description as "".
- `Validation.IsWordChar` (the `\b` boundaries of the keyword check) covers
  letters, digits and `_` of ASCII and U+0080 to U+024F only. Python's `\w`
  covers all of Unicode.
- SessionManager.SessionStore.GenerateSessionCode: it requires that some
  draw in the given sequence is fresh. This stands in for the source's retry
  loop terminating, since random choice is not modelled.
- SessionManager.SessionStore.GetLeaderboard: Python's set iteration order is
  not modelled. The loop visits users in an arbitrary order and the result is
  pinned down by the sort.
- SessionManager.SessionStore.GetUsersWithStatus: as above, dictionary
  iteration order is not modelled.
- SessionManager.SessionStore.GetUserSubmissionsCount: only the bound is
  stated. The count itself is `CountBy`, which `DisconnectThenReclaim` ties
  to the disconnect record.
- `can_reclaim_username`, `is_host`, `get_session` and `verify_sender` are
  modelled as predicates without contracts of their own. Their meaning is
  stated through `DisconnectThenReclaim`, `JoinAdmission` and `HostGuard`.
- Events.Guards: `session_not_found` cannot happen after the sender check
  passes, since that check already needs the session. The model keeps it in
  the chain, and the lemmas show it is never reported.
- Sanitisation enters the submission specification as the sanitiser's result
  value. Normalisation enters it as a function value. The handler passes the
  model's `SanitizeAthleteName` and `NormalizeName`.
- Logging is left out throughout.

With a truthy hint, `validate_athlete_full` validates the first candidate
even when the hint does not narrow the matches: disambiguation is requested
only when no hint was given (backend/validation.py:557-569).
`Validation.HintBypassesDisambiguation` states this.

## Findings

| source | as written | input that shows it | evidently intended | confidence | as-written member | corrected member |
|---|---|---|---|---|---|---|
| backend/events.py:321 | the submit handler calls `sm.get_session_lock(code)`, which `backend/session_manager.py` does not define, so an `AttributeError` is raised inside the `try` and turned into a `validation_failed` rejection | any submission that passes the guards and resolves to a valid, unambiguous athlete not yet submitted in the session | take a per-session lock, then run the duplicate check and the commit, accepting the athlete | not executed | Events.AsWrittenRejectsFreshValidAthlete | Events.GameServer.HandleSubmitAthlete |
