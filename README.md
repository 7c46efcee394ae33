# Suggestions and paging in the location-sharing server

A Dafny model of the decision logic behind two features of a small
location-sharing app. In the first, signed-in users mark themselves available
and share their live position. In the second, they page each other by email,
helped by a suggestion card list.

The model covers five server files:

- **Suggestion engine** (`services/suggestions.js`): the weight clamp, the
  time-of-day bucket, the `key:target-or-any` weight map, and the four
  candidate rules (nearest peer, go available, frequent target, chill
  reminder) with their exact score formulas. It also covers the stable sort
  by score, the length policy of the slice, the public ids, and the
  accept/dismiss feedback that moves a learned weight by ±2 within [-10, 10].
- **Per-pair cooldown** (`services/rateLimiter.js`): a table from
  (sender, recipient) to the time of the last delivered page, with a strict
  five-minute window.
- **Routes** (`routes/api.js`):
  - the availability switch, which nulls coordinates when the user hides;
  - the presence listing;
  - the page handler's gates in order: body, self-page, missing recipient,
    history cooldown with its retry seconds, in-memory cooldown;
  - the handler's bookkeeping: one event per attempt, and `recordSend` only
    after a delivered mail.
- **Live location** (`services/locationTracker.js`): the guarded in-place
  write of coordinates into the caller's presence record.
- **Paging agent** (`services/aiAgent.js`): the paging context (peers other
  than the caller, the last ten pages) and the rule that picks the first
  available peer.

Database reads are given values:

- the Presence and User collections become maps and sequences;
- the populated query becomes `Listed` values whose user is `None` when the
  reference did not resolve;
- the page-history aggregate becomes a sequence of `TargetCount`;
- the PageEvent collection becomes a log in creation order.

Clock reads become the parameters `nowMs` and `hour`. The haversine distance
becomes a parameter `dist`; the lemmas that use it assume it is never
negative.

Modules:

- `Common` holds the shared records.
- `RateLimiter` and `LocationTracker` are classes whose methods update their
  maps in place.
- `SuggestionWeights` holds the weight map, filled by a loop that is proved
  against a function, and the `WeightStore` class for feedback.
- `SuggestionEngine` holds the nearest-peer scan, as a loop proved against a
  fold, and the candidate rules. `BuildSuggestions` is a method proved equal
  to the function `Suggest`.
- `Api` holds the route logic, with the page handler as a method over a
  `PageLog` and a `CooldownTable`.
- `AiAgent` holds the paging context and decision as functions.

### Behaviour of the code that the model keeps

- **Zero coordinates count as missing.** The nearest-peer rule tests
  coordinates for JavaScript truthiness (services/suggestions.js:65,69), so a
  latitude or longitude of exactly 0 reads as "no location". An available
  caller at (0, 0) never gets a nearest-peer card, and with no page history
  gets only the chill reminder (`SuggestionEngine.ZeroOriginScenario`).
- **Failed pages count toward the cooldown.** The history check reads the
  latest event of either status (routes/api.js:97). So a failed attempt
  blocks a retry, not only a delivered page (`Api.FailedAttemptBlocks`).
- **The frequent-target text is mis-encoded.** The literal at
  services/suggestions.js:120 holds the three characters U+00E2 U+20AC
  U+201D where an em dash was meant, and the model's `FrequentCandidate`
  shows those same three characters.
- **Feedback keys are not checked.** Feedback accepts any suggestion key
  string (routes/api.js:158), so `WeightStore.RecordFeedback` takes any
  string.
- **Ids are compared as sent but looked up cast.** The self-page check
  compares the `toUserId` string with the caller's id printed in lower-case
  hex (routes/api.js:92). The in-memory cooldown keys on the string as sent
  (services/rateLimiter.js:4-6). The User and PageEvent queries cast it to an
  ObjectId first (routes/api.js:94, 97, 127), and that cast accepts upper-case
  hex; `Canon` is this cast. So the caller's own id in upper case passes every
  gate when the caller exists and no cooldown applies, and the caller is
  mailed (`Api.SelfPageInUpperCase`), and each letter
  case of a recipient's id has its own in-memory entry. Feedback casts its
  target id before both writes (services/suggestions.js:156-158), so every
  spelling lands on one weight row.
- **Message length is counted in UTF-16 code units.** `z.string().max(500)`
  (routes/api.js:87) limits the JavaScript length, in which a character above
  U+FFFF counts twice. A message of 300 emoji is refused
  (`Api.EmojiMessageRejected`).

## Model

| member | source | states |
|---|---|---|
| Common.DisplayName | routes/api.js:116 | `name \|\| email`: a non-empty name is shown, otherwise the email |
| Common.FindAvailable | routes/api.js:67 | the available-presence query: only available presences; the user resolves exactly when the User exists; every available presence appears |
| Common.NatToString | services/aiAgent.js:51 | the decimal digits a template literal prints for a whole number: digits only, denoting n (`DigitsValue`), no leading zero |
| RateLimiter.CooldownTable.constructor | services/rateLimiter.js:2 | the table starts empty |
| RateLimiter.CooldownTable.CanSend | services/rateLimiter.js:8-13 | a pair with no entry (or the falsy entry 0) may send; otherwise only when strictly more than COOLDOWN_MS has elapsed |
| RateLimiter.CooldownTable.RecordSend | services/rateLimiter.js:15-17 | overwrites only the pair's entry; afterwards, when now ≠ 0, the pair may send at time t iff t − now > 300000 (a stored 0 is falsy and lets every later send through); every other pair, including the reversed one, keeps its verdict at every time |
| SuggestionWeights.ClampWeight | services/suggestions.js:15-17 | result in [-10, 10], equal to the input when already in range, saturating at either bound |
| SuggestionWeights.WeightKeyInjective | services/suggestions.js:43 | the `key:target-or-any` string loses nothing: equal map keys mean equal (key, target) pairs for ObjectId targets |
| SuggestionWeights.GetWeightsByKey | services/suggestions.js:39-47 | the loop builds exactly the map of the row fold, later rows overwriting earlier ones |
| SuggestionWeights.WeightsDomain | services/suggestions.js:42-45 | the map holds a key exactly when some row of the user produces it |
| SuggestionWeights.LookupMatchesRows | services/suggestions.js:43-44 | under the unique row index, `weights.get(key) \|\| 0` is the weight of the matching row, or 0 when there is none |
| SuggestionWeights.AfterFeedback | services/suggestions.js:155-165 | the weight after a series of increment-then-clamp steps; any non-empty series, or none from an in-range weight, ends in [-10, 10] |
| SuggestionWeights.Delta | services/suggestions.js:155 | the step is +2 exactly for `accept` and −2 exactly for `dismiss` |
| SuggestionWeights.RepeatedAccept | services/suggestions.js:155-165 | n accepts from an in-range weight give min(10, w + 2n) |
| SuggestionWeights.RepeatedDismiss | services/suggestions.js:155-165 | n dismisses from an in-range weight give max(-10, w − 2n) |
| SuggestionWeights.WeightStore.RecordFeedback | services/suggestions.js:154-174 | appends the feedback record, then sets only the (user, key, cast target) row to clamp((old or 0) ± 2); weights stay in range; every spelling of a target id hits the same row |
| SuggestionWeights.WeightStore.constructor | models/SuggestionWeight.js:3-13 | empty feedback and weight collections satisfy the range invariant |
| SuggestionEngine.KeyNamesDiffer | services/suggestions.js:8-13 | two different suggestion keys differ at a known character position |
| SuggestionEngine.TimeBucketOf | services/suggestions.js:19-25 | the hour partition: before 6 late-night, [6,12) morning, [12,18) afternoon, from 18 evening, each both ways |
| SuggestionEngine.NearestFailsIffUnresolved | services/suggestions.js:67-68 | the scan throws exactly when some listed presence's user did not resolve |
| SuggestionEngine.NearestStep | services/suggestions.js:67-73 | one forEach step: throws iff the user is unresolved; replaces the best only by an eligible, strictly closer peer, and always does so for one |
| SuggestionEngine.NearestOf | services/suggestions.js:66-74 | a peer the scan picks is not the caller and has truthy coordinates |
| SuggestionEngine.NearestIsFirstMinimum | services/suggestions.js:65-74 | the picked peer is not the caller and has truthy coordinates; no eligible peer is closer; every earlier eligible peer is strictly farther (first wins ties); nothing is picked only when no peer is eligible |
| SuggestionEngine.FindNearest | services/suggestions.js:66-74 | the forEach loop computes the fold of the scan, stopping with the thrown error at an unresolved user |
| SuggestionEngine.NearestCandidate | services/suggestions.js:75-87 | the nearest-peer card pages the picked user and targets them |
| SuggestionEngine.NearestScore | services/suggestions.js:76-77 | the nearest-peer score is 6 to 8 above the learned weight for a non-negative distance: exactly 8 − d above it below 2 km, exactly 6 above from 2 km on |
| SuggestionEngine.NearestScoreMonotone | services/suggestions.js:76-77 | for the same peer a shorter distance never scores lower, and below 2 km a strictly shorter one scores strictly higher |
| SuggestionEngine.ToggleCandidate | services/suggestions.js:91-101 | the go-available card sets availability on; score 5 above the weight in the morning or afternoon, 3 otherwise |
| SuggestionEngine.FrequentCandidate | services/suggestions.js:111-125 | the frequent-target card pages the top recipient and targets them; its text keeps the source literal's mis-encoded dash (U+00E2 U+20AC U+201D) |
| SuggestionEngine.FrequentScore | services/suggestions.js:115-123 | the frequent-target score is 4 to 6 above the learned weight: exactly 4 + count/3 above it below six sends, exactly 6 above from six sends on |
| SuggestionEngine.FrequentScoreMonotone | services/suggestions.js:115-123 | for the same recipient more sends never score lower, and below six sends a strictly larger count scores strictly higher |
| SuggestionEngine.ChillCandidate | services/suggestions.js:129-138 | the chill card sets availability off; score 3 above the weight in the evening, 2 otherwise |
| SuggestionEngine.NearestRule | services/suggestions.js:65-88 | throws iff there are peers, the caller has truthy coordinates and some listed user is unresolved; at most one nearest-peer card, only with peers and caller coordinates |
| SuggestionEngine.ToggleRule | services/suggestions.js:91 | one go-available card exactly when the caller has no presence or is not available |
| SuggestionEngine.FrequentRule | services/suggestions.js:111-114 | one frequent-target card exactly when there is history and its top recipient exists, targeting that recipient |
| SuggestionEngine.ChillRule | services/suggestions.js:129 | one chill card exactly when the caller is available |
| SuggestionEngine.Candidates | services/suggestions.js:62-139 | the candidate list fails exactly when the nearest-peer scan runs and meets an unresolved user |
| SuggestionEngine.PushNearest | services/suggestions.js:65-88 | the guarded scan-then-push equals the nearest-peer rule |
| SuggestionEngine.PushCandidates | services/suggestions.js:62-139 | the four guarded pushes build exactly `Candidates` |
| SuggestionEngine.Insert | services/suggestions.js:141 | inserting one candidate keeps every element and adds exactly that one |
| SuggestionEngine.SortByScore | services/suggestions.js:141 | the sort is a permutation of the candidates |
| SuggestionEngine.Trim | services/suggestions.js:142 | `slice(0, max(2, min(4, n)))` keeps the first min(n, 4) candidates, in order |
| SuggestionEngine.BuildSuggestions | services/suggestions.js:57-152 | the push-sort-slice-map procedure returns exactly `Suggest` on the weight map of the user's rows |
| SuggestionEngine.InsertRanked | services/suggestions.js:141 | inserting a candidate of an earlier rule keeps every element and keeps score order, ties in rule order |
| SuggestionEngine.SortRanked | services/suggestions.js:141 | the stable sort is a permutation in non-increasing score order, equal scores in push order |
| SuggestionEngine.PartsShape | services/suggestions.js:62-139 | pushes of at most one card per rule, exactly one of toggle and chill, give 1 to 3 cards in rule order, each key present iff its rule pushed |
| SuggestionEngine.CandidatesShape | services/suggestions.js:91-139 | 1 to 3 candidates in rule order; toggle iff the caller is not available; chill iff available; frequent iff there is history and its top recipient exists; nearest only with peers and truthy caller coordinates |
| SuggestionEngine.SuggestRanked | services/suggestions.js:141-151 | the public list is the whole ranked candidate list (the slice drops nothing), 1 to 3 long |
| SuggestionEngine.IdsDistinct | services/suggestions.js:143-144 | over a list with pairwise distinct keys, the `key-(target or index)` ids are pairwise distinct |
| SuggestionEngine.SortedKeysDistinct | services/suggestions.js:141 | sorting the one-card-per-rule list leaves the keys pairwise distinct |
| SuggestionEngine.SuggestIdsDistinct | services/suggestions.js:141-151 | the ids of the published, score-sorted suggestions are pairwise distinct |
| SuggestionEngine.NearestInBand | services/suggestions.js:76-77 | the nearest-peer score lies in [6 + w, 8 + w] |
| SuggestionEngine.ScoreBand | services/suggestions.js:76-137 | nearest 6..8 above w, toggle 5 or 3 above w by bucket, frequent 4..6 above w, chill 2 or 3 above w by bucket, with w the learned weight or 0 |
| SuggestionEngine.NearestFires | services/suggestions.js:65-87 | with truthy caller coordinates, every user resolved and one eligible peer, the nearest-peer card is produced |
| SuggestionEngine.ZeroOriginScenario | services/suggestions.js:65 | an available caller at (0, 0) with a peer at (1, 1) gets only `CHILL_REMINDER-0` |
| SuggestionEngine.DefaultRanking | services/suggestions.js:76-141 | with no learned weights a nearest-peer card is always first and a chill reminder always last |
| SuggestionEngine.DefaultBeats | services/suggestions.js:76-141 | with no learned weights no card ranks above a nearest-peer card or below a chill reminder |
| SuggestionEngine.BandOrder | services/suggestions.js:76-137 | with zero weights, a card preceding another card of a different rule is not a chill reminder, and the card it precedes is not a nearest-peer card |
| LocationTracker.Relocate | services/locationTracker.js:8-16 | refused with "Set available before sending location" iff the record is missing or hidden; otherwise same user, still available, coordinates and accuracy equal to the arguments |
| LocationTracker.PresenceStore.Find | services/locationTracker.js:8 | `findOne({ userId })`: the caller's record, if any |
| LocationTracker.PresenceStore.constructor | models/Presence.js:3-12 | an empty collection satisfies the store invariant |
| LocationTracker.PresenceStore.UpdateLiveLocation | services/locationTracker.js:7-17 | the in-place update returns `Relocate` of the loaded record, changes only the caller's record, and only when it is available; no hidden record gains coordinates |
| Api.ApplyAvailability | routes/api.js:35-39 | going hidden nulls lat, lon and accuracy; going available keeps the record's coordinates (none for a new record); user, flag and timestamp set |
| Api.SetAvailability | routes/api.js:35-39 | the upsert replaces only the caller's record and keeps the store invariant |
| Api.AvailabilityGatesLocation | routes/api.js:37 | after the availability switch a location update succeeds iff the caller went available |
| Api.PresenceListing | routes/api.js:68-77 | only presences whose user resolved, each shown as a peer, and all of them |
| Api.ListingShowsAvailable | routes/api.js:67-77 | the listing shows exactly the available presences whose user exists |
| Api.Utf16Length | routes/api.js:87 | the JavaScript length of a message: between its character count and twice that, equal to it iff no character lies above U+FFFF |
| Api.Utf16Additive | routes/api.js:87 | the code-unit count of a concatenation is the sum of the parts' counts |
| Api.AstralCountsTwice | routes/api.js:87 | a message of characters above U+FFFF has twice as many code units as characters |
| Api.StatusCode | routes/api.js:90-104 | 400 exactly for an invalid body or a self-page, 404 exactly for a missing recipient, 429 exactly for either cooldown |
| Api.ErrorText | routes/api.js:90-104 | no own text exactly for an invalid body; the text starts with "Cooldown active" exactly for either cooldown |
| Api.LatestFor | routes/api.js:97 | the pair's newest event of either status, none iff the pair has no event |
| Api.RetrySeconds | routes/api.js:100 | the ceiling of the remaining cooldown in seconds; between 1 and 300 for a non-negative elapsed time |
| Api.HistoryBlocksIffRecent | routes/api.js:97-99 | the history check fires iff some event of the pair, sent or failed, is within the cooldown |
| Api.PageGate | routes/api.js:86-105 | each rejection exactly when the checks before it pass and it fails (body over 500 code units, self-page on the raw id, recipient missing after the cast, history cooldown, in-memory cooldown), the retry seconds of the latest event, and a pass exactly when every check passes |
| Api.EmojiMessageRejected | routes/api.js:86-90 | a message of 300 emoji is refused as an invalid body |
| Api.SelfPageInUpperCase | routes/api.js:92-105 | the caller's own id in upper case passes every gate when the caller exists and no cooldown applies |
| Api.PageLog.constructor | models/PageEvent.js:3-12 | the event log starts empty |
| Api.HandlePage | routes/api.js:84-144 | rejected requests change nothing; a passing request mails the recipient found by the cast id, appends exactly one event for the cast id, sent iff the mailer delivered, error iff failed, and records the send under the raw id only when sent |
| Api.FailedAttemptBlocks | routes/api.js:97-102 | a failed page blocks a repeat within the cooldown through the history check |
| Api.SentPageBlocks | routes/api.js:97-105 | after a delivered page the pair is refused through the cooldown, by history before it ends and in memory up to the boundary |
| AiAgent.OthersOf | services/aiAgent.js:15-26 | throws iff a listed user did not resolve; otherwise never the caller, every other resolved peer shown, nothing invented |
| AiAgent.OthersInOrder | services/aiAgent.js:15-26 | the peers appear in the order of the query |
| AiAgent.RecentFrom | services/aiAgent.js:12 | min(limit, n) of the caller's n pages, each one of the caller's |
| AiAgent.RecentIncludes | services/aiAgent.js:12 | every caller page with fewer than `limit` later caller pages is kept |
| AiAgent.RecentSource | services/aiAgent.js:12 | every kept page is a caller page with fewer than `limit` later caller pages |
| AiAgent.RecentKeepsNewest | services/aiAgent.js:12 | over a log in creation order, a caller page left out is no newer than any page kept |
| AiAgent.RecentNewestFirst | services/aiAgent.js:12 | over a log in creation order the recent pages are newest first |
| AiAgent.BuildPagingContext | services/aiAgent.js:8-35 | fails iff a listed user did not resolve; otherwise the caller's presence, exactly the resolved available peers other than the caller (`OthersOf`), exactly the caller's last 10 pages (`RecentFrom`), the hour |
| AiAgent.DecidePaging | services/aiAgent.js:41-54 | no page iff the caller has no presence, is hidden, or has no peers; otherwise the first available peer with source "rule" and the hour in the reason |
| AiAgent.NeverPagesSelf | services/aiAgent.js:15-52 | the agent never proposes the caller, and proposes only an available user with a record |

## Left out

- Haversine trigonometry and floating point: distance is a parameter, and the scores are exact reals.
- The distance text built with `toFixed` is kept as the number it formats (`KmAway`).
- Database semantics (queries, `populate`, the `$group`/`$sort`/`$limit` aggregate) are not modelled. Their results arrive as sequences and maps, and the aggregate arrives already sorted by count, then by last send.
- Ties in `sort({ createdAt: -1 })` are left out. MongoDB picks any tied event; the model picks the later one in the log, and the gate reads only `createdAt`.
- The upsert in feedback (services/suggestions.js:157-163) names `weight` in both `$setOnInsert` and `$inc`. MongoDB refuses an update whose operators name the same path, so as written every feedback call fails after the feedback record is appended, and no weight ever changes. The model implements the intended (old or 0) ± 2, then the clamp.
- Concurrency is not modelled: each handler runs to completion, so the race between the history check and the in-memory check is absent.
- Express routing, authentication, the schema library's error messages, the mail transport, analytics tracking and malformed-ObjectId cast errors are left out. The mailer's answer is the `mail` parameter.
- Browser code under `public/` is left out.
- Api.PageGate: a `toUserId` that is not 24 hex digits makes the ObjectId cast throw, which the code answers with a server error. The model looks such a string up in its `Canon` form and answers RecipientNotFound.
- Api.HandlePage: one `nowMs` stands for the clock reads of the history check and of `canSend`, which in the code are two reads a moment apart. One `doneMs` stands for both the event's `createdAt` and the time `recordSend` stores.
- SuggestionEngine.BuildSuggestions: the in-place `Array.prototype.sort` is modelled as a stable insertion sort on the sequence (`SortByScore`), not on an array.
- LocationTracker.PresenceStore.UpdateLiveLocation: `updatedAt` is stamped with `nowMs` on every successful update. Whether the save skips the stamp when nothing changed is not modelled.
- AiAgent.RecentFrom: newest first is proved for a log whose `createdAt` never decreases, the order in which events are created.
