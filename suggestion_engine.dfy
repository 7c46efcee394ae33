/** The suggestion engine: four candidate rules scored from presence, page
    history and learned weights, then a stable sort by score, the length
    policy and the public id of each suggestion. */
module SuggestionEngine {
  import opened Common
  import opened SuggestionWeights

  datatype SuggestionKey = PageNearest | ToggleOnAtTime | PageFrequentTarget | ChillReminder

  function KeyName(k: SuggestionKey): string {
    match k
    case PageNearest => "PAGE_NEAREST"
    case ToggleOnAtTime => "TOGGLE_ON_AT_TIME"
    case PageFrequentTarget => "PAGE_FREQUENT_TARGET"
    case ChillReminder => "CHILL_REMINDER"
  }

  /** The position of each rule in the order buildSuggestions evaluates them. */
  function Rank(k: SuggestionKey): nat {
    match k
    case PageNearest => 0
    case ToggleOnAtTime => 1
    case PageFrequentTarget => 2
    case ChillReminder => 3
  }

  /** A position at which the names of two different keys disagree. */
  function FirstDiff(k1: SuggestionKey, k2: SuggestionKey): nat {
    if {k1, k2} == {PageNearest, PageFrequentTarget} then 5 else 0
  }

  lemma KeyNamesDiffer(k1: SuggestionKey, k2: SuggestionKey)
    requires k1 != k2
    ensures FirstDiff(k1, k2) < |KeyName(k1)| && FirstDiff(k1, k2) < |KeyName(k2)|
    ensures KeyName(k1)[FirstDiff(k1, k2)] != KeyName(k2)[FirstDiff(k1, k2)]
  {
  }

  // ---------------------------------------------------------------------------
  // Time of day

  datatype Bucket = LateNight | Morning | Afternoon | Evening

  /** `timeBucket()` with the hour of `new Date().getHours()` passed in. */
  function TimeBucketOf(hour: nat): (b: Bucket)
    ensures b == LateNight <==> hour < 6
    ensures b == Morning <==> 6 <= hour < 12
    ensures b == Afternoon <==> 12 <= hour < 18
    ensures b == Evening <==> 18 <= hour
  {
    if hour < 6 then LateNight
    else if hour < 12 then Morning
    else if hour < 18 then Afternoon
    else Evening
  }

  function BucketName(b: Bucket): string {
    match b
    case LateNight => "late-night"
    case Morning => "morning"
    case Afternoon => "afternoon"
    case Evening => "evening"
  }

  // ---------------------------------------------------------------------------
  // Candidates and suggestions

  /** The tagged action payload: `{type:'page', payload:{toUserId}}` or
      `{type:'availability', payload:{available}}`. */
  datatype SuggestionAction = Page(toUserId: Id) | SetAvailability(available: bool)

  /** The body text; the nearest-peer body prints the distance with toFixed(1). */
  datatype Body = Text(text: string) | KmAway(km: real)

  datatype Candidate = Candidate(
    key: SuggestionKey,
    targetUserId: Option<Id>,
    title: string,
    body: Body,
    ctaLabel: string,
    action: SuggestionAction,
    score: real)

  /** What the client receives: a candidate with an id and without its score. */
  datatype Suggestion = Suggestion(
    id: string,
    key: SuggestionKey,
    targetUserId: Option<Id>,
    title: string,
    body: Body,
    ctaLabel: string,
    action: SuggestionAction)

  /** One row of the page-history aggregate: recipient, send count, last send. */
  datatype TargetCount = TargetCount(toUserId: Id, count: nat, last: int)

  /** The great-circle distance in km between two (lat, lon) points. */
  type Distance = (real, real, real, real) -> real

  ghost predicate NonNegative(dist: Distance) {
    forall a, b, c, d :: dist(a, b, c, d) >= 0.0
  }

  function LearnedWeight(weights: map<string, int>, k: SuggestionKey, t: Option<Id>): int {
    Lookup(weights, KeyName(k), t)
  }

  predicate SelfAvailable(self: Option<Presence>) {
    self.Some? && self.value.available
  }

  predicate SelfLocated(self: Option<Presence>) {
    self.Some? && Truthy(self.value.lat) && Truthy(self.value.lon)
  }

  // ---------------------------------------------------------------------------
  // Nearest available peer

  datatype Nearest = Nearest(user: UserRef, presence: Presence, distanceKm: real)

  /** A listed presence the nearest-peer scan may pick: resolved, not the
      caller, with truthy coordinates. */
  predicate Eligible(me: Id, l: Listed) {
    l.user.Some? && l.user.value.id != me && Truthy(l.presence.lat) && Truthy(l.presence.lon)
  }

  function DistanceTo(lat: real, lon: real, l: Listed, dist: Distance): real
    requires Truthy(l.presence.lat) && Truthy(l.presence.lon)
  {
    dist(lat, lon, l.presence.lat.value, l.presence.lon.value)
  }

  function NearestAt(lat: real, lon: real, l: Listed, dist: Distance): Nearest
    requires l.user.Some? && Truthy(l.presence.lat) && Truthy(l.presence.lon)
  {
    Nearest(l.user.value, l.presence, DistanceTo(lat, lon, l, dist))
  }

  /** One iteration of the forEach: reading `p.userId._id` fails on an
      unresolved user; a strictly closer eligible peer replaces the best. */
  function NearestStep(best: Option<Nearest>, me: Id, lat: real, lon: real, l: Listed, dist: Distance)
    : (r: Result<Option<Nearest>, Failure>)
    ensures r.Err? <==> l.user.None?
    ensures r.Ok? && r.value != best ==>
              && Eligible(me, l) && r.value == Some(NearestAt(lat, lon, l, dist))
              && (best.None? || DistanceTo(lat, lon, l, dist) < best.value.distanceKm)
    ensures Eligible(me, l) && (best.None? || DistanceTo(lat, lon, l, dist) < best.value.distanceKm) ==>
              r == Ok(Some(NearestAt(lat, lon, l, dist)))
  {
    if l.user.None? then Err(NullUserRef)
    else if l.user.value.id == me then Ok(best)
    else if !Truthy(l.presence.lat) || !Truthy(l.presence.lon) then Ok(best)
    else
      var d := DistanceTo(lat, lon, l, dist);
      if best.None? || d < best.value.distanceKm then Ok(Some(NearestAt(lat, lon, l, dist))) else Ok(best)
  }

  /** The scan over the listed presences, left to right. */
  function NearestOf(me: Id, lat: real, lon: real, ps: seq<Listed>, dist: Distance)
    : (r: Result<Option<Nearest>, Failure>)
    ensures r.Ok? && r.value.Some? ==>
              r.value.value.user.id != me && Truthy(r.value.value.presence.lat) && Truthy(r.value.value.presence.lon)
    decreases |ps|
  {
    if ps == [] then Ok(None)
    else
      match NearestOf(me, lat, lon, ps[..|ps| - 1], dist)
      case Err(e) => Err(e)
      case Ok(best) => NearestStep(best, me, lat, lon, ps[|ps| - 1], dist)
  }

  /** Some listed presence has no resolved user. */
  predicate AnyUnresolved(ps: seq<Listed>) {
    exists j :: 0 <= j < |ps| && ps[j].user.None?
  }

  /** The scan fails exactly when some listed presence has no resolved user. */
  lemma {:induction false} NearestFailsIffUnresolved(me: Id, lat: real, lon: real, ps: seq<Listed>, dist: Distance)
    ensures NearestOf(me, lat, lon, ps, dist).Err? <==> exists j :: 0 <= j < |ps| && ps[j].user.None?
    decreases |ps|
  {
    if ps != [] {
      var n := |ps| - 1;
      NearestFailsIffUnresolved(me, lat, lon, ps[..n], dist);
      if exists j :: 0 <= j < n && ps[..n][j].user.None? {
        var j :| 0 <= j < n && ps[..n][j].user.None?;
        assert ps[j].user.None?;
      }
      if exists j :: 0 <= j < |ps| && ps[j].user.None? {
        var j :| 0 <= j < |ps| && ps[j].user.None?;
        if j < n { assert ps[..n][j].user.None?; }
      }
    }
  }

  /** The picked peer is eligible, no eligible peer is closer, and every
      eligible peer before it is strictly farther (first encountered wins
      ties); nothing is picked only when no peer is eligible. */
  lemma {:induction false} NearestIsFirstMinimum(me: Id, lat: real, lon: real, ps: seq<Listed>, dist: Distance)
    returns (i: nat)
    requires NearestOf(me, lat, lon, ps, dist).Ok?
    ensures NearestOf(me, lat, lon, ps, dist).value.None? <==> forall j :: 0 <= j < |ps| ==> !Eligible(me, ps[j])
    ensures NearestOf(me, lat, lon, ps, dist).value.Some? ==>
              && i < |ps| && Eligible(me, ps[i])
              && NearestOf(me, lat, lon, ps, dist).value.value == NearestAt(lat, lon, ps[i], dist)
              && (forall j :: 0 <= j < |ps| && Eligible(me, ps[j]) ==>
                    DistanceTo(lat, lon, ps[i], dist) <= DistanceTo(lat, lon, ps[j], dist))
              && (forall j :: 0 <= j < i && Eligible(me, ps[j]) ==>
                    DistanceTo(lat, lon, ps[i], dist) < DistanceTo(lat, lon, ps[j], dist))
    decreases |ps|
  {
    if ps == [] {
      return 0;
    }
    var n := |ps| - 1;
    var prefix := ps[..n];
    var i0 := NearestIsFirstMinimum(me, lat, lon, prefix, dist);
    var prev := NearestOf(me, lat, lon, prefix, dist).value;
    var l := ps[n];
    assert forall j :: 0 <= j < n ==> prefix[j] == ps[j];
    if !Eligible(me, l) {
      i := i0;
    } else if prev.None? || DistanceTo(lat, lon, l, dist) < prev.value.distanceKm {
      i := n;
    } else {
      i := i0;
    }
  }

  /** The forEach of buildSuggestions as a loop; it stops at the first
      presence whose user did not resolve, as the thrown TypeError does. */
  method FindNearest(me: Id, lat: real, lon: real, ps: seq<Listed>, dist: Distance)
    returns (r: Result<Option<Nearest>, Failure>)
    ensures r == NearestOf(me, lat, lon, ps, dist)
  {
    var nearest: Option<Nearest> := None;
    var i := 0;
    while i < |ps|
      invariant 0 <= i <= |ps|
      invariant NearestOf(me, lat, lon, ps[..i], dist) == Ok(nearest)
    {
      assert ps[..i + 1][..i] == ps[..i];
      var p := ps[i];
      if p.user.None? {
        assert ps[i].user.None?;
        NearestFailsIffUnresolved(me, lat, lon, ps, dist);
        assert NearestOf(me, lat, lon, ps, dist).error == NullUserRef;
        return Err(NullUserRef);
      }
      if p.user.value.id != me && Truthy(p.presence.lat) && Truthy(p.presence.lon) {
        var d := DistanceTo(lat, lon, p, dist);
        if nearest.None? || d < nearest.value.distanceKm {
          nearest := Some(Nearest(p.user.value, p.presence, d));
        }
      }
      i := i + 1;
    }
    assert ps[..i] == ps;
    r := Ok(nearest);
  }

  // ---------------------------------------------------------------------------
  // The four candidate rules

  /** Pages the nearest peer, scored by `NearestScore`. */
  function NearestCandidate(n: Nearest, weights: map<string, int>): (c: Candidate)
    ensures c.key == PageNearest && c.targetUserId == Some(n.user.id) && c.action == Page(n.user.id)
  {
    var w := LearnedWeight(weights, PageNearest, Some(n.user.id));
    Candidate(PageNearest, Some(n.user.id), "Page " + DisplayName(n.user), KmAway(n.distanceKm),
              "Send Page", Page(n.user.id), 6.0 + w as real + Max(0.0, 2.0 - n.distanceKm))
  }

  /** Offers to go available; 5 above the learned weight by day, 3 otherwise. */
  function ToggleCandidate(weights: map<string, int>, bucket: Bucket): (c: Candidate)
    ensures c.key == ToggleOnAtTime && c.targetUserId.None? && c.action == SetAvailability(true)
    ensures var w := LearnedWeight(weights, ToggleOnAtTime, None) as real;
      c.score == w + (if bucket == Morning || bucket == Afternoon then 5.0 else 3.0)
  {
    var base := if bucket == Morning || bucket == Afternoon then 5 else 3;
    var w := LearnedWeight(weights, ToggleOnAtTime, None);
    Candidate(ToggleOnAtTime, None, "Go Available for friends",
              Text("It is " + BucketName(bucket) + "; flip yourself on so friends can find you."),
              "Set Available", SetAvailability(true), (base + w) as real)
  }

  /** Pages the most-paged recipient, scored by `FrequentScore`. */
  function FrequentCandidate(weights: map<string, int>, top: TargetCount, u: UserRef): (c: Candidate)
    ensures c.key == PageFrequentTarget && c.targetUserId == Some(u.id) && c.action == Page(u.id)
  {
    var w := LearnedWeight(weights, PageFrequentTarget, Some(u.id));
    Candidate(PageFrequentTarget, Some(u.id), "Ping " + DisplayName(u) + " again",
              Text("You chat often\U{E2}\U{20AC}\U{201D}send a quick page?"), "Page", Page(u.id),
              4.0 + w as real + Min(2.0, top.count as real / 3.0))
  }

  /** The nearest-peer score: 6 above the learned weight, plus up to 2 the
      closer the peer is than 2 km. */
  lemma NearestScore(n: Nearest, weights: map<string, int>)
    ensures var w := LearnedWeight(weights, PageNearest, Some(n.user.id)) as real;
      var c := NearestCandidate(n, weights);
      && (n.distanceKm >= 0.0 ==> w + 6.0 <= c.score <= w + 8.0)
      && (n.distanceKm >= 2.0 ==> c.score == w + 6.0)
      && (n.distanceKm < 2.0 ==> c.score == w + 8.0 - n.distanceKm)
  {
  }

  /** For the same peer, a shorter distance never scores lower, and below
      2 km a strictly shorter one scores strictly higher. */
  lemma NearestScoreMonotone(n1: Nearest, n2: Nearest, weights: map<string, int>)
    requires n1.user == n2.user && n1.distanceKm <= n2.distanceKm
    ensures NearestCandidate(n1, weights).score >= NearestCandidate(n2, weights).score
    ensures n1.distanceKm < n2.distanceKm && n1.distanceKm < 2.0 ==>
      NearestCandidate(n1, weights).score > NearestCandidate(n2, weights).score
  {
  }

  /** The frequent-target score: 4 above the learned weight, plus a third of
      the send count up to 2. */
  lemma FrequentScore(weights: map<string, int>, top: TargetCount, u: UserRef)
    ensures var w := LearnedWeight(weights, PageFrequentTarget, Some(u.id)) as real;
      var c := FrequentCandidate(weights, top, u);
      && w + 4.0 <= c.score <= w + 6.0
      && (top.count >= 6 ==> c.score == w + 6.0)
      && (top.count < 6 ==> c.score == w + 4.0 + top.count as real / 3.0)
  {
  }

  /** For the same recipient, more sends never score lower, and below six
      sends a strictly larger count scores strictly higher. */
  lemma FrequentScoreMonotone(weights: map<string, int>, t1: TargetCount, t2: TargetCount, u: UserRef)
    requires t1.count <= t2.count
    ensures FrequentCandidate(weights, t1, u).score <= FrequentCandidate(weights, t2, u).score
    ensures t1.count < t2.count && t1.count < 6 ==>
      FrequentCandidate(weights, t1, u).score < FrequentCandidate(weights, t2, u).score
  {
  }

  /** Offers to go hidden; 2 above the learned weight, 3 in the evening. */
  function ChillCandidate(weights: map<string, int>, bucket: Bucket): (c: Candidate)
    ensures c.key == ChillReminder && c.targetUserId.None? && c.action == SetAvailability(false)
    ensures var w := LearnedWeight(weights, ChillReminder, None) as real;
      c.score == w + (if bucket == Evening then 3.0 else 2.0)
  {
    var w := LearnedWeight(weights, ChillReminder, None);
    Candidate(ChillReminder, None, "Take a breather", Text("Set yourself to hidden for a bit."),
              "Go Hidden", SetAvailability(false), 2.0 + w as real + (if bucket == Evening then 1.0 else 0.0))
  }

  /** PAGE_NEAREST fires when there are listed peers, the caller has truthy
      coordinates and the scan picks someone. */
  function NearestRule(me: Id, weights: map<string, int>, self: Option<Presence>, others: seq<Listed>,
                       dist: Distance): (r: Result<seq<Candidate>, Failure>)
    ensures r.Err? <==> |others| > 0 && SelfLocated(self) && AnyUnresolved(others)
    ensures r.Ok? ==> |r.value| <= 1 && (r.value != [] ==> r.value[0].key == PageNearest)
    ensures r.Ok? && r.value != [] ==> |others| > 0 && SelfLocated(self)
  {
    if |others| > 0 && SelfLocated(self) then
      NearestFailsIffUnresolved(me, self.value.lat.value, self.value.lon.value, others, dist);
      match NearestOf(me, self.value.lat.value, self.value.lon.value, others, dist)
      case Err(e) => Err(e)
      case Ok(None) => Ok([])
      case Ok(Some(n)) => Ok([NearestCandidate(n, weights)])
    else Ok([])
  }

  /** TOGGLE_ON_AT_TIME fires when the caller has no presence or is unavailable. */
  function ToggleRule(weights: map<string, int>, self: Option<Presence>, bucket: Bucket): (r: seq<Candidate>)
    ensures r != [] <==> !SelfAvailable(self)
    ensures |r| <= 1 && (r != [] ==> r[0].key == ToggleOnAtTime)
  {
    if !SelfAvailable(self) then [ToggleCandidate(weights, bucket)] else []
  }

  /** PAGE_FREQUENT_TARGET fires when the caller has paged before and the top
      recipient of the aggregate still exists. */
  function FrequentRule(weights: map<string, int>, recent: seq<TargetCount>, users: map<Id, UserRef>)
    : (r: seq<Candidate>)
    ensures r != [] <==> |recent| > 0 && recent[0].toUserId in users
    ensures |r| <= 1 && (r != [] ==> r[0].key == PageFrequentTarget)
    ensures r != [] ==> r[0].targetUserId == Some(users[recent[0].toUserId].id)
  {
    if |recent| > 0 && recent[0].toUserId in users
    then [FrequentCandidate(weights, recent[0], users[recent[0].toUserId])]
    else []
  }

  /** CHILL_REMINDER fires when the caller is available. */
  function ChillRule(weights: map<string, int>, self: Option<Presence>, bucket: Bucket): (r: seq<Candidate>)
    ensures r != [] <==> SelfAvailable(self)
    ensures |r| <= 1 && (r != [] ==> r[0].key == ChillReminder)
  {
    if SelfAvailable(self) then [ChillCandidate(weights, bucket)] else []
  }

  /** The candidates array in push order. `recent` is the aggregate over the
      caller's page history, sorted by count and then last send, both descending. */
  function Candidates(me: Id, weights: map<string, int>, self: Option<Presence>, others: seq<Listed>,
                      recent: seq<TargetCount>, users: map<Id, UserRef>, hour: nat, dist: Distance)
    : (r: Result<seq<Candidate>, Failure>)
    ensures r.Err? <==> |others| > 0 && SelfLocated(self) && AnyUnresolved(others)
  {
    var bucket := TimeBucketOf(hour);
    match NearestRule(me, weights, self, others, dist)
    case Err(e) => Err(e)
    case Ok(nearest) =>
      Ok(nearest + ToggleRule(weights, self, bucket) + FrequentRule(weights, recent, users)
         + ChillRule(weights, self, bucket))
  }

  // ---------------------------------------------------------------------------
  // Ranking

  /** `candidates.sort((a, b) => b.score - a.score)`, a stable sort: each
      element goes before the first later element whose score is not higher. */
  function Insert(c: Candidate, s: seq<Candidate>): (r: seq<Candidate>)
    ensures multiset(r) == multiset{c} + multiset(s)
  {
    if s == [] || c.score >= s[0].score then [c] + s
    else
      assert s == [s[0]] + s[1..];
      [s[0]] + Insert(c, s[1..])
  }

  function SortByScore(cs: seq<Candidate>): (r: seq<Candidate>)
    ensures multiset(r) == multiset(cs)
  {
    if cs == [] then []
    else
      assert cs == [cs[0]] + cs[1..];
      Insert(cs[0], SortByScore(cs[1..]))
  }

  /** Every rule pushes at most once, in evaluation order. */
  predicate RanksIncreasing(cs: seq<Candidate>) {
    forall i, j :: 0 <= i < j < |cs| ==> Rank(cs[i].key) < Rank(cs[j].key)
  }

  /** Higher score first; on equal scores the earlier rule first. */
  predicate Precedes(a: Candidate, b: Candidate) {
    a.score > b.score || (a.score == b.score && Rank(a.key) < Rank(b.key))
  }

  predicate RankedOrder(cs: seq<Candidate>) {
    forall i, j :: 0 <= i < j < |cs| ==> Precedes(cs[i], cs[j])
  }

  /** A candidate that precedes every element of a ranked list may lead it. */
  lemma PrependRanked(a: Candidate, rest: seq<Candidate>)
    requires RankedOrder(rest)
    requires forall x :: x in rest ==> Precedes(a, x)
    ensures RankedOrder([a] + rest)
  {
    var r := [a] + rest;
    forall i, j | 0 <= i < j < |r| ensures Precedes(r[i], r[j]) {
      if i == 0 {
        assert r[j] in rest;
      } else {
        assert r[i] == rest[i - 1] && r[j] == rest[j - 1];
      }
    }
  }

  lemma {:induction false} InsertRanked(c: Candidate, s: seq<Candidate>)
    requires RankedOrder(s)
    requires forall k :: 0 <= k < |s| ==> Rank(c.key) < Rank(s[k].key)
    ensures multiset(Insert(c, s)) == multiset{c} + multiset(s)
    ensures RankedOrder(Insert(c, s))
    decreases |s|
  {
    if s == [] || c.score >= s[0].score {
      assert Insert(c, s) == [c] + s;
      forall x | x in s ensures Precedes(c, x) {
        var k :| 0 <= k < |s| && s[k] == x;
        if k > 0 {
          assert Precedes(s[0], s[k]);
        }
      }
      PrependRanked(c, s);
    } else {
      var head, tail := s[0], s[1..];
      assert s == [head] + tail;
      assert RankedOrder(tail) by {
        forall a, b | 0 <= a < b < |tail| ensures Precedes(tail[a], tail[b]) {
          assert tail[a] == s[a + 1] && tail[b] == s[b + 1];
        }
      }
      InsertRanked(c, tail);
      var rest := Insert(c, tail);
      assert Insert(c, s) == [head] + rest;
      forall x | x in rest ensures Precedes(head, x) {
        assert x in multiset(rest);
        if x != c {
          assert x in multiset(tail);
          var m :| 0 <= m < |tail| && tail[m] == x;
          assert s[m + 1] == x;
        }
      }
      PrependRanked(head, rest);
    }
  }

  /** The sort keeps every candidate and leaves them in score order, equal
      scores in rule order. */
  lemma {:induction false} SortRanked(cs: seq<Candidate>)
    requires RanksIncreasing(cs)
    ensures multiset(SortByScore(cs)) == multiset(cs)
    ensures RankedOrder(SortByScore(cs))
    decreases |cs|
  {
    if cs != [] {
      var head, rest := cs[0], cs[1..];
      assert RanksIncreasing(rest) by {
        forall a, b | 0 <= a < b < |rest| ensures Rank(rest[a].key) < Rank(rest[b].key) {
          assert rest[a] == cs[a + 1] && rest[b] == cs[b + 1];
        }
      }
      SortRanked(rest);
      var tail := SortByScore(rest);
      forall k | 0 <= k < |tail| ensures Rank(head.key) < Rank(tail[k].key) {
        assert tail[k] in multiset(rest);
        var m :| 0 <= m < |rest| && rest[m] == tail[k];
        assert cs[m + 1] == tail[k];
      }
      InsertRanked(head, tail);
    }
  }

  /** `slice(0, Math.max(2, Math.min(4, candidates.length)))`. */
  function Trim(cs: seq<Candidate>): (r: seq<Candidate>)
    ensures |r| == if |cs| < 4 then |cs| else 4
    ensures r == cs[..|r|]
  {
    var k := if |cs| < 4 then (if |cs| > 2 then |cs| else 2) else 4;
    if k >= |cs| then cs else cs[..k]
  }

  /** The id `${suggestionKey}-${targetUserId || idx}`. */
  function SuggestionId(c: Candidate, idx: nat): string {
    KeyName(c.key) + "-" + (if c.targetUserId.Some? then c.targetUserId.value else NatToString(idx))
  }

  function Publish(cs: seq<Candidate>): seq<Suggestion> {
    seq(|cs|, i requires 0 <= i < |cs| =>
      Suggestion(SuggestionId(cs[i], i), cs[i].key, cs[i].targetUserId, cs[i].title, cs[i].body,
                 cs[i].ctaLabel, cs[i].action))
  }

  /** `buildSuggestions` as a function of its inputs. */
  function Suggest(me: Id, weights: map<string, int>, self: Option<Presence>, others: seq<Listed>,
                   recent: seq<TargetCount>, users: map<Id, UserRef>, hour: nat, dist: Distance)
    : Result<seq<Suggestion>, Failure>
  {
    match Candidates(me, weights, self, others, recent, users, hour, dist)
    case Err(e) => Err(e)
    case Ok(cs) => Ok(Publish(Trim(SortByScore(cs))))
  }

  /** The PAGE_NEAREST rule, once the nearest-peer scan has succeeded. */
  lemma NearestRuleFromScan(me: Id, weights: map<string, int>, self: Option<Presence>, others: seq<Listed>,
                            dist: Distance, scan: Option<Nearest>)
    requires |others| > 0 && SelfLocated(self)
    requires NearestOf(me, self.value.lat.value, self.value.lon.value, others, dist) == Ok(scan)
    ensures NearestRule(me, weights, self, others, dist)
              == Ok(if scan.Some? then [NearestCandidate(scan.value, weights)] else [])
  {
  }

  /** The PAGE_NEAREST push: scan only with peers and caller coordinates. */
  method PushNearest(me: Id, weights: map<string, int>, self: Option<Presence>, others: seq<Listed>,
                     dist: Distance)
    returns (r: Result<seq<Candidate>, Failure>)
    ensures r == NearestRule(me, weights, self, others, dist)
  {
    if |others| > 0 && SelfLocated(self) {
      var nearest := FindNearest(me, self.value.lat.value, self.value.lon.value, others, dist);
      if nearest.Err? {
        return Err(nearest.error);
      }
      NearestRuleFromScan(me, weights, self, others, dist, nearest.value);
      if nearest.value.Some? {
        return Ok([NearestCandidate(nearest.value.value, weights)]);
      }
    }
    r := Ok([]);
  }

  /** The four rules of buildSuggestions, each pushing onto the candidates
      array; the nearest-peer scan's TypeError ends the request. */
  method PushCandidates(me: Id, weights: map<string, int>, self: Option<Presence>, others: seq<Listed>,
                        recent: seq<TargetCount>, users: map<Id, UserRef>, hour: nat, dist: Distance)
    returns (r: Result<seq<Candidate>, Failure>)
    ensures r == Candidates(me, weights, self, others, recent, users, hour, dist)
  {
    var bucket := TimeBucketOf(hour);
    var nearest := PushNearest(me, weights, self, others, dist);
    if nearest.Err? {
      return Err(nearest.error);
    }
    var candidates := nearest.value;
    ghost var nearestPart := candidates;
    if !SelfAvailable(self) {
      candidates := candidates + [ToggleCandidate(weights, bucket)];
    }
    ToggleOrNot(nearestPart, candidates, weights, self, bucket);
    ghost var upToToggle := candidates;
    if |recent| > 0 {
      var top := recent[0];
      if top.toUserId in users {
        candidates := candidates + [FrequentCandidate(weights, top, users[top.toUserId])];
      }
    }
    FrequentOrNot(upToToggle, candidates, weights, recent, users);
    ghost var upToFrequent := candidates;
    if SelfAvailable(self) {
      candidates := candidates + [ChillCandidate(weights, bucket)];
    }
    ChillOrNot(upToFrequent, candidates, weights, self, bucket);
    CandidatesFromNearest(me, weights, self, others, recent, users, hour, dist, nearestPart);
    r := Ok(candidates);
  }

  /** The go-available push appends exactly what its rule yields. */
  lemma ToggleOrNot(before: seq<Candidate>, after: seq<Candidate>, weights: map<string, int>,
                    self: Option<Presence>, bucket: Bucket)
    requires !SelfAvailable(self) ==> after == before + [ToggleCandidate(weights, bucket)]
    requires SelfAvailable(self) ==> after == before
    ensures after == before + ToggleRule(weights, self, bucket)
  {
    if SelfAvailable(self) {
      assert before + [] == before;
    }
  }

  /** The frequent-target push appends exactly what its rule yields. */
  lemma FrequentOrNot(before: seq<Candidate>, after: seq<Candidate>, weights: map<string, int>,
                      recent: seq<TargetCount>, users: map<Id, UserRef>)
    requires |recent| > 0 && recent[0].toUserId in users ==>
               after == before + [FrequentCandidate(weights, recent[0], users[recent[0].toUserId])]
    requires !(|recent| > 0 && recent[0].toUserId in users) ==> after == before
    ensures after == before + FrequentRule(weights, recent, users)
  {
    if !(|recent| > 0 && recent[0].toUserId in users) {
      assert before + [] == before;
    }
  }

  /** The chill push appends exactly what its rule yields. */
  lemma ChillOrNot(before: seq<Candidate>, after: seq<Candidate>, weights: map<string, int>,
                   self: Option<Presence>, bucket: Bucket)
    requires SelfAvailable(self) ==> after == before + [ChillCandidate(weights, bucket)]
    requires !SelfAvailable(self) ==> after == before
    ensures after == before + ChillRule(weights, self, bucket)
  {
    if !SelfAvailable(self) {
      assert before + [] == before;
    }
  }

  /** Candidates, once the PAGE_NEAREST rule has produced `nearest`. */
  lemma CandidatesFromNearest(me: Id, weights: map<string, int>, self: Option<Presence>, others: seq<Listed>,
                              recent: seq<TargetCount>, users: map<Id, UserRef>, hour: nat, dist: Distance,
                              nearest: seq<Candidate>)
    requires NearestRule(me, weights, self, others, dist) == Ok(nearest)
    ensures var bucket := TimeBucketOf(hour);
      Candidates(me, weights, self, others, recent, users, hour, dist)
        == Ok(nearest + ToggleRule(weights, self, bucket) + FrequentRule(weights, recent, users)
              + ChillRule(weights, self, bucket))
  {
  }

  /** buildSuggestions: fills the weight map, runs the four rules pushing into
      the candidates array, sorts, slices and publishes. */
  method BuildSuggestions(me: Id, rows: seq<WeightRow>, self: Option<Presence>, others: seq<Listed>,
                          recent: seq<TargetCount>, users: map<Id, UserRef>, hour: nat, dist: Distance)
    returns (r: Result<seq<Suggestion>, Failure>)
    ensures r == Suggest(me, WeightsFromRows(rows), self, others, recent, users, hour, dist)
  {
    var weights := GetWeightsByKey(rows);
    var candidates := PushCandidates(me, weights, self, others, recent, users, hour, dist);
    if candidates.Err? {
      return Err(candidates.error);
    }
    var sorted := SortByScore(candidates.value);
    r := Ok(Publish(Trim(sorted)));
  }

  // ---------------------------------------------------------------------------
  // Properties of the list

  function Keys(cs: seq<Candidate>): seq<SuggestionKey> {
    seq(|cs|, i requires 0 <= i < |cs| => cs[i].key)
  }

  /** The rank each position of `n + t + f + c` holds when every part has at
      most one candidate of its own rule. */
  function Segment(i: nat, n: nat, t: nat, f: nat): nat {
    if i < n then 0 else if i < n + t then 1 else if i < n + t + f then 2 else 3
  }

  /** Each position of `n + t + f + c` carries the rank of the part it falls in. */
  lemma PartsRank(n: seq<Candidate>, t: seq<Candidate>, f: seq<Candidate>, c: seq<Candidate>)
    requires |n| <= 1 && |t| <= 1 && |f| <= 1 && |c| <= 1
    requires n != [] ==> n[0].key == PageNearest
    requires t != [] ==> t[0].key == ToggleOnAtTime
    requires f != [] ==> f[0].key == PageFrequentTarget
    requires c != [] ==> c[0].key == ChillReminder
    ensures var cs := n + t + f + c;
      forall i :: 0 <= i < |cs| ==> Rank(cs[i].key) == Segment(i, |n|, |t|, |f|)
  {
    var cs := n + t + f + c;
    forall i | 0 <= i < |cs| ensures Rank(cs[i].key) == Segment(i, |n|, |t|, |f|) {
      if i < |n| {
        assert cs[i] == n[i];
      } else if i < |n| + |t| {
        assert cs[i] == t[i - |n|];
      } else if i < |n| + |t| + |f| {
        assert cs[i] == f[i - |n| - |t|];
      } else {
        assert cs[i] == c[i - |n| - |t| - |f|];
      }
    }
  }

  lemma PartsShape(n: seq<Candidate>, t: seq<Candidate>, f: seq<Candidate>, c: seq<Candidate>)
    requires |n| <= 1 && |f| <= 1 && |t| + |c| == 1
    requires n != [] ==> n[0].key == PageNearest
    requires t != [] ==> t[0].key == ToggleOnAtTime
    requires f != [] ==> f[0].key == PageFrequentTarget
    requires c != [] ==> c[0].key == ChillReminder
    ensures var cs := n + t + f + c;
      && 1 <= |cs| <= 3
      && RanksIncreasing(cs)
      && (ToggleOnAtTime in Keys(cs) <==> t != [])
      && (ChillReminder in Keys(cs) <==> c != [])
      && (PageFrequentTarget in Keys(cs) <==> f != [])
      && (PageNearest in Keys(cs) <==> n != [])
  {
    var cs := n + t + f + c;
    var keys := Keys(cs);
    PartsRank(n, t, f, c);
    assert RanksIncreasing(cs) by {
      forall i, j | 0 <= i < j < |cs| ensures Rank(cs[i].key) < Rank(cs[j].key) {
        assert Segment(i, |n|, |t|, |f|) < Segment(j, |n|, |t|, |f|);
      }
    }
    assert forall i :: 0 <= i < |cs| ==> keys[i] == cs[i].key;
    if n != [] { assert keys[0] == PageNearest; }
    if t != [] { assert keys[|n|] == ToggleOnAtTime; }
    if f != [] { assert keys[|n| + |t|] == PageFrequentTarget; }
    if c != [] { assert keys[|n| + |t| + |f|] == ChillReminder; }
  }

  /** At most one candidate per rule, in rule order, and exactly one of
      TOGGLE_ON_AT_TIME / CHILL_REMINDER: so between one and three candidates. */
  lemma CandidatesShape(me: Id, weights: map<string, int>, self: Option<Presence>, others: seq<Listed>,
                        recent: seq<TargetCount>, users: map<Id, UserRef>, hour: nat, dist: Distance)
    requires Candidates(me, weights, self, others, recent, users, hour, dist).Ok?
    ensures var cs := Candidates(me, weights, self, others, recent, users, hour, dist).value;
      && 1 <= |cs| <= 3
      && RanksIncreasing(cs)
      && (ToggleOnAtTime in Keys(cs) <==> !SelfAvailable(self))
      && (ChillReminder in Keys(cs) <==> SelfAvailable(self))
      && (PageFrequentTarget in Keys(cs) <==> |recent| > 0 && recent[0].toUserId in users)
      && (PageNearest in Keys(cs) ==> |others| > 0 && SelfLocated(self))
  {
    var bucket := TimeBucketOf(hour);
    var n := NearestRule(me, weights, self, others, dist).value;
    PartsShape(n, ToggleRule(weights, self, bucket), FrequentRule(weights, recent, users), ChillRule(weights, self, bucket));
  }

  /** The published list is the whole ranked candidate list: the slice never
      drops anything, the order is by score with ties in rule order, and the
      list has between one and three suggestions. */
  lemma SuggestRanked(me: Id, weights: map<string, int>, self: Option<Presence>, others: seq<Listed>,
                      recent: seq<TargetCount>, users: map<Id, UserRef>, hour: nat, dist: Distance)
    requires Candidates(me, weights, self, others, recent, users, hour, dist).Ok?
    ensures var cs := Candidates(me, weights, self, others, recent, users, hour, dist).value;
      var ranked := SortByScore(cs);
      && multiset(ranked) == multiset(cs)
      && RankedOrder(ranked)
      && Suggest(me, weights, self, others, recent, users, hour, dist) == Ok(Publish(ranked))
      && 1 <= |Publish(ranked)| == |cs| <= 3
  {
    var cs := Candidates(me, weights, self, others, recent, users, hour, dist).value;
    CandidatesShape(me, weights, self, others, recent, users, hour, dist);
    SortRanked(cs);
    var ranked := SortByScore(cs);
    assert |ranked| == |multiset(ranked)| == |multiset(cs)| == |cs|;
  }

  predicate DistinctKeys(cs: seq<Candidate>) {
    forall i, j :: 0 <= i < j < |cs| ==> cs[i].key != cs[j].key
  }

  /** Sorting a list with one candidate per rule keeps one candidate per rule. */
  lemma SortedKeysDistinct(cs: seq<Candidate>, ranked: seq<Candidate>)
    requires RanksIncreasing(cs) && multiset(ranked) == multiset(cs) && RankedOrder(ranked)
    ensures DistinctKeys(ranked)
  {
    forall i, j | 0 <= i < j < |ranked| ensures ranked[i].key != ranked[j].key {
      assert Precedes(ranked[i], ranked[j]);
      assert ranked[i] in multiset(cs) && ranked[j] in multiset(cs);
      var a :| 0 <= a < |cs| && cs[a] == ranked[i];
      var b :| 0 <= b < |cs| && cs[b] == ranked[j];
      if a < b {
        assert Rank(cs[a].key) < Rank(cs[b].key);
      } else if b < a {
        assert Rank(cs[b].key) < Rank(cs[a].key);
      }
    }
  }

  /** Distinct keys give distinct ids: the key names differ inside both names. */
  lemma IdsDistinct(cs: seq<Candidate>)
    requires DistinctKeys(cs)
    ensures forall i, j :: 0 <= i < j < |cs| ==> Publish(cs)[i].id != Publish(cs)[j].id
  {
    forall i, j | 0 <= i < j < |cs| ensures Publish(cs)[i].id != Publish(cs)[j].id {
      var k1, k2 := cs[i].key, cs[j].key;
      KeyNamesDiffer(k1, k2);
      var p := FirstDiff(k1, k2);
      assert Publish(cs)[i].id[p] == KeyName(k1)[p];
      assert Publish(cs)[j].id[p] == KeyName(k2)[p];
    }
  }

  /** The ids of the published suggestions are pairwise distinct. */
  lemma SuggestIdsDistinct(me: Id, weights: map<string, int>, self: Option<Presence>, others: seq<Listed>,
                           recent: seq<TargetCount>, users: map<Id, UserRef>, hour: nat, dist: Distance)
    requires Suggest(me, weights, self, others, recent, users, hour, dist).Ok?
    ensures var list := Suggest(me, weights, self, others, recent, users, hour, dist).value;
      forall i, j :: 0 <= i < j < |list| ==> list[i].id != list[j].id
  {
    var cs := Candidates(me, weights, self, others, recent, users, hour, dist).value;
    SuggestRanked(me, weights, self, others, recent, users, hour, dist);
    CandidatesShape(me, weights, self, others, recent, users, hour, dist);
    var ranked := SortByScore(cs);
    SortedKeysDistinct(cs, ranked);
    IdsDistinct(ranked);
  }

  /** The score band of each rule, above the candidate's learned weight. */
  predicate InBand(weights: map<string, int>, bucket: Bucket, c: Candidate) {
    var w := LearnedWeight(weights, c.key, c.targetUserId) as real;
    && (c.key == PageNearest ==> w + 6.0 <= c.score <= w + 8.0)
    && (c.key == ToggleOnAtTime ==> c.score == w + (if bucket == Morning || bucket == Afternoon then 5.0 else 3.0))
    && (c.key == PageFrequentTarget ==> w + 4.0 <= c.score <= w + 6.0)
    && (c.key == ChillReminder ==> c.score == w + (if bucket == Evening then 3.0 else 2.0))
  }

  /** The nearest-peer candidate earns 6 to 8 above its weight, since a
      distance is never negative. */
  lemma NearestInBand(me: Id, weights: map<string, int>, self: Option<Presence>, others: seq<Listed>,
                      dist: Distance, bucket: Bucket, c: Candidate)
    requires NonNegative(dist)
    requires NearestRule(me, weights, self, others, dist).Ok?
    requires c in NearestRule(me, weights, self, others, dist).value
    ensures InBand(weights, bucket, c)
  {
    var lat, lon := self.value.lat.value, self.value.lon.value;
    var i := NearestIsFirstMinimum(me, lat, lon, others, dist);
    var picked := NearestAt(lat, lon, others[i], dist);
    assert c == NearestCandidate(picked, weights);
    assert picked.distanceKm >= 0.0;
    NearestScore(picked, weights);
  }

  /** Each candidate's score sits in a fixed band above its learned weight. */
  lemma ScoreBand(me: Id, weights: map<string, int>, self: Option<Presence>, others: seq<Listed>,
                  recent: seq<TargetCount>, users: map<Id, UserRef>, hour: nat, dist: Distance, c: Candidate)
    requires NonNegative(dist)
    requires Candidates(me, weights, self, others, recent, users, hour, dist).Ok?
    requires c in Candidates(me, weights, self, others, recent, users, hour, dist).value
    ensures InBand(weights, TimeBucketOf(hour), c)
  {
    var bucket := TimeBucketOf(hour);
    var n := NearestRule(me, weights, self, others, dist).value;
    var t, f, ch := ToggleRule(weights, self, bucket), FrequentRule(weights, recent, users), ChillRule(weights, self, bucket);
    CandidatesFromNearest(me, weights, self, others, recent, users, hour, dist, n);
    InParts(c, n, t, f, ch);
    if c in n {
      NearestInBand(me, weights, self, others, dist, bucket, c);
    } else if c in t {
      assert c == ToggleCandidate(weights, bucket);
    } else if c in f {
      FrequentScore(weights, recent[0], users[recent[0].toUserId]);
      assert c == FrequentCandidate(weights, recent[0], users[recent[0].toUserId]);
    } else {
      assert c == ChillCandidate(weights, bucket);
    }
  }

  /** A member of `n + t + f + c` is a member of one of the four parts. */
  lemma InParts(x: Candidate, n: seq<Candidate>, t: seq<Candidate>, f: seq<Candidate>, c: seq<Candidate>)
    requires x in n + t + f + c
    ensures x in n || x in t || x in f || x in c
  {
  }

  /** PAGE_NEAREST fires whenever the caller has truthy coordinates, every
      listed user resolves and some listed peer is eligible. */
  lemma NearestFires(me: Id, weights: map<string, int>, self: Option<Presence>, others: seq<Listed>,
                     recent: seq<TargetCount>, users: map<Id, UserRef>, hour: nat, dist: Distance, j: nat)
    requires SelfLocated(self)
    requires forall k :: 0 <= k < |others| ==> others[k].user.Some?
    requires j < |others| && Eligible(me, others[j])
    ensures Candidates(me, weights, self, others, recent, users, hour, dist).Ok?
    ensures PageNearest in Keys(Candidates(me, weights, self, others, recent, users, hour, dist).value)
  {
    var lat, lon := self.value.lat.value, self.value.lon.value;
    NearestFailsIffUnresolved(me, lat, lon, others, dist);
    var i := NearestIsFirstMinimum(me, lat, lon, others, dist);
    assert NearestOf(me, lat, lon, others, dist).value.Some?;
    CandidatesShape(me, weights, self, others, recent, users, hour, dist);
    var cs := Candidates(me, weights, self, others, recent, users, hour, dist).value;
    assert Keys(cs)[0] == PageNearest;
  }

  /** A caller at latitude 0 or longitude 0 reads as having no location: an
      available caller at (0, 0) with one available peer at (1, 1), no pages
      and no weights gets the chill reminder alone, with id `CHILL_REMINDER-0`. */
  lemma ZeroOriginScenario(dist: Distance, hour: nat)
    ensures var me, peer := "a", "b";
      var self := Some(Presence(me, true, Some(0.0), Some(0.0), None, 0));
      var others := [Listed(Some(UserRef(peer, Some("B"), "b@x")), Presence(peer, true, Some(1.0), Some(1.0), None, 0))];
      var r := Suggest(me, map[], self, others, [], map[], hour, dist);
      r.Ok? && |r.value| == 1 && r.value[0].key == ChillReminder && r.value[0].id == "CHILL_REMINDER-0"
  {
    var me, peer := "a", "b";
    var self := Some(Presence(me, true, Some(0.0), Some(0.0), None, 0));
    var others := [Listed(Some(UserRef(peer, Some("B"), "b@x")), Presence(peer, true, Some(1.0), Some(1.0), None, 0))];
    var bucket := TimeBucketOf(hour);
    var c := ChillCandidate(map[], bucket);
    assert !SelfLocated(self) && SelfAvailable(self);
    assert NearestRule(me, map[], self, others, dist) == Ok([]);
    assert ToggleRule(map[], self, bucket) == [] && FrequentRule(map[], [], map[]) == [];
    assert ChillRule(map[], self, bucket) == [c];
    assert [] + [] + [] + [c] == [c];
    assert Candidates(me, map[], self, others, [], map[], hour, dist) == Ok([c]);
    assert SortByScore([c]) == [c];
    assert NatToString(0) == "0";
    assert Publish([c])[0].id == "CHILL_REMINDER" + "-" + "0";
  }

  /** With no learned weights, a nearest-peer suggestion always comes first
      and a chill reminder always comes last. */
  lemma DefaultRanking(me: Id, self: Option<Presence>, others: seq<Listed>,
                       recent: seq<TargetCount>, users: map<Id, UserRef>, hour: nat, dist: Distance)
    requires NonNegative(dist)
    requires Suggest(me, map[], self, others, recent, users, hour, dist).Ok?
    ensures var list := Suggest(me, map[], self, others, recent, users, hour, dist).value;
      && (forall i :: 0 <= i < |list| && list[i].key == PageNearest ==> i == 0)
      && (forall i :: 0 <= i < |list| && list[i].key == ChillReminder ==> i == |list| - 1)
  {
    var cs := Candidates(me, map[], self, others, recent, users, hour, dist).value;
    SuggestRanked(me, map[], self, others, recent, users, hour, dist);
    CandidatesShape(me, map[], self, others, recent, users, hour, dist);
    var ranked := SortByScore(cs);
    var list := Publish(ranked);
    assert |list| == |ranked|;
    forall i | 0 <= i < |list| && list[i].key == PageNearest ensures i == 0 {
      if i > 0 {
        DefaultBeats(me, self, others, recent, users, hour, dist, cs, ranked, 0, i);
      }
    }
    forall i | 0 <= i < |list| && list[i].key == ChillReminder ensures i == |list| - 1 {
      if i < |list| - 1 {
        DefaultBeats(me, self, others, recent, users, hour, dist, cs, ranked, i, |list| - 1);
      }
    }
  }

  /** With no learned weights, no candidate ranked above a nearest-peer one and
      none ranked below a chill reminder. */
  lemma DefaultBeats(me: Id, self: Option<Presence>, others: seq<Listed>,
                     recent: seq<TargetCount>, users: map<Id, UserRef>, hour: nat, dist: Distance,
                     cs: seq<Candidate>, ranked: seq<Candidate>, a: nat, b: nat)
    requires NonNegative(dist)
    requires Candidates(me, map[], self, others, recent, users, hour, dist) == Ok(cs)
    requires RanksIncreasing(cs) && multiset(ranked) == multiset(cs) && RankedOrder(ranked)
    requires a < b < |ranked|
    ensures ranked[b].key != PageNearest
    ensures ranked[a].key != ChillReminder
  {
    var x, y := ranked[a], ranked[b];
    SortedKeysDistinct(cs, ranked);
    assert x in multiset(cs) && y in multiset(cs);
    ScoreBand(me, map[], self, others, recent, users, hour, dist, x);
    ScoreBand(me, map[], self, others, recent, users, hour, dist, y);
    BandOrder(TimeBucketOf(hour), x, y);
  }

  /** Under the default bands, a card that precedes another card of a different
      rule is not a chill reminder, and the one it precedes is not a
      nearest-peer card. */
  lemma BandOrder(bucket: Bucket, x: Candidate, y: Candidate)
    requires InBand(map[], bucket, x) && InBand(map[], bucket, y)
    requires Precedes(x, y) && x.key != y.key
    ensures y.key != PageNearest && x.key != ChillReminder
  {
    assert LearnedWeight(map[], x.key, x.targetUserId) == 0;
    assert LearnedWeight(map[], y.key, y.targetUserId) == 0;
  }

}
