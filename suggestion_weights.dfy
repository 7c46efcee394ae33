/** Learned suggestion weights: the clamp, the `key:target-or-any` lookup
    scheme, the per-request weight map and the feedback write path. */
module SuggestionWeights {
  import opened Common

  const MIN_WEIGHT: int := -10
  const MAX_WEIGHT: int := 10

  function ClampWeight(x: int): (r: int)
    ensures MIN_WEIGHT <= r <= MAX_WEIGHT
    ensures MIN_WEIGHT <= x <= MAX_WEIGHT ==> r == x
    ensures x > MAX_WEIGHT ==> r == MAX_WEIGHT
    ensures x < MIN_WEIGHT ==> r == MIN_WEIGHT
  {
    if x > MAX_WEIGHT then MAX_WEIGHT else if x < MIN_WEIGHT then MIN_WEIGHT else x
  }

  // ---------------------------------------------------------------------------
  // The weight map of one user

  /** One SuggestionWeight document of the requesting user. */
  datatype WeightRow = WeightRow(suggestionKey: string, targetUserId: Option<Id>, weight: int)

  function TargetText(t: Option<Id>): string {
    if t.Some? then t.value else "any"
  }

  /** The map key `${suggestionKey}:${targetUserId || 'any'}`. */
  function WeightKey(suggestionKey: string, t: Option<Id>): string {
    suggestionKey + ":" + TargetText(t)
  }

  function RowKey(w: WeightRow): string {
    WeightKey(w.suggestionKey, w.targetUserId)
  }

  /** An ObjectId's hex string: it has no ':' and is never the literal "any". */
  predicate PlainId(t: Option<Id>) {
    t.Some? ==> ':' !in t.value && t.value != "any"
  }

  lemma {:induction false} NoColonInTarget(t: Option<Id>)
    requires PlainId(t)
    ensures ':' !in TargetText(t)
  {
  }

  /** In `x:a` with no ':' in `a`, the separator is the last colon. */
  lemma LastColon(x: string, a: string)
    requires ':' !in a
    ensures (x + ":" + a)[|x|] == ':'
    ensures forall i :: |x| < i < |x| + 1 + |a| ==> (x + ":" + a)[i] != ':'
  {
    forall i | |x| < i < |x| + 1 + |a| ensures (x + ":" + a)[i] != ':' {
      assert (x + ":" + a)[i] == a[i - |x| - 1];
    }
  }

  /** The key scheme loses nothing: distinct (key, target) pairs get distinct
      map keys, as long as targets are ObjectIds. */
  lemma {:induction false} WeightKeyInjective(k1: string, t1: Option<Id>, k2: string, t2: Option<Id>)
    requires PlainId(t1) && PlainId(t2)
    requires WeightKey(k1, t1) == WeightKey(k2, t2)
    ensures k1 == k2 && t1 == t2
  {
    var s := WeightKey(k1, t1);
    var a, b := TargetText(t1), TargetText(t2);
    NoColonInTarget(t1);
    NoColonInTarget(t2);
    assert s == k1 + ":" + a && s == k2 + ":" + b;
    LastColon(k1, a);
    LastColon(k2, b);
    assert |k1| == |k2|;
    assert k1 == s[..|k1|] == k2;
    assert a == s[|k1| + 1..] == b;
  }

  /** The map that `getWeightsByKey` fills, row by row: a later row with the
      same key overwrites an earlier one, as `Map.set` does. */
  function WeightsFromRows(rows: seq<WeightRow>): map<string, int>
    decreases |rows|
  {
    if rows == [] then map[]
    else WeightsFromRows(rows[..|rows| - 1])[RowKey(rows[|rows| - 1]) := rows[|rows| - 1].weight]
  }

  /** The map holds exactly the keys of the rows. */
  lemma {:induction false} WeightsDomain(rows: seq<WeightRow>)
    ensures forall k :: k in WeightsFromRows(rows) <==> exists i :: 0 <= i < |rows| && RowKey(rows[i]) == k
    decreases |rows|
  {
    if rows != [] {
      var prefix := rows[..|rows| - 1];
      WeightsDomain(prefix);
      assert forall i :: 0 <= i < |prefix| ==> prefix[i] == rows[i];
    }
  }

  method GetWeightsByKey(rows: seq<WeightRow>) returns (m: map<string, int>)
    ensures m == WeightsFromRows(rows)
  {
    m := map[];
    var i := 0;
    while i < |rows|
      invariant 0 <= i <= |rows|
      invariant m == WeightsFromRows(rows[..i])
    {
      assert rows[..i + 1][..i] == rows[..i];
      m := m[RowKey(rows[i]) := rows[i].weight];
      i := i + 1;
    }
    assert rows[..i] == rows;
  }

  /** `weights.get(key) || 0`: an absent entry reads as 0. */
  function Lookup(weights: map<string, int>, suggestionKey: string, t: Option<Id>): int {
    var k := WeightKey(suggestionKey, t);
    if k in weights then weights[k] else 0
  }

  /** The unique index on (userId, suggestionKey, targetUserId). */
  predicate UniqueIndex(rows: seq<WeightRow>) {
    forall i, j :: 0 <= i < j < |rows| ==>
      (rows[i].suggestionKey, rows[i].targetUserId) != (rows[j].suggestionKey, rows[j].targetUserId)
  }

  predicate PlainTargets(rows: seq<WeightRow>) {
    forall i :: 0 <= i < |rows| ==> PlainId(rows[i].targetUserId)
  }

  /** Looking a (key, target) pair up in the user's weight map yields the weight
      of that pair's row, or 0 when the pair has no row. */
  lemma {:induction false} LookupMatchesRows(rows: seq<WeightRow>, k: string, t: Option<Id>)
    requires UniqueIndex(rows) && PlainTargets(rows) && PlainId(t)
    ensures forall i :: 0 <= i < |rows| && rows[i].suggestionKey == k && rows[i].targetUserId == t ==>
              Lookup(WeightsFromRows(rows), k, t) == rows[i].weight
    ensures (forall i :: 0 <= i < |rows| ==> (rows[i].suggestionKey, rows[i].targetUserId) != (k, t)) ==>
              Lookup(WeightsFromRows(rows), k, t) == 0
    decreases |rows|
  {
    if rows != [] {
      var n := |rows| - 1;
      var prefix, last := rows[..n], rows[n];
      assert UniqueIndex(prefix) && PlainTargets(prefix) by {
        forall i | 0 <= i < n ensures prefix[i] == rows[i] { }
      }
      LookupMatchesRows(prefix, k, t);
      if WeightKey(k, t) == RowKey(last) {
        WeightKeyInjective(k, t, last.suggestionKey, last.targetUserId);
        forall i | 0 <= i < |rows| && rows[i].suggestionKey == k && rows[i].targetUserId == t
          ensures rows[i].weight == last.weight
        {
        }
      } else {
        forall i | 0 <= i < |rows| && rows[i].suggestionKey == k && rows[i].targetUserId == t
          ensures i < n && prefix[i] == rows[i]
        {
        }
      }
    }
  }

  // ---------------------------------------------------------------------------
  // Feedback

  datatype FeedbackAction = Accept | Dismiss

  /** +2 for `accept`, -2 otherwise. */
  function Delta(a: FeedbackAction): (d: int)
    ensures d == 2 <==> a == Accept
    ensures d == -2 <==> a == Dismiss
  {
    match a
    case Accept => 2
    case Dismiss => -2
  }

  /** One SuggestionFeedback document: append-only, never edited. */
  datatype FeedbackEntry = FeedbackEntry(
    userId: Id,
    suggestionKey: string,
    targetUserId: Option<Id>,
    action: FeedbackAction,
    createdAt: int)

  /** The unique index of SuggestionWeight: one row per user, key and target. */
  datatype RowId = RowId(userId: Id, suggestionKey: string, targetUserId: Option<Id>)

  /** The weight a row holds after a series of feedback actions, one
      increment-then-clamp per action. */
  function AfterFeedback(w: int, actions: seq<FeedbackAction>): (r: int)
    ensures actions != [] || MIN_WEIGHT <= w <= MAX_WEIGHT ==> MIN_WEIGHT <= r <= MAX_WEIGHT
    ensures actions == [] ==> r == w
    decreases |actions|
  {
    if actions == [] then w else AfterFeedback(ClampWeight(w + Delta(actions[0])), actions[1..])
  }

  /** The cast `findOneAndUpdate` and `create` apply to an optional target id. */
  function CanonTarget(t: Option<string>): Option<Id> {
    if t.Some? then Some(Canon(t.value)) else None
  }

  /** n accepts from an in-range weight add 2n, saturating at +10. */
  lemma {:induction false} RepeatedAccept(w: int, actions: seq<FeedbackAction>)
    requires MIN_WEIGHT <= w <= MAX_WEIGHT
    requires forall i :: 0 <= i < |actions| ==> actions[i] == Accept
    ensures AfterFeedback(w, actions) == if w + 2 * |actions| > MAX_WEIGHT then MAX_WEIGHT else w + 2 * |actions|
    decreases |actions|
  {
    if actions != [] {
      RepeatedAccept(ClampWeight(w + 2), actions[1..]);
    }
  }

  /** n dismisses from an in-range weight subtract 2n, saturating at -10. */
  lemma {:induction false} RepeatedDismiss(w: int, actions: seq<FeedbackAction>)
    requires MIN_WEIGHT <= w <= MAX_WEIGHT
    requires forall i :: 0 <= i < |actions| ==> actions[i] == Dismiss
    ensures AfterFeedback(w, actions) == if w - 2 * |actions| < MIN_WEIGHT then MIN_WEIGHT else w - 2 * |actions|
    decreases |actions|
  {
    if actions != [] {
      RepeatedDismiss(ClampWeight(w - 2), actions[1..]);
    }
  }

  /** The SuggestionFeedback log and the SuggestionWeight collection. */
  class WeightStore {
    var feedback: seq<FeedbackEntry>
    var weights: map<RowId, int>

    /** Every stored weight lies in [-10, 10]. */
    ghost predicate Valid()
      reads this
    {
      forall r :: r in weights ==> MIN_WEIGHT <= weights[r] <= MAX_WEIGHT
    }

    constructor ()
      ensures Valid() && feedback == [] && weights == map[]
    {
      feedback := [];
      weights := map[];
    }

    /** Appends the feedback entry, then increments the (user, key, target)
        row, created at 0 when absent, and stores the clamped value. The target
        id arrives as sent and both writes store it cast (`CanonTarget`), so
        every spelling of an id lands on the same row. */
    method RecordFeedback(userId: Id, suggestionKey: string, targetUserId: Option<string>,
                          action: FeedbackAction, nowMs: int)
      returns (record: FeedbackEntry, weight: int)
      requires Valid()
      modifies this
      ensures Valid()
      ensures record == FeedbackEntry(userId, suggestionKey, CanonTarget(targetUserId), action, nowMs)
      ensures feedback == old(feedback) + [record]
      ensures var row := RowId(userId, suggestionKey, CanonTarget(targetUserId));
              var prior := if row in old(weights) then old(weights)[row] else 0;
              weight == AfterFeedback(prior, [action]) && weights == old(weights)[row := weight]
      ensures MIN_WEIGHT <= weight <= MAX_WEIGHT
    {
      var delta := Delta(action);
      var target := CanonTarget(targetUserId);
      record := FeedbackEntry(userId, suggestionKey, target, action, nowMs);
      feedback := feedback + [record];
      var row := RowId(userId, suggestionKey, target);
      var raw := (if row in weights then weights[row] else 0) + delta;
      weight := ClampWeight(raw);
      weights := weights[row := weight];
    }
  }
}
