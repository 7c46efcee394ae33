/** The decision logic of the HTTP routes: the availability switch, the
    presence listing and the gates and bookkeeping of a page request. */
module Api {
  import opened Common
  import opened RateLimiter
  import opened LocationTracker

  // ---------------------------------------------------------------------------
  // POST /api/availability

  /** The record `findOneAndUpdate(..., { upsert: true, new: true })` returns:
      going hidden nulls the coordinates, going available keeps whatever the
      record held (nothing, for a record the upsert creates). */
  function ApplyAvailability(prior: Option<Presence>, userId: Id, available: bool, nowMs: int): (p: Presence)
    ensures p.userId == userId && p.available == available && p.updatedAt == nowMs
    ensures !available ==> p.lat.None? && p.lon.None? && p.accuracy.None?
    ensures available && prior.Some? ==>
              p.lat == prior.value.lat && p.lon == prior.value.lon && p.accuracy == prior.value.accuracy
    ensures available && prior.None? ==> p.lat.None? && p.lon.None? && p.accuracy.None?
  {
    var base := if prior.Some? then prior.value else Presence(userId, false, None, None, None, nowMs);
    var switched := base.(userId := userId, available := available, updatedAt := nowMs);
    if available then switched else switched.(lat := None, lon := None, accuracy := None)
  }

  /** The availability route applied to the Presence collection. */
  method SetAvailability(store: PresenceStore, userId: Id, available: bool, nowMs: int)
    returns (presence: Presence)
    requires store.Valid()
    modifies store
    ensures store.Valid()
    ensures presence == ApplyAvailability(old(store.Find(userId)), userId, available, nowMs)
    ensures store.byUser == old(store.byUser)[userId := presence]
  {
    var prior := store.Find(userId);
    presence := ApplyAvailability(prior, userId, available, nowMs);
    store.byUser := store.byUser[userId := presence];
  }

  /** Hiding always makes the next location update fail; going available
      always lets it through. */
  lemma AvailabilityGatesLocation(prior: Option<Presence>, userId: Id, available: bool, t: int,
                                  lat: real, lon: real, accuracy: Option<real>, nowMs: int)
    ensures available <==>
              Relocate(Some(ApplyAvailability(prior, userId, available, t)), lat, lon, accuracy, nowMs).Ok?
  {
  }

  // ---------------------------------------------------------------------------
  // GET /api/presence

  /** Keeps the listed presences whose user resolved and shows each as a peer. */
  function PresenceListing(listing: seq<Listed>): (r: seq<PeerView>)
    ensures |r| <= |listing|
    ensures forall v :: v in r ==> exists l :: l in listing && l.user.Some? && v == ViewOf(l.user.value, l.presence)
    ensures forall l :: l in listing && l.user.Some? ==> ViewOf(l.user.value, l.presence) in r
  {
    if listing == [] then []
    else
      var rest := PresenceListing(listing[1..]);
      var l := listing[0];
      if l.user.Some? then [ViewOf(l.user.value, l.presence)] + rest else rest
  }

  /** Over the available-presence query, the listing shows exactly the
      available presences whose user exists. */
  lemma {:induction false} ListingShowsAvailable(ps: seq<Presence>, users: map<Id, UserRef>)
    ensures forall v :: v in PresenceListing(FindAvailable(ps, users)) ==>
              exists p :: p in ps && p.available && p.userId in users && v == ViewOf(users[p.userId], p)
    ensures forall p :: p in ps && p.available && p.userId in users ==>
              ViewOf(users[p.userId], p) in PresenceListing(FindAvailable(ps, users))
  {
    var listing := FindAvailable(ps, users);
    forall v | v in PresenceListing(listing)
      ensures exists p :: p in ps && p.available && p.userId in users && v == ViewOf(users[p.userId], p)
    {
      var l :| l in listing && l.user.Some? && v == ViewOf(l.user.value, l.presence);
      assert l.presence in ps && l.presence.available && l.presence.userId in users;
    }
    forall p | p in ps && p.available && p.userId in users
      ensures ViewOf(users[p.userId], p) in PresenceListing(listing)
    {
      var l :| l in listing && l.presence == p;
      assert l.user == Some(users[p.userId]);
    }
  }

  // ---------------------------------------------------------------------------
  // POST /api/page: the gates

  const MAX_MESSAGE: nat := 500

  /** The length JavaScript gives a string, which is what `z.string().max(500)`
      limits: UTF-16 code units, two for a character above U+FFFF. */
  function Utf16Length(s: string): (n: nat)
    ensures |s| <= n <= 2 * |s|
    ensures n == |s| <==> forall i :: 0 <= i < |s| ==> s[i] as int <= 0xFFFF
  {
    if s == [] then 0 else (if s[0] as int > 0xFFFF then 2 else 1) + Utf16Length(s[1..])
  }

  /** Code units add up over concatenation, so with the one-character
      values the count of every string is fixed. */
  lemma {:induction false} Utf16Additive(a: string, b: string)
    ensures Utf16Length(a + b) == Utf16Length(a) + Utf16Length(b)
  {
    if a == [] {
      assert a + b == b;
    } else {
      assert (a + b)[0] == a[0] && (a + b)[1..] == a[1..] + b;
      Utf16Additive(a[1..], b);
    }
  }

  /** The body passes the schema: no message, or one of at most 500 code units. */
  predicate BodyOk(message: Option<string>) {
    message.None? || Utf16Length(message.value) <= MAX_MESSAGE
  }

  /** A message of characters outside the Basic Multilingual Plane counts
      twice its number of characters. */
  lemma {:induction false} AstralCountsTwice(s: string)
    requires forall i :: 0 <= i < |s| ==> s[i] as int > 0xFFFF
    ensures Utf16Length(s) == 2 * |s|
  {
    if s != [] {
      AstralCountsTwice(s[1..]);
    }
  }

  /** Why a page request was turned away, in the order the handler checks. */
  datatype Rejection =
    | InvalidBody
    | SelfPage
    | RecipientNotFound
    | HistoryCooldown(retrySec: nat)
    | MemoryCooldown

  function StatusCode(why: Rejection): (code: nat)
    ensures code == 400 <==> why == InvalidBody || why == SelfPage
    ensures code == 404 <==> why == RecipientNotFound
    ensures code == 429 <==> why.HistoryCooldown? || why == MemoryCooldown
  {
    match why
    case InvalidBody => 400
    case SelfPage => 400
    case RecipientNotFound => 404
    case HistoryCooldown(_) => 429
    case MemoryCooldown => 429
  }

  /** The error text of the response; the schema library's own message for
      an invalid body is not modelled. */
  function ErrorText(why: Rejection): (text: Option<string>)
    ensures text.None? <==> why == InvalidBody
    ensures text.Some? && |text.value| >= 15 && text.value[..15] == "Cooldown active" <==>
              why.HistoryCooldown? || why == MemoryCooldown
  {
    match why
    case InvalidBody => None
    case SelfPage =>
      var t := "Cannot page yourself";
      assert t[..15][1] != "Cooldown active"[1];
      Some(t)
    case RecipientNotFound =>
      var t := "Recipient not found";
      assert t[..15][0] != "Cooldown active"[0];
      Some(t)
    case HistoryCooldown(s) => Some("Cooldown active. Try again in " + NatToString(s) + "s")
    case MemoryCooldown => Some("Cooldown active")
  }

  function Matches(e: PageEvent, fromUserId: Id, toUserId: Id): bool {
    e.fromUserId == fromUserId && e.toUserId == toUserId
  }

  /** `PageEvent.findOne({ fromUserId, toUserId }).sort({ createdAt: -1 })`: an
      event of the pair, of either status, with the greatest createdAt. */
  function LatestFor(events: seq<PageEvent>, fromUserId: Id, toUserId: Id): (r: Option<PageEvent>)
    ensures r.None? <==> forall e :: e in events ==> !Matches(e, fromUserId, toUserId)
    ensures r.Some? ==> r.value in events && Matches(r.value, fromUserId, toUserId)
    ensures r.Some? ==> forall e :: e in events && Matches(e, fromUserId, toUserId) ==>
                          e.createdAt <= r.value.createdAt
    decreases |events|
  {
    if events == [] then None
    else
      var prefix := events[..|events| - 1];
      var last := events[|events| - 1];
      assert events == prefix + [last];
      var best := LatestFor(prefix, fromUserId, toUserId);
      if Matches(last, fromUserId, toUserId) && (best.None? || last.createdAt >= best.value.createdAt)
      then Some(last)
      else best
  }

  /** `Math.ceil((COOLDOWN_MS - elapsed) / 1000)` on whole milliseconds. */
  function RetrySeconds(elapsed: int): (r: int)
    requires elapsed < COOLDOWN_MS
    ensures (r - 1) * 1000 < COOLDOWN_MS - elapsed <= r * 1000
    ensures r >= 1
    ensures elapsed >= 0 ==> r <= 300
  {
    (COOLDOWN_MS - elapsed + 999) / 1000
  }

  /** The history check: the pair's latest event is younger than the cooldown. */
  predicate HistoryBlocks(events: seq<PageEvent>, fromUserId: Id, toUserId: Id, nowMs: int) {
    var latest := LatestFor(events, fromUserId, toUserId);
    latest.Some? && nowMs - latest.value.createdAt < COOLDOWN_MS
  }

  /** The history check fires exactly when some event of the pair, sent or
      failed, lies within the cooldown. */
  lemma HistoryBlocksIffRecent(events: seq<PageEvent>, fromUserId: Id, toUserId: Id, nowMs: int)
    ensures HistoryBlocks(events, fromUserId, toUserId, nowMs) <==>
              exists e :: e in events && Matches(e, fromUserId, toUserId) && nowMs - e.createdAt < COOLDOWN_MS
  {
    var latest := LatestFor(events, fromUserId, toUserId);
    if exists e :: e in events && Matches(e, fromUserId, toUserId) && nowMs - e.createdAt < COOLDOWN_MS {
      var e :| e in events && Matches(e, fromUserId, toUserId) && nowMs - e.createdAt < COOLDOWN_MS;
      assert e.createdAt <= latest.value.createdAt;
    }
  }

  datatype Gate = Pass | Reject(why: Rejection)

  /** The early returns of the page handler, in order: body schema, self-page,
      recipient lookup, history cooldown with its retry time, in-memory cooldown.
      `me` is the caller's id as `String(req.user._id)` prints it. The self check
      and the in-memory key use `toUserId` as sent; the User and PageEvent
      queries cast it to an ObjectId first (`Canon`). */
  function PageGate(me: Id, toUserId: string, message: Option<string>, users: map<Id, UserRef>,
                    events: seq<PageEvent>, limiter: CooldownTable, nowMs: int): (g: Gate)
    reads limiter
    ensures g == Reject(InvalidBody) <==> !BodyOk(message)
    ensures g == Reject(SelfPage) <==> BodyOk(message) && toUserId == me
    ensures g == Reject(RecipientNotFound) <==> BodyOk(message) && toUserId != me && Canon(toUserId) !in users
    ensures g.Reject? && g.why.HistoryCooldown? <==>
              && BodyOk(message) && toUserId != me && Canon(toUserId) in users
              && HistoryBlocks(events, me, Canon(toUserId), nowMs)
    ensures g.Reject? && g.why.HistoryCooldown? ==>
              && HistoryBlocks(events, me, Canon(toUserId), nowMs)
              && g.why.retrySec == RetrySeconds(nowMs - LatestFor(events, me, Canon(toUserId)).value.createdAt)
    ensures g == Reject(MemoryCooldown) <==>
              && BodyOk(message) && toUserId != me && Canon(toUserId) in users
              && !HistoryBlocks(events, me, Canon(toUserId), nowMs)
              && !limiter.CanSend(me, toUserId, nowMs)
    ensures g.Pass? <==>
              && BodyOk(message)
              && toUserId != me
              && Canon(toUserId) in users
              && !HistoryBlocks(events, me, Canon(toUserId), nowMs)
              && limiter.CanSend(me, toUserId, nowMs)
  {
    if !BodyOk(message) then Reject(InvalidBody)
    else if toUserId == me then Reject(SelfPage)
    else if Canon(toUserId) !in users then Reject(RecipientNotFound)
    else if HistoryBlocks(events, me, Canon(toUserId), nowMs) then
      Reject(HistoryCooldown(RetrySeconds(nowMs - LatestFor(events, me, Canon(toUserId)).value.createdAt)))
    else if !limiter.CanSend(me, toUserId, nowMs) then Reject(MemoryCooldown)
    else Pass
  }

  /** A message of 300 emoji is 600 code units long and fails the schema. */
  lemma EmojiMessageRejected(me: Id, toUserId: string, users: map<Id, UserRef>, events: seq<PageEvent>,
                             limiter: CooldownTable, nowMs: int)
    ensures PageGate(me, toUserId, Some(seq(300, _ => '\U{1F600}')), users, events, limiter, nowMs)
              == Reject(InvalidBody)
  {
    AstralCountsTwice(seq(300, _ => '\U{1F600}'));
  }

  /** The self check compares the id as sent, while the lookups cast it: the
      caller's own id written in upper case passes every gate, and the page
      goes to the caller. */
  lemma SelfPageInUpperCase(users: map<Id, UserRef>, events: seq<PageEvent>, limiter: CooldownTable, nowMs: int)
    requires "65a1f0c2e4b0a1b2c3d4e5f6" in users
    requires !HistoryBlocks(events, "65a1f0c2e4b0a1b2c3d4e5f6", "65a1f0c2e4b0a1b2c3d4e5f6", nowMs)
    requires limiter.CanSend("65a1f0c2e4b0a1b2c3d4e5f6", "65A1F0C2E4B0A1B2C3D4E5F6", nowMs)
    ensures PageGate("65a1f0c2e4b0a1b2c3d4e5f6", "65A1F0C2E4B0A1B2C3D4E5F6", None, users, events, limiter, nowMs)
              == Pass
  {
    var upper, lower := "65A1F0C2E4B0A1B2C3D4E5F6", "65a1f0c2e4b0a1b2c3d4e5f6";
    assert Canon(upper) == lower by {
      forall i | 0 <= i < |lower| ensures Canon(upper)[i] == lower[i] { }
    }
    assert upper[2] != lower[2];
  }

  // ---------------------------------------------------------------------------
  // POST /api/page: the send and its bookkeeping

  /** What the mailer did: delivered (with an optional preview link) or threw. */
  datatype MailOutcome = Delivered(previewUrl: Option<string>) | MailError(message: string)

  /** The arguments the handler hands to the mailer. */
  datatype MailRequest = MailRequest(toEmail: string, fromName: string, message: Option<string>)

  datatype PageResponse =
    | Rejected(why: Rejection)
    | Done(status: PageStatus, previewUrl: Option<string>, event: PageEvent)

  /** The PageEvent log, in creation order. */
  class PageLog {
    var events: seq<PageEvent>

    constructor ()
      ensures events == []
    {
      events := [];
    }
  }

  /** The page handler after authentication: `me` is the caller, `users` the
      User collection, `nowMs` the clock at the gates and `doneMs` the clock
      once the mailer has answered (the event's createdAt and the time
      recordSend stores). The mailer's answer is the parameter `mail`. */
  method HandlePage(log: PageLog, limiter: CooldownTable, users: map<Id, UserRef>, me: UserRef,
                    toUserId: string, message: Option<string>, nowMs: int, doneMs: int, mail: MailOutcome)
    returns (resp: PageResponse, sent: Option<MailRequest>)
    modifies log, limiter
    ensures var g := old(PageGate(me.id, toUserId, message, users, log.events, limiter, nowMs));
      && (g.Reject? ==> && resp == Rejected(g.why) && sent.None?
                        && log.events == old(log.events) && limiter.lastSend == old(limiter.lastSend))
      && (g.Pass? ==> && resp.Done?
                      && sent == Some(MailRequest(users[Canon(toUserId)].email, DisplayName(me), message))
                      && resp.event == PageEvent(me.id, Canon(toUserId), message, resp.status,
                                                 if mail.MailError? then Some(mail.message) else None, doneMs)
                      && (resp.status == Sent <==> mail.Delivered?)
                      && (resp.event.error.Some? <==> resp.status == Failed)
                      && resp.previewUrl == (if mail.Delivered? then mail.previewUrl else None)
                      && log.events == old(log.events) + [resp.event]
                      && (resp.status == Sent ==> limiter.lastSend == old(limiter.lastSend)[Pair(me.id, toUserId) := doneMs])
                      && (resp.status == Failed ==> limiter.lastSend == old(limiter.lastSend)))
  {
    var gate := PageGate(me.id, toUserId, message, users, log.events, limiter, nowMs);
    if gate.Reject? {
      return Rejected(gate.why), None;
    }
    var targetUser := users[Canon(toUserId)];
    var status := Sent;
    var errorMessage: Option<string> := None;
    var previewUrl: Option<string> := None;
    sent := Some(MailRequest(targetUser.email, DisplayName(me), message));
    match mail {
      case Delivered(url) =>
        previewUrl := url;
      case MailError(m) =>
        status := Failed;
        errorMessage := Some(m);
    }
    var event := PageEvent(me.id, Canon(toUserId), message, status, errorMessage, doneMs);
    log.events := log.events + [event];
    if status == Sent {
      limiter.RecordSend(me.id, toUserId, doneMs);
    }
    resp := Done(status, previewUrl, event);
  }

  /** A failed page still guards the pair: a repeat within the cooldown of the
      failed event is turned away by the history check. */
  lemma FailedAttemptBlocks(me: Id, toUserId: string, message: Option<string>, users: map<Id, UserRef>,
                            events: seq<PageEvent>, failed: PageEvent, limiter: CooldownTable, laterMs: int)
    requires failed.fromUserId == me && failed.toUserId == Canon(toUserId) && failed.status == Failed
    requires laterMs - failed.createdAt < COOLDOWN_MS
    requires BodyOk(message)
    requires toUserId != me && Canon(toUserId) in users
    ensures PageGate(me, toUserId, message, users, events + [failed], limiter, laterMs).Reject?
    ensures PageGate(me, toUserId, message, users, events + [failed], limiter, laterMs).why.HistoryCooldown?
  {
    HistoryBlocksIffRecent(events + [failed], me, Canon(toUserId), laterMs);
    assert failed in events + [failed];
  }

  /** After a delivered page the pair is refused until more than COOLDOWN_MS
      has elapsed: by the history check while under the cooldown, and by the
      in-memory check up to and including the boundary millisecond. */
  lemma SentPageBlocks(me: Id, toUserId: string, message: Option<string>, users: map<Id, UserRef>,
                       events: seq<PageEvent>, sentEvent: PageEvent, limiter: CooldownTable, laterMs: int)
    requires sentEvent.fromUserId == me && sentEvent.toUserId == Canon(toUserId) && sentEvent.status == Sent
    requires Pair(me, toUserId) in limiter.lastSend && limiter.lastSend[Pair(me, toUserId)] == sentEvent.createdAt
    requires sentEvent.createdAt != 0 && laterMs - sentEvent.createdAt <= COOLDOWN_MS
    ensures laterMs - sentEvent.createdAt < COOLDOWN_MS ==>
              HistoryBlocks(events + [sentEvent], me, Canon(toUserId), laterMs)
    ensures !limiter.CanSend(me, toUserId, laterMs)
    ensures PageGate(me, toUserId, message, users, events + [sentEvent], limiter, laterMs).Reject?
  {
    if laterMs - sentEvent.createdAt < COOLDOWN_MS {
      HistoryBlocksIffRecent(events + [sentEvent], me, Canon(toUserId), laterMs);
      assert sentEvent in events + [sentEvent];
    }
  }
}
