/** The paging agent: the context it collects for a caller and the rule that
    stands in for an AI decision. */
module AiAgent {
  import opened Common

  const RECENT_LIMIT: nat := 10

  /** One entry of `recentPages`. */
  datatype PageSummary = PageSummary(toUserId: Id, message: Option<string>, status: PageStatus, createdAt: int)

  datatype PagingContext = PagingContext(
    selfPresence: Option<Presence>,
    availableUsers: seq<PeerView>,
    recentPages: seq<PageSummary>,
    timeOfDay: nat)

  datatype Decision =
    | NoPage(reason: string)
    | PageTarget(targetUserId: Id, reason: string, decisionSource: string)

  function Summary(e: PageEvent): PageSummary {
    PageSummary(e.toUserId, e.message, e.status, e.createdAt)
  }

  /** The available presences other than the caller, as peers. Reading the
      user of a presence whose reference did not resolve throws, so one such
      presence fails the whole context. */
  function OthersOf(listing: seq<Listed>, me: Id): (r: Result<seq<PeerView>, Failure>)
    ensures r.Err? <==> exists l :: l in listing && l.user.None?
    ensures r.Ok? ==> |r.value| <= |listing|
    ensures r.Ok? ==> forall v :: v in r.value ==> v.userId != me
    ensures r.Ok? ==> forall l :: l in listing && l.user.value.id != me ==> ViewOf(l.user.value, l.presence) in r.value
    ensures r.Ok? ==> forall v :: v in r.value ==> exists l :: l in listing && v == ViewOf(l.user.value, l.presence)
  {
    if listing == [] then Ok([])
    else
      var l := listing[0];
      if l.user.None? then Err(NullUserRef)
      else match OthersOf(listing[1..], me)
        case Err(e) => Err(e)
        case Ok(rest) =>
          assert forall x :: x in listing[1..] ==> x in listing;
          if l.user.value.id != me then Ok([ViewOf(l.user.value, l.presence)] + rest) else Ok(rest)
  }

  /** `idx` picks, in order, the positions of `listing` that `views` shows. */
  predicate PicksInOrder(views: seq<PeerView>, listing: seq<Listed>, idx: seq<nat>) {
    && |idx| == |views|
    && (forall k :: 0 <= k < |idx| ==> idx[k] < |listing| && listing[idx[k]].user.Some? &&
                                        views[k] == ViewOf(listing[idx[k]].user.value, listing[idx[k]].presence))
    && (forall k, m :: 0 <= k < m < |idx| ==> idx[k] < idx[m])
  }

  /** Picks from the tail of a listing shift by one onto the whole listing. */
  lemma ShiftPicks(views: seq<PeerView>, listing: seq<Listed>, idx: seq<nat>) returns (shifted: seq<nat>)
    requires listing != [] && PicksInOrder(views, listing[1..], idx)
    ensures PicksInOrder(views, listing, shifted)
    ensures forall k :: 0 <= k < |shifted| ==> shifted[k] >= 1
  {
    shifted := seq(|idx|, k requires 0 <= k < |idx| => idx[k] + 1);
    forall k | 0 <= k < |shifted| ensures listing[shifted[k]] == listing[1..][idx[k]] { }
  }

  /** Showing the listing's first entry ahead of later picks keeps the order. */
  lemma PrependPick(views: seq<PeerView>, listing: seq<Listed>, idx: seq<nat>)
    requires listing != [] && listing[0].user.Some?
    requires PicksInOrder(views, listing, idx)
    requires forall k :: 0 <= k < |idx| ==> idx[k] >= 1
    ensures PicksInOrder([ViewOf(listing[0].user.value, listing[0].presence)] + views, listing, [0] + idx)
  {
    var v := [ViewOf(listing[0].user.value, listing[0].presence)] + views;
    var p := [0] + idx;
    forall k | 1 <= k < |p| ensures p[k] == idx[k - 1] && v[k] == views[k - 1] { }
  }

  /** `availableUsers` keeps the order of the query: its entries come from
      strictly increasing positions of the listing. */
  lemma {:induction false} OthersInOrder(listing: seq<Listed>, me: Id) returns (idx: seq<nat>)
    requires OthersOf(listing, me).Ok?
    ensures PicksInOrder(OthersOf(listing, me).value, listing, idx)
    decreases |listing|
  {
    if listing == [] {
      return [];
    }
    var l := listing[0];
    var rest := OthersOf(listing[1..], me).value;
    var tail := OthersInOrder(listing[1..], me);
    var shifted := ShiftPicks(rest, listing, tail);
    if l.user.value.id != me {
      assert OthersOf(listing, me).value == [ViewOf(l.user.value, l.presence)] + rest;
      PrependPick(rest, listing, shifted);
      idx := [0] + shifted;
    } else {
      assert OthersOf(listing, me).value == rest;
      idx := shifted;
    }
  }

  /** How many events of the log the caller sent. */
  function CountMine(events: seq<PageEvent>, me: Id): nat
    decreases |events|
  {
    if events == [] then 0
    else CountMine(events[..|events| - 1], me) + (if events[|events| - 1].fromUserId == me then 1 else 0)
  }

  /** The caller's pages, newest first, `limit` of them or all when there are
      fewer; `events` is the log in creation order. */
  function RecentFrom(events: seq<PageEvent>, me: Id, limit: nat): (r: seq<PageSummary>)
    ensures |r| == if CountMine(events, me) < limit then CountMine(events, me) else limit
    ensures forall s :: s in r ==> exists e :: e in events && e.fromUserId == me && s == Summary(e)
    decreases |events|
  {
    if events == [] || limit == 0 then []
    else
      var prefix := events[..|events| - 1];
      var last := events[|events| - 1];
      assert forall e :: e in prefix ==> e in events;
      if last.fromUserId == me then [Summary(last)] + RecentFrom(prefix, me, limit - 1)
      else RecentFrom(prefix, me, limit)
  }

  /** A shorter tail of the log holds no more of the caller's pages. */
  lemma {:induction false} CountTailMono(events: seq<PageEvent>, me: Id, i: nat, j: nat)
    requires i <= j <= |events|
    ensures CountMine(events[j..], me) <= CountMine(events[i..], me)
    decreases |events|
  {
    if j < |events| {
      var prefix := events[..|events| - 1];
      assert events[i..][..|events[i..]| - 1] == prefix[i..];
      assert events[j..][..|events[j..]| - 1] == prefix[j..];
      CountTailMono(prefix, me, i, j);
    }
  }

  /** Every caller page with fewer than `limit` later caller pages is kept. */
  lemma {:induction false} RecentIncludes(events: seq<PageEvent>, me: Id, limit: nat, i: nat)
    requires i < |events| && events[i].fromUserId == me
    requires CountMine(events[i + 1..], me) < limit
    ensures Summary(events[i]) in RecentFrom(events, me, limit)
    decreases |events|
  {
    var n := |events| - 1;
    var prefix, last := events[..n], events[n];
    if i < n {
      assert events[i + 1..][..|events[i + 1..]| - 1] == prefix[i + 1..];
      assert prefix[i] == events[i];
      if last.fromUserId == me {
        RecentIncludes(prefix, me, limit - 1, i);
      } else {
        RecentIncludes(prefix, me, limit, i);
      }
    }
  }

  /** Every kept page is a caller page with fewer than `limit` later caller pages. */
  lemma {:induction false} RecentSource(events: seq<PageEvent>, me: Id, limit: nat, s: PageSummary)
    returns (j: nat)
    requires s in RecentFrom(events, me, limit)
    ensures j < |events| && events[j].fromUserId == me && s == Summary(events[j])
    ensures CountMine(events[j + 1..], me) < limit
    decreases |events|
  {
    var n := |events| - 1;
    var prefix, last := events[..n], events[n];
    if last.fromUserId == me && s == Summary(last) {
      j := n;
    } else {
      if last.fromUserId == me {
        j := RecentSource(prefix, me, limit - 1, s);
      } else {
        j := RecentSource(prefix, me, limit, s);
      }
      assert events[j + 1..][..|events[j + 1..]| - 1] == prefix[j + 1..];
      assert prefix[j] == events[j];
    }
  }

  predicate CreatedInOrder(events: seq<PageEvent>) {
    forall i, j :: 0 <= i < j < |events| ==> events[i].createdAt <= events[j].createdAt
  }

  predicate NewestFirst(r: seq<PageSummary>) {
    forall i, j :: 0 <= i < j < |r| ==> r[i].createdAt >= r[j].createdAt
  }

  /** Every page taken from a prefix of an ordered log is no newer than the
      entry that follows the prefix. */
  lemma NoNewerThanNext(events: seq<PageEvent>, me: Id, limit: nat)
    requires CreatedInOrder(events) && events != []
    ensures forall s :: s in RecentFrom(events[..|events| - 1], me, limit) ==>
              s.createdAt <= events[|events| - 1].createdAt
  {
    var prefix := events[..|events| - 1];
    forall s | s in RecentFrom(prefix, me, limit) ensures s.createdAt <= events[|events| - 1].createdAt {
      var e :| e in prefix && e.fromUserId == me && s == Summary(e);
      var i :| 0 <= i < |prefix| && prefix[i] == e;
      assert events[i] == e;
    }
  }

  /** Putting a newest entry in front of a newest-first list keeps it so. */
  lemma PrependNewest(s: PageSummary, rest: seq<PageSummary>)
    requires NewestFirst(rest)
    requires forall x :: x in rest ==> x.createdAt <= s.createdAt
    ensures NewestFirst([s] + rest)
  {
    var r := [s] + rest;
    forall i, j | 0 <= i < j < |r| ensures r[i].createdAt >= r[j].createdAt {
      if i == 0 {
        assert r[j] in rest;
      } else {
        assert r[i] == rest[i - 1] && r[j] == rest[j - 1];
      }
    }
  }

  /** Over a log whose createdAt never decreases, the recent pages come newest
      first. */
  lemma {:induction false} RecentNewestFirst(events: seq<PageEvent>, me: Id, limit: nat)
    requires CreatedInOrder(events)
    ensures NewestFirst(RecentFrom(events, me, limit))
    decreases |events|
  {
    if events != [] && limit != 0 {
      var prefix := events[..|events| - 1];
      var last := events[|events| - 1];
      assert CreatedInOrder(prefix);
      if last.fromUserId == me {
        RecentNewestFirst(prefix, me, limit - 1);
        NoNewerThanNext(events, me, limit - 1);
        PrependNewest(Summary(last), RecentFrom(prefix, me, limit - 1));
      } else {
        RecentNewestFirst(prefix, me, limit);
      }
    }
  }

  /** Over a log in creation order, a caller page left out for having at least
      `limit` later caller pages is no newer than any page kept. */
  lemma RecentKeepsNewest(events: seq<PageEvent>, me: Id, limit: nat, i: nat)
    requires CreatedInOrder(events)
    requires i < |events| && events[i].fromUserId == me
    requires CountMine(events[i + 1..], me) >= limit
    ensures forall s :: s in RecentFrom(events, me, limit) ==> events[i].createdAt <= s.createdAt
  {
    forall s | s in RecentFrom(events, me, limit) ensures events[i].createdAt <= s.createdAt {
      var j := RecentSource(events, me, limit, s);
      KeptIsLater(events, me, limit, i, j);
      assert events[i].createdAt <= events[j].createdAt;
    }
  }

  /** A page with fewer than `limit` later caller pages comes after one with
      at least `limit` of them. */
  lemma KeptIsLater(events: seq<PageEvent>, me: Id, limit: nat, i: nat, j: nat)
    requires i < |events| && j < |events|
    requires CountMine(events[i + 1..], me) >= limit && CountMine(events[j + 1..], me) < limit
    ensures i < j
  {
    if j <= i {
      CountTailMono(events, me, j + 1, i + 1);
    }
  }

  /** `buildPagingContext`: the caller's presence, the available peers other
      than the caller, the caller's last ten pages and the hour. */
  function BuildPagingContext(me: Id, selfPresence: Option<Presence>, listing: seq<Listed>,
                              events: seq<PageEvent>, hour: nat): (r: Result<PagingContext, Failure>)
    ensures r.Err? <==> exists l :: l in listing && l.user.None?
    ensures r.Ok? ==> && r.value.selfPresence == selfPresence
                      && r.value.timeOfDay == hour
                      && (forall v :: v in r.value.availableUsers ==> v.userId != me)
                      && |r.value.recentPages| <= RECENT_LIMIT
    ensures r.Ok? ==> && r.value.availableUsers == OthersOf(listing, me).value
                      && r.value.recentPages == RecentFrom(events, me, RECENT_LIMIT)
  {
    match OthersOf(listing, me)
    case Err(e) => Err(e)
    case Ok(others) => Ok(PagingContext(selfPresence, others, RecentFrom(events, me, RECENT_LIMIT), hour))
  }

  /** `decidePagingFromContext`: no page without an available caller and a
      peer; otherwise the first available peer. */
  function DecidePaging(ctx: PagingContext): (d: Decision)
    ensures d.NoPage? <==> ctx.selfPresence.None? || !ctx.selfPresence.value.available || ctx.availableUsers == []
    ensures d.NoPage? ==> d.reason == "Not available or no peers"
    ensures d.PageTarget? ==> && d.targetUserId == ctx.availableUsers[0].userId
                              && d.decisionSource == "rule"
                              && d.reason == "First available peer at hour " + NatToString(ctx.timeOfDay)
  {
    if ctx.selfPresence.None? || !ctx.selfPresence.value.available || |ctx.availableUsers| == 0 then
      NoPage("Not available or no peers")
    else
      PageTarget(ctx.availableUsers[0].userId, "First available peer at hour " + NatToString(ctx.timeOfDay), "rule")
  }

  /** Over the available-presence query, the agent never proposes paging the
      caller, and whoever it proposes is an available user with a record. */
  lemma NeverPagesSelf(me: Id, selfPresence: Option<Presence>, ps: seq<Presence>, users: map<Id, UserRef>,
                       events: seq<PageEvent>, hour: nat)
    requires forall u :: u in users ==> users[u].id == u
    requires BuildPagingContext(me, selfPresence, FindAvailable(ps, users), events, hour).Ok?
    ensures var d := DecidePaging(BuildPagingContext(me, selfPresence, FindAvailable(ps, users), events, hour).value);
      d.PageTarget? ==> d.targetUserId != me && exists p :: p in ps && p.available && p.userId == d.targetUserId
  {
    var listing := FindAvailable(ps, users);
    var ctx := BuildPagingContext(me, selfPresence, listing, events, hour).value;
    var d := DecidePaging(ctx);
    if d.PageTarget? {
      var v := ctx.availableUsers[0];
      assert v in OthersOf(listing, me).value;
      var l :| l in listing && v == ViewOf(l.user.value, l.presence);
      assert l.presence in ps && l.presence.available && l.presence.userId == v.userId;
    }
  }
}
