/** Types shared by the paging and suggestion services: user references,
    presence records, page events and the query that lists available presences. */
module Common {

  /** A user's ObjectId, compared by its string form. */
  type Id = string

  datatype Option<+T> = None | Some(value: T)

  datatype Result<+T, +E> = Ok(value: T) | Err(error: E)

  /** The name and email that `populate('userId', 'name email')` loads. */
  datatype UserRef = UserRef(id: Id, name: Option<string>, email: string)

  /** One Presence document. Coordinates are optional numbers (null when cleared). */
  datatype Presence = Presence(
    userId: Id,
    available: bool,
    lat: Option<real>,
    lon: Option<real>,
    accuracy: Option<real>,
    updatedAt: int)

  /** A presence returned by the populated query: `user` is None when the
      referenced User document no longer exists (populate yields null). */
  datatype Listed = Listed(user: Option<UserRef>, presence: Presence)

  /** The public shape of an available peer, used by the presence listing
      and by the paging context. */
  datatype PeerView = PeerView(
    userId: Id,
    name: Option<string>,
    email: string,
    lat: Option<real>,
    lon: Option<real>,
    updatedAt: int)

  datatype PageStatus = Sent | Failed

  datatype PageEvent = PageEvent(
    fromUserId: Id,
    toUserId: Id,
    message: Option<string>,
    status: PageStatus,
    error: Option<string>,
    createdAt: int)

  /** Reading `p.userId._id` on a presence whose user reference did not resolve. */
  datatype Failure = NullUserRef

  /** JavaScript truthiness of an optional number: null, undefined and 0 are falsy. */
  predicate Truthy(x: Option<real>) {
    x.Some? && x.value != 0.0
  }

  /** `name || email`: an empty or missing name falls back to the email. */
  function DisplayName(u: UserRef): (s: string)
    ensures u.name.Some? && u.name.value != "" ==> s == u.name.value
    ensures u.name.None? || u.name.value == "" ==> s == u.email
  {
    if u.name.Some? && u.name.value != "" then u.name.value else u.email
  }

  function ViewOf(u: UserRef, p: Presence): PeerView {
    PeerView(u.id, u.name, u.email, p.lat, p.lon, p.updatedAt)
  }

  /** `Presence.find({ available: true }).populate('userId', 'name email')`
      over the presences in natural order, with `users` the User collection. */
  function FindAvailable(ps: seq<Presence>, users: map<Id, UserRef>): (r: seq<Listed>)
    ensures forall l :: l in r ==> l.presence in ps && l.presence.available
    ensures forall l :: l in r ==> (l.user.Some? <==> l.presence.userId in users)
    ensures forall l :: l in r && l.user.Some? ==> l.user.value == users[l.presence.userId]
    ensures forall p :: p in ps && p.available ==> exists l :: l in r && l.presence == p
  {
    if ps == [] then []
    else
      var rest := FindAvailable(ps[1..], users);
      var p := ps[0];
      if p.available then
        [Listed(if p.userId in users then Some(users[p.userId]) else None, p)] + rest
      else rest
  }

  function DigitChar(d: nat): char
    requires d < 10
  {
    "0123456789"[d]
  }

  /** The number a string of decimal digits denotes, most significant first. */
  function DigitsValue(s: string): int
    requires forall i :: 0 <= i < |s| ==> '0' <= s[i] <= '9'
  {
    if s == [] then 0 else DigitsValue(s[..|s| - 1]) * 10 + (s[|s| - 1] as int - '0' as int)
  }

  /** Decimal rendering of a natural number, as a template literal prints it:
      digits only, denoting `n`, with no leading zero. */
  function NatToString(n: nat): (s: string)
    ensures |s| >= 1
    ensures forall i :: 0 <= i < |s| ==> '0' <= s[i] <= '9'
    ensures DigitsValue(s) == n
    ensures n >= 1 ==> s[0] != '0'
    decreases n
  {
    if n < 10 then [DigitChar(n)]
    else
      var s := NatToString(n / 10) + [DigitChar(n % 10)];
      assert s[..|s| - 1] == NatToString(n / 10);
      s
  }

  /** An ObjectId in hex spelling, lower-cased as the driver casts it: the
      stored and printed form of an id given in any letter case. */
  function Canon(s: string): string {
    seq(|s|, i requires 0 <= i < |s| => if 'A' <= s[i] <= 'F' then (s[i] as int + 32) as char else s[i])
  }


  function Max(a: real, b: real): real { if a >= b then a else b }
  function Min(a: real, b: real): real { if a <= b then a else b }
}
