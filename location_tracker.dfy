/** The live-location update: a guarded in-place write of a caller's
    coordinates into their presence record. */
module LocationTracker {
  import opened Common

  const NOT_AVAILABLE: string := "Set available before sending location"

  /** A presence that is not available carries no coordinates. */
  predicate Consistent(p: Presence) {
    !p.available ==> p.lat.None? && p.lon.None? && p.accuracy.None?
  }

  /** `updateLiveLocation` on the record `findOne({ userId })` returned:
      refused without an available record, otherwise the record with the new
      coordinates, stamped by `save()` with `nowMs`. */
  function Relocate(prior: Option<Presence>, lat: real, lon: real, accuracy: Option<real>, nowMs: int)
    : (r: Result<Presence, string>)
    ensures r.Err? <==> prior.None? || !prior.value.available
    ensures r.Err? ==> r.error == NOT_AVAILABLE
    ensures r.Ok? ==> && r.value.userId == prior.value.userId
                      && r.value.available
                      && r.value.lat == Some(lat) && r.value.lon == Some(lon)
                      && r.value.accuracy == accuracy
                      && r.value.updatedAt == nowMs
                      && Consistent(r.value)
  {
    if prior.None? || !prior.value.available then Err(NOT_AVAILABLE)
    else Ok(prior.value.(lat := Some(lat), lon := Some(lon), accuracy := accuracy, updatedAt := nowMs))
  }

  /** The Presence collection, one record per user (the unique index on userId). */
  class PresenceStore {
    var byUser: map<Id, Presence>

    /** Each record is filed under its own user and none that is hidden holds
        coordinates: both writers, the availability route and the location
        update, keep this. */
    ghost predicate Valid()
      reads this
    {
      forall u :: u in byUser ==> byUser[u].userId == u && Consistent(byUser[u])
    }

    function Find(userId: Id): (p: Option<Presence>)
      reads this
      ensures p.Some? <==> userId in byUser
      ensures p.Some? ==> p.value == byUser[userId]
    {
      if userId in byUser then Some(byUser[userId]) else None
    }

    constructor ()
      ensures Valid() && byUser == map[]
    {
      byUser := map[];
    }

    /** updateLiveLocation: loads the caller's record, refuses when it is
        missing or hidden, otherwise writes lat, lon and accuracy and saves. */
    method UpdateLiveLocation(userId: Id, lat: real, lon: real, accuracy: Option<real>, nowMs: int)
      returns (r: Result<Presence, string>)
      requires Valid()
      modifies this
      ensures Valid()
      ensures r == Relocate(old(Find(userId)), lat, lon, accuracy, nowMs)
      ensures r.Err? ==> byUser == old(byUser)
      ensures r.Ok? ==> byUser == old(byUser)[userId := r.value]
    {
      var presence := Find(userId);
      if presence.None? || !presence.value.available {
        return Err(NOT_AVAILABLE);
      }
      var updated := presence.value.(lat := Some(lat), lon := Some(lon), accuracy := accuracy);
      updated := updated.(updatedAt := nowMs);
      byUser := byUser[userId := updated];
      r := Ok(updated);
    }
  }
}
