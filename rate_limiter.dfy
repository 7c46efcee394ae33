/** The in-memory per-pair cooldown: a table from (sender, recipient) to the
    time of the last recorded send, with a strict five-minute window. */
module RateLimiter {
  import opened Common

  const COOLDOWN_MS: int := 5 * 60 * 1000

  /** The ordered pair behind the string key `${fromUserId}:${toUserId}`. */
  datatype Pair = Pair(fromUserId: Id, toUserId: Id)

  /** The module-level `lastSendMap`; `nowMs` stands for `Date.now()`. */
  class CooldownTable {
    var lastSend: map<Pair, int>

    constructor ()
      ensures lastSend == map[]
    {
      lastSend := map[];
    }

    /** A pair with no entry, or whose entry is the falsy timestamp 0, may send;
        otherwise strictly more than COOLDOWN_MS must have elapsed. */
    function CanSend(fromUserId: Id, toUserId: Id, nowMs: int): (ok: bool)
      reads this
      ensures Pair(fromUserId, toUserId) !in lastSend ==> ok
      ensures Pair(fromUserId, toUserId) in lastSend && lastSend[Pair(fromUserId, toUserId)] == 0 ==> ok
      ensures Pair(fromUserId, toUserId) in lastSend && lastSend[Pair(fromUserId, toUserId)] != 0 ==>
                (ok <==> nowMs - lastSend[Pair(fromUserId, toUserId)] > COOLDOWN_MS)
    {
      var k := Pair(fromUserId, toUserId);
      if k !in lastSend || lastSend[k] == 0 then true
      else nowMs - lastSend[k] > COOLDOWN_MS
    }

    /** Overwrites the pair's entry: only the latest send governs, every other
        pair (including the reversed one) keeps its entry and its verdict. */
    method RecordSend(fromUserId: Id, toUserId: Id, nowMs: int)
      modifies this
      ensures lastSend == old(lastSend)[Pair(fromUserId, toUserId) := nowMs]
      ensures nowMs != 0 ==>
                forall later :: CanSend(fromUserId, toUserId, later) <==> later - nowMs > COOLDOWN_MS
      ensures forall a, b, t :: Pair(a, b) != Pair(fromUserId, toUserId) ==>
                CanSend(a, b, t) == old(CanSend(a, b, t))
    {
      lastSend := lastSend[Pair(fromUserId, toUserId) := nowMs];
    }
  }
}
