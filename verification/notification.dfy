/**
 A push notification as the queue engine sees it (the `NotificationAsRedisObject`
 mixin): the fields the engine reads or writes, plus the channel-specific
 business fields it only carries along. Times are whole seconds.
 */
module Notifications {

  import opened Options

  /** The `type` discriminator: which notification class a record rebuilds into. */
  datatype Kind = Apns | Gcm

  datatype Notification = Notification(
    kind: Kind,
    createdAt: Option<int>,        // stamped on the first save, never overwritten
    deliverAfter: Option<int>,
    expiry: Option<int>,           // seconds after createdAt; `Some(0)` is still an expiry
    retries: int,
    app: string,
    data: string,
    registrationIds: seq<string>,
    attributes: map<string, string> // device token, alert, badge, collapse key, ...
  )

  /**
   The serialized record stored as a Redis list element or sorted-set member.
   Serialization itself is not modelled: a key is determined by, and
   determines, the record it was dumped from.
   */
  datatype Key = Serialized(record: Notification)

  /** `dump_redis_value`: the Redis member for a notification. */
  function Dump(n: Notification): (k: Key)
    ensures Load(k) == n
  {
    Serialized(n)
  }

  /** `load_from_redis` on a well-formed record. */
  function Load(k: Key): Notification
  {
    k.record
  }

  /** Every member is the dump of the record it loads to: loading loses nothing. */
  lemma LoadThenDump(k: Key)
    ensures Dump(Load(k)) == k
  {
  }

  /** Dumping is injective: different notifications never share a Redis member. */
  lemma DumpInjective(m: Notification, n: Notification)
    ensures Dump(m) == Dump(n) <==> m == n
  {
    assert Load(Dump(m)) == m && Load(Dump(n)) == n;
  }

  function LoadAll(keys: seq<Key>): (ns: seq<Notification>)
    ensures |ns| == |keys|
    ensures forall i :: 0 <= i < |keys| ==> ns[i] == Load(keys[i])
  {
    seq(|keys|, i requires 0 <= i < |keys| => Load(keys[i]))
  }

  /** `self.created_at ||= now`. */
  function Stamp(n: Notification, now: int): (m: Notification)
    ensures m.createdAt.Some?
    ensures n.createdAt.Some? ==> m.createdAt == n.createdAt
    ensures n.createdAt.None? ==> m.createdAt == Some(now)
    ensures m.(createdAt := n.createdAt) == n
  {
    if n.createdAt.None? then n.(createdAt := Some(now)) else n
  }

  /** Stamping twice keeps the first stamp, whatever the second clock reads. */
  lemma StampIdempotent(n: Notification, first: int, second: int)
    ensures Stamp(Stamp(n, first), second) == Stamp(n, first)
  {
  }

  predicate IsStamped(n: Notification)
  {
    n.createdAt.Some?
  }

  predicate AllStamped(list: seq<Notification>)
  {
    forall n :: n in list ==> IsStamped(n)
  }

  /**
   The scheduler's keep rule: a notification is dropped when it was created
   before `now - tolerance`, or when it has an expiry and `createdAt + expiry`
   is before `now`. Both comparisons are strict. The scheduler only ever sees
   stamped records; an unstamped one (on which the code would raise) counts as
   not deliverable here.
   */
  function IsDeliverable(n: Notification, now: int, tolerance: int): (ok: bool)
    ensures ok ==> IsStamped(n) && n.createdAt.value >= now - tolerance
    ensures ok ==> n.expiry.None? || n.createdAt.value + n.expiry.value >= now
  {
    match n.createdAt
    case None => false
    case Some(createdAt) =>
      !(createdAt < now - tolerance || (n.expiry.Some? && createdAt + n.expiry.value < now))
  }

  /** The keep rule, restated as the two conditions a kept notification meets. */
  lemma DeliverableMeans(n: Notification, now: int, tolerance: int)
    ensures IsDeliverable(n, now, tolerance) <==>
              && n.createdAt.Some?
              && n.createdAt.value >= now - tolerance
              && (n.expiry.None? || n.createdAt.value + n.expiry.value >= now)
  {
  }

  /** The notification `retry_after` writes back: one more retry, due at `deliverAfter`. */
  function Retried(n: Notification, deliverAfter: int): (m: Notification)
    ensures m.retries == n.retries + 1
    ensures m.deliverAfter == Some(deliverAfter)
    ensures m.(retries := n.retries, deliverAfter := n.deliverAfter) == n
    ensures Dump(m) != Dump(n)
  {
    n.(retries := n.retries + 1, deliverAfter := Some(deliverAfter))
  }

  /**
   `Rapns::Gcm::Notification.new` followed by `assign_attributes(attrs)` and the
   four explicit assignments of `create_gcm_notification`. `attrs` is the record
   as it stands after `assign_attributes`.
   */
  function NewGcmNotification(attrs: Notification, data: string, registrationIds: seq<string>,
                              deliverAfter: Option<int>, app: string): (n: Notification)
    ensures n.kind == Gcm
    ensures n.data == data && n.registrationIds == registrationIds
    ensures n.deliverAfter == deliverAfter && n.app == app
    ensures n.(kind := attrs.kind, data := attrs.data, registrationIds := attrs.registrationIds,
               deliverAfter := attrs.deliverAfter, app := attrs.app) == attrs
  {
    attrs.(kind := Gcm, data := data, registrationIds := registrationIds,
           deliverAfter := deliverAfter, app := app)
  }

}
