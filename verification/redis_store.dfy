/**
 The Redis-backed notification queue engine (`RedisStore`) as pure transitions
 over an immutable snapshot of its four Redis collections. The clock, the
 configuration (`batch_size`, `stalled_notification_tolerence`,
 `feedback_poll`) and `valid?` are explicit parameters.
 */
module RedisStore {

  import opened Options
  import opened Notifications
  import opened RedisPrimitives

  /**
   The Redis state the engine touches. The two lists are distinct Redis keys
   in the code: the scheduler and `save_to_redis` use `REDIS_LIST_NAME`, while
   `create_gcm_notification` and the sweeps use `PENDING_QUEUE_NAME`.
   */
  datatype Store = Store(
    notificationList: seq<Notification>, // REDIS_LIST_NAME ('rapns:notifications')
    pendingQueue: seq<Notification>,     // PENDING_QUEUE_NAME
    processing: map<Key, int>,           // PROCESSING_QUEUE_NAME: member -> score
    retries: map<Key, int>               // RETRIES_QUEUE_NAME: member -> score
  )

  // ---------------------------------------------------------------------------
  // Enqueue
  // ---------------------------------------------------------------------------

  /** A new store state together with the caller's (possibly updated) notification. */
  datatype Updated = Updated(store: Store, notification: Notification)

  /**
   `save_to_redis`: stamps `createdAt` when unset, then appends the record to
   the tail of the notification list if the notification is valid.
   */
  function SaveToRedis(s: Store, n: Notification, now: int, valid: bool): (r: Updated)
    ensures IsStamped(r.notification)
    ensures n.createdAt.Some? ==> r.notification == n
    ensures n.createdAt.None? ==> r.notification.createdAt == Some(now)
    ensures r.notification.(createdAt := n.createdAt) == n
    ensures valid ==> r.store.notificationList == s.notificationList + [r.notification]
    ensures !valid ==> r.store == s
    ensures r.store.(notificationList := s.notificationList) == s
    ensures AllStamped(s.notificationList) ==> AllStamped(r.store.notificationList)
  {
    var stamped := Stamp(n, now);
    if valid then Updated(s.(notificationList := RPush(s.notificationList, stamped)), stamped)
    else Updated(s, stamped)
  }

  /**
   `create_gcm_notification`: builds a GCM notification and appends it to the
   tail of the pending queue, with no validity check and no creation stamp.
   */
  function CreateGcmNotification(s: Store, attrs: Notification, data: string, registrationIds: seq<string>,
                                 deliverAfter: Option<int>, app: string): (r: Updated)
    ensures r.notification == NewGcmNotification(attrs, data, registrationIds, deliverAfter, app)
    ensures r.notification.kind == Gcm && r.notification.deliverAfter == deliverAfter
    ensures r.notification.data == data && r.notification.registrationIds == registrationIds
    ensures r.notification.app == app
    ensures r.notification.expiry == attrs.expiry && r.notification.attributes == attrs.attributes
    ensures r.notification.createdAt == attrs.createdAt
    ensures r.store.pendingQueue == s.pendingQueue + [r.notification]
    ensures r.store.(pendingQueue := s.pendingQueue) == s
  {
    var n := NewGcmNotification(attrs, data, registrationIds, deliverAfter, app);
    Updated(s.(pendingQueue := RPush(s.pendingQueue, n)), n)
  }

  // ---------------------------------------------------------------------------
  // Dequeue with filtering
  // ---------------------------------------------------------------------------

  /** The deliverable elements of `s`, in the order of `s`. */
  function Select(s: seq<Notification>, now: int, tolerance: int): seq<Notification>
  {
    if s == [] then []
    else Verdict(s[0], now, tolerance) + Select(s[1..], now, tolerance)
  }

  /** The deliverable verdict on one popped item: the item itself, or nothing. */
  function Verdict(n: Notification, now: int, tolerance: int): seq<Notification>
  {
    if IsDeliverable(n, now, tolerance) then [n] else []
  }

  /**
   `Select` keeps exactly the deliverable elements, each as often as it occurs:
   together with the elements it drops it accounts for all of `s`.
   */
  lemma {:induction false} SelectPartitions(s: seq<Notification>, now: int, tolerance: int)
    ensures forall x :: x in Select(s, now, tolerance) <==> x in s && IsDeliverable(x, now, tolerance)
    ensures multiset(Select(s, now, tolerance)) + multiset(Drop(s, now, tolerance)) == multiset(s)
  {
    if s != [] {
      SelectPartitions(s[1..], now, tolerance);
      assert s == [s[0]] + s[1..];
    }
  }

  /** The elements the scheduler discards: those that are not deliverable. */
  function Drop(s: seq<Notification>, now: int, tolerance: int): seq<Notification>
  {
    if s == [] then []
    else (if IsDeliverable(s[0], now, tolerance) then [] else [s[0]]) + Drop(s[1..], now, tolerance)
  }

  /** Newest first, the deliverable items among `list[from..]` are the tail's verdict followed by the rest's. */
  lemma SelectNewestFirst(list: seq<Notification>, from: nat, now: int, tolerance: int)
    requires from < |list|
    ensures var newest := list[|list| - 1];
            Select(Reverse(list[from..]), now, tolerance)
            == Verdict(newest, now, tolerance) + Select(Reverse(list[..|list| - 1][from..]), now, tolerance)
  {
    var newest, older := list[|list| - 1], list[..|list| - 1][from..];
    assert list[from..] == older + [newest];
    assert (older + [newest])[..|older|] == older;
    var reversed := Reverse(list[from..]);
    assert reversed == [newest] + Reverse(older);
    assert reversed[1..] == Reverse(older);
  }

  datatype Dequeued = Dequeued(batch: seq<Notification>, remaining: seq<Notification>)

  /**
   What the pop loop promises when it starts from `list` having already kept
   `taken`: it popped a suffix of `list`; the batch is `taken` followed by the
   deliverable popped items, newest first; it stops at `batchSize` kept items
   or at the empty list, and it did not pop the last item it popped until it
   still needed one.
   */
  ghost predicate PopContract(list: seq<Notification>, taken: seq<Notification>,
                              batchSize: int, now: int, tolerance: int, d: Dequeued)
  {
    && |d.remaining| <= |list| && d.remaining == list[..|d.remaining|]
    && d.batch == taken + Select(Reverse(list[|d.remaining|..]), now, tolerance)
    && (|taken| >= batchSize ==> d == Dequeued(taken, list))
    && (|taken| < batchSize ==> |d.batch| <= batchSize)
    && (|d.batch| < batchSize ==> d.remaining == [])
    && (d.remaining != list ==>
          |taken + Select(Reverse(list[|d.remaining| + 1..]), now, tolerance)| < batchSize)
  }

  /**
   The pop loop of `deliverable_notifications`: while fewer than `batchSize`
   notifications are kept and the list is not empty, `rpop` the newest item
   and keep it when deliverable. `taken` is what the loop has kept so far.
   */
  function PopDeliverable(list: seq<Notification>, taken: seq<Notification>,
                          batchSize: int, now: int, tolerance: int): (d: Dequeued)
    ensures PopContract(list, taken, batchSize, now, tolerance, d)
    decreases |list|
  {
    if |taken| < batchSize && list != [] then
      var newest, older := list[|list| - 1], list[..|list| - 1];
      var kept := taken + Verdict(newest, now, tolerance);
      var d := PopDeliverable(older, kept, batchSize, now, tolerance);
      PopStep(list, taken, kept, batchSize, now, tolerance, d);
      d
    else
      assert list[|list|..] == [];
      Dequeued(taken, list)
  }

  /** One iteration of the pop loop extends the contract of the rest of the loop to the whole loop. */
  lemma PopStep(list: seq<Notification>, taken: seq<Notification>, kept: seq<Notification>,
                batchSize: int, now: int, tolerance: int, d: Dequeued)
    requires |taken| < batchSize && list != []
    requires kept == taken + Verdict(list[|list| - 1], now, tolerance)
    requires PopContract(list[..|list| - 1], kept, batchSize, now, tolerance, d)
    ensures PopContract(list, taken, batchSize, now, tolerance, d)
  {
    var older := list[..|list| - 1];
    var m := |d.remaining|;
    assert d.remaining == list[..m] by {
      assert list[..m] == older[..m];
    }
    PopStepBatch(list, taken, kept, m, d.batch, now, tolerance);
    assert |d.batch| <= batchSize by {
      if |kept| >= batchSize {
        assert d.batch == kept;
      }
    }
    if m + 1 < |list| {
      assert d.remaining != older;
      PopStepMinimal(list, taken, kept, m, batchSize, now, tolerance);
    } else {
      assert list[m + 1..] == [];
    }
  }

  lemma PopStepBatch(list: seq<Notification>, taken: seq<Notification>, kept: seq<Notification>,
                     m: nat, batch: seq<Notification>, now: int, tolerance: int)
    requires m < |list|
    requires kept == taken + Verdict(list[|list| - 1], now, tolerance)
    requires batch == kept + Select(Reverse(list[..|list| - 1][m..]), now, tolerance)
    ensures batch == taken + Select(Reverse(list[m..]), now, tolerance)
  {
    var v, rest := Verdict(list[|list| - 1], now, tolerance), Select(Reverse(list[..|list| - 1][m..]), now, tolerance);
    SelectNewestFirst(list, m, now, tolerance);
    assert (taken + v) + rest == taken + (v + rest);
  }

  lemma PopStepMinimal(list: seq<Notification>, taken: seq<Notification>, kept: seq<Notification>,
                       m: nat, batchSize: int, now: int, tolerance: int)
    requires m + 1 < |list|
    requires kept == taken + Verdict(list[|list| - 1], now, tolerance)
    requires |kept + Select(Reverse(list[..|list| - 1][m + 1..]), now, tolerance)| < batchSize
    ensures |taken + Select(Reverse(list[m + 1..]), now, tolerance)| < batchSize
  {
    SelectNewestFirst(list, m + 1, now, tolerance);
  }

  /** The result of `deliverable_notifications`: the batch and the new store. */
  datatype Delivery = Delivery(batch: seq<Notification>, store: Store)

  /**
   `deliverable_notifications`: pops from the tail of the notification list
   until `batchSize` notifications are kept or the list is empty. Items past
   the tolerance window or their expiry are dropped: neither returned nor put
   back. Nothing else changes.
   */
  function DeliverableNotifications(s: Store, batchSize: int, now: int, tolerance: int): (r: Delivery)
    requires AllStamped(s.notificationList)
    ensures var rest := r.store.notificationList;
            && |rest| <= |s.notificationList|
            && rest == s.notificationList[..|rest|]
            && r.batch == Select(Reverse(s.notificationList[|rest|..]), now, tolerance)
    ensures batchSize <= 0 ==> r == Delivery([], s)
    ensures |r.batch| <= batchSize || r.batch == []
    ensures |r.batch| < batchSize ==> r.store.notificationList == []
    ensures |r.store.notificationList| < |s.notificationList| ==>
              |Select(Reverse(s.notificationList[|r.store.notificationList| + 1..]), now, tolerance)| < batchSize
    ensures r.store.(notificationList := s.notificationList) == s
    ensures AllStamped(r.store.notificationList)
  {
    var d := PopDeliverable(s.notificationList, [], batchSize, now, tolerance);
    PopFromStart(s.notificationList, batchSize, now, tolerance, d);
    Delivery(d.batch, s.(notificationList := d.remaining))
  }

  /** The pop loop's contract for a loop that starts with nothing kept. */
  lemma PopFromStart(list: seq<Notification>, batchSize: int, now: int, tolerance: int, d: Dequeued)
    requires AllStamped(list)
    requires PopContract(list, [], batchSize, now, tolerance, d)
    ensures |d.remaining| <= |list| && d.remaining == list[..|d.remaining|]
    ensures d.batch == Select(Reverse(list[|d.remaining|..]), now, tolerance)
    ensures batchSize <= 0 ==> d == Dequeued([], list)
    ensures |d.batch| <= batchSize || d.batch == []
    ensures |d.batch| < batchSize ==> d.remaining == []
    ensures |d.remaining| < |list| ==> |Select(Reverse(list[|d.remaining| + 1..]), now, tolerance)| < batchSize
    ensures AllStamped(d.remaining)
  {
    assert [] + d.batch == d.batch;
    var rest := Select(Reverse(list[|d.remaining|..]), now, tolerance);
    assert d.batch == [] + rest;
    assert [] + rest == rest;
    if |d.remaining| < |list| {
      var next := Select(Reverse(list[|d.remaining| + 1..]), now, tolerance);
      assert [] + next == next;
    }
    assert forall x :: x in d.remaining ==> x in list;
  }

  // ---------------------------------------------------------------------------
  // Retry scheduling and completion
  // ---------------------------------------------------------------------------

  /**
   `retry_after`: removes the notification from processing, counts one more
   retry, sets `deliverAfter`, and adds the updated record to the retries set
   scored by `deliverAfter`.
   */
  function RetryAfter(s: Store, n: Notification, deliverAfter: int): (r: Updated)
    ensures r.notification.retries == n.retries + 1
    ensures r.notification.deliverAfter == Some(deliverAfter)
    ensures r.notification.(retries := n.retries, deliverAfter := n.deliverAfter) == n
    ensures Dump(n) !in r.store.processing
    ensures r.store.processing == s.processing - {Dump(n)}
    ensures Dump(r.notification) in r.store.retries
    ensures r.store.retries[Dump(r.notification)] == deliverAfter
    ensures r.store.retries - {Dump(r.notification)} == s.retries - {Dump(r.notification)}
    ensures r.store.notificationList == s.notificationList && r.store.pendingQueue == s.pendingQueue
  {
    var m := Retried(n, deliverAfter);
    Updated(s.(processing := s.processing - {Dump(n)},
               retries := s.retries[Dump(m) := deliverAfter]), m)
  }

  /** `remove_notification_in_processing`: ZREM of the notification's record from processing. */
  function RemoveNotificationInProcessing(s: Store, n: Notification): (r: Store)
    ensures Dump(n) !in r.processing
    ensures forall k :: k in r.processing <==> k in s.processing && k != Dump(n)
    ensures forall k :: k in r.processing ==> r.processing[k] == s.processing[k]
    ensures Dump(n) !in s.processing ==> r == s
    ensures r.(processing := s.processing) == s
  {
    s.(processing := ZRem(s.processing, [Dump(n)]))
  }

  /** `mark_delivered`: the notification is no longer in flight. */
  function MarkDelivered(s: Store, n: Notification): (r: Store)
    ensures Dump(n) !in r.processing
    ensures r.processing == s.processing - {Dump(n)}
    ensures r.(processing := s.processing) == s
  {
    RemoveNotificationInProcessing(s, n)
  }

  /**
   `mark_failed`: the notification is no longer in flight. The error code and
   description are accepted and not recorded.
   */
  function MarkFailed(s: Store, n: Notification, code: int, description: string): (r: Store)
    ensures Dump(n) !in r.processing
    ensures r.processing == s.processing - {Dump(n)}
    ensures r.(processing := s.processing) == s
  {
    RemoveNotificationInProcessing(s, n)
  }

  // ---------------------------------------------------------------------------
  // Sweeps
  // ---------------------------------------------------------------------------

  /** The members of `z` scored strictly above `bound`, with their scores. */
  function Above(z: map<Key, int>, bound: int): (r: map<Key, int>)
    ensures forall k :: k in r <==> k in z && z[k] > bound
    ensures forall k :: k in r ==> r[k] == z[k]
  {
    map k | k in z && z[k] > bound :: z[k]
  }

  /**
   One run of `move_retries_into_pending` at time `now`, which replied `due`
   to its ZRANGEBYSCORE: the due retries go to the head of the pending queue,
   reversed, and leave the retries set.
   */
  ghost predicate PromotionStep(s: Store, now: int, due: seq<Key>, r: Store)
  {
    && IsRangeReply(s.retries, NegInfinity, now, due)
    && r.pendingQueue == Reverse(LoadAll(due)) + s.pendingQueue
    && r.retries == Above(s.retries, now)
    && r.notificationList == s.notificationList
    && r.processing == s.processing
  }

  /** `move_retries_into_pending`. Also returns the members it promoted. */
  method MoveRetriesIntoPending(s: Store, now: int) returns (r: Store, due: seq<Key>)
    ensures PromotionStep(s, now, due, r)
  {
    due := RangeByScore(s.retries, NegInfinity, now);
    r := s;
    if due != [] {
      r := r.(pendingQueue := LPush(r.pendingQueue, LoadAll(due)));
      r := r.(retries := ZRem(r.retries, due));
    }
    ZRemNothing(s.retries);
    ZRemRangeReply(s.retries, NegInfinity, now, due);
    assert ZRem(s.retries, due) == Above(s.retries, now);
  }

  /**
   One run of `handle_stalled_notifications` at time `now`, which replied
   `requeued` to its first ZRANGEBYSCORE and `abandoned` to its second. With
   `minScore = now - tolerance` and `maxScore = now - pollInterval`: members
   scored within [minScore, maxScore] go to the head of the pending queue and
   leave processing; then members scored at or below `minScore` that are still
   there leave processing without being re-queued.
   */
  ghost predicate StallSweepStep(s: Store, now: int, tolerance: int, pollInterval: int,
                                 requeued: seq<Key>, abandoned: seq<Key>, r: Store)
  {
    var minScore, maxScore := now - tolerance, now - pollInterval;
    && IsRangeReply(s.processing, AtLeast(minScore), maxScore, requeued)
    && IsRangeReply(ZRem(s.processing, requeued), NegInfinity, minScore, abandoned)
    && r.pendingQueue == Reverse(LoadAll(requeued)) + s.pendingQueue
    && r.processing == Above(Above(s.processing, minScore), maxScore)
    && r.notificationList == s.notificationList
    && r.retries == s.retries
  }

  /** `handle_stalled_notifications`. Also returns the members it re-queued and dropped. */
  method HandleStalledNotifications(s: Store, now: int, tolerance: int, pollInterval: int)
    returns (r: Store, requeued: seq<Key>, abandoned: seq<Key>)
    ensures StallSweepStep(s, now, tolerance, pollInterval, requeued, abandoned, r)
  {
    var minScore := now - tolerance;
    var maxScore := now - pollInterval;
    var tolerated;
    tolerated, requeued := RequeueRange(s, minScore, maxScore);
    r, abandoned := DropAtOrBelow(tolerated, minScore);
    SweepHalvesCompose(s, now, tolerance, pollInterval, tolerated, requeued, abandoned, r);
  }

  /** The two halves of the stall sweep, run one after the other, make one sweep step. */
  lemma SweepHalvesCompose(s: Store, now: int, tolerance: int, pollInterval: int,
                           tolerated: Store, requeued: seq<Key>, abandoned: seq<Key>, r: Store)
    requires IsRangeReply(s.processing, AtLeast(now - tolerance), now - pollInterval, requeued)
    requires tolerated == s.(pendingQueue := Reverse(LoadAll(requeued)) + s.pendingQueue,
                             processing := ZRem(s.processing, requeued))
    requires IsRangeReply(tolerated.processing, NegInfinity, now - tolerance, abandoned)
    requires r == tolerated.(processing := ZRem(tolerated.processing, abandoned))
    ensures StallSweepStep(s, now, tolerance, pollInterval, requeued, abandoned, r)
  {
    assert r.processing == ZRem(ZRem(s.processing, requeued), abandoned);
    SweepLeavesRecentEntries(s.processing, now - tolerance, now - pollInterval, requeued, abandoned);
  }

  /** The first half of the stall sweep: processing members scored within [minScore, maxScore] move to the pending head. */
  method RequeueRange(s: Store, minScore: int, maxScore: int) returns (r: Store, requeued: seq<Key>)
    ensures IsRangeReply(s.processing, AtLeast(minScore), maxScore, requeued)
    ensures r == s.(pendingQueue := Reverse(LoadAll(requeued)) + s.pendingQueue,
                    processing := ZRem(s.processing, requeued))
  {
    requeued := RangeByScore(s.processing, AtLeast(minScore), maxScore);
    r := s;
    if requeued != [] {
      r := r.(pendingQueue := LPush(r.pendingQueue, LoadAll(requeued)));
      r := r.(processing := ZRem(r.processing, requeued));
    } else {
      ZRemNothing(s.processing);
    }
  }

  /** The second half of the stall sweep: processing members scored at or below `minScore` are removed. */
  method DropAtOrBelow(s: Store, minScore: int) returns (r: Store, abandoned: seq<Key>)
    ensures IsRangeReply(s.processing, NegInfinity, minScore, abandoned)
    ensures r == s.(processing := ZRem(s.processing, abandoned))
  {
    abandoned := RangeByScore(s.processing, NegInfinity, minScore);
    r := s;
    if abandoned != [] {
      r := r.(processing := ZRem(r.processing, abandoned));
    } else {
      ZRemNothing(s.processing);
    }
  }

  /** What the two removals of the stall sweep leave: the members scored above both bounds. */
  lemma SweepLeavesRecentEntries(z: map<Key, int>, minScore: int, maxScore: int,
                                 requeued: seq<Key>, abandoned: seq<Key>)
    requires IsRangeReply(z, AtLeast(minScore), maxScore, requeued)
    requires IsRangeReply(ZRem(z, requeued), NegInfinity, minScore, abandoned)
    ensures ZRem(ZRem(z, requeued), abandoned) == Above(Above(z, minScore), maxScore)
  {
    ZRemRangeReply(z, AtLeast(minScore), maxScore, requeued);
    ZRemRangeReply(ZRem(z, requeued), NegInfinity, minScore, abandoned);
  }

}
