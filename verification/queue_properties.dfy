/**
 Properties of the queue engine that relate an operation to an independent
 description of its effect, to another operation, or to itself: batch bounds
 and the keep rule of the scheduler, conservation of notifications across the
 sweeps, round trips between enqueue and dequeue and between retry
 scheduling and retry promotion.
 */
module QueueProperties {

  import opened Options
  import opened Notifications
  import opened RedisPrimitives
  import opened RedisStore

  // ---------------------------------------------------------------------------
  // Helpers about keys and lists
  // ---------------------------------------------------------------------------

  /** A loaded list of replies holds exactly the notifications whose members were replied. */
  lemma LoadAllMembers(keys: seq<Key>)
    ensures forall n :: n in LoadAll(keys) <==> Dump(n) in keys
  {
    forall n | Dump(n) in keys
      ensures n in LoadAll(keys)
    {
      var i :| 0 <= i < |keys| && keys[i] == Dump(n);
      assert LoadAll(keys)[i] == n;
    }
  }

  // ---------------------------------------------------------------------------
  // Dequeue with filtering
  // ---------------------------------------------------------------------------

  /**
   Keep/drop rule: a notification is returned exactly when it was popped and
   it was created no earlier than `now - tolerance` and, if it has an expiry,
   `createdAt + expiry` is no earlier than `now`.
   */
  lemma DeliveryKeepRule(s: Store, batchSize: int, now: int, tolerance: int, x: Notification)
    requires AllStamped(s.notificationList)
    ensures var r := DeliverableNotifications(s, batchSize, now, tolerance);
            x in r.batch <==>
              && x in s.notificationList[|r.store.notificationList|..]
              && x.createdAt.Some?
              && x.createdAt.value >= now - tolerance
              && (x.expiry.None? || x.createdAt.value + x.expiry.value >= now)
  {
    var r := DeliverableNotifications(s, batchSize, now, tolerance);
    var popped := s.notificationList[|r.store.notificationList|..];
    assert r.batch == Select(Reverse(popped), now, tolerance);
    SelectPartitions(Reverse(popped), now, tolerance);
    ReverseMembers(popped);
    assert x in r.batch <==> x in popped && IsDeliverable(x, now, tolerance);
    DeliverableMeans(x, now, tolerance);
  }

  /**
   Conservation: the remaining list followed by the popped items is the
   original list, and every popped item is either returned or discarded,
   never both and never twice.
   */
  lemma DeliveryConservation(s: Store, batchSize: int, now: int, tolerance: int)
    requires AllStamped(s.notificationList)
    ensures var r := DeliverableNotifications(s, batchSize, now, tolerance);
            var rest := r.store.notificationList;
            var dropped := Drop(Reverse(s.notificationList[|rest|..]), now, tolerance);
            && rest + s.notificationList[|rest|..] == s.notificationList
            && multiset(r.batch) + multiset(dropped) + multiset(rest) == multiset(s.notificationList)
  {
    var r := DeliverableNotifications(s, batchSize, now, tolerance);
    PoppedAccounting(s.notificationList, |r.store.notificationList|, now, tolerance);
  }

  /** Splitting a list at `m` and filtering the popped part newest first accounts for every item. */
  lemma PoppedAccounting(list: seq<Notification>, m: nat, now: int, tolerance: int)
    requires m <= |list|
    ensures var popped := Reverse(list[m..]);
            && list[..m] + list[m..] == list
            && multiset(Select(popped, now, tolerance)) + multiset(Drop(popped, now, tolerance)) + multiset(list[..m])
               == multiset(list)
  {
    var popped := Reverse(list[m..]);
    assert list[..m] + list[m..] == list;
    SelectPartitions(popped, now, tolerance);
    ReverseMultiset(list[m..]);
  }

  /** A discarded item is never also returned. */
  lemma DroppedAreNotReturned(s: Store, batchSize: int, now: int, tolerance: int, x: Notification)
    requires AllStamped(s.notificationList)
    ensures var r := DeliverableNotifications(s, batchSize, now, tolerance);
            x in Drop(Reverse(s.notificationList[|r.store.notificationList|..]), now, tolerance)
            ==> x !in r.batch
  {
    var r := DeliverableNotifications(s, batchSize, now, tolerance);
    var popped := s.notificationList[|r.store.notificationList|..];
    SelectPartitions(Reverse(popped), now, tolerance);
    DropDiscards(Reverse(popped), now, tolerance);
  }

  /** Everything `Drop` keeps fails the keep rule. */
  lemma {:induction false} DropDiscards(s: seq<Notification>, now: int, tolerance: int)
    ensures forall x :: x in Drop(s, now, tolerance) ==> x in s && !IsDeliverable(x, now, tolerance)
  {
    if s != [] {
      DropDiscards(s[1..], now, tolerance);
    }
  }

  /** When every item passes the keep rule, `Select` returns them all. */
  lemma {:induction false} SelectAll(s: seq<Notification>, now: int, tolerance: int)
    requires forall x :: x in s ==> IsDeliverable(x, now, tolerance)
    ensures Select(s, now, tolerance) == s
  {
    if s != [] {
      SelectAll(s[1..], now, tolerance);
      assert s == [s[0]] + s[1..];
    }
  }

  /**
   Batch bound on fresh items: when every queued item passes the keep rule,
   exactly `min(batchSize, |list|)` come back, newest first, and the untouched
   older prefix stays queued.
   */
  lemma DeliveryOfFreshItems(s: Store, batchSize: nat, now: int, tolerance: int)
    requires AllStamped(s.notificationList)
    requires forall x :: x in s.notificationList ==> IsDeliverable(x, now, tolerance)
    ensures var r := DeliverableNotifications(s, batchSize, now, tolerance);
            var count := if batchSize < |s.notificationList| then batchSize else |s.notificationList|;
            && |r.batch| == count
            && r.store.notificationList == s.notificationList[..|s.notificationList| - count]
            && r.batch == Reverse(s.notificationList[|s.notificationList| - count..])
  {
    var r := DeliverableNotifications(s, batchSize, now, tolerance);
    var popped := s.notificationList[|r.store.notificationList|..];
    assert r.batch == Reverse(popped) by {
      ReverseMembers(popped);
      SelectAll(Reverse(popped), now, tolerance);
    }
  }

  /** Five fresh notifications and a batch size of three: three come back and two stay queued. */
  lemma BatchOfThreeFromFive(s: Store, n: Notification, now: int, tolerance: int)
    requires s.notificationList == [n, n, n, n, n]
    requires n.createdAt == Some(now) && n.expiry == Some(86400) && tolerance >= 0
    ensures AllStamped(s.notificationList)
    ensures var r := DeliverableNotifications(s, 3, now, tolerance);
            r.batch == [n, n, n] && r.store.notificationList == [n, n]
  {
    assert IsDeliverable(n, now, tolerance);
    DeliveryOfFreshItems(s, 3, now, tolerance);
    FiveSplitAtTwo(n);
  }

  /** Splitting five copies of `n` two from the head: two stay, and the three taken read the same reversed. */
  lemma FiveSplitAtTwo(n: Notification)
    ensures [n, n, n, n, n][..2] == [n, n]
    ensures Reverse([n, n, n, n, n][2..]) == [n, n, n]
  {
    assert [n, n, n, n, n][2..] == [n, n, n];
    ReverseIndex([n, n, n]);
  }

  /**
   A notification created a day ago (beyond a tolerance under a day) and one
   with a one-second expiry created ten seconds ago are both discarded: the
   batch is empty and so is the list.
   */
  lemma ExpiredOrTooOldAreForgotten(s: Store, dayOld: Notification, expired: Notification,
                                    batchSize: int, now: int, tolerance: int)
    requires s.notificationList == [dayOld, expired]
    requires dayOld.createdAt == Some(now - 86400) && tolerance < 86400
    requires expired.createdAt == Some(now - 10) && expired.expiry == Some(1)
    requires batchSize > 0
    ensures AllStamped(s.notificationList)
    ensures var r := DeliverableNotifications(s, batchSize, now, tolerance);
            r.batch == [] && r.store.notificationList == []
  {
    assert !IsDeliverable(dayOld, now, tolerance) && !IsDeliverable(expired, now, tolerance);
    NothingDeliverableEmptiesList(s, batchSize, now, tolerance);
  }

  /**
   When no queued item passes the keep rule, the scheduler pops the whole
   list, returns nothing, and puts nothing back.
   */
  lemma NothingDeliverableEmptiesList(s: Store, batchSize: int, now: int, tolerance: int)
    requires AllStamped(s.notificationList)
    requires forall x :: x in s.notificationList ==> !IsDeliverable(x, now, tolerance)
    requires batchSize > 0
    ensures var r := DeliverableNotifications(s, batchSize, now, tolerance);
            r.batch == [] && r.store.notificationList == []
  {
    var r := DeliverableNotifications(s, batchSize, now, tolerance);
    if r.batch != [] {
      var x := r.batch[0];
      DeliveryKeepRule(s, batchSize, now, tolerance, x);
      assert false;
    }
  }

  /**
   The age comparison of the keep rule is strict: a single queued item
   created exactly `tolerance` seconds ago is returned, provided it has no
   expiry or one that has not ended before now.
   */
  lemma ToleranceEdgeIsKept(s: Store, n: Notification, now: int, tolerance: int)
    requires s.notificationList == [n]
    requires n.createdAt == Some(now - tolerance)
    requires n.expiry.None? || n.createdAt.value + n.expiry.value >= now
    ensures AllStamped(s.notificationList)
    ensures DeliverableNotifications(s, 1, now, tolerance).batch == [n]
  {
    DeliveryOfFreshItems(s, 1, now, tolerance);
    assert s.notificationList[0..] == [n];
  }

  /**
   The expiry comparison of the keep rule is strict: a single queued item
   inside the tolerance window whose expiry ends exactly now is returned.
   */
  lemma ExpiryEdgeIsKept(s: Store, n: Notification, now: int, tolerance: int)
    requires s.notificationList == [n]
    requires n.createdAt.Some? && n.createdAt.value >= now - tolerance
    requires n.expiry.Some? && n.createdAt.value + n.expiry.value == now
    ensures AllStamped(s.notificationList)
    ensures DeliverableNotifications(s, 1, now, tolerance).batch == [n]
  {
    DeliveryOfFreshItems(s, 1, now, tolerance);
    assert s.notificationList[0..] == [n];
  }

  // ---------------------------------------------------------------------------
  // Enqueue
  // ---------------------------------------------------------------------------

  /**
   Round trip: right after a valid save, popping the tail of the notification
   list yields the saved (stamped) notification and the list as it was.
   */
  lemma SavedNotificationIsPoppedNext(s: Store, n: Notification, now: int)
    ensures var r := SaveToRedis(s, n, now, true);
            RPop(r.store.notificationList) == Some((r.notification, s.notificationList))
  {
    var r := SaveToRedis(s, n, now, true);
    RPopAfterRPush(s.notificationList, r.notification);
  }

  /** Saving a notification again, at any later time, never moves its creation stamp. */
  lemma ResaveKeepsCreatedAt(s: Store, t: Store, n: Notification, first: int, second: int,
                             valid: bool, validAgain: bool)
    ensures var saved := SaveToRedis(s, n, first, valid).notification;
            var resaved := SaveToRedis(t, saved, second, validAgain).notification;
            resaved == saved && resaved.createdAt == (if n.createdAt.Some? then n.createdAt else Some(first))
  {
  }

  /**
   A fresh notification saved onto an empty notification list is exactly what
   the scheduler hands out next, and the list is empty again afterwards.
   */
  lemma SaveThenDeliver(s: Store, n: Notification, now: int, batchSize: int, tolerance: int)
    requires s.notificationList == [] && batchSize > 0 && tolerance >= 0
    requires n.createdAt.None? && (n.expiry.None? || n.expiry.value >= 0)
    ensures var saved := SaveToRedis(s, n, now, true);
            var r := DeliverableNotifications(saved.store, batchSize, now, tolerance);
            r.batch == [saved.notification] && r.store == s
  {
    var saved := SaveToRedis(s, n, now, true);
    assert saved.store.notificationList == [saved.notification];
    assert IsDeliverable(saved.notification, now, tolerance);
    DeliveryOfFreshItems(saved.store, batchSize, now, tolerance);
    var r := DeliverableNotifications(saved.store, batchSize, now, tolerance);
    assert r.store.notificationList == [] && r.batch == Reverse([saved.notification]) == [saved.notification];
  }

  /**
   A GCM notification created by `create_gcm_notification` is the next item
   popped from the tail of the pending queue, and the scheduler, which reads
   the other list, hands out exactly what it would have handed out without it.
   */
  lemma GcmNotificationWaitsOnPendingQueue(s: Store, attrs: Notification, data: string,
                                           registrationIds: seq<string>, deliverAfter: Option<int>,
                                           app: string, batchSize: int, now: int, tolerance: int)
    requires AllStamped(s.notificationList)
    ensures var c := CreateGcmNotification(s, attrs, data, registrationIds, deliverAfter, app);
            && RPop(c.store.pendingQueue) == Some((c.notification, s.pendingQueue))
            && AllStamped(c.store.notificationList)
            && DeliverableNotifications(c.store, batchSize, now, tolerance).batch
               == DeliverableNotifications(s, batchSize, now, tolerance).batch
  {
    var c := CreateGcmNotification(s, attrs, data, registrationIds, deliverAfter, app);
    RPopAfterRPush(s.pendingQueue, c.notification);
  }

  // ---------------------------------------------------------------------------
  // Completion
  // ---------------------------------------------------------------------------

  /**
   Completing a notification twice is the same as completing it once, and
   completing one notification never disturbs another in-flight one.
   */
  lemma CompletionIdempotent(s: Store, n: Notification, other: Notification)
    ensures MarkDelivered(MarkDelivered(s, n), n) == MarkDelivered(s, n)
    ensures MarkFailed(MarkDelivered(s, n), n, 0, "") == MarkDelivered(s, n)
    ensures other != n && Dump(other) in s.processing ==>
              Dump(other) in MarkDelivered(s, n).processing
              && MarkDelivered(s, n).processing[Dump(other)] == s.processing[Dump(other)]
  {
    DumpInjective(other, n);
  }

  // ---------------------------------------------------------------------------
  // Retry scheduling and promotion
  // ---------------------------------------------------------------------------

  /** After a promotion, the pending head holds the promoted notifications, latest-due first. */
  lemma PromotedHeadLatestFirst(s: Store, now: int, due: seq<Key>, r: Store, i: nat, j: nat)
    requires PromotionStep(s, now, due, r)
    requires i < j < |due|
    ensures Dump(r.pendingQueue[i]) in s.retries && Dump(r.pendingQueue[j]) in s.retries
    ensures s.retries[Dump(r.pendingQueue[i])] >= s.retries[Dump(r.pendingQueue[j])]
  {
    var a, b := |due| - 1 - j, |due| - 1 - i;
    var promoted := Reverse(LoadAll(due));
    ReverseIndex(LoadAll(due));
    assert r.pendingQueue[i] == promoted[i] && r.pendingQueue[j] == promoted[j];
    assert Dump(promoted[i]) == due[b] by {
      assert promoted[i] == LoadAll(due)[b] == Load(due[b]);
    }
    assert Dump(promoted[j]) == due[a] by {
      assert promoted[j] == LoadAll(due)[a] == Load(due[a]);
    }
    assert ByScore(s.retries, due);
    assert s.retries[due[a]] <= s.retries[due[b]];
  }

  /**
   Promotion conserves what waits for delivery: a notification is pending or
   scheduled for retry after the promotion exactly when it was before, every
   promoted notification left the retries set, and the pending queue grew by
   exactly the promoted notifications.
   */
  lemma PromotionConservation(s: Store, now: int, due: seq<Key>, r: Store)
    requires PromotionStep(s, now, due, r)
    ensures forall n :: (n in r.pendingQueue || Dump(n) in r.retries)
                          <==> (n in s.pendingQueue || Dump(n) in s.retries)
    ensures forall n :: Dump(n) in due ==> Dump(n) !in r.retries && n in r.pendingQueue
    ensures multiset(r.pendingQueue) == multiset(LoadAll(due)) + multiset(s.pendingQueue)
  {
    LoadAllMembers(due);
    ReverseMembers(LoadAll(due));
    ReverseMultiset(LoadAll(due));
  }

  /** When nothing is due, promotion changes nothing. */
  lemma NothingDueChangesNothing(s: Store, now: int, due: seq<Key>, r: Store)
    requires PromotionStep(s, now, due, r)
    requires forall k :: k in s.retries ==> s.retries[k] > now
    ensures due == [] && r == s
  {
    assert r.retries == s.retries;
  }

  /** Promoting twice at the same time promotes nothing the second time. */
  lemma PromotionIdempotent(s: Store, now: int, due: seq<Key>, r: Store, due2: seq<Key>, r2: Store)
    requires PromotionStep(s, now, due, r)
    requires PromotionStep(r, now, due2, r2)
    ensures due2 == [] && r2 == r
  {
    NothingDueChangesNothing(r, now, due2, r2);
  }

  /**
   A retry scheduled for `deliverAfter` comes back to the pending queue at the
   first promotion run at or after `deliverAfter`, with its retry count
   raised by one, and stays in the retries set at any run before it.
   */
  lemma RetryIsPromotedOnceDue(s: Store, n: Notification, deliverAfter: int,
                               now: int, due: seq<Key>, r: Store)
    requires PromotionStep(RetryAfter(s, n, deliverAfter).store, now, due, r)
    ensures var m := RetryAfter(s, n, deliverAfter).notification;
            && m.retries == n.retries + 1
            && (deliverAfter <= now ==> m in r.pendingQueue[..|due|] && Dump(m) !in r.retries)
            && (now < deliverAfter ==> Dump(m) !in due && Dump(m) in r.retries
                                        && r.retries[Dump(m)] == deliverAfter)
  {
    var m := RetryAfter(s, n, deliverAfter).notification;
    LoadAllMembers(due);
    ReverseMembers(LoadAll(due));
    assert r.pendingQueue[..|due|] == Reverse(LoadAll(due));
  }

  // ---------------------------------------------------------------------------
  // Stall sweep
  // ---------------------------------------------------------------------------

  /**
   The stall sweep by score, with `minScore = now - tolerance` and
   `maxScore = now - pollInterval`: a processing entry is re-queued exactly
   when its score lies in [minScore, maxScore], dropped exactly when it lies
   at or below `minScore` and was not re-queued, and stays, with its score,
   exactly when it lies above both bounds.
   */
  lemma StallSweepByScore(s: Store, now: int, tolerance: int, pollInterval: int,
                          requeued: seq<Key>, abandoned: seq<Key>, r: Store)
    requires StallSweepStep(s, now, tolerance, pollInterval, requeued, abandoned, r)
    ensures var minScore, maxScore := now - tolerance, now - pollInterval;
            forall k :: k in s.processing ==>
              && (k in requeued <==> minScore <= s.processing[k] <= maxScore)
              && (k in abandoned <==> s.processing[k] <= minScore && k !in requeued)
              && (k in r.processing <==> s.processing[k] > minScore && s.processing[k] > maxScore)
    ensures forall k :: k in r.processing ==> k in s.processing && r.processing[k] == s.processing[k]
  {
  }

  /**
   The stall sweep by age, when the tolerance exceeds the poll interval: an
   entry `age` seconds old is re-queued when `pollInterval <= age <= tolerance`,
   dropped when `age > tolerance`, and left alone when `age < pollInterval`.
   */
  lemma StallSweepByAge(s: Store, now: int, tolerance: int, pollInterval: int,
                        requeued: seq<Key>, abandoned: seq<Key>, r: Store, k: Key)
    requires pollInterval < tolerance
    requires StallSweepStep(s, now, tolerance, pollInterval, requeued, abandoned, r)
    requires k in s.processing
    ensures var age := now - s.processing[k];
            && (pollInterval <= age <= tolerance <==> k in requeued && Load(k) in r.pendingQueue)
            && (age > tolerance <==> k in abandoned)
            && (age < pollInterval <==> k in r.processing)
            && (k in requeued ==> k !in abandoned && k !in r.processing)
  {
    LoadAllMembers(requeued);
    ReverseMembers(LoadAll(requeued));
    StallSweepByScore(s, now, tolerance, pollInterval, requeued, abandoned, r);
  }

  /**
   Conservation of the stall sweep: a notification is pending or in flight
   after the sweep exactly when it was before and was not dropped, and the
   pending queue grew by exactly the re-queued notifications.
   */
  lemma StallSweepConservation(s: Store, now: int, tolerance: int, pollInterval: int,
                               requeued: seq<Key>, abandoned: seq<Key>, r: Store)
    requires StallSweepStep(s, now, tolerance, pollInterval, requeued, abandoned, r)
    ensures forall n :: (n in r.pendingQueue || Dump(n) in r.processing || Dump(n) in abandoned)
                          <==> (n in s.pendingQueue || Dump(n) in s.processing)
    ensures multiset(r.pendingQueue) == multiset(LoadAll(requeued)) + multiset(s.pendingQueue)
  {
    LoadAllMembers(requeued);
    ReverseMembers(LoadAll(requeued));
    ReverseMultiset(LoadAll(requeued));
    StallSweepByScore(s, now, tolerance, pollInterval, requeued, abandoned, r);
  }

  /** Sweeping twice with the same clock and settings re-queues and drops nothing the second time. */
  lemma StallSweepIdempotent(s: Store, now: int, tolerance: int, pollInterval: int,
                             requeued: seq<Key>, abandoned: seq<Key>, r: Store,
                             requeued2: seq<Key>, abandoned2: seq<Key>, r2: Store)
    requires StallSweepStep(s, now, tolerance, pollInterval, requeued, abandoned, r)
    requires StallSweepStep(r, now, tolerance, pollInterval, requeued2, abandoned2, r2)
    ensures requeued2 == [] && abandoned2 == [] && r2 == r
  {
    StallSweepByScore(s, now, tolerance, pollInterval, requeued, abandoned, r);
    NothingStalledChangesNothing(r, now, tolerance, pollInterval, requeued2, abandoned2, r2);
  }

  /** When every in-flight entry is scored above both bounds, the stall sweep changes nothing. */
  lemma NothingStalledChangesNothing(s: Store, now: int, tolerance: int, pollInterval: int,
                                     requeued: seq<Key>, abandoned: seq<Key>, r: Store)
    requires StallSweepStep(s, now, tolerance, pollInterval, requeued, abandoned, r)
    requires forall k :: k in s.processing ==> s.processing[k] > now - tolerance && s.processing[k] > now - pollInterval
    ensures requeued == [] && abandoned == [] && r == s
  {
    var minScore, maxScore := now - tolerance, now - pollInterval;
    assert requeued == [] by {
      EmptyReply(s.processing, AtLeast(minScore), maxScore, requeued);
    }
    assert abandoned == [] by {
      ZRemNothing(s.processing);
      EmptyReply(s.processing, NegInfinity, minScore, abandoned);
    }
    assert r.processing == s.processing;
  }

  /** A range that holds no member gets the empty reply. */
  lemma EmptyReply(z: map<Key, int>, min: MinScore, max: int, reply: seq<Key>)
    requires IsRangeReply(z, min, max, reply)
    requires forall k :: k in z ==> !InRange(z[k], min, max)
    ensures reply == []
  {
    if reply != [] {
      ReplyHead(z, min, max, reply);
      assert false;
    }
  }

  /** The first member of a non-empty reply lies in the range. */
  lemma ReplyHead(z: map<Key, int>, min: MinScore, max: int, reply: seq<Key>)
    requires IsRangeReply(z, min, max, reply) && reply != []
    ensures reply[0] in z && InRange(z[reply[0]], min, max)
  {
    assert reply[0] in reply;
  }

}
