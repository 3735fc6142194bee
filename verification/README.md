# rapns Redis notification queue, modelled in Dafny

This project models the queue engine of rapns's Redis store: the
`NotificationAsRedisObject` mixin and the `RedisStore` class in
`lib/rapns/daemon/store/redis_store.rb`. The engine keeps push notifications
in four Redis collections:

- `REDIS_LIST_NAME` (`rapns:notifications`) is the list that `save_to_redis`
  appends to and that `deliverable_notifications` pops from.
- `PENDING_QUEUE_NAME` is the list that `create_gcm_notification` appends to
  and that both sweeps push back onto. Its value is not given in
  `redis_store.rb`; the model takes it to be a key other than
  `rapns:notifications`.
- `PROCESSING_QUEUE_NAME` is a sorted set of in-flight notifications.
- `RETRIES_QUEUE_NAME` is a sorted set of notifications waiting for a retry,
  scored by their `deliver_after`.

The model holds these four collections in one immutable `Store` value. Lists
are `seq`s whose head is index 0. Sorted sets are `map`s from member to
integer score. A Redis member is a `Key`, an abstract injective serialization
of the notification record. Each engine method is a transition from one
`Store` to the next.

Things that are parameters in the model:

- The clock is the integer `now`, in seconds.
- The configuration is passed in: `batch_size`, `stalled_notification_tolerence`
  and `feedback_poll`.
- `valid?` is a boolean.

The Redis commands are modelled once, in `RedisPrimitives`:

- `RPUSH` and `RPOP` work on the tail of a list.
- `LPUSH` of an array lands the array reversed at the head.
- `ZRANGEBYSCORE` is inclusive at both ends and replies in score order.
- `ZREM` ignores members that are absent.

Files:

- `options.dfy`: `Option`, standing for Ruby's `nil` versus a present value.
- `redis_primitives.dfy`: the list and sorted-set commands.
- `notification.dfy`: the notification record, its serialization, the
  creation stamp and the scheduler's keep rule.
- `redis_store.dfy`: the engine operations and the two sweeps.
- `queue_properties.dfy`: the properties that relate operations to each
  other, or to an independent statement of their effect.

## Behaviour worth knowing

All line numbers below are in `lib/rapns/daemon/store/redis_store.rb`.

- **The newest notification comes out first.** `rpush` (line 19) and `rpop`
  (line 53) work on the same end of the list, as
  `SavedNotificationIsPoppedNext` and `DeliveryOfFreshItems` show.
- **The scheduler never looks at `deliver_after`.** The loop at lines 53-59
  never reads it and never pushes anything back. A notification that is
  popped and fails the keep rule is gone.
- **The keep rule uses strict comparisons.** A notification created exactly
  `tolerance` seconds ago is kept. So is one whose expiry ends exactly at
  `now` (line 56).
- **The sweep ranges are inclusive.** An entry exactly `feedback_poll`
  seconds old is re-queued. When the tolerance is smaller than the poll
  interval, the first range is empty, and every entry at or below
  `now - tolerance` is dropped.
- **Nothing in the live code fills the processing set or runs a sweep.**
  The only `zadd` into processing is in the commented-out block at lines
  64-83. `move_retries_into_pending` and `handle_stalled_notifications` are
  `protected`, and their only call sites are in that same block (lines
  76-77). The model still states both sweeps and the completions for an
  arbitrary processing set and retries set.
- **The model keeps the two lists separate.** A notification made by
  `create_gcm_notification` goes to the pending queue, which the scheduler
  does not read as long as `PENDING_QUEUE_NAME` names a key other than
  `rapns:notifications` (`GcmNotificationWaitsOnPendingQueue`).

## Model

| member | source | states |
|---|---|---|
| RedisPrimitives.RPush | lib/rapns/daemon/store/redis_store.rb:19 | `RPUSH` grows the list by one; the old list is kept as the prefix and the value becomes the tail (also line 129) |
| RedisPrimitives.RPop | lib/rapns/daemon/store/redis_store.rb:53 | `RPOP` gives nothing exactly when the list is empty; otherwise the popped value and the rest make up the old list, with the value last |
| RedisPrimitives.RPopAfterRPush | lib/rapns/daemon/store/redis_store.rb:53 | popping the tail right after an `rpush` gives back the pushed value and the list as it was |
| RedisPrimitives.LPush | lib/rapns/daemon/store/redis_store.rb:156 | `LPUSH` of several values prepends them reversed: the result is the reversed values followed by the old list |
| RedisPrimitives.ZRem | lib/rapns/daemon/store/redis_store.rb:157 | `ZREM` keeps exactly the members not named, with their scores; absent names are ignored |
| RedisPrimitives.ZRemNothing | lib/rapns/daemon/store/redis_store.rb:155-158 | removing no members leaves the set unchanged, so the `unless ... empty?` guard changes nothing observable |
| RedisPrimitives.ZRemRangeReply | lib/rapns/daemon/store/redis_store.rb:168-171 | removing a range reply leaves exactly the members scored outside the range |
| RedisPrimitives.InsertByScore | lib/rapns/daemon/store/redis_store.rb:154 | insertion keeps the reply in score order, adds exactly the one member, and keeps it free of repeats |
| RedisPrimitives.RangeByScore | lib/rapns/daemon/store/redis_store.rb:168 | `ZRANGEBYSCORE` replies with every member whose score is in the inclusive range and no other member, each once, in ascending score order |
| Notifications.Dump | lib/rapns/daemon/store/redis_store.rb:22-37 | loading a dumped record gives back the notification |
| Notifications.LoadThenDump | lib/rapns/daemon/store/redis_store.rb:27-37 | loading a member and dumping the record again gives back the same member, so `load_from_redis` loses nothing |
| Notifications.DumpInjective | lib/rapns/daemon/store/redis_store.rb:22-24 | two notifications share a Redis member exactly when they are equal |
| Notifications.Stamp | lib/rapns/daemon/store/redis_store.rb:17 | `created_at ||= now`: afterwards a stamp is set; an existing stamp is kept; a missing one becomes `now`; no other field changes |
| Notifications.StampIdempotent | lib/rapns/daemon/store/redis_store.rb:17 | stamping again at any later time keeps the first stamp |
| Notifications.IsDeliverable | lib/rapns/daemon/store/redis_store.rb:56 | the keep rule: a kept notification is stamped, was created no earlier than `now - tolerance`, and has no expiry or one ending no earlier than `now` |
| Notifications.DeliverableMeans | lib/rapns/daemon/store/redis_store.rb:56 | a stamped notification is kept exactly when `createdAt >= now - tolerance` and, if it has an expiry, `createdAt + expiry >= now` |
| Notifications.Retried | lib/rapns/daemon/store/redis_store.rb:90-91 | the retry count goes up by exactly one and `deliverAfter` is set; nothing else changes, and the record serializes differently from before |
| Notifications.NewGcmNotification | lib/rapns/daemon/store/redis_store.rb:122-127 | the new record is a GCM notification carrying the given data, registration ids, `deliverAfter` and app; every other field comes from `attrs` |
| RedisStore.SaveToRedis | lib/rapns/daemon/store/redis_store.rb:16-20 | stamps only an unstamped notification, with `now`; when valid, appends exactly the stamped record at the tail; when invalid, leaves the store as it was; touches no other collection |
| RedisStore.CreateGcmNotification | lib/rapns/daemon/store/redis_store.rb:121-132 | appends exactly one GCM record at the tail of the pending queue, the whole record is `NewGcmNotification` of the arguments (given data, registration ids, `deliverAfter` and app, every other field from `attrs`), not stamped by this call, and touches nothing else |
| RedisStore.SelectPartitions | lib/rapns/daemon/store/redis_store.rb:56-58 | `Select` and `Drop` split the popped items: the kept items are exactly the deliverable ones; kept and discarded items together are the popped items, counted with multiplicity |
| RedisStore.PopDeliverable | lib/rapns/daemon/store/redis_store.rb:53-59 | the loop pops a suffix; it keeps the deliverable popped items newest first; it stops at `batch_size` kept items or the empty list; it pops no item it did not yet need |
| RedisStore.DeliverableNotifications | lib/rapns/daemon/store/redis_store.rb:48-62 | the rest of the list is a prefix of it; the batch is the deliverable popped items newest first; at most `batch_size` are returned; a short batch means the list is empty; popping stops once `batch_size` items are kept, so the last item popped was still needed; no other collection changes |
| RedisStore.RetryAfter | lib/rapns/daemon/store/redis_store.rb:86-95 | the old record leaves processing; the record with one more retry joins retries scored `deliverAfter`; other retries and both lists are unchanged |
| RedisStore.RemoveNotificationInProcessing | lib/rapns/daemon/store/redis_store.rb:146-151 | only this notification's member leaves processing, and the others keep their scores; an absent member leaves the store unchanged |
| RedisStore.MarkDelivered | lib/rapns/daemon/store/redis_store.rb:97-99 | processing loses this notification's member and nothing else changes |
| RedisStore.MarkFailed | lib/rapns/daemon/store/redis_store.rb:101-102 | processing loses this notification's member; the error code and description change nothing else |
| RedisStore.MoveRetriesIntoPending | lib/rapns/daemon/store/redis_store.rb:153-159 | the reply is every retry scored at or before `now`; these go to the pending head reversed; retries keep exactly the entries scored after `now` |
| RedisStore.RequeueRange | lib/rapns/daemon/store/redis_store.rb:168-172 | members scored within [min, max] go to the pending head reversed and leave processing |
| RedisStore.DropAtOrBelow | lib/rapns/daemon/store/redis_store.rb:174-175 | members scored at or below min leave processing and are not re-queued |
| RedisStore.SweepLeavesRecentEntries | lib/rapns/daemon/store/redis_store.rb:168-175 | after both removals, processing holds exactly the entries scored above both bounds |
| RedisStore.HandleStalledNotifications | lib/rapns/daemon/store/redis_store.rb:161-176 | one stall sweep with `min = now - tolerance` and `max = now - poll`: re-queue [min, max], then drop what is left at or below min |
| QueueProperties.DeliveryKeepRule | lib/rapns/daemon/store/redis_store.rb:50-58 | a notification is in the batch exactly when it was popped, is stamped, was created no earlier than `now - tolerance`, and has no expiry or one ending no earlier than `now` |
| QueueProperties.DeliveryConservation | lib/rapns/daemon/store/redis_store.rb:53-58 | the rest followed by the popped items is the original list; returned, discarded and remaining items together are the original list, as a multiset |
| QueueProperties.DroppedAreNotReturned | lib/rapns/daemon/store/redis_store.rb:56-58 | a discarded item is never also in the batch |
| QueueProperties.DeliveryOfFreshItems | lib/rapns/daemon/store/redis_store.rb:53 | when every item passes the keep rule, exactly `min(batch_size, length)` come back; they are the newest, in reverse order; the older prefix stays queued |
| QueueProperties.BatchOfThreeFromFive | spec/unit/daemon/store/redis_store_spec.rb:55-63 | five fresh notifications with a batch size of three: three come back and two stay queued |
| QueueProperties.ExpiredOrTooOldAreForgotten | spec/unit/daemon/store/redis_store_spec.rb:65-71 | a day-old notification and one ten seconds old with a one-second expiry both give an empty batch and an empty list |
| QueueProperties.NothingDeliverableEmptiesList | lib/rapns/daemon/store/redis_store.rb:53-58 | when no queued item passes the keep rule, the batch is empty and the whole list is popped and discarded |
| QueueProperties.ToleranceEdgeIsKept | lib/rapns/daemon/store/redis_store.rb:56 | a single queued item created exactly `tolerance` ago, with no expiry or one not yet ended, is returned |
| QueueProperties.ExpiryEdgeIsKept | lib/rapns/daemon/store/redis_store.rb:56 | a single queued item inside the tolerance window whose expiry ends exactly now is returned |
| QueueProperties.SavedNotificationIsPoppedNext | spec/unit/daemon/store/redis_store_spec.rb:31-34 | after a valid save, `rpop` yields the saved, stamped record and the old list |
| QueueProperties.ResaveKeepsCreatedAt | lib/rapns/daemon/store/redis_store.rb:17 | saving a saved notification again never moves its creation stamp |
| QueueProperties.SaveThenDeliver | lib/rapns/daemon/store/redis_store.rb:16-19 | a fresh notification saved onto an empty list is exactly the next batch, and the store is as before the save |
| QueueProperties.GcmNotificationWaitsOnPendingQueue | lib/rapns/daemon/store/redis_store.rb:128-130 | a created GCM notification is the next item popped from the pending tail, and the scheduler's batch is unaffected by it |
| QueueProperties.CompletionIdempotent | lib/rapns/daemon/store/redis_store.rb:146-151 | completing twice equals completing once, and completing one notification keeps every other in-flight entry with its score |
| QueueProperties.PromotedHeadLatestFirst | lib/rapns/daemon/store/redis_store.rb:154-156 | after promotion, the pending head holds the promoted retries with the latest-due first |
| QueueProperties.PromotionConservation | lib/rapns/daemon/store/redis_store.rb:153-159 | a notification is pending or awaiting retry after promotion exactly when it was before; every promoted one left retries and is pending; pending grew by exactly the promoted records |
| QueueProperties.NothingDueChangesNothing | lib/rapns/daemon/store/redis_store.rb:155 | when no retry is due, the reply is empty and the store is unchanged |
| QueueProperties.PromotionIdempotent | lib/rapns/daemon/store/redis_store.rb:153-159 | a second promotion at the same time promotes nothing and changes nothing |
| QueueProperties.RetryIsPromotedOnceDue | lib/rapns/daemon/store/redis_store.rb:93 | a retry scheduled for `deliverAfter` is at the pending head after a promotion at or after `deliverAfter`; before that it stays in retries with its score |
| QueueProperties.StallSweepByScore | lib/rapns/daemon/store/redis_store.rb:165-175 | an entry is re-queued exactly when scored in [min, max]; dropped exactly when scored at or below min and not re-queued; kept, with its score, exactly when scored above both |
| QueueProperties.StallSweepByAge | lib/rapns/daemon/store/redis_store.rb:161-176 | when tolerance exceeds the poll interval: age in [poll, tolerance] is re-queued, age above tolerance is dropped, age below poll stays in flight |
| QueueProperties.StallSweepConservation | lib/rapns/daemon/store/redis_store.rb:168-175 | a notification is pending, in flight or dropped after the sweep exactly when it was pending or in flight before; pending grew by exactly the re-queued records |
| QueueProperties.NothingStalledChangesNothing | lib/rapns/daemon/store/redis_store.rb:168-175 | when every in-flight entry is scored above both bounds, the sweep replies nothing and changes nothing |
| QueueProperties.StallSweepIdempotent | lib/rapns/daemon/store/redis_store.rb:161-176 | a second sweep with the same clock and settings re-queues nothing, drops nothing and changes nothing |

## Left out

- The reconnect wrappers are left out. `with_redis_reconnect_and_retry` and
  `with_redis` only manage the connection, and their modules are not part of
  this model. Each operation is one sequential transition.
- JSON encoding and decoding (`MultiJson`), `constantize` and `Time.parse`
  are abstracted. A Redis member is an injective image of the record, and
  loading inverts it.
- `save_to_redis` writes `dump_to_redis` while the other methods use
  `dump_redis_value`. Both are modelled as the single `Dump`.
- The decode-failure path of `load_from_redis` is left out. It logs and
  returns `nil`, and the scheduler would then raise at line 56.
- Time is whole integer seconds, passed as `now`. ActiveSupport arithmetic,
  sub-second precision and the `.utc.to_i` truncation of scores are not
  modelled.
- `valid?` is a boolean parameter.
- These are not modelled because their bodies are empty or commented out,
  or they call code outside this model:
  - the commented-out blocks at lines 64-83, 103-112 and 116-118;
  - `create_apns_feedback`;
  - `after_daemonize`;
  - `build_notifications`, which calls `marshal_redis_value`, defined
    outside this model;
  - the `puts` at line 148.
- Concurrency between processes and the atomicity of Redis
  read-then-remove pairs are left out.
- ActiveRecord, app records and certificates are left out.
- Business fields other than the ones the engine reads or writes are kept
  together in an opaque `attributes` map. This covers the device token,
  alert, badge and collapse key.
- RedisPrimitives.RangeByScore: Redis orders members with equal scores by
  their bytes. The model leaves the order among equal scores open, so
  `MoveRetriesIntoPending` and `HandleStalledNotifications` are stated for
  any reply Redis may give.
- RedisStore.DeliverableNotifications: it requires every item on the list to
  carry a creation stamp. In Ruby, a record saved without one fails at
  `Time.parse` at line 31, after it has already been popped at line 53. That
  error is not one the `rescue` at line 34 catches. `SaveToRedis`, the only
  writer of the list, keeps the requirement true.
- The values of `PENDING_QUEUE_NAME`, `PROCESSING_QUEUE_NAME` and
  `RETRIES_QUEUE_NAME` are not given in `redis_store.rb`, which assigns only
  `REDIS_LIST_NAME` (line 9). The model assumes `PENDING_QUEUE_NAME` names a
  Redis key other than `rapns:notifications`, and that the two sorted sets
  are distinct keys. `Store` keeps them as four separate fields.
- RedisStore.DeliverableNotifications: `Time.now` is read again on each
  iteration at line 56. The model uses one `now` for the whole call.
- RedisStore.MoveRetriesIntoPending: it pushes the loaded records onto the
  pending queue, where Redis stores the serialized members. `Dump` and
  `Load` are inverse, so no information is lost.
