/** The job that drains the webhook queue, on notification objects it changes as it goes. */
module WebhookJob {
  import opened Webhooks

  class WebhookNotification {
    const id: nat
    var sendAt: int
    var tries: int
    var attempts: nat

    constructor (item: Item)
      ensures Value() == item
    {
      id := item.id;
      sendAt := item.sendAt;
      tries := item.tries;
      attempts := item.attempts;
    }

    function Value(): Item
      reads this
    {
      Item(id, sendAt, tries, attempts)
    }
  }

  ghost predicate Holds(notifications: seq<WebhookNotification>, values: seq<Item>)
    reads notifications
  {
    |notifications| == |values| && forall i :: 0 <= i < |values| ==> notifications[i].Value() == values[i]
  }

  ghost predicate Distinct(notifications: seq<WebhookNotification>) {
    forall i, j :: 0 <= i < j < |notifications| ==> notifications[i] != notifications[j]
  }

  ghost predicate Apart(a: seq<WebhookNotification>, b: seq<WebhookNotification>) {
    forall x <- a :: x !in b
  }

  class WebhookQueue {
    var items: seq<Item>

    method Dequeue() returns (item: Item)
      requires items != []
      modifies this
      ensures item == old(items)[0] && items == old(items)[1..]
    {
      item := items[0];
      items := items[1..];
    }

    method Enqueue(item: Item)
      modifies this
      ensures items == old(items) + [item]
    {
      items := items + [item];
    }
  }

  /** The drain loop. */
  method Drain(queue: WebhookQueue, s: Settings, now: int)
    returns (ready: seq<WebhookNotification>, requeue: seq<WebhookNotification>)
    modifies queue
    ensures queue.items == []
    ensures Holds(ready, Ready(s, now, old(queue.items))) && Holds(requeue, NotDue(s, now, old(queue.items)))
    ensures Distinct(ready) && Apart(requeue, ready) && fresh(ready) && fresh(requeue)
  {
    ghost var all := queue.items;
    ghost var k := 0;
    ready, requeue := [], [];
    while queue.items != []
      invariant k <= |all| && queue.items == all[k..]
      invariant Holds(ready, Ready(s, now, all[..k])) && Holds(requeue, NotDue(s, now, all[..k]))
      invariant Distinct(ready) && Apart(requeue, ready) && fresh(ready) && fresh(requeue)
      decreases |queue.items|
    {
      var item := queue.Dequeue();
      assert all[..k + 1][..k] == all[..k];
      k := k + 1;
      var notification := new WebhookNotification(item);
      if notification.tries >= s.recurrent { continue; }
      if notification.sendAt > now {
        requeue := requeue + [notification];
        continue;
      }
      ready := ready + [notification];
    }
    assert all[..k] == all;
  }

  /** What is requeued once the first k ready notifications were sent. */
  ghost function Kept(s: Settings, answers: Answers, kept: seq<Item>, values: seq<Item>, k: nat): seq<Item>
    requires k <= |values|
  {
    kept + Sent(s, answers, values[..k]).requeued
  }

  lemma KeptOneMore(s: Settings, answers: Answers, kept: seq<Item>, values: seq<Item>, k: nat)
    requires k < |values|
    ensures var next := Failed(s, answers, k / BATCH_SIZE, values[k]);
            Kept(s, answers, kept, values, k + 1) ==
            Kept(s, answers, kept, values, k) +
            if !answers.accepted(k / BATCH_SIZE) && next.tries < s.recurrent then [next] else []
  {
    assert values[..k + 1][..k] == values[..k];
  }

  /** One notification of a batch that was posted: unless some webhook accepted it, it is marked. */
  method Attempt(n: WebhookNotification, s: Settings, answers: Answers, b: nat) returns (retry: bool)
    modifies n
    ensures retry <==> !answers.accepted(b) && Failed(s, answers, b, old(n.Value())).tries < s.recurrent
    ensures retry ==> n.Value() == Failed(s, answers, b, old(n.Value()))
  {
    n.attempts := n.attempts + 1;
    if answers.accepted(b) { return false; }
    n.tries := n.tries + 1;
    if n.tries < s.recurrent {
      n.sendAt := answers.retryAt(b) + s.timeout;
      return true;
    }
    return false;
  }

  /** The notifications that are still to be sent are as they were drained, and not among the kept ones. */
  ghost predicate Pending(ready: seq<WebhookNotification>, values: seq<Item>, k: nat, all: seq<WebhookNotification>)
    reads ready
  {
    |ready| == |values| && forall i :: k <= i < |ready| ==> ready[i].Value() == values[i] && ready[i] !in all
  }

  /** One batch. */
  method SendBatch(s: Settings, answers: Answers, ready: seq<WebhookNotification>, start: nat, end: nat,
                   requeue: seq<WebhookNotification>, ghost values: seq<Item>, ghost kept: seq<Item>)
    returns (all: seq<WebhookNotification>)
    requires start <= end <= |ready| && (forall k :: start <= k < end ==> k / BATCH_SIZE == start / BATCH_SIZE)
    requires Distinct(ready) && Pending(ready, values, start, requeue) &&
             Holds(requeue, Kept(s, answers, kept, values, start))
    modifies ready
    ensures Pending(ready, values, end, all) && Holds(all, Kept(s, answers, kept, values, end))
  {
    all := requeue;
    for k := start to end
      invariant Pending(ready, values, k, all) && Holds(all, Kept(s, answers, kept, values, k))
    {
      KeptOneMore(s, answers, kept, values, k);
      var retry := Attempt(ready[k], s, answers, start / BATCH_SIZE);
      if retry { all := all + [ready[k]]; }
    }
  }

  /** The batch loop: what no webhook accepts is kept for requeueing while it has tries left. */
  method SendBatches(s: Settings, answers: Answers, ready: seq<WebhookNotification>, requeue: seq<WebhookNotification>,
                     ghost values: seq<Item>, ghost kept: seq<Item>)
    returns (all: seq<WebhookNotification>)
    requires Holds(ready, values) && Holds(requeue, kept) && Distinct(ready) && Apart(requeue, ready)
    modifies ready
    ensures Holds(all, kept + Sent(s, answers, values).requeued)
  {
    all := requeue;
    var start := 0;
    assert Kept(s, answers, kept, values, 0) == kept;
    while start < |ready|
      invariant start <= |ready| && (start % BATCH_SIZE == 0 || start == |ready|)
      invariant Pending(ready, values, start, all) && Holds(all, Kept(s, answers, kept, values, start))
    {
      var end := if start + BATCH_SIZE < |ready| then start + BATCH_SIZE else |ready|;
      all := SendBatch(s, answers, ready, start, end, all, values, kept);
      start := end;
    }
    assert values[..|values|] == values;
  }

  /** `send_notifications`: the queue is left with exactly what the run requeues. */
  method SendNotifications(queue: WebhookQueue, s: Settings, now: int, answers: Answers)
    modifies queue
    ensures queue.items == if s.enable then Run(s, now, answers, old(queue.items)).requeued else old(queue.items)
  {
    if !s.enable { return; }
    ghost var items := queue.items;
    var ready, requeue := Drain(queue, s, now);
    ghost var values, kept := Ready(s, now, items), NotDue(s, now, items);
    requeue := SendBatches(s, answers, ready, requeue, values, kept);
    ghost var requeued := Run(s, now, answers, items).requeued;
    for i := 0 to |requeue|
      invariant Holds(requeue, requeued) && queue.items == requeued[..i]
    {
      queue.Enqueue(requeue[i].Value());
    }
    assert requeued[..|requeued|] == requeued;
  }
}
