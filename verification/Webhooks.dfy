/** The webhook queue: every drained notification is delivered, requeued or dropped. */
module Webhooks {

  /** A queued notification.  `id` stands for its payload; `attempts` counts how often it was sent and is
      kept for the proofs only. */
  datatype Item = Item(id: nat, sendAt: int, tries: int, attempts: nat)

  datatype Settings = Settings(enable: bool, recurrent: int, timeout: int)

  /** What happens to batch number b: whether some webhook accepts it, and the time read when none does. */
  datatype Answers = Answers(accepted: nat -> bool, retryAt: nat -> int)

  datatype Outcome = Outcome(delivered: seq<Item>, requeued: seq<Item>, dropped: seq<Item>)

  const BATCH_SIZE: nat := 50

  predicate IsExpired(s: Settings, item: Item) {
    item.tries >= s.recurrent
  }

  predicate IsReady(s: Settings, now: int, item: Item) {
    !IsExpired(s, item) && item.sendAt <= now
  }

  function Ready(s: Settings, now: int, items: seq<Item>): seq<Item> {
    if items == [] then []
    else Ready(s, now, items[..|items| - 1]) + if IsReady(s, now, items[|items| - 1]) then [items[|items| - 1]] else []
  }

  function NotDue(s: Settings, now: int, items: seq<Item>): seq<Item> {
    if items == [] then []
    else
      var last := items[|items| - 1];
      NotDue(s, now, items[..|items| - 1]) + if !IsExpired(s, last) && last.sendAt > now then [last] else []
  }

  function Expired(s: Settings, items: seq<Item>): seq<Item> {
    if items == [] then []
    else Expired(s, items[..|items| - 1]) + if IsExpired(s, items[|items| - 1]) then [items[|items| - 1]] else []
  }

  /** A notification after one more attempt that no webhook accepted in batch b. */
  function Failed(s: Settings, answers: Answers, b: nat, item: Item): Item {
    var next := item.(tries := item.tries + 1, attempts := item.attempts + 1);
    if next.tries < s.recurrent then next.(sendAt := answers.retryAt(b) + s.timeout) else next
  }

  /** One more notification was posted with batch b. */
  function SentOne(s: Settings, answers: Answers, before: Outcome, b: nat, item: Item): Outcome {
    if answers.accepted(b) then before.(delivered := before.delivered + [item.(attempts := item.attempts + 1)])
    else
      var next := Failed(s, answers, b, item);
      if next.tries < s.recurrent then before.(requeued := before.requeued + [next])
      else before.(dropped := before.dropped + [next])
  }

  /** Sending the ready notifications in batches of fifty. */
  function Sent(s: Settings, answers: Answers, ready: seq<Item>): Outcome {
    if ready == [] then Outcome([], [], [])
    else
      var n := |ready| - 1;
      SentOne(s, answers, Sent(s, answers, ready[..n]), n / BATCH_SIZE, ready[n])
  }

  /** One run over the items it drains. */
  function Run(s: Settings, now: int, answers: Answers, items: seq<Item>): Outcome {
    var sent := Sent(s, answers, Ready(s, now, items));
    Outcome(sent.delivered, NotDue(s, now, items) + sent.requeued, Expired(s, items) + sent.dropped)
  }

  // ----- Nothing is lost and nothing is doubled -----

  /** How often a notification is in a list. */
  function Times(items: seq<Item>, id: nat): nat {
    if items == [] then 0
    else Times(items[..|items| - 1], id) + if items[|items| - 1].id == id then 1 else 0
  }

  lemma {:induction false} TimesConcat(a: seq<Item>, b: seq<Item>, id: nat)
    ensures Times(a + b, id) == Times(a, id) + Times(b, id)
  {
    if b == [] {
      assert a + b == a;
    } else {
      TimesConcat(a, b[..|b| - 1], id);
      assert (a + b)[..|a + b| - 1] == a + b[..|b| - 1];
    }
  }

  lemma TimesSnoc(a: seq<Item>, item: Item, id: nat)
    ensures Times(a + [item], id) == Times(a, id) + if item.id == id then 1 else 0
  {
    assert (a + [item])[..|a|] == a;
  }

  function OutcomeTimes(o: Outcome, id: nat): nat {
    Times(o.delivered, id) + Times(o.requeued, id) + Times(o.dropped, id)
  }

  lemma {:induction false} DrainPartitions(s: Settings, now: int, items: seq<Item>, id: nat)
    ensures Times(Ready(s, now, items), id) + Times(NotDue(s, now, items), id) + Times(Expired(s, items), id) ==
            Times(items, id)
  {
    if items != [] {
      var before, last := items[..|items| - 1], items[|items| - 1];
      DrainPartitions(s, now, before, id);
      var ready, notDue, expired := Ready(s, now, before), NotDue(s, now, before), Expired(s, before);
      assert ready + [] == ready && notDue + [] == notDue && expired + [] == expired;
      TimesSnoc(ready, last, id);
      TimesSnoc(notDue, last, id);
      TimesSnoc(expired, last, id);
    }
  }

  /** It goes to exactly one place. */
  lemma SentOneTimes(s: Settings, answers: Answers, before: Outcome, b: nat, item: Item, id: nat)
    ensures OutcomeTimes(SentOne(s, answers, before, b, item), id) ==
            OutcomeTimes(before, id) + if item.id == id then 1 else 0
  {
    var next := Failed(s, answers, b, item);
    TimesSnoc(before.delivered, item.(attempts := item.attempts + 1), id);
    TimesSnoc(before.requeued, next, id);
    TimesSnoc(before.dropped, next, id);
  }

  lemma {:induction false} SendPartitions(s: Settings, answers: Answers, ready: seq<Item>, id: nat)
    ensures OutcomeTimes(Sent(s, answers, ready), id) == Times(ready, id)
  {
    if ready != [] {
      var n := |ready| - 1;
      SendPartitions(s, answers, ready[..n], id);
      SentOneTimes(s, answers, Sent(s, answers, ready[..n]), n / BATCH_SIZE, ready[n], id);
    }
  }

  /** Every drained item is in exactly one of delivered, requeued and dropped. */
  lemma RunPartitions(s: Settings, now: int, answers: Answers, items: seq<Item>, id: nat)
    ensures OutcomeTimes(Run(s, now, answers, items), id) == Times(items, id)
  {
    var sent := Sent(s, answers, Ready(s, now, items));
    DrainPartitions(s, now, items, id);
    SendPartitions(s, answers, Ready(s, now, items), id);
    TimesConcat(NotDue(s, now, items), sent.requeued, id);
    TimesConcat(Expired(s, items), sent.dropped, id);
  }

  // ----- Attempts -----

  function MaxAttempts(s: Settings): nat {
    if s.recurrent < 0 then 0 else s.recurrent
  }

  /** What is queued was sent as often as it says, and may be sent again unless it is new. */
  predicate QueuedOk(s: Settings, item: Item) {
    item.attempts == item.tries && (item.tries == 0 || item.tries < s.recurrent)
  }

  predicate DeliveredOk(s: Settings, item: Item) {
    1 <= item.attempts <= MaxAttempts(s)
  }

  /** Nothing is dropped before its last attempt. */
  predicate DroppedOk(s: Settings, item: Item) {
    item.attempts == MaxAttempts(s)
  }

  ghost predicate OutcomeOk(s: Settings, o: Outcome) {
    && (forall item <- o.delivered :: DeliveredOk(s, item))
    && (forall item <- o.requeued :: QueuedOk(s, item))
    && (forall item <- o.dropped :: DroppedOk(s, item))
  }

  lemma {:induction false} SentOk(s: Settings, answers: Answers, ready: seq<Item>)
    requires forall item <- ready :: QueuedOk(s, item) && item.tries < s.recurrent
    ensures OutcomeOk(s, Sent(s, answers, ready))
  {
    if ready != [] {
      var n := |ready| - 1;
      assert ready[n] in ready && forall item <- ready[..n] :: item in ready;
      SentOk(s, answers, ready[..n]);
    }
  }

  lemma {:induction false} DrainOk(s: Settings, now: int, items: seq<Item>)
    requires forall item <- items :: QueuedOk(s, item)
    ensures forall item <- Ready(s, now, items) :: QueuedOk(s, item) && item.tries < s.recurrent
    ensures forall item <- NotDue(s, now, items) :: QueuedOk(s, item)
    ensures forall item <- Expired(s, items) :: DroppedOk(s, item)
  {
    if items != [] {
      var before, last := items[..|items| - 1], items[|items| - 1];
      assert last in items && forall item <- before :: item in items;
      DrainOk(s, now, before);
    }
  }

  lemma RunOk(s: Settings, now: int, answers: Answers, items: seq<Item>)
    requires forall item <- items :: QueuedOk(s, item)
    ensures OutcomeOk(s, Run(s, now, answers, items))
  {
    DrainOk(s, now, items);
    SentOk(s, answers, Ready(s, now, items));
  }

  // ----- What becomes of each notification -----

  /** How many of the first n items are sent before item n. */
  function SentBefore(s: Settings, now: int, items: seq<Item>, n: nat): nat
    requires n <= |items|
  {
    if n == 0 then 0
    else
      SentBefore(s, now, items, n - 1) +
      if items[n - 1].tries < s.recurrent && items[n - 1].sendAt <= now then 1 else 0
  }

  /** The fate of one item in a run: not due, it waits; sent in vain, it waits for the time of the failure plus
      the timeout, or is dropped with its last try. */
  ghost predicate Fate(s: Settings, now: int, answers: Answers, item: Item, batch: nat, o: Outcome) {
    if item.tries >= s.recurrent then item in o.dropped
    else if item.sendAt > now then item in o.requeued
    else if answers.accepted(batch) then item.(attempts := item.attempts + 1) in o.delivered
    else if item.tries + 1 < s.recurrent then
      Item(item.id, answers.retryAt(batch) + s.timeout, item.tries + 1, item.attempts + 1) in o.requeued
    else
      Item(item.id, item.sendAt, item.tries + 1, item.attempts + 1) in o.dropped
  }

  /** Where the drain puts item i; a ready one comes behind those sent before it. */
  lemma {:induction false} DrainedTo(s: Settings, now: int, items: seq<Item>, i: nat)
    requires i < |items|
    ensures items[i].tries >= s.recurrent ==> items[i] in Expired(s, items)
    ensures items[i].tries < s.recurrent && items[i].sendAt > now ==> items[i] in NotDue(s, now, items)
    ensures var n := SentBefore(s, now, items, i);
            items[i].tries < s.recurrent && items[i].sendAt <= now ==>
              n < |Ready(s, now, items)| && Ready(s, now, items)[n] == items[i]
  {
    var last := |items| - 1;
    if i < last {
      DrainedTo(s, now, items[..last], i);
      SentBeforePrefix(s, now, items, last, i);
    } else {
      ReadyCount(s, now, items, last);
      assert items[..last] == items[..i];
    }
  }

  lemma {:induction false} SentBeforePrefix(s: Settings, now: int, items: seq<Item>, m: nat, n: nat)
    requires n <= m <= |items|
    ensures SentBefore(s, now, items[..m], n) == SentBefore(s, now, items, n)
  {
    if n > 0 { SentBeforePrefix(s, now, items, m, n - 1); }
  }

  lemma {:induction false} ReadyCount(s: Settings, now: int, items: seq<Item>, n: nat)
    requires n <= |items|
    ensures |Ready(s, now, items[..n])| == SentBefore(s, now, items, n)
  {
    if n > 0 {
      ReadyCount(s, now, items, n - 1);
      assert items[..n][..n - 1] == items[..n - 1];
    }
  }

  lemma {:induction false} SentFate(s: Settings, answers: Answers, ready: seq<Item>, n: nat)
    requires n < |ready| && ready[n].tries < s.recurrent
    ensures var item, b, o := ready[n], n / 50, Sent(s, answers, ready);
            if answers.accepted(b) then item.(attempts := item.attempts + 1) in o.delivered
            else if item.tries + 1 < s.recurrent then
              Item(item.id, answers.retryAt(b) + s.timeout, item.tries + 1, item.attempts + 1) in o.requeued
            else Item(item.id, item.sendAt, item.tries + 1, item.attempts + 1) in o.dropped
  {
    if n < |ready| - 1 { SentFate(s, answers, ready[..|ready| - 1], n); }
  }

  lemma SentFateInRun(s: Settings, now: int, answers: Answers, items: seq<Item>, n: nat)
    requires n < |Ready(s, now, items)|
    requires var item := Ready(s, now, items)[n]; item.tries < s.recurrent && item.sendAt <= now
    ensures Fate(s, now, answers, Ready(s, now, items)[n], n / 50, Run(s, now, answers, items))
  {
    SentFate(s, answers, Ready(s, now, items), n);
  }

  /** Every drained notification meets its fate, in batches of fifty of those that are sent. */
  lemma RunFates(s: Settings, now: int, answers: Answers, items: seq<Item>, i: nat)
    requires i < |items|
    ensures Fate(s, now, answers, items[i], SentBefore(s, now, items, i) / 50, Run(s, now, answers, items))
  {
    DrainedTo(s, now, items, i);
    if items[i].tries < s.recurrent && items[i].sendAt <= now {
      SentFateInRun(s, now, answers, items, SentBefore(s, now, items, i));
    }
  }

  /** A time some batch failed at plus the timeout. */
  ghost predicate IsRetry(s: Settings, answers: Answers, sendAt: int) {
    exists b: nat :: !answers.accepted(b) && sendAt == answers.retryAt(b) + s.timeout
  }

  lemma {:induction false} SentRequeues(s: Settings, answers: Answers, ready: seq<Item>)
    ensures forall item <- Sent(s, answers, ready).requeued :: IsRetry(s, answers, item.sendAt)
  {
    if ready != [] {
      var n := |ready| - 1;
      SentRequeues(s, answers, ready[..n]);
    }
  }

  lemma {:induction false} NotDueAreItems(s: Settings, now: int, items: seq<Item>)
    ensures forall item <- NotDue(s, now, items) :: item in items && item.sendAt > now
  {
    if items != [] { NotDueAreItems(s, now, items[..|items| - 1]); }
  }

  /** What a run requeues was not due and is as it was, or waits from a failure for the timeout. */
  lemma RunRequeues(s: Settings, now: int, answers: Answers, items: seq<Item>)
    ensures forall item <- Run(s, now, answers, items).requeued ::
              (item in items && item.sendAt > now) || IsRetry(s, answers, item.sendAt)
  {
    NotDueAreItems(s, now, items);
    SentRequeues(s, answers, Ready(s, now, items));
  }

  // ----- Any number of runs -----

  /** The queue, and everything that left it. */
  datatype World = World(queue: seq<Item>, delivered: seq<Item>, dropped: seq<Item>)

  datatype Event = Enqueue(id: nat, sendAt: int) | Job(now: int, answers: Answers)

  function NextWorld(s: Settings, w: World, e: Event): World {
    match e
    case Enqueue(id, sendAt) => w.(queue := w.queue + [Item(id, sendAt, 0, 0)])
    case Job(now, answers) =>
      if !s.enable then w
      else
        var run := Run(s, now, answers, w.queue);
        World(run.requeued, w.delivered + run.delivered, w.dropped + run.dropped)
  }

  function WorldAfter(s: Settings, events: seq<Event>): World {
    if events == [] then World([], [], [])
    else NextWorld(s, WorldAfter(s, events[..|events| - 1]), events[|events| - 1])
  }

  function Enqueued(events: seq<Event>, id: nat): nat {
    if events == [] then 0
    else
      var last := events[|events| - 1];
      Enqueued(events[..|events| - 1], id) + if last.Enqueue? && last.id == id then 1 else 0
  }

  /** Over any number of enqueues and runs with the same settings, every notification enqueued is queued,
      delivered or dropped, as often as it was enqueued. */
  lemma {:induction false} EveryNotificationIsAccountedFor(s: Settings, events: seq<Event>, id: nat)
    ensures var w := WorldAfter(s, events);
            Times(w.queue, id) + Times(w.delivered, id) + Times(w.dropped, id) == Enqueued(events, id)
  {
    if events != [] {
      var before, e := events[..|events| - 1], events[|events| - 1];
      EveryNotificationIsAccountedFor(s, before, id);
      var w := WorldAfter(s, before);
      match e
      case Enqueue(k, sendAt) => TimesSnoc(w.queue, Item(k, sendAt, 0, 0), id);
      case Job(now, answers) =>
        if s.enable {
          var run := Run(s, now, answers, w.queue);
          RunPartitions(s, now, answers, w.queue, id);
          TimesConcat(w.delivered, run.delivered, id);
          TimesConcat(w.dropped, run.dropped, id);
        }
    }
  }

  /** None is sent more often than the settings say, and none is dropped before it was sent that often. */
  lemma {:induction false} AttemptsAreBounded(s: Settings, events: seq<Event>)
    ensures var w := WorldAfter(s, events);
            && (forall item <- w.queue :: QueuedOk(s, item) && item.attempts <= MaxAttempts(s))
            && (forall item <- w.delivered :: DeliveredOk(s, item))
            && (forall item <- w.dropped :: DroppedOk(s, item))
  {
    if events != [] {
      var before, e := events[..|events| - 1], events[|events| - 1];
      AttemptsAreBounded(s, before);
      if e.Job? { RunOk(s, e.now, e.answers, WorldAfter(s, before).queue); }
    }
  }

  /** The item is due the timeout after an attempt of some run failed. */
  ghost predicate WaitsOut(s: Settings, events: seq<Event>, item: Item) {
    exists k :: 0 <= k < |events| && events[k].Job? && IsRetry(s, events[k].answers, item.sendAt)
  }

  /** Over any number of runs, a notification that was sent in vain is due the timeout after that, and none is
      sent before it is due (RunFates). */
  lemma {:induction false} RetriesWait(s: Settings, events: seq<Event>)
    ensures forall item <- WorldAfter(s, events).queue :: item.tries > 0 ==> WaitsOut(s, events, item)
  {
    if events != [] {
      var n := |events| - 1;
      var w := WorldAfter(s, events[..n]);
      RetriesWait(s, events[..n]);
      forall item | item in w.queue && item.tries > 0 ensures WaitsOut(s, events, item) {
        var k :| 0 <= k < n && events[..n][k].Job? && IsRetry(s, events[..n][k].answers, item.sendAt);
        assert events[k] == events[..n][k];
      }
      if events[n].Job? { RunRequeues(s, events[n].now, events[n].answers, w.queue); }
    }
  }
}
