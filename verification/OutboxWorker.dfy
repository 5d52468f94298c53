/** The transactional outbox: handlers append messages, and a background worker
    delivers the oldest ready one per tick, retrying with exponential backoff and
    moving a message to the dead-letter table once it has failed five times. */
module OutboxWorker {
  import opened Common
  import opened Data

  /** Failed attempts after which a message is dead-lettered. */
  const MaxAttempts: nat := 5

  /** What the POST to the outbound webhook came to: a 2xx answer, or an exception
      (transport error or non-success status) with its type name and message. */
  datatype Delivery = Delivered | Failed(exceptionType: string, message: string)

  /** The two tables a tick works on. */
  datatype Tables = Tables(outbox: seq<OutboxMessage>, deadLetters: seq<DeadLetterMessage>)

  /** One tick of the worker loop: the configured URL, the clock, and the delivery
      result the webhook would give. */
  datatype TickInput = TickInput(outboundUrl: Option<string>, now: int, delivery: Delivery)

  /** Not yet delivered, and either never retried or due again. */
  predicate Ready(m: OutboxMessage, now: int): (r: bool)
    ensures r ==> m.processedAt.None?
    ensures m.processedAt.None? && m.nextAttemptAt.None? ==> r
    ensures m.nextAttemptAt.Some? && now < m.nextAttemptAt.value ==> !r
    ensures m.processedAt.None? && m.nextAttemptAt.Some? && m.nextAttemptAt.value <= now ==> r
  {
    m.processedAt.None? && (m.nextAttemptAt.None? || m.nextAttemptAt.value <= now)
  }

  /** The position of the ready message with the smallest `createdAt`; among equal
      timestamps the one stored first. */
  function OldestReady(msgs: seq<OutboxMessage>, now: int): (r: Option<nat>)
    ensures r.None? <==> forall j :: 0 <= j < |msgs| ==> !Ready(msgs[j], now)
    ensures r.Some? ==> r.value < |msgs| && Ready(msgs[r.value], now)
    ensures r.Some? ==> forall j :: 0 <= j < |msgs| && Ready(msgs[j], now) ==>
                          msgs[r.value].createdAt <= msgs[j].createdAt
    ensures r.Some? ==> forall j :: 0 <= j < r.value && Ready(msgs[j], now) ==>
                          msgs[r.value].createdAt < msgs[j].createdAt
  {
    if msgs == [] then None
    else
      var last := |msgs| - 1;
      var rest := OldestReady(msgs[..last], now);
      if Ready(msgs[last], now) && (rest.None? || msgs[last].createdAt < msgs[rest.value].createdAt)
      then Some(last)
      else rest
  }

  /** The error text a dead letter records. */
  function ErrorText(exceptionType: string, message: string): (r: string)
    ensures |r| == |exceptionType| + 2 + |message|
    ensures r[..|exceptionType|] == exceptionType && r[|exceptionType|..|exceptionType| + 2] == ": "
    ensures r[|exceptionType| + 2..] == message
  {
    exceptionType + ": " + message
  }

  /** The message a tick claims: none when no outbound URL is configured. */
  function Selected(t: Tables, input: TickInput): (r: Option<nat>)
    ensures r.Some? ==> r.value < |t.outbox| && Ready(t.outbox[r.value], input.now)
    ensures r.None? <==> IsNullOrWhiteSpace(input.outboundUrl)
                         || forall j :: 0 <= j < |t.outbox| ==> !Ready(t.outbox[j], input.now)
  {
    if IsNullOrWhiteSpace(input.outboundUrl) then None else OldestReady(t.outbox, input.now)
  }

  /** The effect of delivering message i. */
  function Deliver(t: Tables, i: nat, now: int, delivery: Delivery): (r: Tables)
    requires i < |t.outbox|
    ensures |r.outbox| + |r.deadLetters| == |t.outbox| + |t.deadLetters|
    ensures |r.outbox| < |t.outbox| <==> delivery.Failed? && t.outbox[i].attempts + 1 >= MaxAttempts
    ensures |r.outbox| == |t.outbox| ==>
              r.deadLetters == t.deadLetters
              && forall j :: 0 <= j < |t.outbox| && j != i ==> r.outbox[j] == t.outbox[j]
    ensures delivery.Delivered? ==> |r.outbox| == |t.outbox| && r.outbox[i] == t.outbox[i].(processedAt := Some(now))
    ensures |r.outbox| < |t.outbox| ==>
              r.outbox == RemoveAt(t.outbox, i) && r.deadLetters[..|t.deadLetters|] == t.deadLetters
              && r.deadLetters[|t.deadLetters|].kind == t.outbox[i].kind
              && r.deadLetters[|t.deadLetters|].payloadJson == t.outbox[i].payloadJson
              && r.deadLetters[|t.deadLetters|].deadAt == now
  {
    var m := t.outbox[i];
    match delivery
    case Delivered =>
      Tables(t.outbox[i := m.(processedAt := Some(now))], t.deadLetters)
    case Failed(exceptionType, message) =>
      var attempts := m.attempts + 1;
      if attempts >= MaxAttempts then
        Tables(RemoveAt(t.outbox, i),
               t.deadLetters + [DeadLetterMessage(m.kind, m.payloadJson,
                                                  ErrorText(exceptionType, message), now)])
      else
        Tables(t.outbox[i := m.(attempts := attempts, nextAttemptAt := Some(now + Pow2(attempts)))],
               t.deadLetters)
  }

  /** One tick on the two tables. Dead letters are only ever appended, at most one
      per tick, and every row that leaves the outbox becomes exactly one dead letter. */
  function Tick(t: Tables, input: TickInput): (r: Tables)
    ensures Selected(t, input).None? ==> r == t
    ensures |t.deadLetters| <= |r.deadLetters| <= |t.deadLetters| + 1
    ensures r.deadLetters[..|t.deadLetters|] == t.deadLetters
    ensures |r.outbox| + |r.deadLetters| == |t.outbox| + |t.deadLetters|
  {
    match Selected(t, input)
    case None => t
    case Some(i) => Deliver(t, i, input.now, input.delivery)
  }

  /** The worker loop as the sequence of its ticks. */
  function Run(t: Tables, inputs: seq<TickInput>): (r: Tables)
    ensures |t.deadLetters| <= |r.deadLetters| <= |t.deadLetters| + |inputs|
    ensures r.deadLetters[..|t.deadLetters|] == t.deadLetters
    ensures |r.outbox| + |r.deadLetters| == |t.outbox| + |t.deadLetters|
    decreases |inputs|
  {
    if inputs == [] then t else Run(Tick(t, inputs[0]), inputs[1..])
  }

  // ---------------------------------------------------------- identity of rows

  predicate UniqueIds(s: seq<OutboxMessage>) {
    forall j, k :: 0 <= j < k < |s| ==> s[j].id != s[k].id
  }

  /** Where the message with the given id is stored. */
  function IndexOf(s: seq<OutboxMessage>, id: Guid): (r: Option<nat>)
    ensures r.None? <==> forall j :: 0 <= j < |s| ==> s[j].id != id
    ensures r.Some? ==> r.value < |s| && s[r.value].id == id
    ensures r.Some? ==> forall j :: 0 <= j < r.value ==> s[j].id != id
  {
    if s == [] then None
    else
      var rest := IndexOf(s[..|s| - 1], id);
      if rest.Some? then rest
      else if s[|s| - 1].id == id then Some(|s| - 1)
      else None
  }

  /** The stored message with the given id, if any. */
  function Find(s: seq<OutboxMessage>, id: Guid): Option<OutboxMessage> {
    match IndexOf(s, id)
    case None => None
    case Some(k) => Some(s[k])
  }

  lemma IndexOfUnique(s: seq<OutboxMessage>, k: nat)
    requires UniqueIds(s) && k < |s|
    ensures IndexOf(s, s[k].id) == Some(k)
  {
  }

  // -------------------------------------------------------------------- lemmas

  /** A tick leaves every message it does not claim exactly as it was, and keeps ids unique. */
  lemma TickKeepsUnclaimed(t: Tables, input: TickInput, id: Guid)
    requires UniqueIds(t.outbox)
    requires IndexOf(t.outbox, id).Some?
    requires Selected(t, input) != IndexOf(t.outbox, id)
    ensures UniqueIds(Tick(t, input).outbox)
    ensures Find(Tick(t, input).outbox, id) == Find(t.outbox, id)
  {
    var r := Tick(t, input);
    var j := IndexOf(t.outbox, id).value;
    match Selected(t, input)
    case None =>
    case Some(i) =>
      var m := t.outbox[i];
      if input.delivery.Failed? && m.attempts + 1 >= MaxAttempts {
        assert r.outbox == RemoveAt(t.outbox, i);
        var k := if j < i then j else j - 1;
        assert r.outbox[k] == t.outbox[j];
        IndexOfUnique(r.outbox, k);
      } else {
        assert |r.outbox| == |t.outbox|;
        assert forall q :: 0 <= q < |r.outbox| ==> r.outbox[q].id == t.outbox[q].id;
        assert r.outbox[j] == t.outbox[j];
        IndexOfUnique(r.outbox, j);
      }
  }

  /** A delivered message is final: no later tick claims, changes or removes it. */
  lemma {:induction false} DeliveredIsFinal(t: Tables, inputs: seq<TickInput>, id: Guid)
    requires UniqueIds(t.outbox)
    requires Find(t.outbox, id).Some? && Find(t.outbox, id).value.processedAt.Some?
    ensures Find(Run(t, inputs).outbox, id) == Find(t.outbox, id)
    decreases |inputs|
  {
    if inputs != [] {
      TickKeepsUnclaimed(t, inputs[0], id);
      DeliveredIsFinal(Tick(t, inputs[0]), inputs[1..], id);
    }
  }

  /** Every tick of the run delivers nothing but claims the message `id`, and fails. */
  predicate FailsEveryTick(t: Tables, id: Guid, inputs: seq<TickInput>)
    decreases |inputs|
  {
    inputs == [] ||
    (inputs[0].delivery.Failed?
     && Selected(t, inputs[0]).Some?
     && t.outbox[Selected(t, inputs[0]).value].id == id
     && FailsEveryTick(Tick(t, inputs[0]), id, inputs[1..]))
  }

  /** A message with `a` failed attempts that fails on its next 5 - a claims leaves
      the outbox and is recorded by exactly one dead letter, carrying its type and
      payload, the error text of the last failure and the time of that tick. While it
      stays in the outbox its attempts go up by one per failure. */
  lemma {:induction false} RepeatedFailureDeadLetters(t: Tables, id: Guid, inputs: seq<TickInput>)
    requires UniqueIds(t.outbox)
    requires Find(t.outbox, id).Some?
    requires Find(t.outbox, id).value.attempts < MaxAttempts
    requires |inputs| == MaxAttempts - Find(t.outbox, id).value.attempts
    requires FailsEveryTick(t, id, inputs)
    requires forall k :: 0 <= k < |inputs| ==> inputs[k].delivery.Failed?
    ensures Find(Run(t, inputs).outbox, id).None?
    ensures var m, last := Find(t.outbox, id).value, inputs[|inputs| - 1];
            Run(t, inputs).deadLetters
            == t.deadLetters + [DeadLetterMessage(m.kind, m.payloadJson,
                                  ErrorText(last.delivery.exceptionType, last.delivery.message),
                                  last.now)]
    decreases |inputs|
  {
    var m := Find(t.outbox, id).value;
    var i := Selected(t, inputs[0]).value;
    IndexOfUnique(t.outbox, i);
    var r := Tick(t, inputs[0]);
    if m.attempts + 1 >= MaxAttempts {
      LastFailureDeadLetters(t, id, inputs[0]);
      assert inputs == [inputs[0]];
      assert Run(r, inputs[1..]) == r;
    } else {
      EarlyFailureRetries(t, id, inputs[0]);
      RepeatedFailureDeadLetters(r, id, inputs[1..]);
      assert inputs[1..][|inputs[1..]| - 1] == inputs[|inputs| - 1];
    }
  }

  /** The failure that uses up the attempts removes the message and dead-letters it. */
  lemma LastFailureDeadLetters(t: Tables, id: Guid, input: TickInput)
    requires UniqueIds(t.outbox) && input.delivery.Failed?
    requires Selected(t, input).Some? && t.outbox[Selected(t, input).value].id == id
    requires t.outbox[Selected(t, input).value].attempts + 1 >= MaxAttempts
    ensures Find(Tick(t, input).outbox, id).None?
    ensures var m := t.outbox[Selected(t, input).value];
            Tick(t, input).deadLetters
            == t.deadLetters + [DeadLetterMessage(m.kind, m.payloadJson,
                                  ErrorText(input.delivery.exceptionType, input.delivery.message), input.now)]
  {
    var i := Selected(t, input).value;
    var r := Tick(t, input);
    assert r.outbox == RemoveAt(t.outbox, i);
    forall q | 0 <= q < |r.outbox|
      ensures r.outbox[q].id != id
    {
      if q < i { assert r.outbox[q] == t.outbox[q]; } else { assert r.outbox[q] == t.outbox[q + 1]; }
    }
  }

  /** An earlier failure keeps the message in place with one more attempt and a
      backoff deadline, and keeps ids unique. */
  lemma EarlyFailureRetries(t: Tables, id: Guid, input: TickInput)
    requires UniqueIds(t.outbox) && input.delivery.Failed?
    requires Selected(t, input).Some? && t.outbox[Selected(t, input).value].id == id
    requires t.outbox[Selected(t, input).value].attempts + 1 < MaxAttempts
    ensures UniqueIds(Tick(t, input).outbox)
    ensures var m := t.outbox[Selected(t, input).value];
            Find(Tick(t, input).outbox, id)
            == Some(m.(attempts := m.attempts + 1, nextAttemptAt := Some(input.now + Pow2(m.attempts + 1))))
  {
    var i := Selected(t, input).value;
    var m := t.outbox[i];
    var r := Tick(t, input);
    var m' := m.(attempts := m.attempts + 1, nextAttemptAt := Some(input.now + Pow2(m.attempts + 1)));
    assert r.outbox == t.outbox[i := m'];
    assert forall q :: 0 <= q < |r.outbox| ==> r.outbox[q].id == t.outbox[q].id;
    IndexOfUnique(r.outbox, i);
  }

  /** The retry delays after the first four failures: 2, 4, 8 and 16 seconds. */
  lemma BackoffSchedule()
    ensures Pow2(1) == 2 && Pow2(2) == 4 && Pow2(3) == 8 && Pow2(4) == 16
  {
  }

  /** An older message still waiting out its backoff is overtaken by a newer ready one. */
  lemma OvertakenWhileBackingOff(older: OutboxMessage, newer: OutboxMessage, now: int)
    requires older.processedAt.None? && older.nextAttemptAt == Some(now + 1)
    requires Ready(newer, now) && older.createdAt < newer.createdAt
    ensures OldestReady([older, newer], now) == Some(1)
  {
    assert [older, newer][..1] == [older];
  }

  // ------------------------------------------------------------------- methods

  /** The first query of a tick: scans the table for the oldest ready message. */
  method FindOldestReady(msgs: seq<OutboxMessage>, now: int) returns (sel: Option<nat>)
    ensures sel == OldestReady(msgs, now)
  {
    sel := None;
    for k := 0 to |msgs|
      invariant sel == OldestReady(msgs[..k], now)
    {
      assert msgs[..k + 1][..k] == msgs[..k];
      if Ready(msgs[k], now) && (sel.None? || msgs[k].createdAt < msgs[sel.value].createdAt) {
        sel := Some(k);
      }
    }
    assert msgs[..|msgs|] == msgs;
  }

  /** ProcessOnceAsync: claims the oldest ready message and records the outcome of
      delivering it. */
  method ProcessOnce(db: AppDb, outboundUrl: Option<string>, now: int, delivery: Delivery)
    modifies db`outboxMessages, db`deadLetterMessages
    ensures Tables(db.outboxMessages, db.deadLetterMessages)
            == Tick(Tables(old(db.outboxMessages), old(db.deadLetterMessages)),
                    TickInput(outboundUrl, now, delivery))
    // no URL, or nothing ready: nothing changes
    ensures IsNullOrWhiteSpace(outboundUrl) || OldestReady(old(db.outboxMessages), now).None? ==>
              db.outboxMessages == old(db.outboxMessages)
              && db.deadLetterMessages == old(db.deadLetterMessages)
    // otherwise only the claimed message i is touched
    ensures !IsNullOrWhiteSpace(outboundUrl) && OldestReady(old(db.outboxMessages), now).Some? ==>
              var i := OldestReady(old(db.outboxMessages), now).value;
              var m := old(db.outboxMessages)[i];
              match delivery
              case Delivered =>
                db.outboxMessages == old(db.outboxMessages)[i := m.(processedAt := Some(now))]
                && db.deadLetterMessages == old(db.deadLetterMessages)
              case Failed(exceptionType, message) =>
                if m.attempts + 1 >= MaxAttempts then
                  db.outboxMessages == RemoveAt(old(db.outboxMessages), i)
                  && db.deadLetterMessages == old(db.deadLetterMessages)
                       + [DeadLetterMessage(m.kind, m.payloadJson, ErrorText(exceptionType, message), now)]
                else
                  db.outboxMessages == old(db.outboxMessages)[i := m.(attempts := m.attempts + 1,
                                                  nextAttemptAt := Some(now + Pow2(m.attempts + 1)))]
                  && db.deadLetterMessages == old(db.deadLetterMessages)
  {
    if IsNullOrWhiteSpace(outboundUrl) {
      return;
    }
    var sel := FindOldestReady(db.outboxMessages, now);
    if sel.None? {
      return;
    }
    var i := sel.value;
    var msg := db.outboxMessages[i];
    match delivery {
      case Delivered =>
        db.outboxMessages := db.outboxMessages[i := msg.(processedAt := Some(now))];
      case Failed(exceptionType, message) =>
        msg := msg.(attempts := msg.attempts + 1);
        if msg.attempts >= MaxAttempts {
          db.deadLetterMessages := db.deadLetterMessages
            + [DeadLetterMessage(msg.kind, msg.payloadJson, ErrorText(exceptionType, message), now)];
          db.outboxMessages := RemoveAt(db.outboxMessages, i);
        } else {
          msg := msg.(nextAttemptAt := Some(now + Pow2(msg.attempts)));
          db.outboxMessages := db.outboxMessages[i := msg];
        }
    }
  }

  /** ExecuteAsync: one tick per input until the host stops the worker. */
  method Execute(db: AppDb, inputs: seq<TickInput>)
    modifies db`outboxMessages, db`deadLetterMessages
    ensures Tables(db.outboxMessages, db.deadLetterMessages)
            == Run(Tables(old(db.outboxMessages), old(db.deadLetterMessages)), inputs)
  {
    for k := 0 to |inputs|
      invariant Run(Tables(db.outboxMessages, db.deadLetterMessages), inputs[k..])
                == Run(Tables(old(db.outboxMessages), old(db.deadLetterMessages)), inputs)
    {
      assert inputs[k..][1..] == inputs[k + 1..];
      ProcessOnce(db, inputs[k].outboundUrl, inputs[k].now, inputs[k].delivery);
    }
  }

  /** The outbox write a handler makes beside its business change: a new message,
      never attempted and ready at once. */
  method Publish(db: AppDb, kind: string, payloadJson: string, now: int) returns (id: Guid)
    modifies db`outboxMessages, db`nextId
    ensures id == old(db.nextId) && db.nextId == id + 1
    ensures db.outboxMessages == old(db.outboxMessages) + [OutboxMessage(id, kind, payloadJson, 0, now, None, None)]
    ensures ((forall j :: 0 <= j < |old(db.outboxMessages)| ==> old(db.outboxMessages)[j].id < old(db.nextId))
             && UniqueIds(old(db.outboxMessages)))
            ==> UniqueIds(db.outboxMessages)
  {
    id := db.NewGuid();
    db.outboxMessages := db.outboxMessages + [OutboxMessage(id, kind, payloadJson, 0, now, None, None)];
  }
}
