/** What relay turns achieve when nothing fails: the oldest staged events go out, fifty a turn, until none is left. */
module RelayTurns {
  import opened Types
  import opened Stores
  import opened Platform
  import opened RelayLog

  /** The events that a turn sends, out of those staged: the oldest ones, fifty at most. */
  function Due(outbox: seq<OutboxEvent>): (r: seq<EventId>)
    ensures r <= Staged(outbox) && |r| == if |Staged(outbox)| < 50 then |Staged(outbox)| else 50
  {
    if |Staged(outbox)| < 50 then Staged(outbox) else Staged(outbox)[..50]
  }

  /** Publishing and marking, this many times. */
  function Pairs(n: nat): seq<Action> {
    if n == 0 then [] else Pairs(n - 1) + [Publish(Succeeds), MarkSent(Succeeds)]
  }

  /** A whole turn in which every await goes through.  Publishing or marking without an event at hand does nothing,
      so fifty rounds fit every batch. */
  function WholeTurn(): seq<Action> {
    [PollOutbox] + Pairs(50)
  }

  /** In state `z` these events, and no others, have been sent since state `y`: they are the new messages in the
      broker's log, in this order, and newly PUBLISHED. */
  ghost predicate Sent(y: System, z: System, events: seq<EventId>) {
    && z == y.(store := y.store.(outbox := z.store.outbox),
               relay := z.relay, published := z.published, queue := z.queue)
    && |z.published| == |y.published| + |events| && y.published <= z.published
    && |z.store.outbox| == |y.store.outbox|
    && (forall i :: 0 <= i < |events| ==>
          events[i] < |y.store.outbox|
          && z.published[|y.published| + i] == Message(events[i], y.store.outbox[events[i]].payload))
    && (forall e :: 0 <= e < |y.store.outbox| ==>
          z.store.outbox[e] == OutboxEvent(y.store.outbox[e].payload,
                                           if e in events then PUBLISHED else y.store.outbox[e].status))
    && (forall m :: m in z.queue <==>
          m in y.queue || (|y.published| <= m < |z.published| && z.published[m].payload.TransferInitiated?))
  }

  /** The relay at position `i` of its batch with nothing sent, or idle past its end. */
  function At(y: System, batch: seq<EventId>, i: nat): System {
    y.(relay := if i < |batch| then Busy(batch, i, false) else Idle)
  }

  /** One event published and marked. */
  lemma SendOnce(y: System, batch: seq<EventId>, i: nat)
    requires i < |batch| && batch[i] < |y.store.outbox|
    ensures
      var e := batch[i];
      var p := y.store.outbox[e].payload;
      Step(Step(At(y, batch, i), Publish(Succeeds)), MarkSent(Succeeds))
        == At(y.(store := y.store.(outbox := y.store.outbox[e := OutboxEvent(p, PUBLISHED)]),
                 published := y.published + [Message(e, p)],
                 queue := if p.TransferInitiated? then y.queue + {|y.published|} else y.queue),
              batch, i + 1)
  {
    var e := batch[i];
    var p := y.store.outbox[e].payload;
    var y1 := y.(published := y.published + [Message(e, p)],
                 queue := if p.TransferInitiated? then y.queue + {|y.published|} else y.queue,
                 relay := Busy(batch, i, true));
    assert Step(At(y, batch, i), Publish(Succeeds)) == y1;
    assert EffectOf(y1, MarkSent(Succeeds)) == MarkedPublished(e);
  }

  lemma SentOneMore(y: System, z: System, events: seq<EventId>, e: EventId, z': System)
    requires Sent(y, z, events) && e < |y.store.outbox|
    requires
      var p := z.store.outbox[e].payload;
      z' == z.(store := z.store.(outbox := z.store.outbox[e := OutboxEvent(p, PUBLISHED)]),
               published := z.published + [Message(e, p)],
               queue := if p.TransferInitiated? then z.queue + {|z.published|} else z.queue,
               relay := z'.relay)
    ensures Sent(y, z', events + [e])
  {
  }

  lemma SentSize(y: System, z: System, events: seq<EventId>)
    requires Sent(y, z, events)
    ensures |z.store.outbox| == |y.store.outbox|
  {
  }

  /** One more round. */
  lemma RoundSends(y: System, z: System, batch: seq<EventId>, i: nat)
    requires i < |batch| && batch[i] < |y.store.outbox| && Sent(y, z, batch[..i]) && z == At(z, batch, i)
    ensures
      var z' := Step(Step(z, Publish(Succeeds)), MarkSent(Succeeds));
      Sent(y, z', batch[..i + 1]) && z' == At(z', batch, i + 1)
  {
    hide Step;
    SentSize(y, z, batch[..i]);
    SendOnce(z, batch, i);
    SentOneMore(y, z, batch[..i], batch[i], Step(Step(z, Publish(Succeeds)), MarkSent(Succeeds)));
    assert batch[..i] + [batch[i]] == batch[..i + 1];
  }

  lemma NothingSent(y: System, z: System)
    requires z == y.(relay := z.relay)
    ensures Sent(y, z, [])
  {
  }

  lemma IdleRound(y: System)
    requires y.relay.Idle?
    ensures Step(y, Publish(Succeeds)) == y && Step(y, MarkSent(Succeeds)) == y
  {
  }

  lemma NoRounds(y: System)
    ensures Run(y, Pairs(0)) == y
  {
    hide Step;
  }

  lemma PairsNext(n: nat)
    requires 0 < n
    ensures Pairs(n) == Pairs(n - 1) + [Publish(Succeeds)] + [MarkSent(Succeeds)]
  {
  }

  lemma OneRound(y: System, n: nat)
    requires 0 < n
    ensures Run(y, Pairs(n)) == Step(Step(Run(y, Pairs(n - 1)), Publish(Succeeds)), MarkSent(Succeeds))
  {
    hide Step, Run, Pairs;
    RunSnoc(y, Pairs(n - 1), Publish(Succeeds));
    RunSnoc(y, Pairs(n - 1) + [Publish(Succeeds)], MarkSent(Succeeds));
    PairsNext(n);
  }

  /** After `n` rounds the first `n` events of the batch, or all of them, have been sent. */
  lemma {:induction false} RoundsSend(y: System, batch: seq<EventId>, n: nat)
    requires forall j :: 0 <= j < |batch| ==> batch[j] < |y.store.outbox|
    ensures
      var i := if n < |batch| then n else |batch|;
      var z := Run(At(y, batch, 0), Pairs(n));
      Sent(y, z, batch[..i]) && z == At(z, batch, i)
  {
    hide Step, Run, Sent, Pairs;
    var first := At(y, batch, 0);
    if n == 0 {
      NoRounds(first);
      NothingSent(y, first);
      assert batch[..0] == [];
    } else {
      RoundsSend(y, batch, n - 1);
      var z := Run(first, Pairs(n - 1));
      OneRound(first, n);
      if n - 1 < |batch| {
        RoundSends(y, z, batch, n - 1);
      } else {
        IdleRound(z);
      }
    }
  }

  lemma PollsDue(outbox: seq<OutboxEvent>)
    ensures
      var batch := Due(outbox);
      Poll(outbox) == if 0 < |batch| then Busy(batch, 0, false) else Idle
    ensures forall j :: 0 <= j < |Due(outbox)| ==> Due(outbox)[j] < |outbox|
  {
    hide Staged;
  }

  /** A turn in which every await goes through sends exactly the oldest staged events, fifty at most, in creation
      order, and leaves the relay idle. */
  lemma TurnSends(y: System)
    requires y.relay.Idle?
    ensures Sent(y, Run(y, WholeTurn()), Due(y.store.outbox)) && Run(y, WholeTurn()).relay.Idle?
  {
    hide Step, Run, Staged, Sent, Pairs;
    var batch := Due(y.store.outbox);
    RunEmpty(y);
    RunSnoc(y, [], PollOutbox);
    assert [] + [PollOutbox] == [PollOutbox];
    PollStep(y);
    PollsDue(y.store.outbox);
    RunConcat(y, [PollOutbox], Pairs(50));
    RoundsSend(y, batch, 50);
    assert batch[..|batch|] == batch;
  }

  /** One more round takes the oldest staged event out. */
  lemma RoundLeaves(y: System, z: System, batch: seq<EventId>, i: nat)
    requires i < |batch| && batch <= Staged(y.store.outbox) && z == At(z, batch, i)
    requires Staged(z.store.outbox) == Staged(y.store.outbox)[i..]
    ensures Staged(Step(Step(z, Publish(Succeeds)), MarkSent(Succeeds)).store.outbox) == Staged(y.store.outbox)[i + 1..]
  {
    hide Step, Staged;
    var all := Staged(y.store.outbox);
    assert batch[i] == all[i] == Staged(z.store.outbox)[0];
    SendOnce(z, batch, i);
    MarkOldest(z.store.outbox);
    assert all[i..][1..] == all[i + 1..];
  }

  lemma InOutbox(outbox: seq<OutboxEvent>, batch: seq<EventId>)
    requires batch <= Staged(outbox)
    ensures forall j :: 0 <= j < |batch| ==> batch[j] < |outbox|
  {
    hide Staged;
    assert forall j :: 0 <= j < |batch| ==> batch[j] == Staged(outbox)[j];
  }

  lemma RoundsStand(y: System, batch: seq<EventId>, n: nat)
    requires batch <= Staged(y.store.outbox)
    ensures
      var z := Run(At(y, batch, 0), Pairs(n));
      z == At(z, batch, if n < |batch| then n else |batch|)
  {
    hide Step, Run, Sent, Staged, Pairs;
    InOutbox(y.store.outbox, batch);
    RoundsSend(y, batch, n);
  }

  lemma {:induction false} RoundsLeave(y: System, batch: seq<EventId>, n: nat)
    requires batch <= Staged(y.store.outbox)
    ensures
      var i := if n < |batch| then n else |batch|;
      Staged(Run(At(y, batch, 0), Pairs(n)).store.outbox) == Staged(y.store.outbox)[i..]
  {
    hide Step, Run, Staged, Pairs;
    var first := At(y, batch, 0);
    if n == 0 {
      NoRounds(first);
      assert Staged(y.store.outbox)[0..] == Staged(y.store.outbox);
    } else {
      RoundsLeave(y, batch, n - 1);
      var z := Run(first, Pairs(n - 1));
      RoundsStand(y, batch, n - 1);
      OneRound(first, n);
      if n - 1 < |batch| {
        RoundLeaves(y, z, batch, n - 1);
      } else {
        IdleRound(z);
      }
    }
  }

  /** After a turn the staged events are those that were not due. */
  lemma TurnLeaves(y: System)
    requires y.relay.Idle?
    ensures Staged(Run(y, WholeTurn()).store.outbox) == Staged(y.store.outbox)[|Due(y.store.outbox)|..]
  {
    hide Step, Run, Staged, Pairs;
    RunEmpty(y);
    RunSnoc(y, [], PollOutbox);
    assert [] + [PollOutbox] == [PollOutbox];
    PollStep(y);
    PollsDue(y.store.outbox);
    RunConcat(y, [PollOutbox], Pairs(50));
    RoundsLeave(y, Due(y.store.outbox), 50);
  }

  /** This many turns, one after the other. */
  function TurnsOn(y: System, n: nat): System {
    if n == 0 then y else Run(TurnsOn(y, n - 1), WholeTurn())
  }

  /** All but the oldest 50 * n events. */
  function Left(all: seq<EventId>, n: nat): seq<EventId> {
    if 50 * n < |all| then all[50 * n..] else []
  }

  lemma LeftNext(all: seq<EventId>, n: nat, outbox: seq<OutboxEvent>)
    requires Staged(outbox) == Left(all, n)
    ensures Staged(outbox)[|Due(outbox)|..] == Left(all, n + 1)
  {
    hide Staged;
  }

  lemma NothingDone(all: seq<EventId>)
    ensures Left(all, 0) == all
  {
  }

  lemma {:induction false} TurnsEndIdle(y: System, n: nat)
    requires y.relay.Idle?
    ensures TurnsOn(y, n).relay.Idle?
  {
    hide Run, WholeTurn, Sent;
    if n > 0 {
      TurnsEndIdle(y, n - 1);
      TurnSends(TurnsOn(y, n - 1));
    }
  }

  /** With nothing else going on, after `n` turns all but the oldest 50 * n events are still staged, in their order:
      enough turns publish everything. */
  lemma {:induction false} TurnsDrainOutbox(y: System, n: nat)
    requires y.relay.Idle?
    ensures Staged(TurnsOn(y, n).store.outbox) == Left(Staged(y.store.outbox), n)
  {
    hide Run, WholeTurn, Staged, Due, Left;
    if n == 0 {
      NothingDone(Staged(y.store.outbox));
    } else {
      var before := TurnsOn(y, n - 1);
      TurnsDrainOutbox(y, n - 1);
      TurnsEndIdle(y, n - 1);
      TurnLeaves(before);
      LeftNext(Staged(y.store.outbox), n - 1, before.store.outbox);
    }
  }
}
