/** The order in which one relay process publishes the outbox, whatever was published before it started. */
module RelayLog {
  import opened Types
  import opened Stores
  import opened Platform

  function Created(m: nat, n: nat): (r: seq<EventId>)
    requires m <= n
    ensures |r| == n - m && forall i :: 0 <= i < |r| ==> r[i] == m + i
  {
    seq(n - m, i requires 0 <= i => m + i)
  }

  /** What is to be published between two states: the events staged in the first one, then those created
      since, in creation order. */
  function Line(o: System, y: System): seq<EventId>
    requires |o.store.outbox| <= |y.store.outbox|
  {
    Staged(o.store.outbox) + Created(|o.store.outbox|, |y.store.outbox|)
  }

  /** The first event of the line counts[0] times, the second one counts[1] times, and so on. */
  function Expand(counts: seq<nat>, line: seq<EventId>): seq<EventId>
    requires |counts| <= |line|
  {
    if counts == [] then [] else
      var k := |counts| - 1;
      Expand(counts[..k], line) + seq(counts[k], i => line[k])
  }

  function EventsIn(log: seq<Message>): (r: seq<EventId>)
    ensures |r| == |log| && forall i :: 0 <= i < |log| ==> r[i] == log[i].event
  {
    seq(|log|, i requires 0 <= i < |log| => log[i].event)
  }

  /** The relay's batch continues the line from the first event not yet marked; `sent` says that this
      event is the last one of the log. */
  predicate StandsAt(r: Relay, line: seq<EventId>, p: nat, k: nat)
    requires p <= |line|
  {
    r.Busy? ==> r.pos < |r.batch| && r.batch[r.pos..] <= line[p..] && (r.sent ==> k == p + 1)
  }

  /** The first `p` events of the line have been marked and the others are staged; the log has repeated the
      line's first events these many times. */
  predicate Ordered(line: seq<EventId>, log: seq<EventId>, staged: seq<EventId>, r: Relay, p: nat, counts: seq<nat>) {
    && (|counts| == p || |counts| == p + 1) && |counts| <= |line|
    && p <= |line| && staged == line[p..]
    && (forall i :: 0 <= i < |counts| ==> 1 <= counts[i])
    && log == Expand(counts, line)
    && StandsAt(r, line, p, |counts|)
  }

  /** The events that the broker has accepted since state `o`. */
  function Log(o: System, y: System): seq<EventId>
    requires |o.published| <= |y.published|
  {
    EventsIn(y.published[|o.published|..])
  }

  predicate InOrder(o: System, y: System, p: nat, counts: seq<nat>) {
    && |o.store.outbox| <= |y.store.outbox| && o.published <= y.published
    && Ordered(Line(o, y), Log(o, y), Staged(y.store.outbox), y.relay, p, counts)
  }

  // ------------------------------------------------- staging and marking

  lemma StageOne(outbox: seq<OutboxEvent>, x: OutboxEvent)
    requires x.status == STAGED
    ensures Staged(outbox + [x]) == Staged(outbox) + [|outbox|]
  {
    assert (outbox + [x])[..|outbox|] == outbox;
  }

  /** Marking the oldest staged event removes it from the staged ones. */
  lemma {:induction false} MarkOldest(outbox: seq<OutboxEvent>)
    requires Staged(outbox) != []
    ensures
      var e := Staged(outbox)[0];
      Staged(outbox[e := outbox[e].(status := PUBLISHED)]) == Staged(outbox)[1..]
  {
    var n := |outbox| - 1;
    var e := Staged(outbox)[0];
    var marked := outbox[e := outbox[e].(status := PUBLISHED)];
    if Staged(outbox[..n]) == [] {
      assert marked[..n] == outbox[..n];
    } else {
      MarkOldest(outbox[..n]);
      assert marked[..n] == outbox[..n][e := outbox[..n][e].(status := PUBLISHED)];
    }
  }

  lemma {:induction false} LongerLine(counts: seq<nat>, line: seq<EventId>, more: seq<EventId>)
    requires |counts| <= |line| && line <= more
    ensures Expand(counts, more) == Expand(counts, line)
  {
    if counts != [] {
      LongerLine(counts[..|counts| - 1], line, more);
    }
  }

  lemma RepeatLast(counts: seq<nat>, line: seq<EventId>)
    requires 0 < |counts| <= |line|
    ensures var k := |counts| - 1;
            Expand(counts[k := counts[k] + 1], line) == Expand(counts, line) + [line[k]]
  {
    var k := |counts| - 1;
    assert counts[k := counts[k] + 1][..k] == counts[..k];
    assert seq(counts[k] + 1, i => line[k]) == seq(counts[k], i => line[k]) + [line[k]];
  }

  lemma StartNext(counts: seq<nat>, line: seq<EventId>)
    requires |counts| < |line|
    ensures Expand(counts + [1], line) == Expand(counts, line) + [line[|counts|]]
  {
    assert (counts + [1])[..|counts|] == counts;
    assert seq(1, i => line[|counts|]) == [line[|counts|]];
  }

  // ------------------------------------------------------------ one step

  /** Everything but the relay leaves log and relay alone and stages at most one event. */
  lemma QuietStep(y: System, a: Action)
    requires !a.MarkSent? && !a.Publish? && !a.PollOutbox? && !a.RestartRelay?
    ensures Step(y, a).published == y.published && Step(y, a).relay == y.relay
    ensures
      var outbox, outbox' := y.store.outbox, Step(y, a).store.outbox;
      || outbox' == outbox
      || (|outbox'| == |outbox| + 1 && outbox' == outbox + [outbox'[|outbox|]] && outbox'[|outbox|].status == STAGED)
  {
    hide HasRecord, FindKey, Poll;
  }

  lemma LineGrows(line: seq<EventId>, log: seq<EventId>, staged: seq<EventId>, r: Relay, p: nat, counts: seq<nat>,
                  e: EventId)
    requires Ordered(line, log, staged, r, p, counts)
    ensures Ordered(line + [e], log, staged + [e], r, p, counts)
  {
    hide Expand;
    assert (line + [e])[p..] == line[p..] + [e];
    LongerLine(counts, line, line + [e]);
  }

  lemma QuietKeepsOrder(o: System, y: System, a: Action, p: nat, counts: seq<nat>)
    requires InOrder(o, y, p, counts) && !a.MarkSent? && !a.Publish? && !a.PollOutbox? && !a.RestartRelay?
    ensures InOrder(o, Step(y, a), p, counts)
  {
    hide Step, Staged, Ordered;
    QuietStep(y, a);
    var n := |y.store.outbox|;
    if Step(y, a).store.outbox != y.store.outbox {
      StageOne(y.store.outbox, Step(y, a).store.outbox[n]);
      assert Line(o, Step(y, a)) == Line(o, y) + [n];
      LineGrows(Line(o, y), Log(o, y), Staged(y.store.outbox), y.relay, p, counts, n);
    }
  }

  /** Accepting the event at which the relay stands. */
  lemma LogGrows(line: seq<EventId>, log: seq<EventId>, staged: seq<EventId>, r: Relay, p: nat, counts: seq<nat>)
    returns (counts': seq<nat>)
    requires Ordered(line, log, staged, r, p, counts) && r.Busy? && !r.sent && r.pos < |r.batch|
    ensures Ordered(line, log + [r.batch[r.pos]], staged, r.(sent := true), p, counts')
    ensures Ordered(line, log + [r.batch[r.pos]], staged, Idle, p, counts')
  {
    hide Expand;
    assert r.batch[r.pos] == r.batch[r.pos..][0] == line[p..][0];
    if |counts| == p {
      StartNext(counts, line);
      counts' := counts + [1];
    } else {
      RepeatLast(counts, line);
      counts' := counts[p := counts[p] + 1];
    }
  }

  /** The log and the relay after an attempt to publish. */
  lemma PublishStep(y: System, remote: Remote)
    ensures
      var y' := Step(y, Publish(remote));
      && y'.store == y.store
      && (if AboutToPublish(y) && remote != FailsBefore
          then |y'.published| == |y.published| + 1 && y.published <= y'.published
               && y'.published[|y.published|].event == y.relay.batch[y.relay.pos]
               && y'.relay == if remote == Succeeds then y.relay.(sent := true) else Idle
          else y'.published == y.published && (y'.relay == y.relay || y'.relay == Idle))
  {
  }

  lemma IdleInOrder(o: System, y: System, p: nat, counts: seq<nat>)
    requires InOrder(o, y, p, counts)
    ensures Ordered(Line(o, y), Log(o, y), Staged(y.store.outbox), Idle, p, counts)
  {
    hide Staged, Expand;
  }

  lemma PublishKeepsOrder(o: System, y: System, remote: Remote, p: nat, counts: seq<nat>) returns (counts': seq<nat>)
    requires InOrder(o, y, p, counts)
    ensures InOrder(o, Step(y, Publish(remote)), p, counts')
  {
    hide Step, Staged, Ordered;
    counts' := counts;
    PublishStep(y, remote);
    IdleInOrder(o, y, p, counts);
    if AboutToPublish(y) && remote != FailsBefore {
      counts' := LogGrows(Line(o, y), Log(o, y), Staged(y.store.outbox), y.relay, p, counts);
      assert Log(o, Step(y, Publish(remote))) == Log(o, y) + [y.relay.batch[y.relay.pos]];
    }
  }

  /** Marking the event at which the relay stands. */
  lemma StagedShrinks(line: seq<EventId>, log: seq<EventId>, staged: seq<EventId>, r: Relay, p: nat, counts: seq<nat>)
    requires Ordered(line, log, staged, r, p, counts) && r.Busy? && r.sent && r.pos < |r.batch|
    ensures staged != [] && r.batch[r.pos] == staged[0]
    ensures Ordered(line, log, staged[1..], AfterMark(r), p + 1, counts)
    ensures Ordered(line, log, staged[1..], Idle, p + 1, counts)
  {
    hide Expand;
    assert r.batch[r.pos] == r.batch[r.pos..][0];
    assert line[p..][1..] == line[p + 1..];
    assert r.batch[r.pos..][1..] == r.batch[r.pos + 1..];
  }

  lemma MarkStep(y: System, remote: Remote)
    ensures
      var y' := Step(y, MarkSent(remote));
      && y'.published == y.published
      && (if AboutToMark(y) && remote != FailsBefore && y.relay.batch[y.relay.pos] < |y.store.outbox|
          then var e := y.relay.batch[y.relay.pos];
               y'.store.outbox == y.store.outbox[e := y.store.outbox[e].(status := PUBLISHED)]
          else y'.store == y.store)
      && (if AboutToMark(y) && remote == Succeeds then y'.relay == AfterMark(y.relay)
          else y'.relay == y.relay || y'.relay == Idle)
      && (AboutToMark(y) && remote == FailsAfter ==> y'.relay == Idle)
  {
  }

  lemma MarkKeepsOrder(o: System, y: System, remote: Remote, p: nat, counts: seq<nat>)
    requires InOrder(o, y, p, counts)
    ensures InOrder(o, Step(y, MarkSent(remote)), if AboutToMark(y) && remote != FailsBefore then p + 1 else p, counts)
  {
    hide Step, Staged, Ordered, AfterMark;
    MarkStep(y, remote);
    IdleInOrder(o, y, p, counts);
    if AboutToMark(y) && remote != FailsBefore {
      StagedShrinks(Line(o, y), Log(o, y), Staged(y.store.outbox), y.relay, p, counts);
      MarkOldest(y.store.outbox);
    }
  }

  lemma PollStep(y: System)
    ensures Step(y, PollOutbox) == if y.relay.Idle? then y.(relay := Poll(y.store.outbox)) else y
  {
    hide Poll;
  }

  lemma PollKeepsOrder(o: System, y: System, p: nat, counts: seq<nat>)
    requires InOrder(o, y, p, counts)
    ensures InOrder(o, Step(y, PollOutbox), p, counts)
  {
    hide Step, Staged, Expand;
    PollStep(y);
    var batch := Take(Staged(y.store.outbox), BATCH_SIZE);
    assert batch[0..] == batch;
  }

  lemma RestartStep(y: System)
    ensures Step(y, RestartRelay) == y.(relay := Idle)
  {
  }

  lemma StepKeepsOrder(o: System, y: System, a: Action, p: nat, counts: seq<nat>) returns (p': nat, counts': seq<nat>)
    requires InOrder(o, y, p, counts)
    ensures InOrder(o, Step(y, a), p', counts')
  {
    hide Step, Staged, Ordered;
    p', counts' := p, counts;
    match a
    case Publish(remote) => counts' := PublishKeepsOrder(o, y, remote, p, counts);
    case MarkSent(remote) =>
      MarkKeepsOrder(o, y, remote, p, counts);
      p' := if AboutToMark(y) && remote != FailsBefore then p + 1 else p;
    case PollOutbox => PollKeepsOrder(o, y, p, counts);
    case RestartRelay => RestartStep(y); IdleInOrder(o, y, p, counts);
    case _ => QuietKeepsOrder(o, y, a, p, counts);
  }

  lemma StartsInOrder(o: System)
    requires o.relay.Idle?
    ensures InOrder(o, o, 0, [])
  {
    hide Staged;
    assert Line(o, o) == Staged(o.store.outbox);
  }

  lemma {:induction false} RunKeepsOrder(o: System, actions: seq<Action>) returns (p: nat, counts: seq<nat>)
    requires o.relay.Idle?
    ensures InOrder(o, Run(o, actions), p, counts)
  {
    hide Step, InOrder;
    if actions == [] {
      p, counts := 0, [];
      StartsInOrder(o);
    } else {
      var n := |actions| - 1;
      p, counts := RunKeepsOrder(o, actions[..n]);
      p, counts := StepKeepsOrder(o, Run(o, actions[..n]), actions[n], p, counts);
    }
  }

  // ------------------------------------------------------------ the law

  lemma LineIncreases(o: System, y: System)
    requires |o.store.outbox| <= |y.store.outbox|
    ensures forall i, j :: 0 <= i < j < |Line(o, y)| ==> Line(o, y)[i] < Line(o, y)[j]
    ensures forall e :: e in Line(o, y) <==>
              (0 <= e < |o.store.outbox| && o.store.outbox[e].status == STAGED)
              || |o.store.outbox| <= e < |y.store.outbox|
  {
    hide Staged;
    var n := |o.store.outbox|;
    forall e | n <= e < |y.store.outbox| ensures e in Line(o, y) {
      assert Line(o, y)[|Staged(o.store.outbox)| + e - n] == e;
    }
  }

  /** Whatever fails or restarts, and whatever had been published before: since the start the broker's log
      runs through the line in creation order with adjacent repeats only, reaching its first
      |counts| events, and newly PUBLISHED are exactly the first |counts| or |counts| - 1 of them. */
  lemma PublishLogShape(x: Execution) returns (counts: seq<nat>, marked: nat)
    requires x.First().relay.Idle?
    ensures |x.First().store.outbox| <= |x.Last().store.outbox| && x.First().published <= x.Last().published
    ensures |counts| <= |Line(x.First(), x.Last())| && (|counts| == marked || |counts| == marked + 1)
    ensures forall i :: 0 <= i < |counts| ==> 1 <= counts[i]
    ensures Log(x.First(), x.Last()) == Expand(counts, Line(x.First(), x.Last()))
    ensures forall e :: 0 <= e < |x.Last().store.outbox| ==>
              (x.Last().store.outbox[e].status == PUBLISHED
               <==> (e < |x.First().store.outbox| && x.First().store.outbox[e].status == PUBLISHED)
                    || e in Line(x.First(), x.Last())[..marked])
  {
    hide Step, Run, Expand, Staged;
    WholeExecutionIsRun(x);
    marked, counts := RunKeepsOrder(x.First(), x.actions);
    LineIncreases(x.First(), x.Last());
    var line := Line(x.First(), x.Last());
    var outbox := x.Last().store.outbox;
    forall e | 0 <= e < |outbox| ensures outbox[e].status == STAGED <==> e in line && e !in line[..marked] {
      assert line == line[..marked] + line[marked..];
      assert outbox[e].status == STAGED <==> e in Staged(outbox);
      assert e in line[..marked] ==> e !in line[marked..];
    }
  }
}
