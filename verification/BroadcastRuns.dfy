/** Confirmations of one campaign that repeat, overlap and crash.  A confirmation reads the campaign
    in one statement and writes it in another, so another call may come between the two. */
module BroadcastRuns {
  import opened Text
  import opened Canonical
  import opened Ordering
  import opened Broadcast

  /** How far one call of the confirmation has got.  What it has inserted stays counted when it
      crashes. */
  datatype Progress =
    | Looked(seen: CampaignState, late: bool)
    | Enqueueing(last: nat, newly: nat)
    | Counting(newly: nat)
    | Closing(newly: nat, seenQueued: bool)
    | Finished(newly: nat)
    | Crashed(newly: nat)
    | Incomplete(newly: nat)
    | Rejected
  {
    function Newly(): nat {
      if Rejected? || Looked? then 0 else newly
    }
  }

  datatype System = System(
    state: CampaignState,
    expiresAt: Time,
    recipients: seq<UserId>,
    target: nat,
    outbox: seq<UserId>,
    queuedCount: nat,
    calls: seq<Progress>)

  datatype Event =
    | Look(now: Time)
    | Act(call: nat)
    | EnqueueBatch(call: nat)
    | Count(call: nat)
    | Close(call: nat)
    | Crash(call: nat)
    | RotateToken(expiresAt: Time)
    | Retention(now: Time)

  /** What a call does about the campaign it has read.  The move to enqueueing is conditional on the
      state, and the call goes on whether or not it took place; the expiry is written regardless. */
  function Acted(s: System, i: nat): System
    requires i < |s.calls| && s.calls[i].Looked?
  {
    var seen, late := s.calls[i].seen, s.calls[i].late;
    if seen.AwaitingConfirmation? && late then s.(state := Expired, calls := s.calls[i := Rejected])
    else if seen.AwaitingConfirmation? then
      s.(state := if s.state.AwaitingConfirmation? then Queueing else s.state, calls := s.calls[i := Enqueueing(0, 0)])
    else if seen.Queueing? then s.(calls := s.calls[i := Enqueueing(0, 0)])
    else if seen.Queued? then s.(calls := s.calls[i := Finished(0)])
    else s.(calls := s.calls[i := Rejected])
  }

  function BatchDone(s: System, i: nat): System
    requires i < |s.calls| && s.calls[i].Enqueueing?
  {
    var rows := Take(After(s.recipients, s.calls[i].last), QUEUE_BATCH);
    if |rows| == 0 then s.(calls := s.calls[i := Counting(s.calls[i].newly)])
    else
      var inserted := InsertMissing(s.outbox, rows);
      s.(outbox := inserted,
         calls := s.calls[i := Enqueueing(rows[|rows| - 1], s.calls[i].newly + (|inserted| - |s.outbox|))])
  }

  /** The closing transaction recounts the outbox and reads the campaign, ... */
  function Counted(s: System, i: nat): System
    requires i < |s.calls| && s.calls[i].Counting?
  {
    s.(calls := s.calls[i := if |s.outbox| != s.target then Incomplete(s.calls[i].newly)
                             else Closing(s.calls[i].newly, s.state.Queued?)])
  }

  /** ... and then writes the state unless it had read it as queued. */
  function Closed(s: System, i: nat): System
    requires i < |s.calls| && s.calls[i].Closing?
  {
    var t := s.(calls := s.calls[i := Finished(s.calls[i].newly)]);
    if s.calls[i].seenQueued then t else t.(state := Queued, queuedCount := s.target)
  }

  predicate Running(p: Progress) {
    p.Looked? || p.Enqueueing? || p.Counting? || p.Closing?
  }

  function Step(s: System, e: Event): System {
    match e
    case Look(now) => s.(calls := s.calls + [Looked(s.state, s.expiresAt <= now)])
    case Act(i) => if i < |s.calls| && s.calls[i].Looked? then Acted(s, i) else s
    case EnqueueBatch(i) => if i < |s.calls| && s.calls[i].Enqueueing? then BatchDone(s, i) else s
    case Count(i) => if i < |s.calls| && s.calls[i].Counting? then Counted(s, i) else s
    case Close(i) => if i < |s.calls| && s.calls[i].Closing? then Closed(s, i) else s
    case Crash(i) =>
      if i < |s.calls| && Running(s.calls[i]) then s.(calls := s.calls[i := Crashed(s.calls[i].Newly())]) else s
    case RotateToken(expiresAt) => s.(expiresAt := expiresAt)
    case Retention(now) => if s.state.AwaitingConfirmation? && s.expiresAt < now then s.(state := Expired) else s
  }

  function Run(s: System, events: seq<Event>): System
    decreases |events|
  {
    if |events| == 0 then s else Run(Step(s, events[0]), events[1..])
  }

  /* ---------- the invariant ---------- */

  function Total(calls: seq<Progress>): nat {
    if |calls| == 0 then 0 else Total(calls[..|calls| - 1]) + calls[|calls| - 1].Newly()
  }

  lemma {:induction false} TotalUpdate(calls: seq<Progress>, i: nat, p: Progress)
    requires i < |calls|
    ensures Total(calls[i := p]) == Total(calls) - calls[i].Newly() + p.Newly()
  {
    var last := |calls| - 1;
    if i == last {
      assert calls[i := p][..last] == calls[..last];
    } else {
      assert calls[i := p][..last] == calls[..last][i := p];
      TotalUpdate(calls[..last], i, p);
    }
  }

  lemma TotalAppend(calls: seq<Progress>, p: Progress)
    ensures Total(calls + [p]) == Total(calls) + p.Newly()
  {
    assert (calls + [p])[..|calls|] == calls;
  }

  /** Everyone up to a key has been enqueued. */
  predicate Covered(recipients: seq<UserId>, outbox: seq<UserId>, last: nat) {
    forall x :: x in recipients && x <= last ==> x in outbox
  }

  predicate AllCovered(recipients: seq<UserId>, outbox: seq<UserId>) {
    forall x :: x in recipients ==> x in outbox
  }

  predicate CallSound(s: System, p: Progress) {
    match p
    case Looked(seen, _) => seen.Queued? ==> AllCovered(s.recipients, s.outbox)
    case Enqueueing(last, _) => Covered(s.recipients, s.outbox, last)
    case Counting(_) => AllCovered(s.recipients, s.outbox)
    case Closing(_, _) => AllCovered(s.recipients, s.outbox)
    case Finished(_) => AllCovered(s.recipients, s.outbox)
    case Incomplete(_) => false
    case _ => true
  }

  predicate OutboxSound(s: System) {
    Distinct(s.outbox) && forall x :: x in s.outbox ==> x in s.recipients
  }

  ghost predicate Inv(s: System) {
    && Ascending(s.recipients) && s.target == |s.recipients|
    && OutboxSound(s)
    && (s.state.Queued? ==> AllCovered(s.recipients, s.outbox) && s.queuedCount == s.target)
    && Total(s.calls) == |s.outbox|
    && forall i :: 0 <= i < |s.calls| ==> CallSound(s, s.calls[i])
  }

  lemma CoveredCount(s: System)
    requires Inv(s) && AllCovered(s.recipients, s.outbox)
    ensures |s.outbox| == s.target
  {
    SameMembers(s.outbox, s.recipients);
  }

  lemma RestMembers(ids: seq<UserId>, n: nat, last: nat)
    requires Ascending(ids) && n <= |ids| && (n > 0 ==> ids[n - 1] <= last)
    ensures forall x :: x in ids && last < x ==> x in ids[n..]
  {
    forall x | x in ids && last < x ensures x in ids[n..] {
      var k :| 0 <= k < |ids| && ids[k] == x;
      assert ids[n..][k - n] == x;
    }
  }

  lemma TakenMembers(rest: seq<UserId>, limit: nat)
    requires forall i, j :: 0 <= i < j < |rest| ==> rest[i] < rest[j]
    ensures
      var rows := Take(rest, limit);
      |rows| > 0 ==> forall x :: x in rest && x <= rows[|rows| - 1] ==> x in rows
  {
    var rows := Take(rest, limit);
    if |rows| > 0 {
      forall x | x in rest && x <= rows[|rows| - 1] ensures x in rows {
        var k :| 0 <= k < |rest| && rest[k] == x;
        assert k < |rows| && rows[k] == x;
      }
    }
  }

  /** A batch of the scan of recipients: nobody is skipped. */
  lemma BatchCovers(recipients: seq<UserId>, last: nat)
    requires Ascending(recipients)
    ensures
      var rows := Take(After(recipients, last), QUEUE_BATCH);
      && (forall x :: x in rows ==> x in recipients)
      && (|rows| == 0 ==> forall x :: x in recipients ==> x <= last)
      && (|rows| > 0 ==> forall x :: x in recipients && x <= rows[|rows| - 1] ==> x <= last || x in rows)
  {
    var n := Split(recipients, last);
    AfterDrops(recipients, n, last);
    RestMembers(recipients, n, last);
    TakenMembers(recipients[n..], QUEUE_BATCH);
  }

  /** How many rows a key leaves behind. */
  function Split(ids: seq<UserId>, last: nat): (n: nat)
    requires forall i, j :: 0 <= i < j < |ids| ==> ids[i] < ids[j]
    ensures n <= |ids| && (n > 0 ==> ids[n - 1] <= last) && (n < |ids| ==> last < ids[n])
  {
    if |ids| == 0 || ids[0] > last then 0 else 1 + Split(ids[1..], last)
  }

  lemma LookKeeps(s: System, now: Time)
    requires Inv(s)
    ensures Inv(Step(s, Look(now)))
  {
    var t := Step(s, Look(now));
    TotalAppend(s.calls, t.calls[|s.calls|]);
    forall i | 0 <= i < |t.calls| ensures CallSound(t, t.calls[i]) {
      if i < |s.calls| {
        assert CallSound(s, s.calls[i]);
      }
    }
  }

  lemma ActKeeps(s: System, i: nat)
    requires Inv(s) && i < |s.calls| && s.calls[i].Looked?
    ensures Inv(Acted(s, i))
  {
    var t := Acted(s, i);
    assert CallSound(s, s.calls[i]);
    PositiveMembers(s.recipients);
    TotalUpdate(s.calls, i, t.calls[i]);
    OtherCalls(s, t, i, t.calls[i]);
  }

  lemma PositiveMembers(ids: seq<UserId>)
    requires Ascending(ids)
    ensures forall x :: x in ids ==> x > 0
  {
  }

  lemma OtherCalls(s: System, t: System, i: nat, p: Progress)
    requires Inv(s) && i < |s.calls| && t.calls == s.calls[i := p] && t.recipients == s.recipients
    requires (forall x :: x in s.outbox ==> x in t.outbox) && CallSound(t, p)
    ensures forall j :: 0 <= j < |t.calls| ==> CallSound(t, t.calls[j])
  {
    forall j | 0 <= j < |t.calls| ensures CallSound(t, t.calls[j]) {
      if j != i {
        assert CallSound(s, s.calls[j]);
      }
    }
  }

  lemma BatchKeeps(s: System, i: nat)
    requires Inv(s) && i < |s.calls| && s.calls[i].Enqueueing?
    ensures Inv(BatchDone(s, i))
  {
    var t, call := BatchDone(s, i), s.calls[i];
    var rows := Take(After(s.recipients, call.last), QUEUE_BATCH);
    assert CallSound(s, call);
    BatchCovers(s.recipients, call.last);
    InsertMissingAdds(s.outbox, rows);
    TotalUpdate(s.calls, i, t.calls[i]);
    OtherCalls(s, t, i, t.calls[i]);
  }

  lemma CountKeeps(s: System, i: nat)
    requires Inv(s) && i < |s.calls| && s.calls[i].Counting?
    ensures Inv(Counted(s, i)) && Counted(s, i).calls[i].Closing?
  {
    var t := Counted(s, i);
    assert CallSound(s, s.calls[i]);
    CoveredCount(s);
    TotalUpdate(s.calls, i, t.calls[i]);
    OtherCalls(s, t, i, t.calls[i]);
  }

  lemma CloseKeeps(s: System, i: nat)
    requires Inv(s) && i < |s.calls| && s.calls[i].Closing?
    ensures Inv(Closed(s, i))
  {
    var t := Closed(s, i);
    assert CallSound(s, s.calls[i]);
    TotalUpdate(s.calls, i, t.calls[i]);
    OtherCalls(s, t, i, t.calls[i]);
  }

  lemma CrashKeeps(s: System, i: nat)
    requires Inv(s) && i < |s.calls| && Running(s.calls[i])
    ensures Inv(Step(s, Crash(i)))
  {
    var p := Crashed(s.calls[i].Newly());
    TotalUpdate(s.calls, i, p);
    OtherCalls(s, Step(s, Crash(i)), i, p);
  }

  lemma StepKeeps(s: System, e: Event)
    requires Inv(s)
    ensures Inv(Step(s, e))
  {
    match e
    case Look(now) => LookKeeps(s, now);
    case Act(i) =>
      if i < |s.calls| && s.calls[i].Looked? {
        ActKeeps(s, i);
      }
    case EnqueueBatch(i) =>
      if i < |s.calls| && s.calls[i].Enqueueing? {
        BatchKeeps(s, i);
      }
    case Count(i) =>
      if i < |s.calls| && s.calls[i].Counting? {
        CountKeeps(s, i);
      }
    case Close(i) =>
      if i < |s.calls| && s.calls[i].Closing? {
        CloseKeeps(s, i);
      }
    case Crash(i) =>
      if i < |s.calls| && Running(s.calls[i]) {
        CrashKeeps(s, i);
      }
    case RotateToken(_) => WaitingKeeps(s, Step(s, e));
    case Retention(_) => WaitingKeeps(s, Step(s, e));
  }

  lemma WaitingKeeps(s: System, t: System)
    requires Inv(s) && t == s.(state := t.state, expiresAt := t.expiresAt)
    requires t.state == s.state || !t.state.Queued?
    ensures Inv(t)
  {
    forall i | 0 <= i < |t.calls| ensures CallSound(t, t.calls[i]) {
      assert CallSound(s, s.calls[i]);
    }
  }

  lemma {:induction false} RunKeeps(s: System, events: seq<Event>)
    requires Inv(s)
    ensures Inv(Run(s, events)) && Run(s, events).recipients == s.recipients
    decreases |events|
  {
    if |events| > 0 {
      StepKeeps(s, events[0]);
      RunKeeps(Step(s, events[0]), events[1..]);
    }
  }

  /** A campaign whose recipients have just been snapshotted. */
  function Prepared(recipients: seq<UserId>, expiresAt: Time): System {
    System(if |recipients| > 0 then AwaitingConfirmation else Empty, expiresAt, recipients, |recipients|, [], 0, [])
  }

  /** Exactly once: over any mix of repeated, overlapping and crashed confirmations, whatever comes
      between a call's reading and its writing, the outbox holds at most one row per recipient and
      nobody else, the rows that the calls report as newly inserted add up to the outbox, no call ever
      finds the queue incomplete, and once a call has finished or the campaign is queued every
      recipient is in the outbox and the counts agree. */
  lemma ExactlyOnce(recipients: seq<UserId>, expiresAt: Time, events: seq<Event>)
    requires Ascending(recipients)
    ensures
      var s := Run(Prepared(recipients, expiresAt), events);
      && Distinct(s.outbox) && (forall x :: x in s.outbox ==> x in recipients)
      && Total(s.calls) == |s.outbox|
      && (forall i :: 0 <= i < |s.calls| ==> !s.calls[i].Incomplete?)
      && (s.state.Queued? || (exists i :: 0 <= i < |s.calls| && s.calls[i].Finished?) ==>
            (forall x :: x in recipients ==> x in s.outbox) && Total(s.calls) == s.target == |recipients|)
      && (s.state.Queued? ==> s.queuedCount == s.target)
  {
    var s := Run(Prepared(recipients, expiresAt), events);
    RunKeeps(Prepared(recipients, expiresAt), events);
    forall i | 0 <= i < |s.calls| ensures !s.calls[i].Incomplete? {
      assert CallSound(s, s.calls[i]);
    }
    if i :| 0 <= i < |s.calls| && s.calls[i].Finished? {
      assert CallSound(s, s.calls[i]);
      CoveredCount(s);
    }
    if s.state.Queued? {
      CoveredCount(s);
    }
  }

  /* ---------- a queued campaign that expires ---------- */

  /** The call about to act read the campaign as awaiting confirmation and past its deadline. */
  predicate StaleExpiry(s: System, e: Event) {
    e.Act? && e.call < |s.calls| && s.calls[e.call].Looked?
    && s.calls[e.call].seen.AwaitingConfirmation? && s.calls[e.call].late
  }

  predicate StaysQueued(s: System, events: seq<Event>)
    decreases |events|
  {
    |events| == 0 || (Step(s, events[0]).state.Queued? && StaysQueued(Step(s, events[0]), events[1..]))
  }

  predicate NoStaleExpiry(s: System, events: seq<Event>)
    decreases |events|
  {
    |events| == 0 || (!StaleExpiry(s, events[0]) && NoStaleExpiry(Step(s, events[0]), events[1..]))
  }

  predicate Confirmed(state: CampaignState) {
    state.Queueing? || state.Queued?
  }

  predicate StaysConfirmed(s: System, events: seq<Event>)
    decreases |events|
  {
    |events| == 0 || (Confirmed(Step(s, events[0]).state) && StaysConfirmed(Step(s, events[0]), events[1..]))
  }

  /** A confirmed campaign stays confirmed over a run, and a queued one queued, if and only if no call
      writes an expiry that it decided on before the campaign was confirmed. */
  lemma {:induction false} ConfirmedStaysExactly(s: System, events: seq<Event>)
    requires Confirmed(s.state)
    ensures StaysConfirmed(s, events) <==> NoStaleExpiry(s, events)
    ensures s.state.Queued? ==> (StaysQueued(s, events) <==> NoStaleExpiry(s, events))
    decreases |events|
  {
    if |events| > 0 {
      var t := Step(s, events[0]);
      assert Confirmed(t.state) <==> !StaleExpiry(s, events[0]);
      assert s.state.Queued? && Confirmed(t.state) ==> t.state.Queued?;
      if Confirmed(t.state) {
        ConfirmedStaysExactly(t, events[1..]);
      }
    }
  }

  /** One recipient: a first call looks in time, a second looks too late, the first enqueues and closes,
      and the second writes its expiry over the queued campaign. */
  function StaleRun(early: Time, late: Time): seq<Event> {
    [Look(early), Look(late)] + FirstCall() + [Act(1)]
  }

  function FirstCall(): seq<Event> {
    [Act(0), EnqueueBatch(0), EnqueueBatch(0), Count(0), Close(0)]
  }

  lemma BothLook(id: UserId, expiresAt: Time, early: Time, late: Time)
    requires early < expiresAt <= late
    ensures
      var s := Prepared([id], expiresAt);
      Run(s, [Look(early), Look(late)])
      == s.(calls := [Looked(AwaitingConfirmation, false), Looked(AwaitingConfirmation, true)])
  {
    var s := Prepared([id], expiresAt);
    RunSteps(s, Look(early), [Look(late)]);
    RunSteps(Step(s, Look(early)), Look(late), []);
  }

  lemma StaleExpiryOverwrites(id: UserId, expiresAt: Time, early: Time, late: Time)
    requires 0 < id && early < expiresAt <= late
    ensures
      Run(Prepared([id], expiresAt), StaleRun(early, late))
      == System(Expired, expiresAt, [id], 1, [id], 1, [Finished(1), Rejected])
  {
    var s, stale := Prepared([id], expiresAt), Looked(AwaitingConfirmation, true);
    var looked := s.(calls := [Looked(AwaitingConfirmation, false), stale]);
    var queued := System(Queued, expiresAt, [id], 1, [id], 1, [Finished(1), stale]);
    BothLook(id, expiresAt, early, late);
    FirstCallQueues(looked, id, stale);
    RunSteps(queued, Act(1), []);
    assert Step(queued, Act(1)).calls == [Finished(1), Rejected];
    RunAppend(s, [Look(early), Look(late)] + FirstCall(), [Act(1)]);
    RunAppend(s, [Look(early), Look(late)], FirstCall());
  }

  lemma FirstCallQueues(s: System, id: UserId, other: Progress)
    requires 0 < id && s.state.AwaitingConfirmation? && s.recipients == [id] && s.target == 1 && s.outbox == []
    requires s.calls == [Looked(AwaitingConfirmation, false), other]
    ensures
      Run(s, FirstCall())
      == s.(state := Queued, outbox := [id], queuedCount := 1, calls := [Finished(1), other])
  {
    var enqueued := s.(state := Queueing, outbox := [id], calls := [Counting(1), other]);
    FirstCallEnqueues(s, id, other);
    var queued := s.(state := Queued, outbox := [id], queuedCount := 1, calls := [Finished(1), other]);
    assert Run(enqueued, [Count(0), Close(0)]) == queued by {
      RunSteps(enqueued, Count(0), [Close(0)]);
      RunSteps(enqueued.(calls := [Closing(1, false), other]), Close(0), []);
    }
    RunAppend(s, [Act(0), EnqueueBatch(0), EnqueueBatch(0)], [Count(0), Close(0)]);
    assert FirstCall() == [Act(0), EnqueueBatch(0), EnqueueBatch(0)] + [Count(0), Close(0)];
  }

  lemma FirstCallEnqueues(s: System, id: UserId, other: Progress)
    requires 0 < id && s.state.AwaitingConfirmation? && s.recipients == [id] && s.outbox == []
    requires s.calls == [Looked(AwaitingConfirmation, false), other]
    ensures
      Run(s, [Act(0), EnqueueBatch(0), EnqueueBatch(0)])
      == s.(state := Queueing, outbox := [id], calls := [Counting(1), other])
  {
    var s1 := s.(state := Queueing, calls := [Enqueueing(0, 0), other]);
    var s2 := s1.(outbox := [id], calls := [Enqueueing(id, 1), other]);
    assert Step(s, Act(0)) == s1;
    FirstBatch(s1, id, other);
    assert Step(s2, EnqueueBatch(0)) == s2.(calls := [Counting(1), other]) by {
      assert After([id], id) == [];
    }
    RunSteps(s, Act(0), [EnqueueBatch(0), EnqueueBatch(0)]);
    RunSteps(s1, EnqueueBatch(0), [EnqueueBatch(0)]);
    RunSteps(s2, EnqueueBatch(0), []);
  }

  lemma FirstBatch(s: System, id: UserId, other: Progress)
    requires 0 < id && s.recipients == [id] && s.outbox == [] && s.calls == [Enqueueing(0, 0), other]
    ensures Step(s, EnqueueBatch(0)) == s.(outbox := [id], calls := [Enqueueing(id, 1), other])
  {
    assert After([id], 0) == [id];
    assert InsertMissing([], [id]) == [id];
  }

  lemma RunSteps(s: System, e: Event, rest: seq<Event>)
    ensures Run(s, [e] + rest) == Run(Step(s, e), rest)
  {
    assert ([e] + rest)[1..] == rest;
  }

  lemma {:induction false} RunAppend(s: System, first: seq<Event>, rest: seq<Event>)
    ensures Run(s, first + rest) == Run(Run(s, first), rest)
    decreases |first|
  {
    if |first| == 0 {
      assert first + rest == rest;
    } else {
      assert (first + rest)[1..] == first[1..] + rest;
      RunAppend(Step(s, first[0]), first[1..], rest);
    }
  }

  /* ---------- progress ---------- */

  /** What one call still has to do by itself. */
  function Remaining(s: System, i: nat): nat
    requires i < |s.calls|
  {
    match s.calls[i]
    case Looked(_, _) => 4 + |After(s.recipients, 0)|
    case Enqueueing(last, _) => 3 + |After(s.recipients, last)|
    case Counting(_) => 2
    case Closing(_, _) => 1
    case _ => 0
  }

  function NextEvent(s: System, i: nat): Event
    requires i < |s.calls|
  {
    match s.calls[i]
    case Looked(_, _) => Act(i)
    case Enqueueing(_, _) => EnqueueBatch(i)
    case Counting(_) => Count(i)
    case _ => Close(i)
  }

  lemma AfterShrinks(recipients: seq<UserId>, last: nat)
    requires Ascending(recipients)
    ensures
      var rows := Take(After(recipients, last), QUEUE_BATCH);
      |rows| > 0 ==> |After(recipients, rows[|rows| - 1])| < |After(recipients, last)|
  {
    var n := Split(recipients, last);
    AfterDrops(recipients, n, last);
    var rows := Take(After(recipients, last), QUEUE_BATCH);
    if |rows| > 0 {
      assert rows[|rows| - 1] == recipients[n + |rows| - 1];
      AfterDrops(recipients, n + |rows|, rows[|rows| - 1]);
    }
  }

  /** Every step of a call, taken in whatever state the others have left, brings it closer to its end,
      and it ends rejected for what it read, or with every recipient in the outbox. */
  lemma CallProgresses(s: System, i: nat)
    requires Inv(s) && i < |s.calls| && Running(s.calls[i])
    ensures
      var t := Step(s, NextEvent(s, i));
      && Inv(t) && i < |t.calls| && Remaining(t, i) < Remaining(s, i)
      && (!Running(t.calls[i]) ==>
            (t.calls[i].Rejected? && s.calls[i].Looked?)
            || (t.calls[i].Finished? && forall x :: x in s.recipients ==> x in t.outbox))
  {
    StepKeeps(s, NextEvent(s, i));
    assert CallSound(s, s.calls[i]);
    if s.calls[i].Counting? {
      CountKeeps(s, i);
    } else if s.calls[i].Enqueueing? {
      AfterShrinks(s.recipients, s.calls[i].last);
    }
  }

  /* ---------- a campaign that can no longer be completed ---------- */

  /** Left to itself, the call writes the campaign as queued. */
  predicate GoesOn(p: Progress) {
    match p
    case Looked(seen, late) => seen.Queueing? || (seen.AwaitingConfirmation? && !late)
    case Closing(_, seenQueued) => !seenQueued
    case _ => p.Enqueueing? || p.Counting?
  }

  predicate Open(state: CampaignState) {
    state.AwaitingConfirmation? || state.Queueing? || state.Queued?
  }

  /** What a caller can see of a campaign that may still be queued. */
  predicate Completable(s: System) {
    Open(s.state) || exists i :: 0 <= i < |s.calls| && GoesOn(s.calls[i])
  }

  /** From a given time on. */
  predicate NotBefore(events: seq<Event>, now: Time) {
    forall k :: 0 <= k < |events| ==>
      match events[k]
      case Look(at) => now <= at
      case RotateToken(expiresAt) => now < expiresAt
      case Retention(at) => now <= at
      case _ => true
  }

  /** A call that goes on can be run to its end. */
  lemma {:induction false} CallCompletes(s: System, i: nat, now: Time) returns (events: seq<Event>)
    requires Inv(s) && i < |s.calls| && GoesOn(s.calls[i])
    ensures NotBefore(events, now) && Run(s, events).state.Queued?
    decreases Remaining(s, i)
  {
    var e := NextEvent(s, i);
    var t := Step(s, e);
    CallProgresses(s, i);
    if t.state.Queued? {
      events := [e];
      RunSteps(s, e, []);
    } else {
      var rest := CallCompletes(t, i, now);
      events := [e] + rest;
      RunSteps(s, e, rest);
    }
  }

  /** The administrator gets a new token and confirms with it. */
  lemma OpenCompletes(s: System, now: Time) returns (events: seq<Event>)
    requires Inv(s) && Open(s.state)
    ensures NotBefore(events, now) && Run(s, events).state.Queued?
  {
    if s.state.Queued? {
      events := [];
    } else {
      var rotated := Step(s, RotateToken(now + 1));
      StepKeeps(s, RotateToken(now + 1));
      StepKeeps(rotated, Look(now));
      var rest := CallCompletes(Step(rotated, Look(now)), |s.calls|, now);
      events := [RotateToken(now + 1)] + ([Look(now)] + rest);
      RunSteps(s, RotateToken(now + 1), [Look(now)] + rest);
      RunSteps(rotated, Look(now), rest);
    }
  }

  lemma StepStaysIncomplete(s: System, e: Event)
    requires !Completable(s)
    ensures !Completable(Step(s, e)) && Step(s, e).outbox == s.outbox
  {
    var t := Step(s, e);
    forall i | 0 <= i < |t.calls| ensures !GoesOn(t.calls[i]) {
      assert i < |s.calls| ==> !GoesOn(s.calls[i]);
    }
  }

  lemma {:induction false} StaysIncomplete(s: System, events: seq<Event>)
    requires !Completable(s)
    ensures !Completable(Run(s, events)) && Run(s, events).outbox == s.outbox
    decreases |events|
  {
    if |events| > 0 {
      StepStaysIncomplete(s, events[0]);
      StaysIncomplete(Step(s, events[0]), events[1..]);
    }
  }

  /** A campaign can still be queued, by some continuation from any time on, if and only if it is
      awaiting confirmation, enqueueing or queued, or some call goes on.  Otherwise its outbox never
      changes again. */
  lemma CompletableExactly(s: System, now: Time)
    requires Inv(s)
    ensures Completable(s) <==> exists events :: NotBefore(events, now) && Run(s, events).state.Queued?
    ensures !Completable(s) ==> forall events :: Run(s, events).outbox == s.outbox && !Run(s, events).state.Queued?
  {
    if Open(s.state) {
      var events := OpenCompletes(s, now);
    } else if i :| 0 <= i < |s.calls| && GoesOn(s.calls[i]) {
      var events := CallCompletes(s, i, now);
    } else {
      forall events ensures !Run(s, events).state.Queued? && Run(s, events).outbox == s.outbox {
        StaysIncomplete(s, events);
      }
    }
  }

  /** The run above with a crash of the first call before its first batch: the confirmed campaign is
      expired with an empty outbox, for good. */
  lemma StaleExpiryStrands(id: UserId, expiresAt: Time, early: Time, late: Time, events: seq<Event>)
    requires 0 < id && early < expiresAt <= late
    ensures
      var s := Run(Prepared([id], expiresAt), [Look(early), Look(late)] + [Act(0), Crash(0), Act(1)]);
      s.state.Expired? && Run(s, events).outbox == [] && !Run(s, events).state.Queued?
  {
    var s, stale := Prepared([id], expiresAt), Looked(AwaitingConfirmation, true);
    var looked := s.(calls := [Looked(AwaitingConfirmation, false), stale]);
    var crashed := s.(state := Queueing, calls := [Crashed(0), stale]);
    var expired := s.(state := Expired, calls := [Crashed(0), Rejected]);
    BothLook(id, expiresAt, early, late);
    RunAppend(s, [Look(early), Look(late)], [Act(0), Crash(0), Act(1)]);
    RunSteps(looked, Act(0), [Crash(0), Act(1)]);
    RunSteps(looked.(state := Queueing, calls := [Enqueueing(0, 0), stale]), Crash(0), [Act(1)]);
    RunSteps(crashed, Act(1), []);
    assert Step(crashed, Act(1)) == expired;
    assert Run(s, [Look(early), Look(late)] + [Act(0), Crash(0), Act(1)]) == expired;
    StaysIncomplete(expired, events);
  }
}
