/** One broadcast campaign: the batched snapshot of its recipients, and the confirmations that
    put one message per recipient in the outbox. */
module Broadcast {
  import opened Text
  import opened Canonical
  import opened Ordering

  type UserId = nat

  const PREPARE_BATCH: nat := 250
  const QUEUE_BATCH: nat := 250

  /* ---------- keyset batches ---------- */

  /** A table in primary-key order. */
  predicate Ascending(ids: seq<UserId>) {
    (forall i, j :: 0 <= i < j < |ids| ==> ids[i] < ids[j]) && (|ids| > 0 ==> ids[0] > 0)
  }

  /** WHERE id > last. */
  function After(ids: seq<UserId>, last: nat): seq<UserId> {
    if |ids| == 0 then [] else (if ids[0] > last then [ids[0]] else []) + After(ids[1..], last)
  }

  /** WHERE id <= upper. */
  function UpTo(ids: seq<UserId>, upper: nat): seq<UserId> {
    if |ids| == 0 then [] else (if ids[0] <= upper then [ids[0]] else []) + UpTo(ids[1..], upper)
  }

  /** The key a scan has reached after n rows. */
  predicate Reached(ids: seq<UserId>, n: nat, last: nat) {
    n <= |ids| && last == if n == 0 then 0 else ids[n - 1]
  }

  lemma {:induction false} AfterDrops(ids: seq<UserId>, n: nat, last: nat)
    requires forall i, j :: 0 <= i < j < |ids| ==> ids[i] < ids[j]
    requires n <= |ids| && (n > 0 ==> ids[n - 1] <= last) && (n < |ids| ==> last < ids[n])
    ensures After(ids, last) == ids[n..]
  {
    if |ids| > 0 {
      AfterDrops(ids[1..], if n == 0 then 0 else n - 1, last);
    }
  }

  /** What is left of a scan. */
  lemma NextBatch(ids: seq<UserId>, n: nat, last: nat)
    requires Ascending(ids) && Reached(ids, n, last)
    ensures After(ids, last) == ids[n..]
  {
    AfterDrops(ids, n, last);
  }

  /** INSERT ... ON CONFLICT DO NOTHING, row by row. */
  function InsertMissing(rows: seq<UserId>, ids: seq<UserId>): (r: seq<UserId>)
    ensures |rows| <= |r|
    decreases |ids|
  {
    if |ids| == 0 then rows
    else InsertMissing(if ids[0] in rows then rows else rows + [ids[0]], ids[1..])
  }

  lemma {:induction false} InsertMissingAdds(rows: seq<UserId>, ids: seq<UserId>)
    requires Distinct(rows)
    ensures Distinct(InsertMissing(rows, ids))
    ensures forall x :: x in InsertMissing(rows, ids) <==> x in rows || x in ids
    decreases |ids|
  {
    if |ids| > 0 {
      assert forall x :: x in ids <==> x == ids[0] || x in ids[1..];
      InsertMissingAdds(if ids[0] in rows then rows else rows + [ids[0]], ids[1..]);
    }
  }

  lemma {:induction false} InsertNew(rows: seq<UserId>, ids: seq<UserId>)
    requires Distinct(ids) && forall x :: x in ids ==> x !in rows
    ensures InsertMissing(rows, ids) == rows + ids
    decreases |ids|
  {
    if |ids| > 0 {
      assert ids[0] in ids;
      assert forall x :: x in ids[1..] ==> x in ids && x != ids[0];
      InsertNew(rows + [ids[0]], ids[1..]);
      assert rows + [ids[0]] + ids[1..] == rows + ids;
    } else {
      assert rows + ids == rows;
    }
  }

  /* ---------- preparing ---------- */

  datatype CampaignState = Preparing | Empty | AwaitingConfirmation | Queueing | Queued | Expired | Failed

  /** Users keep their Telegram id. */
  function Matching(ids: seq<UserId>, matches: UserId -> bool): (r: seq<UserId>)
    ensures forall x :: x in r <==> x in ids && matches(x)
    ensures |r| <= |ids|
  {
    if |ids| == 0 then []
    else
      var rest := Matching(ids[1..], matches);
      assert forall x :: x in ids <==> x == ids[0] || x in ids[1..];
      if matches(ids[0]) then [ids[0]] + rest else rest
  }

  lemma {:induction false} MatchingAppend(a: seq<UserId>, b: seq<UserId>, matches: UserId -> bool)
    ensures Matching(a + b, matches) == Matching(a, matches) + Matching(b, matches)
  {
    if |a| == 0 {
      assert a + b == b;
    } else {
      assert (a + b)[1..] == a[1..] + b;
      MatchingAppend(a[1..], b, matches);
    }
  }

  lemma {:induction false} MatchingAscending(ids: seq<UserId>, matches: UserId -> bool)
    requires Ascending(ids)
    ensures Ascending(Matching(ids, matches))
  {
    if |ids| > 0 {
      assert Ascending(ids[1..]);
      MatchingAscending(ids[1..], matches);
      var rest := Matching(ids[1..], matches);
      forall i | 0 <= i < |rest| ensures ids[0] < rest[i] {
        assert rest[i] in ids[1..];
      }
    }
  }

  lemma {:induction false} UpToAll(ids: seq<UserId>, upper: nat)
    requires forall i :: 0 <= i < |ids| ==> ids[i] <= upper
    ensures UpTo(ids, upper) == ids
  {
    if |ids| > 0 {
      UpToAll(ids[1..], upper);
    }
  }

  lemma {:induction false} UpToMembers(ids: seq<UserId>, upper: nat)
    ensures forall x :: x in UpTo(ids, upper) <==> x in ids && x <= upper
  {
    if |ids| > 0 {
      assert forall x :: x in ids <==> x == ids[0] || x in ids[1..];
      UpToMembers(ids[1..], upper);
    }
  }

  function Maximum(ids: seq<UserId>): nat {
    if |ids| == 0 then 0 else ids[|ids| - 1]
  }

  /** The targets of a batch are new to the targets before it. */
  lemma PrefixAscending(users: seq<UserId>, n: nat, k: nat, matches: UserId -> bool)
    requires Ascending(users) && n + k <= |users|
    ensures Distinct(Matching(users[n..n + k], matches))
    ensures forall x :: x in Matching(users[n..n + k], matches) ==> x !in Matching(users[..n], matches)
  {
    if k > 0 {
      assert users[n..n + k][0] > 0;
    }
    MatchingAscending(users[n..n + k], matches);
  }

  /** One batch: the scan moves past its rows, ... */
  lemma BatchRows(users: seq<UserId>, n: nat, last: nat, limit: nat)
    requires Ascending(users) && Reached(users, n, last) && limit > 0
    ensures
      var rows := Take(After(users, last), limit);
      && n + |rows| <= |users| && rows == users[n..n + |rows|] && (|rows| == 0 ==> n == |users|)
      && (|rows| > 0 ==> Reached(users, n + |rows|, rows[|rows| - 1]) && last < rows[|rows| - 1])
  {
    NextBatch(users, n, last);
    assert Take(users[n..], limit) == if |users| - n <= limit then users[n..|users|] else users[n..n + limit];
  }

  /** ... and exactly their targets are added. */
  lemma BatchTargets(users: seq<UserId>, n: nat, k: nat, matches: UserId -> bool)
    requires Ascending(users) && n + k <= |users|
    ensures InsertMissing(Matching(users[..n], matches), Matching(users[n..n + k], matches))
         == Matching(users[..n + k], matches)
  {
    assert users[..n] + users[n..n + k] == users[..n + k];
    MatchingAppend(users[..n], users[n..n + k], matches);
    PrefixAscending(users, n, k, matches);
    InsertNew(Matching(users[..n], matches), Matching(users[n..n + k], matches));
  }

  lemma ReachedEnd(users: seq<UserId>, n: nat, last: nat)
    requires Ascending(users) && Reached(users, n, last)
    ensures last >= Maximum(users) ==> n == |users|
  {
  }

  /** One keyset query: WHERE id > last ORDER BY id LIMIT limit. */
  method NextRows(table: seq<UserId>, last: nat, limit: nat, ghost n: nat) returns (rows: seq<UserId>)
    requires Ascending(table) && Reached(table, n, last) && limit > 0
    ensures n + |rows| <= |table| && rows == table[n..n + |rows|] && (|rows| == 0 ==> n == |table|)
    ensures |rows| > 0 ==> Reached(table, n + |rows|, rows[|rows| - 1]) && last < rows[|rows| - 1]
  {
    rows := Take(After(table, last), limit);
    BatchRows(table, n, last, limit);
  }

  /** The batches of a preparation.  seen(k) is the user table as the k-th batch sees it; users
      who register meanwhile get ids above the bound. */
  method CollectTargets(seen: nat -> seq<UserId>, matches: UserId -> bool)
    returns (collected: seq<UserId>, count: nat)
    requires Ascending(seen(0))
    requires forall k :: UpTo(seen(k), Maximum(seen(0))) == seen(0)
    ensures collected == Matching(seen(0), matches) && count == |collected|
  {
    var upper := Maximum(seen(0));
    var last: nat, batch: nat := 0, 0;
    ghost var users: seq<UserId>, n: nat := seen(0), 0;
    collected, count := [], 0;
    while last < upper
      invariant Reached(users, n, last)
      invariant collected == Matching(users[..n], matches) && count == |collected|
      decreases upper - last
    {
      assert UpTo(seen(batch), upper) == users;
      var rows := NextRows(UpTo(seen(batch), upper), last, PREPARE_BATCH, n);
      if |rows| == 0 {
        break;
      }
      BatchTargets(users, n, |rows|, matches);
      var inserted := InsertMissing(collected, Matching(rows, matches));
      count := count + (|inserted| - |collected|);
      collected, last, batch, n := inserted, rows[|rows| - 1], batch + 1, n + |rows|;
    }
    ReachedEnd(users, n, last);
    assert users[..|users|] == users;
  }

  class Campaign {
    var state: CampaignState
    var recipients: seq<UserId>
    var targetCount: nat
    var outbox: seq<UserId>
    var queuedCount: nat
    var expiresAt: Time

    ghost predicate Valid()
      reads this
    {
      Distinct(outbox) && (forall x :: x in outbox ==> x in recipients)
      && Ascending(recipients) && targetCount == |recipients|
      && (outbox != [] ==> state.Queueing? || state.Queued?)
      && (state.Queued? ==> |outbox| == targetCount == queuedCount)
    }

    /** Snapshots the recipients: everyone who matches and was registered when it began. */
    constructor Prepare(seen: nat -> seq<UserId>, matches: UserId -> bool, deadline: Time)
      requires Ascending(seen(0))
      requires forall k :: UpTo(seen(k), Maximum(seen(0))) == seen(0)
      ensures Valid()
      ensures recipients == Matching(seen(0), matches)
      ensures targetCount == |Matching(seen(0), matches)| && outbox == []
      ensures state == if targetCount > 0 then AwaitingConfirmation else Empty
      ensures expiresAt == deadline
    {
      var collected, count := CollectTargets(seen, matches);
      recipients, targetCount := collected, count;
      outbox, queuedCount, expiresAt := [], 0, deadline;
      MatchingAscending(seen(0), matches);
      state := if count > 0 then AwaitingConfirmation else Empty;
    }

    /** One uninterrupted confirmation. */
    method ConfirmAndEnqueue(now: Time) returns (result: EnqueueResult)
      requires Valid()
      modifies this
      ensures Valid() && recipients == old(recipients)
      ensures old(state).Queueing? || (old(state).AwaitingConfirmation? && now < expiresAt) ==>
                && state.Queued? && (forall x :: x in recipients ==> x in outbox)
                && |old(outbox)| <= |outbox|
                && result == Enqueued(targetCount, |outbox| - |old(outbox)|, |old(outbox)|)
      ensures old(state).AwaitingConfirmation? && expiresAt <= now ==>
                state.Expired? && outbox == old(outbox) && result == Refused("confirmation_token_expired")
      ensures old(state).Queued? ==>
                state.Queued? && outbox == old(outbox) && result == Enqueued(targetCount, 0, targetCount)
      ensures old(state).Preparing? || old(state).Empty? || old(state).Expired? || old(state).Failed? ==>
                state == old(state) && outbox == old(outbox) && result.Refused?
    {
      if state.AwaitingConfirmation? && expiresAt <= now {
        state := Expired;
        return Refused("confirmation_token_expired");
      }
      if state.Empty? {
        return Refused("campaign_has_no_recipients");
      }
      if state.Preparing? {
        return Refused("campaign_still_preparing");
      }
      if state.Expired? || state.Failed? {
        return Refused("campaign_not_confirmable");
      }
      if state.Queued? {
        return Enqueued(targetCount, 0, queuedCount);
      }
      state := Queueing;
      var newlyQueued := EnqueueRecipients();
      SameMembers(outbox, recipients);
      queuedCount := |outbox|;
      state := Queued;
      return Enqueued(targetCount, newlyQueued, targetCount - newlyQueued);
    }

    /** The batches of a confirmation. */
    method EnqueueRecipients() returns (newlyQueued: nat)
      requires Ascending(recipients) && Distinct(outbox) && forall x :: x in outbox ==> x in recipients
      modifies this`outbox
      ensures Distinct(outbox) && (forall x :: x in outbox <==> x in recipients)
      ensures |old(outbox)| + newlyQueued == |outbox|
    {
      newlyQueued := 0;
      var last: nat := 0;
      ghost var n: nat := 0;
      while true
        invariant Reached(recipients, n, last)
        invariant Distinct(outbox) && (forall x :: x in outbox ==> x in recipients)
        invariant forall i :: 0 <= i < n ==> recipients[i] in outbox
        invariant |old(outbox)| + newlyQueued == |outbox|
        decreases |recipients| - n
      {
        var rows := NextRows(recipients, last, QUEUE_BATCH, n);
        if |rows| == 0 {
          break;
        }
        last := rows[|rows| - 1];
        InsertMissingAdds(outbox, rows);
        var inserted := InsertMissing(outbox, rows);
        newlyQueued := newlyQueued + (|inserted| - |outbox|);
        outbox := inserted;
        assert forall i :: n <= i < n + |rows| ==> recipients[i] == rows[i - n];
        n := n + |rows|;
      }
    }
  }

  datatype EnqueueResult = Enqueued(target: nat, newlyQueued: nat, alreadyQueued: int) | Refused(code: string)

  lemma {:induction false} CountElements(s: seq<UserId>)
    requires Distinct(s)
    ensures |Elements(s)| == |s|
  {
    if |s| > 0 {
      assert s == [s[0]] + s[1..];
      ElementsCons(s[0], s[1..]);
      HeadOnce(s);
      CountElements(s[1..]);
    }
  }

  lemma InElements(s: seq<UserId>, x: UserId)
    ensures x in Elements(s) <==> x in s
  {
  }

  /** Two lists without repetition that have the same members are equally long. */
  lemma SameMembers(a: seq<UserId>, b: seq<UserId>)
    requires Distinct(a) && Distinct(b) && forall x :: x in a <==> x in b
    ensures |a| == |b|
  {
    CountElements(a);
    CountElements(b);
    forall x ensures x in Elements(a) <==> x in Elements(b) {
      InElements(a, x);
      InElements(b, x);
    }
    assert Elements(a) == Elements(b);
  }
}
