// The chain and the pipeline together (Log in pkg/audit/audit.go): every event
// moves the chain on, but not every event reaches the table. Calls of Log are
// serialized here, so the chain follows the order in which events are offered.
module AuditTrail {
  import opened Common
  import opened AuditPipeline
  import opened ChainProperties
  import Chain = EvidenceChain

  // ----- What became of the events -----

  /** Events that a step stores in the table. */
  function StoredBy(s: State, a: Step): seq<Event>
    requires Enabled(s, a)
  {
    match a
    case WorkerFlushed(o) => if o == Stored then s.worker.handing else []
    case DrainFlushed(o) => if o == Stored then s.phase.handing else []
    case _ => []
  }

  /** Events that a step keeps from the table: a full queue refuses them, or their batch falls back to the file or is
      lost. */
  function MissedBy(s: State, a: Step): seq<Event>
    requires Enabled(s, a)
  {
    match a
    case Offer(e) => if |s.queue| < s.capacity then [] else [e]
    case WorkerFlushed(o) => if o == Stored then [] else s.worker.handing
    case DrainFlushed(o) => if o == Stored then [] else s.phase.handing
    case _ => []
  }

  /** How many events were offered, which of them were stored, and which never will be. */
  datatype Trail = Trail(offered: nat, stored: seq<Event>, missed: seq<Event>)

  function Extend(t: Trail, s: State, a: Step): Trail
    requires Enabled(s, a)
  {
    Trail(t.offered + if a.Offer? then 1 else 0, t.stored + StoredBy(s, a), t.missed + MissedBy(s, a))
  }

  ghost function TrailAt(run: seq<State>, steps: seq<Step>, i: nat): Trail
    requires IsRun(run, steps) && i <= |steps|
  {
    if i == 0 then Trail(0, [], []) else Extend(TrailAt(run, steps, i - 1), run[i - 1], steps[i - 1])
  }

  /** Events carry their position in the log, and are offered in that order. */
  ghost predicate Serialized(run: seq<State>, steps: seq<Step>)
    requires IsRun(run, steps)
  {
    forall i :: 0 <= i < |steps| && steps[i].Offer? ==> steps[i].e.id == TrailAt(run, steps, i).offered
  }

  /** Events that may still be stored, oldest first. */
  function Waiting(s: State): seq<Event>
  {
    InFlush(s) + Batched(s) + s.queue
  }

  ghost predicate Rising(es: seq<Event>)
  {
    forall i, j :: 0 <= i < j < |es| ==> es[i].id < es[j].id
  }

  /** Of the first `n` events offered, the kept ones are in log order, and all others are missed. */
  ghost predicate Complete(kept: seq<Event>, missed: seq<Event>, n: nat)
  {
    && Rising(kept) && (forall e :: e in missed ==> e.id < n)
    && forall e :: e in kept <==> e.id < n && e !in missed
  }

  /** Kept are the stored events and those waiting behind them. */
  ghost predicate Accounted(t: Trail, s: State)
  {
    Complete(t.stored + Waiting(s), t.missed, t.offered)
  }

  // ----- Every step accounts for the events -----

  lemma OneAccepted(kept: seq<Event>, missed: seq<Event>, e: Event)
    requires Complete(kept, missed, e.id)
    ensures Complete(kept + [e], missed, e.id + 1)
  {
    forall i | 0 <= i < |kept|
      ensures kept[i].id < e.id
    {
      assert kept[i] in kept;
    }
    forall f
      ensures f in kept + [e] <==> f.id < e.id + 1 && f !in missed
    {
      assert f.id == e.id ==> f == e;
    }
  }

  lemma OneRefused(kept: seq<Event>, missed: seq<Event>, e: Event)
    requires Complete(kept, missed, e.id)
    ensures Complete(kept, missed + [e], e.id + 1)
  {
    forall f
      ensures f in kept <==> f.id < e.id + 1 && f !in missed + [e]
    {
      assert f.id == e.id ==> f == e;
    }
  }

  lemma OfferAccounts(t: Trail, s: State, e: Event)
    requires Accounted(t, s) && Enabled(s, Offer(e)) && e.id == t.offered
    ensures Accounted(Extend(t, s, Offer(e)), Apply(s, Offer(e)))
  {
    var kept := t.stored + Waiting(s);
    assert t.stored + [] == t.stored && t.missed + [] == t.missed;
    if |s.queue| < s.capacity {
      OneAccepted(kept, t.missed, e);
      assert t.stored + Waiting(Apply(s, Offer(e))) == kept + [e];
    } else {
      OneRefused(kept, t.missed, e);
    }
  }

  lemma MoveKeepsWaiting(s: State, a: Step)
    requires WellFormed(s) && Enabled(s, a) && !a.Offer? && !IsFlushed(a)
    ensures Waiting(Apply(s, a)) == Waiting(s)
  {
    if a.Receive? || a.DrainTake? {
      assert s.queue == [s.queue[0]] + s.queue[1..];
    }
  }

  /** Moving events between queue, batch and flush changes nothing. */
  lemma MoveAccounts(t: Trail, s: State, a: Step)
    requires WellFormed(s) && Accounted(t, s) && Enabled(s, a) && !a.Offer? && !IsFlushed(a)
    ensures Accounted(Extend(t, s, a), Apply(s, a))
  {
    MoveKeepsWaiting(s, a);
    assert t.stored + [] == t.stored && t.missed + [] == t.missed;
  }

  /** What a flush holds is the oldest of what waits. */
  lemma FlushIsOldest(s: State, a: Step)
    requires WellFormed(s) && Enabled(s, a) && IsFlushed(a)
    ensures Waiting(s) == InFlush(s) + Waiting(Apply(s, a))
    ensures || (StoredBy(s, a) == InFlush(s) && MissedBy(s, a) == [])
            || (StoredBy(s, a) == [] && MissedBy(s, a) == InFlush(s))
  {
    if a.WorkerFlushed? {
      assert s.worker.handing + [] == s.worker.handing;
    } else {
      assert [] + s.phase.handing == s.phase.handing;
    }
  }

  lemma BatchIsApart(before: seq<Event>, batch: seq<Event>, rest: seq<Event>, e: Event)
    requires Rising(before + (batch + rest))
    ensures e in before + rest <==> e in before + (batch + rest) && e !in batch
  {
    var all, m := before + (batch + rest), |before|;
    if e in batch {
      var i :| 0 <= i < |batch| && batch[i] == e;
      assert all[m + i] == e;
      assert forall j :: 0 <= j < m ==> all[j] == before[j];
      assert forall j :: 0 <= j < |rest| ==> all[m + |batch| + j] == rest[j];
    }
  }

  lemma StillRising(before: seq<Event>, batch: seq<Event>, rest: seq<Event>)
    requires Rising(before + (batch + rest))
    ensures Rising(before + rest)
  {
    var all, left, m, k := before + (batch + rest), before + rest, |before|, |batch|;
    assert forall i :: 0 <= i < |left| ==> left[i] == all[if i < m then i else i + k];
  }

  /** A batch taken out of the kept events. */
  lemma BatchMissed(before: seq<Event>, batch: seq<Event>, rest: seq<Event>, missed: seq<Event>, n: nat)
    requires Complete(before + (batch + rest), missed, n)
    ensures Complete(before + rest, missed + batch, n)
  {
    StillRising(before, batch, rest);
    forall e
      ensures e in before + rest <==> e.id < n && e !in missed + batch
      ensures e in batch ==> e.id < n
    {
      BatchIsApart(before, batch, rest, e);
      assert e in batch ==> e in before + (batch + rest);
    }
  }

  lemma FlushAccounts(t: Trail, s: State, a: Step)
    requires WellFormed(s) && Accounted(t, s) && Enabled(s, a) && IsFlushed(a)
    ensures Accounted(Extend(t, s, a), Apply(s, a))
  {
    FlushIsOldest(s, a);
    var batch, rest := InFlush(s), Waiting(Apply(s, a));
    assert t.stored + [] == t.stored && t.missed + [] == t.missed;
    if StoredBy(s, a) == batch && MissedBy(s, a) == [] {
      PlusIsAssociative(t.stored, batch, rest);
    } else {
      BatchMissed(t.stored, batch, rest, t.missed, t.offered);
    }
  }

  lemma StepAccounts(t: Trail, s: State, a: Step)
    requires WellFormed(s) && Accounted(t, s) && Enabled(s, a) && (a.Offer? ==> a.e.id == t.offered)
    ensures Accounted(Extend(t, s, a), Apply(s, a))
  {
    if a.Offer? {
      OfferAccounts(t, s, a.e);
    } else if IsFlushed(a) {
      FlushAccounts(t, s, a);
    } else {
      MoveAccounts(t, s, a);
    }
  }

  /** In every run with serialized calls, at every moment. */
  lemma {:induction false} RunAccounts(run: seq<State>, steps: seq<Step>, i: nat)
    requires IsRun(run, steps) && Init(run[0]) && Serialized(run, steps) && i <= |steps|
    ensures Accounted(TrailAt(run, steps, i), run[i])
  {
    if i > 0 {
      RunAccounts(run, steps, i - 1);
      RunKeepsInvariant(run, steps, i - 1);
      StepAccounts(TrailAt(run, steps, i - 1), run[i - 1], steps[i - 1]);
    }
  }

  // ----- Which stored events the chain check accepts -----

  /** The positions of the stored events of a key, in log order. */
  ghost predicate ListsStored(events: seq<Chain.Event>, t: Trail, idx: seq<nat>, key: string)
  {
    Ascending(idx) && forall p: nat :: p in idx <==>
      p < |events| && Event(p) in t.stored && Chain.SessionKey(events[p]) == key
  }

  /** No event of the key was missed between the two positions. */
  ghost predicate NoneMissed(events: seq<Chain.Event>, t: Trail, lo: nat, hi: nat, key: string)
    requires hi <= |events|
  {
    forall p :: lo < p < hi && Event(p) in t.missed ==> Chain.SessionKey(events[p]) != key
  }

  lemma StoredAreOfKey(events: seq<Chain.Event>, t: Trail, idx: seq<nat>, key: string)
    requires ListsStored(events, t, idx, key)
    ensures Within(events, idx) && OfKey(events, idx, key)
  {
    assert forall k :: 0 <= k < |idx| ==> idx[k] in idx;
  }

  /** What lies before a stored event is stored or missed. */
  lemma BeforeStored(t: Trail, s: State, p: nat, q: nat)
    requires Accounted(t, s) && Event(q) in t.stored && p < q
    ensures Event(p) in t.stored || Event(p) in t.missed
  {
    var kept := t.stored + Waiting(s);
    var j :| 0 <= j < |t.stored| && t.stored[j] == Event(q);
    assert kept[j] == Event(q) && Event(q) in kept;
    if Event(p) !in t.missed {
      assert Event(p) in kept;
      var i :| 0 <= i < |kept| && kept[i] == Event(p);
      assert i < j;
      assert t.stored[i] == Event(p);
    }
  }

  lemma GapIsMissed(events: seq<Chain.Event>, t: Trail, s: State, idx: seq<nat>, key: string, k: nat)
    requires Accounted(t, s) && ListsStored(events, t, idx, key) && Within(events, idx) && 1 <= k < |idx|
    ensures NoneOfKey(events, idx[k - 1], idx[k], key) <==> NoneMissed(events, t, idx[k - 1], idx[k], key)
  {
    forall p: nat | idx[k - 1] < p < idx[k] && Chain.SessionKey(events[p]) == key
      ensures Event(p) in t.missed
    {
      if p in idx {
        NotBetweenNeighbours(idx, k, p);
      }
      assert idx[k] in idx;
      BeforeStored(t, s, p, idx[k]);
    }
  }

  /**
    * At every moment of a run, the stored events of one key pass the check in
    * log order exactly when none of that key was refused, fell back or was
    * lost between two of them.
    */
  lemma StoredAcceptedIff(run: seq<State>, steps: seq<Step>, i: nat,
                          events: seq<Chain.Event>, idx: seq<nat>, key: string)
    requires IsRun(run, steps) && Init(run[0]) && Serialized(run, steps) && i <= |steps|
    requires IsLog(events) && ListsStored(events, TrailAt(run, steps, i), idx, key)
    ensures Within(events, idx)
    ensures Chain.LinksHold(Chain.Records(Picked(events, idx))) <==>
      forall k :: 1 <= k < |idx| ==> NoneMissed(events, TrailAt(run, steps, i), idx[k - 1], idx[k], key)
  {
    var t := TrailAt(run, steps, i);
    RunAccounts(run, steps, i);
    StoredAreOfKey(events, t, idx, key);
    KeyAcceptedIff(events, idx, key);
    forall k | 1 <= k < |idx|
      ensures NoneOfKey(events, idx[k - 1], idx[k], key) <==> NoneMissed(events, t, idx[k - 1], idx[k], key)
    {
      GapIsMissed(events, t, run[i], idx, key, k);
    }
  }
}
