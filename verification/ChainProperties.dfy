// What the link check of VerifyChain accepts, and what an accepted list binds.
module ChainProperties {
  import opened Common
  import opened ContentHash
  import opened EvidenceChain

  // ----- Sessions do not affect each other -----

  /** The content hashes logged under `key` before position `i`. */
  ghost function SessionContents(log: seq<Record>, i: nat, key: string): seq<Digest>
    requires i <= |log|
  {
    if i == 0 then []
    else if log[i - 1].key == key then SessionContents(log, i - 1, key) + [log[i - 1].content]
    else SessionContents(log, i - 1, key)
  }

  /** The chain hash after the contents `cs`. */
  ghost function Fold(cs: seq<Digest>): HashText
  {
    if cs == [] then [] else ChainHash(Fold(cs[..|cs| - 1]), cs[|cs| - 1])
  }

  /** The last hash of a session depends on the contents logged under its key alone. */
  lemma {:induction false} LastHashIsFold(log: seq<Record>, i: nat, key: string)
    requires IsChained(log) && i <= |log|
    ensures PrevHash(log, i, key) == Fold(SessionContents(log, i, key))
  {
    if i > 0 {
      LastHashIsFold(log, i - 1, key);
      if log[i - 1].key == key {
        assert ChainedAt(log, i - 1);
        var cs := SessionContents(log, i - 1, key);
        assert (cs + [log[i - 1].content])[..|cs|] == cs;
      }
    }
  }

  // ----- Chain hashes tell events apart -----

  /** Equal content hashes come from the same session. */
  ghost predicate ContentTellsKey(log: seq<Record>)
  {
    forall i, j :: 0 <= i < |log| && 0 <= j < |log| && log[i].content == log[j].content ==> log[i].key == log[j].key
  }

  lemma ContentDigestIsInjective(e: Event, f: Event)
    requires NulFreeContent(e.content) && NulFreeContent(f.content) && ContentDigest(e) == ContentDigest(f)
    ensures e.content == f.content
  {
    PlainTextIsInjective(ContentStream(e.content), ContentStream(f.content));
    ContentIsUnique(e.content, f.content);
  }

  lemma {:induction false} NulFreeTellsKey(events: seq<Event>)
    requires forall i :: 0 <= i < |events| ==> NulFreeContent(events[i].content)
    ensures ContentTellsKey(Records(events))
  {
    var log := Records(events);
    forall i, j | 0 <= i < |log| && 0 <= j < |log| && log[i].content == log[j].content
      ensures log[i].key == log[j].key
    {
      RecordAt(events, i);
      RecordAt(events, j);
      ContentDigestIsInjective(events[i], events[j]);
    }
  }

  /** How many hashes are nested in a chain hash. */
  ghost function DigestDepth(d: Digest): nat
  {
    if |d.preimage| == 2 && d.preimage[0].Hex? then 1 + DigestDepth(d.preimage[0].d) else 1
  }

  ghost function Depth(h: HashText): nat
  {
    if |h| == 1 && h[0].Hex? then DigestDepth(h[0].d) else 0
  }

  lemma ChainHashDepth(prev: HashText, c: Digest)
    requires prev == [] || (|prev| == 1 && prev[0].Hex?)
    ensures Depth(ChainHash(prev, c)) == Depth(prev) + 1
  {
    assert ChainHash(prev, c)[0].d.preimage == prev + [Hex(c)];
  }

  lemma ChainHashIsInjective(p: HashText, c: Digest, q: HashText, d: Digest)
    requires ChainHash(p, c) == ChainHash(q, d)
    ensures p == q && c == d
  {
    var x, y := p + [Hex(c)], q + [Hex(d)];
    assert ChainHash(p, c)[0] == Hex(Sha256(x)) && ChainHash(q, d)[0] == Hex(Sha256(y));
    assert x == y;
    assert x[|x| - 1] == y[|y| - 1] && x[..|x| - 1] == p && y[..|y| - 1] == q;
  }

  /** How many events of the same key come before. */
  ghost function Rank(log: seq<Record>, i: nat): nat
    requires i < |log|
    decreases i
  {
    var j := LastSame(log, i, log[i].key);
    if j < 0 then 0 else Rank(log, j) + 1
  }

  lemma {:induction false} DepthIsRank(log: seq<Record>, i: nat)
    requires IsChained(log) && i < |log|
    ensures |log[i].hash| == 1 && log[i].hash[0].Hex? && Depth(log[i].hash) == Rank(log, i) + 1
    decreases i
  {
    assert ChainedAt(log, i);
    var j := LastSame(log, i, log[i].key);
    if j >= 0 {
      DepthIsRank(log, j);
    }
    ChainHashDepth(PrevHash(log, i, log[i].key), log[i].content);
  }

  lemma {:induction false} RankGrows(log: seq<Record>, k: nat, i: nat)
    requires k < i < |log| && log[k].key == log[i].key
    ensures Rank(log, k) < Rank(log, i)
    decreases i
  {
    var j := LastSame(log, i, log[i].key);
    if k < j {
      RankGrows(log, k, j);
    }
  }

  /** No two events of one session have the same chain hash. */
  lemma SessionHashesDiffer(log: seq<Record>, k: nat, i: nat)
    requires IsChained(log) && k < i < |log| && log[k].key == log[i].key
    ensures log[k].hash != log[i].hash
  {
    RankGrows(log, k, i);
    DepthIsRank(log, k);
    DepthIsRank(log, i);
  }

  /** No two events of a log have the same chain hash, if their contents tell their sessions. */
  lemma HashesDiffer(log: seq<Record>, k: nat, i: nat)
    requires IsChained(log) && ContentTellsKey(log) && k < i < |log|
    ensures log[k].hash != log[i].hash
  {
    if log[k].key == log[i].key {
      SessionHashesDiffer(log, k, i);
    } else if log[k].hash == log[i].hash {
      assert ChainedAt(log, k) && ChainedAt(log, i);
      ChainHashIsInjective(PrevHash(log, k, log[k].key), log[k].content, PrevHash(log, i, log[i].key), log[i].content);
    }
  }

  // ----- What the check accepts -----

  /** A link comes from the event whose hash the second one was built on. */
  lemma LinkMeansSameHash(log: seq<Record>, i: nat, j: nat)
    requires IsChained(log) && i < |log| && j < |log|
    ensures var k := LastSame(log, j, log[j].key);
      Link(log[i], log[j]) <==> k >= 0 && log[i].hash == log[k].hash
  {
    assert ChainedAt(log, j);
    if Link(log[i], log[j]) {
      ChainHashIsInjective(log[i].hash, log[j].content, PrevHash(log, j, log[j].key), log[j].content);
      DepthIsRank(log, i);
    }
  }

  /** Within a session a link holds exactly from an event to the next one. */
  lemma LinkIffNext(log: seq<Record>, i: nat, j: nat)
    requires IsChained(log) && i < |log| && j < |log| && log[i].key == log[j].key
    ensures Link(log[i], log[j]) <==> i == LastSame(log, j, log[j].key)
  {
    LinkMeansSameHash(log, i, j);
    var k := LastSame(log, j, log[j].key);
    if k >= 0 && k < i {
      SessionHashesDiffer(log, k, i);
    } else if i < k {
      SessionHashesDiffer(log, i, k);
    }
  }

  /** In the whole log a link holds exactly from an event to the next one of its session. */
  lemma LinkIffNextInSession(log: seq<Record>, i: nat, j: nat)
    requires IsChained(log) && ContentTellsKey(log) && i < |log| && j < |log|
    ensures Link(log[i], log[j]) <==> i == LastSame(log, j, log[j].key)
  {
    LinkMeansSameHash(log, i, j);
    var k := LastSame(log, j, log[j].key);
    if k >= 0 && k < i {
      HashesDiffer(log, k, i);
    } else if i < k {
      HashesDiffer(log, i, k);
    }
  }

  /** The records at the positions `idx`, in that order. */
  ghost function Selected(log: seq<Record>, idx: seq<nat>): (r: seq<Record>)
    requires forall t :: 0 <= t < |idx| ==> idx[t] < |log|
    ensures |r| == |idx| && forall t :: 0 <= t < |idx| ==> r[t] == log[idx[t]]
  {
    seq(|idx|, t requires 0 <= t < |idx| => log[idx[t]])
  }

  ghost predicate Positions(log: seq<Record>, idx: seq<nat>)
  {
    forall t :: 0 <= t < |idx| ==> idx[t] < |log|
  }

  /** A list of logged events is accepted exactly when each is followed by the next event of that one's session. */
  lemma AcceptedIffConsecutive(log: seq<Record>, idx: seq<nat>)
    requires IsChained(log) && ContentTellsKey(log) && Positions(log, idx)
    ensures LinksHold(Selected(log, idx)) <==>
      forall t :: 1 <= t < |idx| ==> idx[t - 1] == LastSame(log, idx[t], log[idx[t]].key)
  {
    forall t | 1 <= t < |idx|
      ensures Link(Selected(log, idx)[t - 1], Selected(log, idx)[t]) <==>
              idx[t - 1] == LastSame(log, idx[t], log[idx[t]].key)
    {
      LinkIffNextInSession(log, idx[t - 1], idx[t]);
    }
  }

  ghost predicate Ascending(idx: seq<nat>)
  {
    forall s, t :: 0 <= s < t < |idx| ==> idx[s] < idx[t]
  }

  ghost predicate Descending(idx: seq<nat>)
  {
    forall s, t :: 0 <= s < t < |idx| ==> idx[s] > idx[t]
  }

  /** No event of `key` lies strictly between the two positions. */
  ghost predicate NoneBetween(log: seq<Record>, lo: nat, hi: nat, key: string)
    requires hi <= |log|
  {
    forall p :: lo < p < hi ==> log[p].key != key
  }

  /**
    * Events of one key in the order they were logged are accepted exactly when
    * none of that key is missing between the first and the last.
    */
  lemma AcceptedIffNoneMissing(log: seq<Record>, idx: seq<nat>, key: string)
    requires IsChained(log) && Positions(log, idx) && Ascending(idx)
    requires forall t :: 0 <= t < |idx| ==> log[idx[t]].key == key
    ensures LinksHold(Selected(log, idx)) <==> forall t :: 1 <= t < |idx| ==> NoneBetween(log, idx[t - 1], idx[t], key)
  {
    forall t | 1 <= t < |idx|
      ensures Link(Selected(log, idx)[t - 1], Selected(log, idx)[t]) <==> NoneBetween(log, idx[t - 1], idx[t], key)
    {
      assert idx[t - 1] < idx[t] && log[idx[t - 1]].key == key;
      LinkIffNext(log, idx[t - 1], idx[t]);
      assert LastSame(log, idx[t], key) >= idx[t - 1];
    }
  }

  lemma NotBetweenNeighbours(idx: seq<nat>, t: nat, p: nat)
    requires Ascending(idx) && 1 <= t < |idx| && p in idx
    ensures !(idx[t - 1] < p < idx[t])
  {
    var u :| 0 <= u < |idx| && idx[u] == p;
    assert u < t - 1 ==> idx[u] < idx[t - 1];
    assert u > t ==> idx[u] > idx[t];
  }

  /** All events of one key, in the order they were logged, are accepted. */
  lemma WholeSessionAccepted(log: seq<Record>, idx: seq<nat>, key: string)
    requires IsChained(log) && Positions(log, idx) && Ascending(idx)
    requires forall p: nat :: p in idx <==> p < |log| && log[p].key == key
    ensures LinksHold(Selected(log, idx))
  {
    forall t | 0 <= t < |idx| ensures log[idx[t]].key == key {
      assert idx[t] in idx;
    }
    forall t | 1 <= t < |idx| ensures NoneBetween(log, idx[t - 1], idx[t], key) {
      forall p | idx[t - 1] < p < idx[t] ensures log[p].key != key {
        if log[p].key == key {
          NotBetweenNeighbours(idx, t, p);
        }
      }
    }
    AcceptedIffNoneMissing(log, idx, key);
  }

  /** The whole log, of all sessions, is accepted exactly when it belongs to a single key. */
  lemma WholeLogAcceptedIffOneSession(log: seq<Record>)
    requires IsChained(log) && ContentTellsKey(log)
    ensures LinksHold(log) <==> forall i, j :: 0 <= i < |log| && 0 <= j < |log| ==> log[i].key == log[j].key
  {
    forall i | 1 <= i < |log| ensures Link(log[i - 1], log[i]) <==> log[i - 1].key == log[i].key {
      LinkIffNextInSession(log, i - 1, i);
    }
    if LinksHold(log) {
      forall i: nat, j: nat | i < |log| && j < |log| ensures log[i].key == log[j].key {
        KeysAreEqual(log, i);
        KeysAreEqual(log, j);
      }
    }
  }

  lemma {:induction false} KeysAreEqual(log: seq<Record>, i: nat)
    requires i < |log| && forall j :: 1 <= j < |log| ==> log[j - 1].key == log[j].key
    ensures log[i].key == log[0].key
  {
    if i > 0 {
      KeysAreEqual(log, i - 1);
    }
  }

  /** Read newest first, logged events are accepted only if there are fewer than two of them. */
  lemma NewestFirstIsRejected(log: seq<Record>, idx: seq<nat>)
    requires IsChained(log) && ContentTellsKey(log) && Positions(log, idx) && Descending(idx)
    ensures LinksHold(Selected(log, idx)) <==> |idx| < 2
  {
    AcceptedIffConsecutive(log, idx);
    if |idx| >= 2 {
      assert idx[0] > idx[1];
    }
  }

  // ----- The same for events -----

  /** Events as they were logged, in order. */
  ghost predicate IsLog(events: seq<Event>)
  {
    IsChained(Records(events))
  }

  ghost predicate Within(events: seq<Event>, idx: seq<nat>)
  {
    forall t :: 0 <= t < |idx| ==> idx[t] < |events|
  }

  /** The events at the positions `idx`, in that order. */
  ghost function Picked(events: seq<Event>, idx: seq<nat>): (r: seq<Event>)
    requires Within(events, idx)
    ensures |r| == |idx| && forall t :: 0 <= t < |idx| ==> r[t] == events[idx[t]]
  {
    seq(|idx|, t requires 0 <= t < |idx| => events[idx[t]])
  }

  lemma RecordsOfPicked(events: seq<Event>, idx: seq<nat>)
    requires Within(events, idx)
    ensures Positions(Records(events), idx) && Records(Picked(events, idx)) == Selected(Records(events), idx)
  {
    forall t | 0 <= t < |idx|
      ensures Records(Picked(events, idx))[t] == Selected(Records(events), idx)[t]
    {
      RecordAt(Picked(events, idx), t);
      RecordAt(events, idx[t]);
    }
  }

  /** All these events are chained under the key `s`. */
  ghost predicate OfKey(events: seq<Event>, idx: seq<nat>, s: string)
    requires Within(events, idx)
  {
    forall t :: 0 <= t < |idx| ==> SessionKey(events[idx[t]]) == s
  }

  /** No event chained under the key `s` was logged between the two positions. */
  ghost predicate NoneOfKey(events: seq<Event>, lo: nat, hi: nat, s: string)
    requires hi <= |events|
  {
    forall p :: lo < p < hi ==> SessionKey(events[p]) != s
  }

  /** Events chained under one key, in the order they were logged, are accepted exactly when none between them is
      left out. */
  lemma KeyAcceptedIff(events: seq<Event>, idx: seq<nat>, s: string)
    requires IsLog(events) && Within(events, idx) && Ascending(idx) && OfKey(events, idx, s)
    ensures LinksHold(Records(Picked(events, idx))) <==>
            forall t :: 1 <= t < |idx| ==> NoneOfKey(events, idx[t - 1], idx[t], s)
  {
    var log := Records(events);
    RecordsOfPicked(events, idx);
    forall p | 0 <= p < |events|
      ensures log[p].key == SessionKey(events[p])
    {
      RecordAt(events, p);
    }
    AcceptedIffNoneMissing(log, idx, s);
    forall t | 1 <= t < |idx|
      ensures NoneBetween(log, idx[t - 1], idx[t], s) <==> NoneOfKey(events, idx[t - 1], idx[t], s)
    {
      SameGap(events, idx[t - 1], idx[t], s);
    }
  }

  lemma SameGap(events: seq<Event>, lo: nat, hi: nat, s: string)
    requires hi <= |events| && forall p :: 0 <= p < |events| ==> Records(events)[p].key == SessionKey(events[p])
    ensures NoneBetween(Records(events), lo, hi, s) <==> NoneOfKey(events, lo, hi, s)
  {
  }

  /** The positions of the events that the list of session `s` shows, in log order. */
  ghost predicate ListsSession(events: seq<Event>, idx: seq<nat>, s: string)
  {
    Ascending(idx) && forall p: nat :: p in idx <==> p < |events| && events[p].content.sessionId == Some(s)
  }

  /** An event without a session, or with an empty one. */
  ghost predicate Unnamed(e: Event)
  {
    e.content.sessionId == None || e.content.sessionId == Some("")
  }

  lemma ListedOfKey(events: seq<Event>, idx: seq<nat>, s: string)
    requires ListsSession(events, idx, s) && s != ""
    ensures Within(events, idx) && OfKey(events, idx, s)
  {
    assert forall t :: 0 <= t < |idx| ==> idx[t] in idx;
  }

  /** No event without a session was logged between the two positions. */
  ghost predicate NoneUnnamed(events: seq<Event>, lo: nat, hi: nat)
    requires hi <= |events|
  {
    forall p :: lo < p < hi ==> !Unnamed(events[p])
  }

  /** What a session's list leaves out between two of its events shares its key without naming it. */
  lemma SkippedIsUnnamed(events: seq<Event>, idx: seq<nat>, s: string, t: nat)
    requires ListsSession(events, idx, s) && Within(events, idx) && s != "" && 1 <= t < |idx|
    ensures NoneOfKey(events, idx[t - 1], idx[t], s) <==> s != "global" || NoneUnnamed(events, idx[t - 1], idx[t])
  {
    forall p | idx[t - 1] < p < idx[t]
      ensures SessionKey(events[p]) == s <==> s == "global" && Unnamed(events[p])
    {
      if p in idx {
        NotBetweenNeighbours(idx, t, p);
      }
    }
  }

  /**
    * All events of a named session, in the order they were logged, are
    * accepted exactly when the session is not called "global" or no event
    * without a session was logged between two of them.
    */
  lemma SessionEventsAcceptedIff(events: seq<Event>, idx: seq<nat>, s: string)
    requires IsLog(events) && s != "" && ListsSession(events, idx, s)
    ensures Within(events, idx)
    ensures LinksHold(Records(Picked(events, idx))) <==>
            s != "global" || forall t :: 1 <= t < |idx| ==> NoneUnnamed(events, idx[t - 1], idx[t])
  {
    ListedOfKey(events, idx, s);
    KeyAcceptedIff(events, idx, s);
    forall t | 1 <= t < |idx|
      ensures NoneOfKey(events, idx[t - 1], idx[t], s) <==> s != "global" || NoneUnnamed(events, idx[t - 1], idx[t])
    {
      SkippedIsUnnamed(events, idx, s, t);
    }
  }

  /** Newest first, as VerifyChain reads them, the events of one key are accepted only if there are fewer than two. */
  lemma NewestFirstSessionRejected(events: seq<Event>, idx: seq<nat>, s: string)
    requires IsLog(events) && Within(events, idx) && Descending(idx) && OfKey(events, idx, s)
    ensures LinksHold(Records(Picked(events, idx))) <==> |idx| < 2
  {
    RecordsOfPicked(events, idx);
    if |idx| >= 2 {
      var log := Records(events);
      RecordAt(events, idx[0]);
      RecordAt(events, idx[1]);
      LinkIffNext(log, idx[0], idx[1]);
      assert !Link(Selected(log, idx)[0], Selected(log, idx)[1]);
    }
  }

  /** So are those of all sessions together, if no text of them holds a NUL. */
  lemma NewestFirstEventsRejected(events: seq<Event>, idx: seq<nat>)
    requires IsLog(events) && (forall i :: 0 <= i < |events| ==> NulFreeContent(events[i].content))
    requires Within(events, idx) && Descending(idx)
    ensures LinksHold(Records(Picked(events, idx))) <==> |idx| < 2
  {
    NulFreeTellsKey(events);
    RecordsOfPicked(events, idx);
    NewestFirstIsRejected(Records(events), idx);
  }

  // ----- Witnesses -----

  /** One more event, chained as it is logged. */
  lemma LogMore(events: seq<Event>, c: Content) returns (e: Event)
    requires IsLog(events)
    ensures IsLog(events + [e]) && e.content == c
  {
    var log, unchained := Records(events), Event(c, None);
    var hash := ChainHash(PrevHash(log, |log|, SessionKey(unchained)), ContentDigest(unchained));
    e := Event(c, Some(hash));
    ChainGrows(log, RecordOf(e));
    assert (events + [e])[..|events|] == events;
  }

  /** Two events of one key: accepted in log order if nothing of that key lies between, never newest first. */
  lemma PairAcceptedIff(events: seq<Event>, i: nat, j: nat)
    requires IsLog(events) && i < j < |events| && SessionKey(events[i]) == SessionKey(events[j])
    ensures LinksHold(Records(Picked(events, [i, j]))) <==> NoneOfKey(events, i, j, SessionKey(events[i]))
    ensures !LinksHold(Records(Picked(events, [j, i])))
  {
    var up: seq<nat>, down: seq<nat> := [i, j], [j, i];
    KeyAcceptedIff(events, up, SessionKey(events[i]));
    NewestFirstSessionRejected(events, down, SessionKey(events[i]));
    assert up[0] == i && up[1] == j;
  }

  /** Two events of a session are accepted in the order they were logged and rejected newest first. */
  lemma TwoEventsNewestFirst(c: Content) returns (events: seq<Event>)
    ensures IsLog(events) && |events| == 2 && SessionKey(events[0]) == SessionKey(events[1])
    ensures LinksHold(Records(Picked(events, [0, 1]))) && !LinksHold(Records(Picked(events, [1, 0])))
  {
    var e := LogMore([], c);
    events := [] + [e];
    var f := LogMore(events, c);
    events := events + [f];
    PairAcceptedIff(events, 0, 1);
  }

  /** An event without a session between two of the session "global": they are rejected even in log order. */
  lemma GlobalSessionIsBroken(c: Content) returns (events: seq<Event>)
    ensures IsLog(events) && ListsSession(events, [0, 2], "global") && Within(events, [0, 2])
    ensures !LinksHold(Records(Picked(events, [0, 2])))
  {
    var e := LogMore([], c.(sessionId := Some("global")));
    events := [] + [e];
    var f := LogMore(events, c.(sessionId := None));
    events := events + [f];
    var g := LogMore(events, c.(sessionId := Some("global")));
    events := events + [g];
    assert events == [e, f, g];
    FirstAndThird(e, f, g);
    PairAcceptedIff(events, 0, 2);
    assert SessionKey(events[1]) == "global";
  }

  lemma FirstAndThird(e: Event, f: Event, g: Event)
    requires e.content.sessionId == g.content.sessionId == Some("global") && f.content.sessionId == None
    ensures ListsSession([e, f, g], [0, 2], "global")
  {
    var idx: seq<nat> := [0, 2];
    assert idx[0] == 0 && idx[1] == 2;
  }

  // ----- What an accepted list binds -----

  /**
    * Two accepted lists of equal length with the same last hash agree on every
    * chain hash and on every content hash after the first.
    */
  lemma {:induction false} LastHashBindsList(a: seq<Record>, b: seq<Record>)
    requires |a| == |b| && LinksHold(a) && LinksHold(b)
    requires a != [] ==> a[|a| - 1].hash == b[|b| - 1].hash
    ensures forall i :: 0 <= i < |a| ==> a[i].hash == b[i].hash
    ensures forall i :: 1 <= i < |a| ==> a[i].content == b[i].content
  {
    var n := |a|;
    if n > 1 {
      assert Link(a[n - 2], a[n - 1]) && Link(b[n - 2], b[n - 1]);
      ChainHashIsInjective(a[n - 2].hash, a[n - 1].content, b[n - 2].hash, b[n - 1].content);
      LastHashBindsList(a[..n - 1], b[..n - 1]);
    }
  }

  /** For events: agreeing content hashes of NUL-free events mean equal content. */
  lemma {:induction false} LastHashBindsContent(a: seq<Event>, b: seq<Event>, i: nat)
    requires |a| == |b| && LinksHold(Records(a)) && LinksHold(Records(b)) && 1 <= i < |a|
    requires StoredHash(a[|a| - 1]) == StoredHash(b[|b| - 1])
    requires NulFreeContent(a[i].content) && NulFreeContent(b[i].content)
    ensures a[i].content == b[i].content && StoredHash(a[i]) == StoredHash(b[i])
  {
    RecordAt(a, |a| - 1);
    RecordAt(b, |b| - 1);
    RecordAt(a, i);
    RecordAt(b, i);
    LastHashBindsList(Records(a), Records(b));
    ContentDigestIsInjective(a[i], b[i]);
  }
}
