// The evidence chain (pkg/audit/audit.go): every event is hashed together with
// the chain hash of the event before it in its session; VerifyChain checks the
// links of a list of events.
module EvidenceChain {
  import opened Common
  import opened ContentHash

  /** An event as stored: the texts that were hashed, and its chain hash. */
  datatype Event = Event(content: Content, chainHash: Option<HashText>)

  function ContentDigest(e: Event): Digest
  {
    Sha256(PlainText(ContentStream(e.content)))
  }

  /** What the chain sees of an event: its session key, content hash and stored chain hash. */
  datatype Record = Record(key: string, content: Digest, hash: HashText)

  ghost function RecordOf(e: Event): Record
  {
    Record(SessionKey(e), ContentDigest(e), StoredHash(e))
  }

  /** The hexadecimal SHA-256 of the previous hash followed by the content hash. */
  function ChainHash(prev: HashText, content: Digest): HashText
  {
    [Hex(Sha256(prev + [Hex(content)]))]
  }

  /** Events without a session, or with an empty one, share the key "global". */
  function SessionKey(e: Event): string
  {
    if e.content.sessionId.Some? && e.content.sessionId.value != "" then e.content.sessionId.value else "global"
  }

  function StoredHash(e: Event): HashText
  {
    if e.chainHash.Some? then e.chainHash.value else []
  }

  // ----- hashEventContent -----

  lemma StreamGrows(fs: seq<Entry>, f: Entry)
    ensures Stream(fs + [f]) == Stream(fs) + Written(f)
  {
    assert (fs + [f])[..|fs|] == fs;
  }

  method WriteField(hasher: string, ghost fs: seq<Entry>, k: Key, value: string)
    returns (r: string, ghost gs: seq<Entry>)
    requires hasher == Stream(fs)
    ensures gs == fs + [Entry(k, value)] && r == Stream(gs)
  {
    gs := fs + [Entry(k, value)];
    StreamGrows(fs, Entry(k, value));
    r := hasher + KeyText(k) + ['\0'] + value + ['\0'];
    assert r == hasher + Item(KeyText(k), value);
  }

  method WriteOptional(hasher: string, ghost fs: seq<Entry>, k: Key, value: Option<string>)
    returns (r: string, ghost gs: seq<Entry>)
    requires hasher == Stream(fs)
    ensures gs == fs + Optional(k, value) && r == Stream(gs)
  {
    if value.Some? {
      r, gs := WriteField(hasher, fs, k, value.value);
    } else {
      r, gs := hasher, fs;
      assert fs + Optional(k, value) == fs;
    }
  }

  /** `hashEventContent`, once the maps are text. */
  method HashEventContent(e: Event) returns (d: Digest)
    ensures d == ContentDigest(e)
  {
    var c := e.content;
    ghost var fs: seq<Entry> := [];
    var hasher := "";
    hasher, fs := WriteField(hasher, fs, Action, c.action);
    hasher, fs := WriteField(hasher, fs, Cluster, c.cluster);
    hasher, fs := WriteField(hasher, fs, Namespace, c.namespace);
    hasher, fs := WriteField(hasher, fs, RiskLevel, c.riskLevel);
    hasher, fs := WriteOptional(hasher, fs, ToolName, c.toolName);
    hasher, fs := WriteOptional(hasher, fs, SessionId, c.sessionId);
    hasher, fs := WriteOptional(hasher, fs, UserId, c.userId);
    hasher, fs := WriteField(hasher, fs, Target, c.target);
    hasher, fs := WriteField(hasher, fs, PreCheck, c.preCheck);
    hasher, fs := WriteField(hasher, fs, ImpactAnalysis, c.impactAnalysis);
    hasher, fs := WriteField(hasher, fs, ResultKey, c.result);
    hasher, fs := WriteOptional(hasher, fs, RollbackInfo, c.rollbackInfo);
    hasher, fs := WriteOptional(hasher, fs, Approval, c.approval);
    EntriesInOrder(c);
    d := Sha256(PlainText(hasher));
  }

  lemma Regrouped(a: Entry, b: Entry, c: Entry, d: Entry, t: seq<Entry>, s: seq<Entry>, u: seq<Entry>,
                  k: Entry, l: Entry, m: Entry, n: Entry, r: seq<Entry>, q: seq<Entry>)
    ensures [] + [a] + [b] + [c] + [d] + t + s + u + [k] + [l] + [m] + [n] + r + q
      == [a, b, c, d] + (t + (s + (u + ([k, l, m, n] + (r + q)))))
  {
    assert [] + [a] + [b] + [c] + [d] == [a, b, c, d];
    var x := [a, b, c, d] + t + s + u;
    assert x == [a, b, c, d] + (t + (s + u));
    assert x + [k] + [l] + [m] + [n] == x + [k, l, m, n];
    assert x + [k, l, m, n] + r + q == x + ([k, l, m, n] + (r + q));
  }

  lemma EntriesInOrder(c: Content)
    ensures [] + [Entry(Action, c.action)] + [Entry(Cluster, c.cluster)] +
            [Entry(Namespace, c.namespace)] + [Entry(RiskLevel, c.riskLevel)]
      + Optional(ToolName, c.toolName) + Optional(SessionId, c.sessionId) + Optional(UserId, c.userId)
      + [Entry(Target, c.target)] + [Entry(PreCheck, c.preCheck)]
      + [Entry(ImpactAnalysis, c.impactAnalysis)] + [Entry(ResultKey, c.result)]
      + Optional(RollbackInfo, c.rollbackInfo) + Optional(Approval, c.approval)
      == Entries(c)
  {
    Regrouped(Entry(Action, c.action), Entry(Cluster, c.cluster),
              Entry(Namespace, c.namespace), Entry(RiskLevel, c.riskLevel),
      Optional(ToolName, c.toolName), Optional(SessionId, c.sessionId), Optional(UserId, c.userId),
      Entry(Target, c.target), Entry(PreCheck, c.preCheck),
      Entry(ImpactAnalysis, c.impactAnalysis), Entry(ResultKey, c.result),
      Optional(RollbackInfo, c.rollbackInfo), Optional(Approval, c.approval));
  }

  // ----- The chain of a log -----

  /** The last record with key `key` before position `i`, or -1. */
  ghost function LastSame(log: seq<Record>, i: nat, key: string): (j: int)
    requires i <= |log|
    ensures -1 <= j < i
    ensures j >= 0 ==> log[j].key == key
    ensures forall k :: j < k < i ==> log[k].key != key
  {
    if i == 0 then -1 else if log[i - 1].key == key then i - 1 else LastSame(log, i - 1, key)
  }

  /** The chain hash the next event of `key` builds on. */
  ghost function PrevHash(log: seq<Record>, i: nat, key: string): HashText
    requires i <= |log|
  {
    var j := LastSame(log, i, key);
    if j < 0 then [] else log[j].hash
  }

  ghost predicate ChainedAt(log: seq<Record>, i: nat)
    requires i < |log|
  {
    log[i].hash == ChainHash(PrevHash(log, i, log[i].key), log[i].content)
  }

  /** Every record carries the hash computed when its event was logged. */
  ghost predicate IsChained(log: seq<Record>)
  {
    forall i: nat :: i < |log| ==> ChainedAt(log, i)
  }

  lemma {:induction false} LastSameOfPrefix(log: seq<Record>, e: Record, i: nat, key: string)
    requires i <= |log|
    ensures LastSame(log + [e], i, key) == LastSame(log, i, key)
  {
    if i > 0 {
      LastSameOfPrefix(log, e, i - 1, key);
    }
  }

  lemma ChainGrows(log: seq<Record>, e: Record)
    requires IsChained(log) && e.hash == ChainHash(PrevHash(log, |log|, e.key), e.content)
    ensures IsChained(log + [e])
    ensures forall k :: PrevHash(log + [e], |log| + 1, k) == if k == e.key then e.hash else PrevHash(log, |log|, k)
  {
    var log' := log + [e];
    forall i: nat | i < |log'| ensures ChainedAt(log', i) {
      LastSameOfPrefix(log, e, i, log'[i].key);
      if i < |log| {
        assert ChainedAt(log, i);
      }
    }
    forall k ensures PrevHash(log', |log| + 1, k) == if k == e.key then e.hash else PrevHash(log, |log|, k) {
      LastSameOfPrefix(log, e, |log|, k);
    }
  }

  /** The last chain hash of each session, as the manager keeps it. */
  class ChainState {
    var sessionLastHash: map<string, HashText>
    ghost var log: seq<Record>

    ghost predicate Valid()
      reads this
    {
      IsChained(log) && forall k :: LastHash(k) == PrevHash(log, |log|, k)
    }

    function LastHash(key: string): HashText
      reads this
    {
      if key in sessionLastHash then sessionLastHash[key] else []
    }

    constructor ()
      ensures Valid() && log == []
    {
      sessionLastHash := map[];
      log := [];
    }

    /** Stores the hash of the next event; other sessions keep their last hash. */
    method Chain(sessionKey: string, contentHash: Digest) returns (chainHash: HashText)
      requires Valid()
      modifies this
      ensures Valid() && chainHash == ChainHash(old(LastHash(sessionKey)), contentHash)
      ensures log == old(log) + [Record(sessionKey, contentHash, chainHash)]
      ensures forall k :: LastHash(k) == if k == sessionKey then chainHash else old(LastHash(k))
    {
      var prevHash := if sessionKey in sessionLastHash then sessionLastHash[sessionKey] else [];
      chainHash := [Hex(Sha256(prevHash + [Hex(contentHash)]))];
      ghost var before, record := log, Record(sessionKey, contentHash, chainHash);
      ChainGrows(before, record);
      sessionLastHash := sessionLastHash[sessionKey := chainHash];
      log := log + [record];
      forall k ensures LastHash(k) == PrevHash(log, |log|, k) {
        assert LastHash(k) == if k == sessionKey then chainHash else old(LastHash(k));
        assert PrevHash(before + [record], |before| + 1, k) ==
               if k == record.key then record.hash else PrevHash(before, |before|, k);
      }
    }

    /** `computeChainHash`, and the event as it is logged. */
    method ComputeChainHash(f: Fields) returns (e: Event)
      requires Valid()
      modifies this
      ensures Valid() && e == Event(ContentOf(f), Some(LastHash(SessionKey(e))))
      ensures log == old(log) + [RecordOf(e)]
      ensures forall k :: k != SessionKey(e) ==> LastHash(k) == old(LastHash(k))
    {
      var c := Render(f);
      e := Event(c, None);
      var sessionKey := "global";
      if f.sessionId.Some? && f.sessionId.value != "" {
        sessionKey := f.sessionId.value;
      }
      var contentHash := HashEventContent(e);
      var chainHash := Chain(sessionKey, contentHash);
      e := Event(c, Some(chainHash));
    }
  }

  // ----- The link check -----

  /** What VerifyChain recomputes for `curr` from the stored hash of `prev`. */
  ghost predicate Link(prev: Record, curr: Record)
  {
    curr.hash == ChainHash(prev.hash, curr.content)
  }

  ghost predicate LinksHold(records: seq<Record>)
  {
    forall i :: 1 <= i < |records| ==> Link(records[i - 1], records[i])
  }

  ghost function Records(events: seq<Event>): (r: seq<Record>)
    ensures |r| == |events|
  {
    if events == [] then [] else Records(events[..|events| - 1]) + [RecordOf(events[|events| - 1])]
  }

  lemma {:induction false} RecordAt(events: seq<Event>, i: nat)
    requires i < |events|
    ensures Records(events)[i] == RecordOf(events[i])
  {
    if i < |events| - 1 {
      RecordAt(events[..|events| - 1], i);
    }
  }

  /** One turn of the loop: recompute the hash of `curr` and compare. */
  method CheckLink(prev: Event, curr: Event) returns (ok: bool)
    ensures ok <==> Link(RecordOf(prev), RecordOf(curr))
  {
    var prevChainHash := if prev.chainHash.Some? then prev.chainHash.value else [];
    var currContentHash := HashEventContent(curr);
    var expected := [Hex(Sha256(prevChainHash + [Hex(currContentHash)]))];
    var actual := if curr.chainHash.Some? then curr.chainHash.value else [];
    ok := expected == actual;
  }

  /** The loop of VerifyChain. */
  method VerifyLinks(events: seq<Event>) returns (ok: bool)
    ensures ok <==> LinksHold(Records(events))
  {
    if |events| < 2 {
      return true;
    }
    ghost var records := Records(events);
    for i := 1 to |events|
      invariant forall j :: 1 <= j < i ==> Link(records[j - 1], records[j])
    {
      RecordAt(events, i - 1);
      RecordAt(events, i);
      ok := CheckLink(events[i - 1], events[i]);
      if !ok {
        return false;
      }
    }
    return true;
  }
}
