// The content hash of an audit event (pkg/audit/audit.go): the byte stream it
// is taken over, field by field, and what that stream determines.
module ContentHash {
  import opened Common
  import opened StableJson

  // ----- Digests -----

  /**
    * Text that is hashed: plain characters and the hexadecimal form of a
    * digest, kept as one symbol. A digest is its preimage, so different
    * preimages have different digests.
    */
  datatype Symbol = Plain(c: char) | Hex(d: Digest)
  datatype Digest = Sha256(preimage: seq<Symbol>)

  type HashText = seq<Symbol>

  function PlainText(s: string): (r: HashText)
    ensures |r| == |s| && forall i :: 0 <= i < |s| ==> r[i] == Plain(s[i])
  {
    seq(|s|, i requires 0 <= i < |s| => Plain(s[i]))
  }

  lemma PlainTextIsInjective(a: string, b: string)
    requires PlainText(a) == PlainText(b)
    ensures a == b
  {
    forall i | 0 <= i < |a|
      ensures a[i] == b[i]
    {
      assert PlainText(a)[i] == PlainText(b)[i];
    }
  }

  // ----- The hashed content of an event -----

  /** The fields of an event that are hashed; maps and optional maps are still to be rendered. */
  datatype Fields = Fields(
    action: string, cluster: string, namespace: string, riskLevel: string,
    toolName: Option<string>, sessionId: Option<string>, userId: Option<string>,
    target: JsonMap, preCheck: JsonMap, impactAnalysis: JsonMap, result: JsonMap,
    rollbackInfo: Option<JsonMap>, approval: Option<JsonMap>)

  /** The texts that are hashed. */
  datatype Content = Content(
    action: string, cluster: string, namespace: string, riskLevel: string,
    toolName: Option<string>, sessionId: Option<string>, userId: Option<string>,
    target: string, preCheck: string, impactAnalysis: string, result: string,
    rollbackInfo: Option<string>, approval: Option<string>)

  ghost function OptionalText(m: Option<JsonMap>): Option<string>
  {
    match m case None => None case Some(x) => Some(StableText(x))
  }

  ghost function ContentOf(f: Fields): Content
  {
    Content(f.action, f.cluster, f.namespace, f.riskLevel, f.toolName, f.sessionId, f.userId,
            StableText(f.target), StableText(f.preCheck), StableText(f.impactAnalysis), StableText(f.result),
            OptionalText(f.rollbackInfo), OptionalText(f.approval))
  }

  method RenderOptional(m: Option<JsonMap>) returns (r: Option<string>)
    ensures r == OptionalText(m)
  {
    if m.None? {
      return None;
    }
    var text := StableJSON(m.value);
    r := Some(text);
  }

  /** The maps become text through stableJSON, whatever order they are iterated in. */
  method Render(f: Fields) returns (c: Content)
    ensures c == ContentOf(f)
  {
    var target := StableJSON(f.target);
    var preCheck := StableJSON(f.preCheck);
    var impactAnalysis := StableJSON(f.impactAnalysis);
    var result := StableJSON(f.result);
    var rollbackInfo := RenderOptional(f.rollbackInfo);
    var approval := RenderOptional(f.approval);
    c := Content(f.action, f.cluster, f.namespace, f.riskLevel, f.toolName, f.sessionId, f.userId,
                 target, preCheck, impactAnalysis, result, rollbackInfo, approval);
  }

  datatype Key =
    | Action | Cluster | Namespace | RiskLevel | ToolName | SessionId | UserId
    | Target | PreCheck | ImpactAnalysis | ResultKey | RollbackInfo | Approval

  function KeyText(k: Key): string
  {
    match k
    case Action => "action" case Cluster => "cluster" case Namespace => "namespace"
    case RiskLevel => "risk_level" case ToolName => "tool_name" case SessionId => "session_id"
    case UserId => "user_id" case Target => "target" case PreCheck => "pre_check"
    case ImpactAnalysis => "impact_analysis" case ResultKey => "result"
    case RollbackInfo => "rollback_info" case Approval => "approval"
  }

  /** One call of writeField. */
  datatype Entry = Entry(key: Key, value: string)

  function Optional(k: Key, v: Option<string>): seq<Entry>
  {
    if v.Some? then [Entry(k, v.value)] else []
  }

  /** What is written, in order; absent optional fields are left out. */
  function Entries(c: Content): seq<Entry>
  {
    [Entry(Action, c.action), Entry(Cluster, c.cluster), Entry(Namespace, c.namespace), Entry(RiskLevel, c.riskLevel)]
    + EntriesFromTool(c)
  }

  function EntriesFromTool(c: Content): seq<Entry>
  {
    Optional(ToolName, c.toolName) +
      (Optional(SessionId, c.sessionId) + (Optional(UserId, c.userId) + EntriesFromTarget(c)))
  }

  function EntriesFromTarget(c: Content): seq<Entry>
  {
    [Entry(Target, c.target), Entry(PreCheck, c.preCheck),
     Entry(ImpactAnalysis, c.impactAnalysis), Entry(ResultKey, c.result)]
    + (Optional(RollbackInfo, c.rollbackInfo) + Optional(Approval, c.approval))
  }

  /** Key NUL value NUL. */
  function Item(key: string, value: string): string
  {
    key + ['\0'] + value + ['\0']
  }

  function Written(f: Entry): string
  {
    Item(KeyText(f.key), f.value)
  }

  function Stream(fs: seq<Entry>): string
  {
    if fs == [] then "" else Stream(fs[..|fs| - 1]) + Written(fs[|fs| - 1])
  }

  ghost predicate NulFree(s: string)
  {
    '\0' !in s
  }

  ghost predicate NulFreeEntries(fs: seq<Entry>)
  {
    forall i :: 0 <= i < |fs| ==> NulFree(fs[i].value)
  }

  /** Where the NUL-terminated item ending at position `j` begins. */
  function ItemStart(s: string, j: nat): (k: nat)
    requires j <= |s|
    ensures k <= j
  {
    if j == 0 || s[j - 1] == '\0' then j else ItemStart(s, j - 1)
  }

  lemma {:induction false} ItemStartAfterNul(s: string, k: nat, j: nat)
    requires 0 < k <= j <= |s| && s[k - 1] == '\0' && NulFree(s[k..j])
    ensures ItemStart(s, j) == k
    decreases j
  {
    if k < j {
      assert s[j - 1] == s[k..j][j - 1 - k];
      assert s[k..j - 1] == s[k..j][..j - 1 - k];
      ItemStartAfterNul(s, k, j - 1);
    }
  }

  lemma {:induction false} ItemStartAtFront(s: string, j: nat)
    requires j <= |s| && NulFree(s[..j])
    ensures ItemStart(s, j) == 0
    decreases j
  {
    if 0 < j {
      assert s[j - 1] == s[..j][j - 1];
      assert s[..j - 1] == s[..j][..j - 1];
      ItemStartAtFront(s, j - 1);
    }
  }

  /** Reads a stream back, as pairs of key text and value. */
  function Decode(s: string): seq<(string, string)>
    decreases |s|
  {
    if s == "" then [] else
    var valueAt := ItemStart(s, |s| - 1);
    if valueAt == 0 then [] else
    var keyAt := ItemStart(s, valueAt - 1);
    Decode(s[..keyAt]) + [(s[keyAt..valueAt - 1], s[valueAt..|s| - 1])]
  }

  function KeysAndValues(fs: seq<Entry>): (r: seq<(string, string)>)
    ensures |r| == |fs| && forall i :: 0 <= i < |fs| ==> r[i] == (KeyText(fs[i].key), fs[i].value)
  {
    seq(|fs|, i requires 0 <= i < |fs| => (KeyText(fs[i].key), fs[i].value))
  }

  lemma KeyTextIsNulFree(k: Key)
    ensures NulFree(KeyText(k))
  {
  }

  lemma KeyTextIsInjective(k: Key, l: Key)
    requires KeyText(k) == KeyText(l)
    ensures k == l
  {
  }

  ghost predicate EndsItem(s: string)
  {
    s == "" || s[|s| - 1] == '\0'
  }

  lemma ItemStarts(s: string, keyAt: nat, valueAt: nat)
    requires keyAt < valueAt < |s| && s[valueAt - 1] == '\0' && (keyAt == 0 || s[keyAt - 1] == '\0')
    requires NulFree(s[keyAt..valueAt - 1]) && NulFree(s[valueAt..|s| - 1])
    ensures ItemStart(s, |s| - 1) == valueAt && ItemStart(s, valueAt - 1) == keyAt
  {
    ItemStartAfterNul(s, valueAt, |s| - 1);
    if keyAt == 0 {
      assert s[..valueAt - 1] == s[keyAt..valueAt - 1];
      ItemStartAtFront(s, valueAt - 1);
    } else {
      ItemStartAfterNul(s, keyAt, valueAt - 1);
    }
  }

  lemma DecodeAt(s: string, keyAt: nat, valueAt: nat)
    requires keyAt < valueAt < |s|
    requires ItemStart(s, |s| - 1) == valueAt && ItemStart(s, valueAt - 1) == keyAt
    ensures Decode(s) == Decode(s[..keyAt]) + [(s[keyAt..valueAt - 1], s[valueAt..|s| - 1])]
  {
  }

  /** The text `s` is `front` followed by an item. */
  ghost predicate HasItem(s: string, front: string, key: string, value: string)
  {
    var v := |front| + |key| + 1;
    && |s| == v + |value| + 1
    && s[..|front|] == front && s[|front|..v - 1] == key && s[v - 1] == '\0'
    && s[v..|s| - 1] == value && s[|s| - 1] == '\0'
  }

  lemma ItemParts(front: string, key: string, value: string)
    ensures HasItem(front + Item(key, value), front, key, value)
  {
  }

  lemma DecodeParts(s: string, keyAt: nat, valueAt: nat)
    requires keyAt < valueAt < |s| && s[valueAt - 1] == '\0' && (keyAt == 0 || s[keyAt - 1] == '\0')
    requires NulFree(s[keyAt..valueAt - 1]) && NulFree(s[valueAt..|s| - 1])
    ensures Decode(s) == Decode(s[..keyAt]) + [(s[keyAt..valueAt - 1], s[valueAt..|s| - 1])]
  {
    ItemStarts(s, keyAt, valueAt);
    DecodeAt(s, keyAt, valueAt);
  }

  lemma DecodeItem(s: string, front: string, key: string, value: string)
    requires HasItem(s, front, key, value) && EndsItem(front) && NulFree(key) && NulFree(value)
    ensures Decode(s) == Decode(front) + [(key, value)] && EndsItem(s)
  {
    assert front != "" ==> s[|front| - 1] == s[..|front|][|front| - 1];
    DecodeParts(s, |front|, |front| + |key| + 1);
  }

  /** Decoding takes off the last field written. */
  lemma DecodeLast(front: string, key: string, value: string)
    requires EndsItem(front) && NulFree(key) && NulFree(value)
    ensures Decode(front + Item(key, value)) == Decode(front) + [(key, value)] && EndsItem(front + Item(key, value))
  {
    ItemParts(front, key, value);
    DecodeItem(front + Item(key, value), front, key, value);
  }

  /** The stream of pairs of key text and value. */
  function PairStream(ps: seq<(string, string)>): string
  {
    if ps == [] then "" else PairStream(ps[..|ps| - 1]) + Item(ps[|ps| - 1].0, ps[|ps| - 1].1)
  }

  lemma {:induction false} PairsDecode(ps: seq<(string, string)>)
    requires forall i :: 0 <= i < |ps| ==> NulFree(ps[i].0) && NulFree(ps[i].1)
    ensures Decode(PairStream(ps)) == ps && EndsItem(PairStream(ps))
  {
    if ps != [] {
      var front, last := ps[..|ps| - 1], ps[|ps| - 1];
      PairsDecode(front);
      DecodeLast(PairStream(front), last.0, last.1);
      assert ps == front + [last];
    }
  }

  lemma {:induction false} StreamIsPairs(fs: seq<Entry>)
    ensures Stream(fs) == PairStream(KeysAndValues(fs))
  {
    if fs != [] {
      var front, ps := fs[..|fs| - 1], KeysAndValues(fs);
      StreamIsPairs(front);
      assert ps[..|ps| - 1] == KeysAndValues(front);
    }
  }

  /** Decoding the stream of NUL-free fields gives the fields back. */
  lemma StreamDecodes(fs: seq<Entry>)
    requires NulFreeEntries(fs)
    ensures Decode(Stream(fs)) == KeysAndValues(fs)
  {
    StreamIsPairs(fs);
    forall i | 0 <= i < |fs|
      ensures NulFree(KeysAndValues(fs)[i].0)
    {
      KeyTextIsNulFree(fs[i].key);
    }
    PairsDecode(KeysAndValues(fs));
  }

  lemma StreamIsInjective(fs: seq<Entry>, gs: seq<Entry>)
    requires NulFreeEntries(fs) && NulFreeEntries(gs) && Stream(fs) == Stream(gs)
    ensures fs == gs
  {
    StreamDecodes(fs);
    StreamDecodes(gs);
    assert |KeysAndValues(fs)| == |fs| && |KeysAndValues(gs)| == |gs|;
    forall i | 0 <= i < |fs| ensures fs[i] == gs[i] {
      assert KeysAndValues(fs)[i] == KeysAndValues(gs)[i];
      KeyTextIsInjective(fs[i].key, gs[i].key);
    }
  }

  /** Before fields with other keys, an optional field is present in both lists or in neither. */
  lemma OptionalIsUnique(k: Key, v: Option<string>, w: Option<string>, a: seq<Entry>, b: seq<Entry>)
    requires Optional(k, v) + a == Optional(k, w) + b
    requires (a != [] ==> a[0].key != k) && (b != [] ==> b[0].key != k)
    ensures v == w && a == b
  {
    var s, t := Optional(k, v) + a, Optional(k, w) + b;
    assert v.Some? ==> s[0] == Entry(k, v.value) && s[1..] == a;
    assert w.Some? ==> t[0] == Entry(k, w.value) && t[1..] == b;
    assert v.None? ==> s == a;
    assert w.None? ==> t == b;
  }

  lemma FixedFour(a: seq<Entry>, x: seq<Entry>, b: seq<Entry>, y: seq<Entry>)
    requires |a| == |b| && a + x == b + y
    ensures a == b && x == y
  {
    assert a == (a + x)[..|a|] && b == (b + y)[..|b|];
    assert x == (a + x)[|a|..] && y == (b + y)[|b|..];
  }

  lemma EntriesFromTargetAreUnique(c: Content, d: Content)
    requires EntriesFromTarget(c) == EntriesFromTarget(d)
    ensures c.target == d.target && c.preCheck == d.preCheck && c.impactAnalysis == d.impactAnalysis
    ensures c.result == d.result && c.rollbackInfo == d.rollbackInfo && c.approval == d.approval
  {
    var a := [Entry(Target, c.target), Entry(PreCheck, c.preCheck),
              Entry(ImpactAnalysis, c.impactAnalysis), Entry(ResultKey, c.result)];
    var b := [Entry(Target, d.target), Entry(PreCheck, d.preCheck),
              Entry(ImpactAnalysis, d.impactAnalysis), Entry(ResultKey, d.result)];
    FixedFour(a, Optional(RollbackInfo, c.rollbackInfo) + Optional(Approval, c.approval),
              b, Optional(RollbackInfo, d.rollbackInfo) + Optional(Approval, d.approval));
    assert a[0] == b[0] && a[1] == b[1] && a[2] == b[2] && a[3] == b[3];
    OptionalIsUnique(RollbackInfo, c.rollbackInfo, d.rollbackInfo,
                     Optional(Approval, c.approval), Optional(Approval, d.approval));
    assert Optional(Approval, c.approval) + [] == Optional(Approval, d.approval) + [];
    OptionalIsUnique(Approval, c.approval, d.approval, [], []);
  }

  lemma EntriesAreUnique(c: Content, d: Content)
    requires Entries(c) == Entries(d)
    ensures c == d
  {
    var a := [Entry(Action, c.action), Entry(Cluster, c.cluster),
              Entry(Namespace, c.namespace), Entry(RiskLevel, c.riskLevel)];
    var b := [Entry(Action, d.action), Entry(Cluster, d.cluster),
              Entry(Namespace, d.namespace), Entry(RiskLevel, d.riskLevel)];
    FixedFour(a, EntriesFromTool(c), b, EntriesFromTool(d));
    assert a[0] == b[0] && a[1] == b[1] && a[2] == b[2] && a[3] == b[3];
    var t, u := EntriesFromTarget(c), EntriesFromTarget(d);
    assert t[0].key == Target && u[0].key == Target;
    var t', u' := Optional(UserId, c.userId) + t, Optional(UserId, d.userId) + u;
    assert t'[0].key == UserId || t'[0].key == Target;
    assert u'[0].key == UserId || u'[0].key == Target;
    OptionalIsUnique(ToolName, c.toolName, d.toolName,
                     Optional(SessionId, c.sessionId) + t', Optional(SessionId, d.sessionId) + u');
    OptionalIsUnique(SessionId, c.sessionId, d.sessionId, t', u');
    OptionalIsUnique(UserId, c.userId, d.userId, t, u);
    EntriesFromTargetAreUnique(c, d);
  }

  ghost predicate NulFreeContent(c: Content)
  {
    NulFreeEntries(Entries(c))
  }

  /** The stream hashed for an event. */
  function ContentStream(c: Content): string
  {
    Stream(Entries(c))
  }

  /** Equal streams come from equal texts, with the same optional fields present. */
  lemma ContentIsUnique(c: Content, d: Content)
    requires NulFreeContent(c) && NulFreeContent(d) && ContentStream(c) == ContentStream(d)
    ensures c == d
  {
    StreamIsInjective(Entries(c), Entries(d));
    EntriesAreUnique(c, d);
  }

  /** All maps of the event have keys without quotes and values that are texts of values. */
  ghost predicate ReadableFields(f: Fields, isValue: string -> bool)
  {
    && Readable(f.target, isValue) && Readable(f.preCheck, isValue)
    && Readable(f.impactAnalysis, isValue) && Readable(f.result, isValue)
    && (f.rollbackInfo.Some? ==> Readable(f.rollbackInfo.value, isValue))
    && (f.approval.Some? ==> Readable(f.approval.value, isValue))
  }

  lemma OptionalTextIsUnique(m: Option<JsonMap>, n: Option<JsonMap>, isValue: string -> bool)
    requires Separable(isValue) && OptionalText(m) == OptionalText(n)
    requires (m.Some? ==> Readable(m.value, isValue)) && (n.Some? ==> Readable(n.value, isValue))
    ensures m == n
  {
    if m.Some? {
      TextIsUnique(m.value, n.value, isValue);
    }
  }

  /** The stream determines the event's fields, maps included, if the maps can be read back from their texts. */
  lemma FieldsAreUnique(f: Fields, g: Fields, isValue: string -> bool)
    requires Separable(isValue) && ReadableFields(f, isValue) && ReadableFields(g, isValue)
    requires NulFreeContent(ContentOf(f)) && NulFreeContent(ContentOf(g))
    requires ContentStream(ContentOf(f)) == ContentStream(ContentOf(g))
    ensures f == g
  {
    ContentIsUnique(ContentOf(f), ContentOf(g));
    TextIsUnique(f.target, g.target, isValue);
    TextIsUnique(f.preCheck, g.preCheck, isValue);
    TextIsUnique(f.impactAnalysis, g.impactAnalysis, isValue);
    TextIsUnique(f.result, g.result, isValue);
    OptionalTextIsUnique(f.rollbackInfo, g.rollbackInfo, isValue);
    OptionalTextIsUnique(f.approval, g.approval, isValue);
  }
}
