// stableJSON (pkg/audit/audit.go): a text for a map that does not depend on
// the order in which the map is iterated.
module StableJson {
  import opened Common

  /** Keys with the JSON text of their values. */
  type JsonMap = map<string, string>

  /** The order of sort.Strings. */
  predicate Less(a: string, b: string)
  {
    b != [] && (a == [] || a[0] < b[0] || (a[0] == b[0] && Less(a[1..], b[1..])))
  }

  lemma {:induction false} LessIsTotal(a: string, b: string)
    ensures a == b || Less(a, b) || Less(b, a)
    ensures !(Less(a, b) && (a == b || Less(b, a)))
  {
    if a != [] && b != [] && a[0] == b[0] {
      LessIsTotal(a[1..], b[1..]);
      assert a == [a[0]] + a[1..] && b == [b[0]] + b[1..];
    }
  }

  lemma {:induction false} LessIsTransitive(a: string, b: string, c: string)
    requires Less(a, b) && Less(b, c)
    ensures Less(a, c)
  {
    if a != [] && a[0] == b[0] && b[0] == c[0] {
      LessIsTransitive(a[1..], b[1..], c[1..]);
    }
  }

  ghost predicate Increasing(ks: seq<string>)
  {
    forall i, j :: 0 <= i < j < |ks| ==> Less(ks[i], ks[j])
  }

  function Insert(k: string, ks: seq<string>): (r: seq<string>)
    ensures forall x :: x in r <==> x == k || x in ks
  {
    if ks == [] then [k]
    else if Less(k, ks[0]) then [k] + ks
    else
      var rest := Insert(k, ks[1..]);
      assert forall x :: x in ks <==> x == ks[0] || x in ks[1..];
      [ks[0]] + rest
  }

  lemma {:induction false} InsertKeepsOrder(k: string, ks: seq<string>)
    requires Increasing(ks) && k !in ks
    ensures Increasing(Insert(k, ks))
  {
    if ks != [] {
      if Less(k, ks[0]) {
        forall j | 1 <= j < |ks| ensures Less(k, ks[j]) {
          LessIsTransitive(k, ks[0], ks[j]);
        }
      } else {
        LessIsTotal(k, ks[0]);
        InsertKeepsOrder(k, ks[1..]);
        var rest := Insert(k, ks[1..]);
        forall j | 0 <= j < |rest| ensures Less(ks[0], rest[j]) {
          assert rest[j] in rest;
          if rest[j] != k {
            var i :| 0 <= i < |ks[1..]| && ks[1..][i] == rest[j];
            assert Less(ks[0], ks[i + 1]);
          }
        }
      }
    }
  }

  /** Go reads an absent key as nil, which json.Marshal writes as null. */
  function ValueText(m: JsonMap, k: string): string
  {
    if k in m then m[k] else "null"
  }

  /** `"k":v`. */
  function Member(m: JsonMap, k: string): string
  {
    "\"" + k + "\":" + ValueText(m, k)
  }

  /** The members for the keys `ks`, separated by commas. */
  function Members(m: JsonMap, ks: seq<string>): string
  {
    if ks == [] then ""
    else if |ks| == 1 then Member(m, ks[0])
    else Members(m, ks[..|ks| - 1]) + "," + Member(m, ks[|ks| - 1])
  }

  lemma MembersGrow(m: JsonMap, ks: seq<string>, i: nat)
    requires i < |ks|
    ensures Members(m, ks[..i + 1]) ==
      if i == 0 then Member(m, ks[0]) else Members(m, ks[..i]) + "," + Member(m, ks[i])
  {
    assert ks[..i + 1][..i] == ks[..i];
  }

  ghost predicate ListsKeys(ks: seq<string>, m: JsonMap)
  {
    Increasing(ks) && forall k :: k in ks <==> k in m
  }

  lemma HeadsAgree(ks: seq<string>, ls: seq<string>)
    requires Increasing(ks) && Increasing(ls) && ks != [] && ls != []
    requires forall k :: k in ks <==> k in ls
    ensures ks[0] == ls[0]
  {
    assert ks[0] in ks && ls[0] in ls;
    var i :| 0 <= i < |ls| && ls[i] == ks[0];
    var j :| 0 <= j < |ks| && ks[j] == ls[0];
    LessIsTotal(ks[0], ls[0]);
  }

  /** There is only one increasing list of given keys. */
  lemma {:induction false} OrderIsUnique(ks: seq<string>, ls: seq<string>)
    requires Increasing(ks) && Increasing(ls) && forall k :: k in ks <==> k in ls
    ensures ks == ls
  {
    assert (ks != [] ==> ks[0] in ks) && (ls != [] ==> ls[0] in ls);
    if ks != [] {
      HeadsAgree(ks, ls);
      forall k ensures k in ks[1..] <==> k in ls[1..] {
        TailMembers(ks, k);
        TailMembers(ls, k);
      }
      OrderIsUnique(ks[1..], ls[1..]);
      assert ks == [ks[0]] + ks[1..] && ls == [ls[0]] + ls[1..];
    }
  }

  lemma TailMembers(ks: seq<string>, k: string)
    requires Increasing(ks) && ks != []
    ensures k in ks[1..] <==> k in ks && k != ks[0]
  {
    if k in ks[1..] {
      var i :| 0 <= i < |ks[1..]| && ks[1..][i] == k;
      LessIsTotal(ks[0], ks[i + 1]);
    }
  }

  ghost function KeysInOrder(ks: set<string>): (r: seq<string>)
    ensures Increasing(r) && forall k :: k in r <==> k in ks
  {
    if ks == {} then [] else
    var k :| k in ks;
    var rest := KeysInOrder(ks - {k});
    InsertKeepsOrder(k, rest);
    Insert(k, rest)
  }

  /** The text of `m`: its members in increasing order of the keys. */
  ghost function StableText(m: JsonMap): string
  {
    "{" + Members(m, KeysInOrder(m.Keys)) + "}"
  }

  /** `stableJSON`: collect the keys in any order, sort them, write the members. */
  method StableJSON(m: JsonMap) returns (result: string)
    ensures result == StableText(m)
  {
    var keys := CollectKeys(m);
    var sorted := SortStrings(keys);
    var members := "";
    for i := 0 to |sorted|
      invariant members == Members(m, sorted[..i])
    {
      MembersGrow(m, sorted, i);
      var member := Member(m, sorted[i]);
      members := if i > 0 then members + "," + member else member;
    }
    assert sorted[..|sorted|] == sorted;
    OrderIsUnique(sorted, KeysInOrder(m.Keys));
    result := "{" + members + "}";
  }

  /** The keys of the map, in whatever order iteration yields them. */
  method CollectKeys(m: JsonMap) returns (keys: seq<string>)
    ensures Distinct(keys) && forall k :: k in keys <==> k in m
  {
    keys := [];
    var rest := m.Keys;
    while rest != {}
      invariant rest <= m.Keys && Distinct(keys)
      invariant forall k :: k in keys <==> k in m && k !in rest
      decreases rest
    {
      var k :| k in rest;
      rest := rest - {k};
      keys := keys + [k];
    }
  }

  method SortStrings(keys: seq<string>) returns (sorted: seq<string>)
    requires Distinct(keys)
    ensures Increasing(sorted) && forall k :: k in sorted <==> k in keys
  {
    sorted := [];
    for i := 0 to |keys|
      invariant Increasing(sorted) && forall k :: k in sorted <==> k in keys[..i]
    {
      assert keys[i] !in keys[..i];
      InsertKeepsOrder(keys[i], sorted);
      sorted := Insert(keys[i], sorted);
    }
  }

  /** Whatever order the keys are met in, sorting them leads to the same text. */
  lemma TextIsStable(m: JsonMap, ks: seq<string>)
    requires ListsKeys(ks, m)
    ensures StableText(m) == "{" + Members(m, ks) + "}"
  {
    OrderIsUnique(ks, KeysInOrder(m.Keys));
  }

  // ----- Reading a text back -----

  /** No value followed by a comma or a closing brace looks like another one followed by either. */
  ghost predicate Separable(isValue: string -> bool)
  {
    forall v, w, x, y :: isValue(v) && isValue(w) && Ends(x) && Ends(y) && v + x == w + y ==> v == w
  }

  predicate Ends(x: string)
  {
    x != "" && (x[0] == ',' || x[0] == '}')
  }

  /** Keys without quotes, values that are texts of values. */
  ghost predicate Readable(m: JsonMap, isValue: string -> bool)
  {
    forall k :: k in m ==> '\"' !in k && isValue(m[k])
  }

  /** The members with the closing brace. */
  function Closed(m: JsonMap, ks: seq<string>): string
  {
    Members(m, ks) + "}"
  }

  /** What follows the first member. */
  function AfterFirst(m: JsonMap, ks: seq<string>): (r: string)
    requires ks != []
    ensures Ends(r)
  {
    if |ks| == 1 then "}" else "," + Closed(m, ks[1..])
  }

  lemma {:induction false} MembersFromFirst(m: JsonMap, ks: seq<string>)
    requires |ks| > 1
    ensures Members(m, ks) == Member(m, ks[0]) + "," + Members(m, ks[1..])
  {
    var n := |ks| - 1;
    var front, rest := ks[..n], ks[1..];
    assert rest[..n - 1] == front[1..];
    if n > 1 {
      MembersFromFirst(m, front);
      var a, b, c := Member(m, ks[0]), Members(m, front[1..]), Member(m, ks[n]);
      assert a + "," + b + "," + c == a + "," + (b + "," + c);
    }
  }

  lemma MemberThen(m: JsonMap, k: string, r: string)
    ensures Member(m, k) + r == "\"" + (k + ("\":" + (ValueText(m, k) + r)))
  {
  }

  lemma ClosedFromFirst(m: JsonMap, ks: seq<string>)
    requires ks != []
    ensures Closed(m, ks) == "\"" + (ks[0] + ("\":" + (ValueText(m, ks[0]) + AfterFirst(m, ks))))
  {
    MemberThen(m, ks[0], AfterFirst(m, ks));
    if |ks| > 1 {
      MembersFromFirst(m, ks);
      CommaThen(Member(m, ks[0]), Members(m, ks[1..]));
    }
  }

  lemma CommaThen(first: string, rest: string)
    ensures first + "," + rest + "}" == first + ("," + (rest + "}"))
  {
  }

  /** Where the first quote is, or the end. */
  function FirstQuote(s: string): nat
  {
    if s == "" || s[0] == '\"' then 0 else 1 + FirstQuote(s[1..])
  }

  lemma {:induction false} QuoteAfterKey(k: string, x: string)
    requires '\"' !in k
    ensures FirstQuote(k + ("\":" + x)) == |k|
  {
    var s := k + ("\":" + x);
    if k != "" {
      assert s[0] == k[0] && s[1..] == k[1..] + ("\":" + x);
      QuoteAfterKey(k[1..], x);
    }
  }

  /** The first quote ends a key without quotes. */
  lemma KeyEnds(k: string, l: string, x: string, y: string)
    requires '\"' !in k && '\"' !in l && k + ("\":" + x) == l + ("\":" + y)
    ensures k == l && x == y
  {
    QuoteAfterKey(k, x);
    QuoteAfterKey(l, y);
    var s, t := k + ("\":" + x), l + ("\":" + y);
    assert s[..|k|] == k && t[..|l|] == l;
    assert s[|k| + 2..] == x && t[|l| + 2..] == y;
  }

  /** The first members of equal texts are equal, and so are the rests. */
  lemma FirstIsRead(m: JsonMap, ks: seq<string>, n: JsonMap, ls: seq<string>, isValue: string -> bool)
    requires Separable(isValue) && Readable(m, isValue) && Readable(n, isValue)
    requires ks != [] && ls != [] && ks[0] in m && ls[0] in n && Closed(m, ks) == Closed(n, ls)
    ensures ks[0] == ls[0] && m[ks[0]] == n[ks[0]] && AfterFirst(m, ks) == AfterFirst(n, ls)
  {
    ClosedFromFirst(m, ks);
    ClosedFromFirst(n, ls);
    var k, v, x := ks[0], m[ks[0]], AfterFirst(m, ks);
    var l, w, y := ls[0], n[ls[0]], AfterFirst(n, ls);
    var s, t := k + ("\":" + (v + x)), l + ("\":" + (w + y));
    assert ("\"" + s)[1..] == s && ("\"" + t)[1..] == t;
    KeyEnds(k, l, v + x, w + y);
    assert v == w;
    assert (v + x)[|v|..] == x && (w + y)[|w|..] == y;
  }

  lemma RestIsRead(m: JsonMap, ks: seq<string>, n: JsonMap, ls: seq<string>)
    requires ks != [] && ls != [] && AfterFirst(m, ks) == AfterFirst(n, ls)
    ensures |ks| > 1 <==> |ls| > 1
    ensures |ks| > 1 ==> Closed(m, ks[1..]) == Closed(n, ls[1..])
  {
    var x, y := AfterFirst(m, ks), AfterFirst(n, ls);
    assert x[0] == y[0];
    if |ks| > 1 {
      assert x[1..] == Closed(m, ks[1..]) && y[1..] == Closed(n, ls[1..]);
    }
  }

  lemma NothingIsRead(m: JsonMap, ks: seq<string>, n: JsonMap)
    requires Closed(m, ks) == Closed(n, [])
    ensures ks == []
  {
    if ks != [] {
      ClosedFromFirst(m, ks);
    }
  }

  ghost predicate KeysOf(ks: seq<string>, m: JsonMap)
  {
    forall i :: 0 <= i < |ks| ==> ks[i] in m
  }

  lemma {:induction false} MembersAreRead(m: JsonMap, ks: seq<string>, n: JsonMap, ls: seq<string>,
                                          isValue: string -> bool)
    requires Separable(isValue) && Readable(m, isValue) && Readable(n, isValue)
    requires KeysOf(ks, m) && KeysOf(ls, n) && Closed(m, ks) == Closed(n, ls)
    ensures ks == ls && forall i :: 0 <= i < |ks| ==> m[ks[i]] == n[ks[i]]
    decreases |ks|
  {
    if ks == [] {
      NothingIsRead(n, ls, m);
    } else if ls == [] {
      NothingIsRead(m, ks, n);
    } else {
      FirstIsRead(m, ks, n, ls, isValue);
      RestIsRead(m, ks, n, ls);
      var rest := ks[1..];
      if |ks| > 1 {
        MembersAreRead(m, rest, n, ls[1..], isValue);
      }
      assert ks == [ks[0]] + rest && ls == [ks[0]] + rest;
    }
  }

  lemma StableIsClosed(m: JsonMap, n: JsonMap, ks: seq<string>, ls: seq<string>)
    requires "{" + Members(m, ks) + "}" == "{" + Members(n, ls) + "}"
    ensures Closed(m, ks) == Closed(n, ls)
  {
    BraceOff(Members(m, ks));
    BraceOff(Members(n, ls));
  }

  lemma BraceOff(s: string)
    ensures ("{" + s + "}")[1..] == s + "}"
  {
  }

  lemma SameMaps(m: JsonMap, n: JsonMap, ks: seq<string>)
    requires (forall k :: k in ks <==> k in m) && (forall k :: k in ks <==> k in n)
    requires forall i :: 0 <= i < |ks| ==> m[ks[i]] == n[ks[i]]
    ensures m == n
  {
    forall k | k in m
      ensures m[k] == n[k]
    {
      assert k in ks;
      var i :| 0 <= i < |ks| && ks[i] == k;
    }
  }

  /** Maps with keys without quotes and separable values have different texts. */
  lemma TextIsUnique(m: JsonMap, n: JsonMap, isValue: string -> bool)
    requires Separable(isValue) && Readable(m, isValue) && Readable(n, isValue) && StableText(m) == StableText(n)
    ensures m == n
  {
    var ks, ls := KeysInOrder(m.Keys), KeysInOrder(n.Keys);
    StableIsClosed(m, n, ks, ls);
    assert forall i :: 0 <= i < |ks| ==> ks[i] in ks;
    assert forall i :: 0 <= i < |ls| ==> ls[i] in ls;
    MembersAreRead(m, ks, n, ls, isValue);
    SameMaps(m, n, ks);
  }

  lemma TextOfOne(k: string, v: string)
    ensures StableText(map[k := v]) == "{" + ("\"" + k + "\":" + v) + "}"
  {
    TextIsStable(map[k := v], [k]);
  }

  lemma TextOfTwo(k: string, v: string, l: string, w: string)
    requires Less(k, l)
    ensures StableText(map[k := v, l := w]) == "{" + ("\"" + k + "\":" + v + "," + ("\"" + l + "\":" + w)) + "}"
  {
    var m, ks := map[k := v, l := w], [k, l];
    LessIsTotal(k, l);
    TextIsStable(m, ks);
    assert ks[..1] == [k];
  }

  lemma Merged(a: string, b: string, c: string, d: string)
    ensures "\"" + (a + ",\"" + b) + c + d == "\"" + a + "," + ("\"" + b + c + d)
  {
    var q, comma := "\"", ",";
    assert comma + q == ",\"";
    PlusIsAssociative(q, a + ",\"", b);
    PlusIsAssociative(q, a, ",\"");
    PlusIsAssociative(q + a, comma, q);
    PlusIsAssociative(q + a + comma, q, b);
    PlusIsAssociative(q + a + comma, q + b, c);
    PlusIsAssociative(q + a + comma, q + b + c, d);
  }

  /** The condition on keys is needed: with quotes in its key, one member can read like two. */
  lemma OneReadsLikeTwo(k: string, v: string, l: string, w: string)
    requires Less(k, l)
    ensures var key := k + "\":" + v + ",\"" + l;
      StableText(map[key := w]) == StableText(map[k := v, l := w])
  {
    TextOfOne(k + "\":" + v + ",\"" + l, w);
    TextOfTwo(k, v, l, w);
    PlusIsAssociative("\"", k, "\":");
    PlusIsAssociative("\"", k + "\":", v);
    Merged(k + "\":" + v, l, "\":", w);
  }
}
