// The lexical structure of SQL text as the statement splitter of
// pkg/db/migrate.go sees it: one mode at a time, one token at a time.
module SqlLexer {

  /** Source text is a string of bytes; a byte is the character with its code. */
  type Byte = c: char | c < '\U{0100}' witness 'a'

  type Text = seq<Byte>

  datatype Mode =
    | Top
    | Single
    | Double
    | Dollar(tag: Text)
    | LineComment
    | BlockComment

  predicate IsAscii(b: Byte)
  {
    b < '\U{0080}'
  }

  /** What Go's string(b) makes of a byte: the UTF-8 encoding of the code point with that number. */
  function Utf8(b: Byte): (t: Text)
    ensures IsAscii(b) ==> t == [b]
    ensures !IsAscii(b) ==> |t| == 2 && !IsAscii(t[0]) && !IsAscii(t[1])
  {
    if IsAscii(b) then [b]
    else
      var code := b as int;
      [(0xC0 + code / 64) as char, (0x80 + code % 64) as char]
  }

  /** The two bytes that stand for one outside ASCII give its number back by the rules of UTF-8. */
  lemma Utf8Decodes(b: Byte)
    requires !IsAscii(b)
    ensures var t := Utf8(b);
      && 0xC0 <= t[0] as int < 0xE0 && 0x80 <= t[1] as int < 0xC0
      && (t[0] as int - 0xC0) * 64 + (t[1] as int - 0x80) == b as int
  {
    var code := b as int;
    assert code == code / 64 * 64 + code % 64;
  }

  /** The tag as the splitter accumulates it. */
  function Encoded(tag: Text): (t: Text)
    ensures |t| >= |tag|
    ensures '$' !in tag ==> '$' !in t
  {
    if tag == [] then [] else
    var last := tag[|tag| - 1];
    assert '$' !in tag ==> last != '$';
    Encoded(tag[..|tag| - 1]) + Utf8(last)
  }

  ghost predicate AllAscii(t: Text)
  {
    forall i :: 0 <= i < |t| ==> IsAscii(t[i])
  }

  /** Encoding keeps ASCII tags and lengthens all others. */
  lemma {:induction false} EncodedLength(tag: Text)
    ensures AllAscii(tag) ==> Encoded(tag) == tag
    ensures !AllAscii(tag) ==> |Encoded(tag)| > |tag|
  {
    if tag != [] {
      var front, last := tag[..|tag| - 1], tag[|tag| - 1];
      assert tag == front + [last];
      EncodedLength(front);
    }
  }

  /** The first `$` at or after position `from`, or the end. */
  function NextDollar(s: Text, from: nat): (j: nat)
    requires from <= |s|
    ensures from <= j <= |s| && (forall i :: from <= i < j ==> s[i] != '$') && (j < |s| ==> s[j] == '$')
    decreases |s| - from
  {
    if from == |s| || s[from] == '$' then from else NextDollar(s, from + 1)
  }

  /** One token: how many bytes it takes, the mode after it, what it writes, and whether it ends a statement. */
  datatype Token = Token(size: nat, mode: Mode, out: Text, cut: bool)

  function Plain(b: Byte, m: Mode): Token
  {
    Token(1, m, [b], false)
  }

  /** `$tag$`, which opens or closes a dollar quote. */
  function DollarToken(s: Text, j: nat, m: Mode): Token
    requires 1 <= j < |s|
  {
    Token(j + 1, m, ['$'] + Encoded(s[1..j]) + ['$'], false)
  }

  predicate StartsWith(s: Text, a: Byte, b: Byte)
  {
    |s| >= 2 && s[0] == a && s[1] == b
  }

  /** The token at the head of `s`, read in mode `m`. */
  function Step(s: Text, m: Mode): (t: Token)
    requires s != []
    ensures 1 <= t.size <= |s|
    ensures t.cut <==> m == Top && s[0] == ';'
    ensures t.cut ==> t == Token(1, Top, [], true)
  {
    match m
    case Top =>
      if s[0] == '$' && NextDollar(s, 1) < |s| then
        var j := NextDollar(s, 1);
        DollarToken(s, j, Dollar(Encoded(s[1..j])))
      else if StartsWith(s, '-', '-') then Plain(s[0], LineComment)
      else if StartsWith(s, '/', '*') then Token(2, BlockComment, s[..2], false)
      else if s[0] == '\'' then Plain(s[0], Single)
      else if s[0] == '"' then Plain(s[0], Double)
      else if s[0] == ';' then Token(1, Top, [], true)
      else Plain(s[0], Top)
    case Dollar(tag) =>
      if s[0] == '$' && NextDollar(s, 1) < |s| && Encoded(s[1..NextDollar(s, 1)]) == tag
      then DollarToken(s, NextDollar(s, 1), Top)
      else Plain(s[0], m)
    case LineComment => Plain(s[0], if s[0] == '\n' then Top else LineComment)
    case BlockComment =>
      if StartsWith(s, '*', '/') then Token(2, Top, s[..2], false) else Plain(s[0], m)
    case Single => Plain(s[0], if s[0] == '\'' then Top else Single)
    case Double => Plain(s[0], if s[0] == '"' then Top else Double)
  }

  // ----- Pieces between cuts -----

  function Prepend(out: Text, pieces: seq<Text>): (r: seq<Text>)
    requires pieces != []
    ensures |r| == |pieces|
  {
    [out + pieces[0]] + pieces[1..]
  }

  /** What is written between the cuts of `s`, read from mode `m` on. */
  function Pieces(s: Text, m: Mode): (r: seq<Text>)
    ensures r != []
    decreases |s|
  {
    if s == [] then [[]] else
    var t := Step(s, m);
    var rest := Pieces(s[t.size..], t.mode);
    if t.cut then [[]] + rest else Prepend(t.out, rest)
  }

  /** How many bytes re-encoding adds to the dollar tags of `s`. */
  function Widened(s: Text, m: Mode): nat
    decreases |s|
  {
    if s == [] then 0 else
    var t := Step(s, m);
    TokenIsNoShorter(s, m);
    |t.out| + (if t.cut then 1 else 0) - t.size + Widened(s[t.size..], t.mode)
  }

  lemma SliceEnds(s: Text, j: nat)
    requires 1 <= j < |s|
    ensures s[..j + 1] == [s[0]] + s[1..j] + [s[j]]
  {
    var r := [s[0]] + s[1..j] + [s[j]];
    forall i | 0 <= i <= j
      ensures s[..j + 1][i] == r[i]
    {
    }
  }

  lemma DollarTokenIsNoShorter(s: Text, j: nat)
    requires 1 <= j < |s| && s[0] == s[j] == '$'
    ensures var out := ['$'] + Encoded(s[1..j]) + ['$'];
      |out| >= j + 1 && (|out| == j + 1 <==> out == s[..j + 1])
  {
    EncodedLength(s[1..j]);
    SliceEnds(s, j);
  }

  lemma TokenIsNoShorter(s: Text, m: Mode)
    requires s != []
    ensures var t := Step(s, m);
      if t.cut then t.size == 1 && t.out == []
      else |t.out| >= t.size && (|t.out| == t.size <==> t.out == s[..t.size])
  {
    if s[0] == '$' && NextDollar(s, 1) < |s| {
      DollarTokenIsNoShorter(s, NextDollar(s, 1));
    }
  }

  function Join(pieces: seq<Text>): Text
    requires pieces != []
  {
    if |pieces| == 1 then pieces[0] else pieces[0] + [';'] + Join(pieces[1..])
  }

  lemma JoinPrepended(out: Text, pieces: seq<Text>)
    requires pieces != []
    ensures Join(Prepend(out, pieces)) == out + Join(pieces)
  {
    var p := Prepend(out, pieces);
    assert p[1..] == pieces[1..];
    if |pieces| > 1 {
      assert out + pieces[0] + [';'] + Join(pieces[1..]) == out + (pieces[0] + [';'] + Join(pieces[1..]));
    }
  }

  lemma JoinCut(pieces: seq<Text>)
    requires pieces != []
    ensures Join([[]] + pieces) == [';'] + Join(pieces)
  {
    assert ([[]] + pieces)[1..] == pieces;
  }

  /** One token: what it does to the length and to the text. */
  lemma JoinedStep(s: Text, t: Token, pieces: seq<Text>, widened: nat)
    requires 0 < t.size <= |s| && pieces != []
    requires if t.cut then t.size == 1 && t.out == [] && s[0] == ';'
             else |t.out| >= t.size && (|t.out| == t.size <==> t.out == s[..t.size])
    requires |Join(pieces)| == |s| - t.size + widened && (Join(pieces) == s[t.size..] <==> widened == 0)
    ensures var joined, more := Join(if t.cut then [[]] + pieces else Prepend(t.out, pieces)),
                               |t.out| + (if t.cut then 1 else 0) - t.size + widened;
      |joined| == |s| + more && (joined == s <==> more == 0)
  {
    assert s == s[..t.size] + s[t.size..];
    if t.cut {
      JoinCut(pieces);
      assert s[..1] == [';'];
    } else {
      JoinPrepended(t.out, pieces);
      var joined := t.out + Join(pieces);
      assert joined[..|t.out|] == t.out && joined[|t.out|..] == Join(pieces);
    }
  }

  /** Joined with semicolons, the pieces give the text back exactly when no dollar tag holds a byte outside ASCII. */
  lemma {:induction false} JoinedPieces(s: Text, m: Mode)
    ensures |Join(Pieces(s, m))| == |s| + Widened(s, m)
    ensures Join(Pieces(s, m)) == s <==> Widened(s, m) == 0
    decreases |s|
  {
    if s != [] {
      var t := Step(s, m);
      TokenIsNoShorter(s, m);
      JoinedPieces(s[t.size..], t.mode);
      JoinedStep(s, t, Pieces(s[t.size..], t.mode), Widened(s[t.size..], t.mode));
    }
  }

  // ----- Positions -----

  /** The mode in which the lexer arrives at position `k`, if a token ends there. */
  function ModeAt(s: Text, m: Mode, k: nat): (r: (bool, Mode))
    requires k <= |s|
    decreases |s|
  {
    if k == 0 then (true, m) else
    var t := Step(s, m);
    if t.size > k then (false, m) else ModeAt(s[t.size..], t.mode, k - t.size)
  }

  /** A semicolon met in top-level mode. */
  predicate IsCut(s: Text, m: Mode, k: nat)
  {
    k < |s| && s[k] == ';' && ModeAt(s, m, k) == (true, Top)
  }

  predicate LooksAhead(b: Byte)
  {
    b == '-' || b == '*' || b == '/'
  }

  lemma {:induction false} NextDollarOfPrefix(s: Text, k: nat, from: nat)
    requires from <= k <= |s|
    ensures NextDollar(s[..k], from) == if NextDollar(s, from) < k then NextDollar(s, from) else k
    decreases k - from
  {
    if from < k && s[from] != '$' {
      NextDollarOfPrefix(s, k, from + 1);
    }
  }

  /** A token that ends within a prefix is the token of the prefix, unless a two-byte token begins at its edge. */
  lemma StepOfPrefix(s: Text, m: Mode, k: nat)
    requires 0 < k <= |s| && Step(s, m).size <= k && (k < |s| ==> !LooksAhead(s[k]))
    ensures Step(s[..k], m) == Step(s, m)
  {
    NextDollarOfPrefix(s, k, 1);
    var j := NextDollar(s, 1);
    if j < k {
      assert s[..k][1..j] == s[1..j];
    }
    if k >= 2 {
      assert s[..k][..2] == s[..2];
    }
  }

  /** The last piece of `a` runs on into the first of `b`. */
  function Glue(a: seq<Text>, b: seq<Text>): seq<Text>
    requires a != [] && b != []
  {
    a[..|a| - 1] + [a[|a| - 1] + b[0]] + b[1..]
  }

  lemma GluePrepended(out: Text, a: seq<Text>, b: seq<Text>)
    requires a != [] && b != []
    ensures Glue(Prepend(out, a), b) == Prepend(out, Glue(a, b))
  {
    var p := Prepend(out, a);
    if |a| == 1 {
      assert out + a[0] + b[0] == out + (a[0] + b[0]);
    } else {
      assert p[|p| - 1] == a[|a| - 1];
      assert p[..|p| - 1] == [out + a[0]] + a[1..|a| - 1];
      assert a[..|a| - 1] == [a[0]] + a[1..|a| - 1];
    }
  }

  lemma GlueAfterCut(a: seq<Text>, b: seq<Text>)
    requires a != [] && b != []
    ensures Glue([[]] + a, b) == [[]] + Glue(a, b)
  {
    assert ([[]] + a)[..|a|] == [[]] + a[..|a| - 1];
  }

  lemma StepAhead(s: Text, m: Mode, t: Token)
    requires s != [] && Step(s, m) == t
    ensures Pieces(s, m) ==
            if t.cut then [[]] + Pieces(s[t.size..], t.mode) else Prepend(t.out, Pieces(s[t.size..], t.mode))
    ensures Widened(s, m) == |t.out| + (if t.cut then 1 else 0) - t.size + Widened(s[t.size..], t.mode)
  {
  }

  /** Reading a text in two parts at a token boundary. */
  lemma {:induction false} ReadInParts(a: Text, b: Text, m: Mode, n: Mode)
    requires ModeAt(a + b, m, |a|) == (true, n) && (b != [] ==> !LooksAhead(b[0]))
    ensures Pieces(a + b, m) == Glue(Pieces(a, m), Pieces(b, n))
    ensures Widened(a + b, m) == Widened(a, m) + Widened(b, n)
    decreases |a|
  {
    if a == [] {
      assert a + b == b;
      assert [] + Pieces(b, n)[0] == Pieces(b, n)[0];
    } else {
      var t := FirstOfBoth(a, b, m, n);
      ReadInParts(a[t.size..], b, t.mode, n);
      ReadOn(a + b, a, b, m, n, t);
    }
  }

  lemma FirstOfBoth(a: Text, b: Text, m: Mode, n: Mode) returns (t: Token)
    requires a != [] && ModeAt(a + b, m, |a|) == (true, n) && (b != [] ==> !LooksAhead(b[0]))
    ensures t == Step(a + b, m) && t == Step(a, m)
    ensures (a + b)[t.size..] == a[t.size..] + b && ModeAt(a[t.size..] + b, t.mode, |a| - t.size) == (true, n)
  {
    t := Step(a + b, m);
    ModeAfterFirst(a + b, m, |a|, n);
    assert (a + b)[..|a|] == a;
    StepOfPrefix(a + b, m, |a|);
    assert (a + b)[t.size..] == a[t.size..] + b;
  }

  lemma ModeAfterFirst(s: Text, m: Mode, k: nat, n: Mode)
    requires 0 < k <= |s| && ModeAt(s, m, k) == (true, n)
    ensures var t := Step(s, m);
      t.size <= k && ModeAt(s[t.size..], t.mode, k - t.size) == (true, n)
  {
  }

  /** If the text after the first token can be read in two parts, so can the whole. */
  lemma ReadOn(s: Text, part: Text, b: Text, m: Mode, n: Mode, t: Token)
    requires s != [] && part != [] && t == Step(s, m) && t == Step(part, m)
    requires Pieces(s[t.size..], t.mode) == Glue(Pieces(part[t.size..], t.mode), Pieces(b, n))
    requires Widened(s[t.size..], t.mode) == Widened(part[t.size..], t.mode) + Widened(b, n)
    ensures Pieces(s, m) == Glue(Pieces(part, m), Pieces(b, n))
    ensures Widened(s, m) == Widened(part, m) + Widened(b, n)
  {
    StepAhead(s, m, t);
    StepAhead(part, m, t);
    GlueFirst(t, Pieces(part[t.size..], t.mode), Pieces(b, n));
  }

  lemma GlueFirst(t: Token, a: seq<Text>, b: seq<Text>)
    requires a != [] && b != []
    ensures if t.cut then Glue([[]] + a, b) == [[]] + Glue(a, b)
            else Glue(Prepend(t.out, a), b) == Prepend(t.out, Glue(a, b))
  {
    if t.cut {
      GlueAfterCut(a, b);
    } else {
      GluePrepended(t.out, a, b);
    }
  }

  lemma GlueAtCut(a: seq<Text>, b: seq<Text>)
    requires a != []
    ensures Glue(a, [[]] + b) == a + b
  {
    assert a[|a| - 1] + [] == a[|a| - 1];
  }

  /** A cut splits the work: what is before it and what is after it are read as if each stood alone. */
  lemma CutSplits(s: Text, m: Mode, k: nat)
    requires IsCut(s, m, k)
    ensures Pieces(s, m) == Pieces(s[..k], m) + Pieces(s[k + 1..], Top)
    ensures Widened(s, m) == Widened(s[..k], m) + Widened(s[k + 1..], Top)
  {
    assert s == s[..k] + ([';'] + s[k + 1..]);
    CutInTwo(s[..k], s[k + 1..], m);
  }

  lemma CutInTwo(before: Text, after: Text, m: Mode)
    requires ModeAt(before + ([';'] + after), m, |before|) == (true, Top)
    ensures Pieces(before + ([';'] + after), m) == Pieces(before, m) + Pieces(after, Top)
    ensures Widened(before + ([';'] + after), m) == Widened(before, m) + Widened(after, Top)
  {
    var rest := [';'] + after;
    ReadInParts(before, rest, m, Top);
    StepAhead(rest, Top, Token(1, Top, [], true));
    assert rest[1..] == after;
    GlueAtCut(Pieces(before, m), Pieces(after, Top));
  }

  // ----- Cuts are the semicolons of top-level mode -----

  /** Positions beyond the first token. */
  lemma CutAhead(s: Text, m: Mode, t: Token, k: nat)
    requires s != [] && t == Step(s, m) && t.size <= k
    ensures IsCut(s, m, k) <==> IsCut(s[t.size..], t.mode, k - t.size)
  {
  }

  lemma CutAtHead(s: Text, m: Mode, t: Token, k: nat)
    requires s != [] && t == Step(s, m) && k < t.size
    ensures IsCut(s, m, k) <==> k == 0 && t.cut
  {
  }

  lemma {:induction false} SeveralPiecesHaveCut(s: Text, m: Mode) returns (k: nat)
    requires |Pieces(s, m)| > 1
    ensures IsCut(s, m, k)
    decreases |s|
  {
    var t := Step(s, m);
    if t.cut {
      k := 0;
    } else {
      var j := SeveralPiecesHaveCut(s[t.size..], t.mode);
      k := j + t.size;
      CutAhead(s, m, t, k);
    }
  }

  lemma {:induction false} CutMakesPieces(s: Text, m: Mode, k: nat)
    requires IsCut(s, m, k)
    ensures |Pieces(s, m)| > 1
    decreases |s|
  {
    var t := Step(s, m);
    StepAhead(s, m, t);
    if t.size <= k {
      CutAhead(s, m, t, k);
      CutMakesPieces(s[t.size..], t.mode, k - t.size);
    } else {
      CutAtHead(s, m, t, k);
    }
  }

  /** The text is left in one piece exactly when no semicolon is met in top-level mode. */
  lemma OnePieceIfNoCut(s: Text, m: Mode)
    ensures |Pieces(s, m)| == 1 <==> forall k: nat :: !IsCut(s, m, k)
  {
    if |Pieces(s, m)| > 1 {
      var k := SeveralPiecesHaveCut(s, m);
    }
    forall k: nat | IsCut(s, m, k) ensures |Pieces(s, m)| > 1 {
      CutMakesPieces(s, m, k);
    }
  }

  // ----- Each piece stands alone -----

  /** Pieces of a text without re-encoded tags are read back as they are. */
  lemma {:induction false} PiecesStandAlone(s: Text, i: nat)
    requires Widened(s, Top) == 0 && i < |Pieces(s, Top)|
    ensures var p := Pieces(s, Top)[i]; Pieces(p, Top) == [p] && Widened(p, Top) == 0
    decreases |s|
  {
    OnePieceIfNoCut(s, Top);
    JoinedPieces(s, Top);
    if |Pieces(s, Top)| > 1 {
      var k: nat :| IsCut(s, Top, k);
      CutSplits(s, Top, k);
      var n := |Pieces(s[..k], Top)|;
      if i < n {
        PiecesStandAlone(s[..k], i);
      } else {
        PiecesStandAlone(s[k + 1..], i - n);
      }
    }
  }

  // ----- A re-encoded tag is re-encoded again -----

  predicate HasAsciiTag(m: Mode)
  {
    m.Dollar? ==> forall i :: 0 <= i < |m.tag| ==> IsAscii(m.tag[i])
  }

  lemma EncodedIsAscii(tag: Text)
    ensures AllAscii(Encoded(tag)) <==> AllAscii(tag)
  {
    if tag != [] {
      var front, last := tag[..|tag| - 1], tag[|tag| - 1];
      assert tag == front + [last];
      assert Encoded(tag) == Encoded(front) + Utf8(last);
      EncodedIsAscii(front);
      if AllAscii(Encoded(tag)) {
        assert forall i :: 0 <= i < |Encoded(front)| ==> Encoded(front)[i] == Encoded(tag)[i];
        assert Encoded(tag)[|Encoded(front)|] == Utf8(last)[0];
      }
    }
  }

  /** Only dollar tokens are re-encoded, so a text without `$` keeps its length. */
  lemma {:induction false} NoDollarNoWidening(s: Text, m: Mode)
    requires '$' !in s
    ensures Widened(s, m) == 0
    decreases |s|
  {
    if s != [] {
      var t := Step(s, m);
      StepAhead(s, m, t);
      NoDollarNoWidening(s[t.size..], t.mode);
    }
  }

  /** The first byte written is the first byte read. */
  lemma WritesFirst(s: Text, m: Mode)
    requires s != [] && |Pieces(s, m)| == 1
    ensures !Step(s, m).cut && Pieces(s, m)[0] != [] && Pieces(s, m)[0][0] == s[0]
  {
    var t := Step(s, m);
    StepAhead(s, m, t);
    StepWritesFirst(s, m);
    assert Pieces(s, m)[0] == t.out + Pieces(s[t.size..], t.mode)[0];
  }

  lemma StepWritesFirst(s: Text, m: Mode)
    requires s != [] && !Step(s, m).cut
    ensures Step(s, m).out != [] && Step(s, m).out[0] == s[0]
  {
  }

  /** Inside a dollar quote everything up to the next `$` is written as it is. */
  lemma {:induction false} WritesUpToDollar(s: Text, m: Mode, j: nat)
    requires m.Dollar? && j == NextDollar(s, 0) < |s| && |Pieces(s, m)| == 1
    ensures |Pieces(s, m)[0]| > j && NextDollar(Pieces(s, m)[0], 0) == j
    ensures Pieces(s, m)[0][..j] == s[..j]
    decreases |s|
  {
    var e := Pieces(s, m)[0];
    WritesFirst(s, m);
    if j > 0 {
      var t := Plain(s[0], m);
      StepAhead(s, m, t);
      NextDollarOfTail(s, 1);
      WritesUpToDollar(s[1..], m, j - 1);
      var e' := Pieces(s[1..], m)[0];
      assert e == [s[0]] + e';
      OneByteBefore(s, e', j);
      NextDollarOfTail(e, 1);
    }
  }

  lemma OneByteBefore(s: Text, e: Text, j: nat)
    requires 0 < j <= |s| && j - 1 <= |e| && e[..j - 1] == s[1..][..j - 1]
    ensures ([s[0]] + e)[1..] == e && ([s[0]] + e)[..j] == s[..j]
  {
    assert s[..j] == [s[0]] + s[1..][..j - 1];
    assert ([s[0]] + e)[..j] == [s[0]] + e[..j - 1];
  }

  lemma {:induction false} NextDollarOfTail(s: Text, from: nat)
    requires from <= |s|
    ensures NextDollar(s, from) == from + NextDollar(s[from..], 0)
    decreases |s| - from
  {
    if from < |s| && s[from] != '$' {
      NextDollarOfTail(s, from + 1);
      NextDollarOfTail(s[from..], 1);
      assert s[from..][1..] == s[from + 1..];
    }
  }

  /** `e` agrees with `s` up to its first `$` after the head. */
  lemma SameNextDollar(s: Text, e: Text, j: nat)
    requires s != [] && e != [] && 1 <= j < |s| && j == NextDollar(s, 1)
    requires |e| > j && e[..j + 1] == s[..j + 1]
    ensures NextDollar(e, 1) == j && e[1..j] == s[1..j]
  {
    NextDollarOfPrefix(s, j + 1, 1);
    NextDollarOfPrefix(e, j + 1, 1);
    SliceOfPrefix(s, j);
    SliceOfPrefix(e, j);
  }

  lemma SliceOfPrefix(s: Text, j: nat)
    requires 1 <= j < |s|
    ensures s[..j + 1][1..j] == s[1..j]
  {
  }

  /** The next `$` is found again in what a text inside a dollar quote writes. */
  lemma DollarTextKept(s: Text, m: Mode, e: Text)
    requires m.Dollar? && s != [] && s[0] == '$' && NextDollar(s, 1) < |s|
    requires |Pieces(s[1..], m)| == 1 && e == [s[0]] + Pieces(s[1..], m)[0]
    ensures |e| > NextDollar(s, 1) && NextDollar(e, 1) == NextDollar(s, 1)
    ensures e[1..NextDollar(e, 1)] == s[1..NextDollar(s, 1)]
  {
    var j := NextDollar(s, 1);
    NextDollarOfTail(s, 1);
    WritesUpToDollar(s[1..], m, j - 1);
    var e' := Pieces(s[1..], m)[0];
    assert e[1..] == e';
    NextDollarOfTail(e, 1);
    assert e[1..j] == e'[..j - 1] && s[1..j] == s[1..][..j - 1];
  }

  /** A token written as it is read comes first again when what was written is read. */
  lemma StepOfWritten(s: Text, m: Mode, t: Token, e': Text)
    requires s != [] && t == Step(s, m) && !t.cut && t.out == s[..t.size]
    requires |Pieces(s[t.size..], t.mode)| == 1 && e' == Pieces(s[t.size..], t.mode)[0]
    requires Widened(s[t.size..], t.mode) > 0
    ensures Step(t.out + e', m) == t
  {
    var rest, e := s[t.size..], t.out + e';
    WritesFirst(rest, t.mode);
    if s[0] == '$' && (m.Top? || m.Dollar?) {
      if '$' !in rest {
        NoDollarNoWidening(rest, t.mode);
      }
      DollarOfWritten(s, m, t, e');
    } else {
      SameLookAhead(s, m, e, t);
    }
  }

  lemma SameLookAhead(s: Text, m: Mode, e: Text, t: Token)
    requires s != [] && t == Step(s, m) && t.size < |s| && t.size < |e|
    requires e[..t.size] == s[..t.size] && e[t.size] == s[t.size]
    requires s[0] == '$' ==> !m.Top? && !m.Dollar?
    ensures Step(e, m) == t
  {
    assert forall i :: 0 <= i < t.size ==> e[i] == e[..t.size][i] && s[i] == s[..t.size][i];
    if t.size == 2 {
      assert e[..2] == s[..2];
    }
  }

  lemma DollarOfWritten(s: Text, m: Mode, t: Token, e': Text)
    requires s != [] && s[0] == '$' && (m.Top? || m.Dollar?)
    requires t == Step(s, m) && t.out == s[..t.size] && '$' in s[t.size..]
    requires |Pieces(s[t.size..], t.mode)| == 1 && e' == Pieces(s[t.size..], t.mode)[0]
    ensures Step(t.out + e', m) == t
  {
    var j, e := NextDollar(s, 1), t.out + e';
    if t.size == 1 {
      assert j < |s|;
      DollarTextKept(s, m, e);
    } else {
      assert e[..j + 1] == s[..j + 1];
      SameNextDollar(s, e, j);
    }
  }

  /** Reading again what was written re-encodes again. */
  lemma {:induction false} WidenedAgain(s: Text, m: Mode)
    requires |Pieces(s, m)| == 1 && HasAsciiTag(m) && Widened(s, m) > 0
    ensures Widened(Pieces(s, m)[0], m) > 0
    decreases |s|
  {
    var t := Step(s, m);
    var rest := s[t.size..];
    StepAhead(s, m, t);
    TokenIsNoShorter(s, m);
    var e' := Pieces(rest, t.mode)[0];
    var e := t.out + e';
    if |t.out| > t.size {
      OpensAgain(s, m, e');
    } else {
      TagStaysAscii(s, m);
      WidenedAgain(rest, t.mode);
      StepOfWritten(s, m, t, e');
      StepAhead(e, m, t);
      assert e[t.size..] == e';
    }
  }

  lemma TagStaysAscii(s: Text, m: Mode)
    requires s != [] && HasAsciiTag(m) && |Step(s, m).out| == Step(s, m).size
    ensures HasAsciiTag(Step(s, m).mode)
  {
    if m.Top? && s[0] == '$' && NextDollar(s, 1) < |s| {
      EncodedLength(s[1..NextDollar(s, 1)]);
    }
  }

  /** A token that grew opened a dollar quote, and its encoded tag grows again. */
  lemma OpensAgain(s: Text, m: Mode, e': Text)
    requires s != [] && HasAsciiTag(m) && |Step(s, m).out| > Step(s, m).size
    ensures Widened(Step(s, m).out + e', m) > 0
  {
    GrownIsDollar(s, m);
    var tag := s[1..NextDollar(s, 1)];
    EncodedLength(tag);
    EncodedIsAscii(tag);
    if m.Dollar? {
      assert AllAscii(Encoded(tag));
      assert false;
    }
    TagWidens(Encoded(tag), e');
  }

  lemma GrownIsDollar(s: Text, m: Mode)
    requires s != [] && |Step(s, m).out| > Step(s, m).size
    ensures s[0] == '$' && NextDollar(s, 1) < |s| && (m.Top? || (m.Dollar? && m.tag == Encoded(s[1..NextDollar(s, 1)])))
    ensures Step(s, m).size == NextDollar(s, 1) + 1
    ensures Step(s, m).out == ['$'] + Encoded(s[1..NextDollar(s, 1)]) + ['$']
  {
  }

  /** A dollar quote opened again with its tag. */
  lemma TagReadAgain(tag: Text, rest: Text)
    requires '$' !in tag
    ensures var e := ['$'] + tag + ['$'] + rest;
      NextDollar(e, 1) == |tag| + 1 && e[1..|tag| + 1] == tag
  {
    var e, k := ['$'] + tag + ['$'] + rest, |tag| + 1;
    assert e[k] == '$' && e[1..k] == tag;
    assert forall i :: 1 <= i < k ==> e[i] == tag[i - 1];
  }

  lemma TagWidens(tag: Text, rest: Text)
    requires '$' !in tag && !AllAscii(tag)
    ensures Widened(['$'] + tag + ['$'] + rest, Top) > 0
  {
    var e := ['$'] + tag + ['$'] + rest;
    TagReadAgain(tag, rest);
    EncodedLength(tag);
    assert e[0] == '$' && |e| > |tag| + 1;
    StepAhead(e, Top, Step(e, Top));
    TokenIsNoShorter(e, Top);
  }

  /** Every piece is read back as it is exactly when no dollar tag was re-encoded. */
  lemma PiecesStandAloneIff(s: Text)
    ensures (forall i :: 0 <= i < |Pieces(s, Top)| ==> Pieces(Pieces(s, Top)[i], Top) == [Pieces(s, Top)[i]])
       <==> Widened(s, Top) == 0
  {
    if Widened(s, Top) == 0 {
      forall i | 0 <= i < |Pieces(s, Top)| ensures Pieces(Pieces(s, Top)[i], Top) == [Pieces(s, Top)[i]] {
        PiecesStandAlone(s, i);
      }
    } else {
      var i := SomePieceChanges(s);
    }
  }

  lemma {:induction false} SomePieceChanges(s: Text) returns (i: nat)
    requires Widened(s, Top) > 0
    ensures i < |Pieces(s, Top)| && Pieces(Pieces(s, Top)[i], Top) != [Pieces(s, Top)[i]]
    decreases |s|
  {
    if |Pieces(s, Top)| == 1 {
      i := 0;
      OnlyPieceChanges(s);
    } else {
      var k := SeveralPiecesHaveCut(s, Top);
      CutSplits(s, Top, k);
      var before, after := Pieces(s[..k], Top), Pieces(s[k + 1..], Top);
      if Widened(s[..k], Top) > 0 {
        i := SomePieceChanges(s[..k]);
        assert (before + after)[i] == before[i];
      } else {
        var j := SomePieceChanges(s[k + 1..]);
        i := j + |before|;
        assert (before + after)[i] == after[j];
      }
    }
  }

  lemma OnlyPieceChanges(s: Text)
    requires |Pieces(s, Top)| == 1 && Widened(s, Top) > 0
    ensures Pieces(Pieces(s, Top)[0], Top) != [Pieces(s, Top)[0]]
  {
    WidenedAgain(s, Top);
    JoinedPieces(Pieces(s, Top)[0], Top);
  }
}
