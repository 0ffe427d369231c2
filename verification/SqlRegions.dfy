// What the statement splitter of pkg/db/migrate.go does with comments, quotes
// and dollar quotes, said of the text alone: where each begins and ends, and
// that semicolons inside do not count.
module SqlRegions {
  import opened Common
  import opened SqlLexer
  import opened SqlSplitter

  /** A stretch of text that begins with one mark and ends with another. */
  datatype Kind = Line | Block | SingleQuoted | DoubleQuoted | DollarQuoted(tag: Text)

  function Opening(k: Kind): Text
  {
    match k
    case Line => ['-', '-']
    case Block => ['/', '*']
    case SingleQuoted => ['\'']
    case DoubleQuoted => ['"']
    case DollarQuoted(tag) => ['$'] + tag + ['$']
  }

  function Closing(k: Kind): Text
  {
    match k
    case Line => ['\n']
    case Block => ['*', '/']
    case SingleQuoted => ['\'']
    case DoubleQuoted => ['"']
    case DollarQuoted(tag) => ['$'] + tag + ['$']
  }

  /** A dollar tag is ASCII and has no `$`. */
  ghost predicate IsKind(k: Kind)
  {
    k.DollarQuoted? ==> AllAscii(k.tag) && '$' !in k.tag
  }

  /** The first closing mark in `text` is at position `n`, or there is none if `n` is its end. */
  ghost predicate FirstClosing(mark: Text, text: Text, n: nat)
    requires n <= |text|
  {
    (forall i :: 0 <= i < n ==> !ClosesAt(mark, text, i)) && (n < |text| ==> ClosesAt(mark, text, n))
  }

  /** A closing mark stands at position `i`. */
  ghost predicate ClosesAt(mark: Text, text: Text, i: nat)
    requires i <= |text|
  {
    mark <= text[i..]
  }

  /** Text outside all of them that holds no byte a mark or a cut begins with. */
  ghost predicate IsPlain(text: Text)
  {
    forall i :: 0 <= i < |text| ==> IsInert(text[i])
  }

  // ----- Inside -----

  /** The mode the lexer is in behind the opening mark. */
  function Inside(k: Kind): Mode
  {
    match k
    case Line => LineComment
    case Block => BlockComment
    case SingleQuoted => Single
    case DoubleQuoted => Double
    case DollarQuoted(tag) => Dollar(tag)
  }

  /** A dollar tag that reads like an ASCII one is that one. */
  lemma SameTag(x: Text, tag: Text)
    requires AllAscii(tag)
    ensures Encoded(x) == tag <==> x == tag
  {
    EncodedLength(x);
    EncodedLength(tag);
    EncodedIsAscii(x);
  }

  /** A dollar quote closes exactly where its tag stands between two `$`. */
  lemma ClosesDollar(tag: Text, s: Text)
    requires AllAscii(tag) && '$' !in tag && s != [] && s[0] == '$'
    ensures var j := NextDollar(s, 1);
      ['$'] + tag + ['$'] <= s <==> j < |s| && s[1..j] == tag
  {
    var j, mark := NextDollar(s, 1), ['$'] + tag + ['$'];
    if mark <= s {
      assert forall i :: 0 <= i < |tag| ==> s[i + 1] == mark[i + 1] == tag[i];
      assert s[|tag| + 1] == mark[|tag| + 1] == '$';
      assert j == |tag| + 1;
      assert s[1..j] == tag;
    }
    if j < |s| && s[1..j] == tag {
      assert s[..j + 1] == mark;
    }
  }

  lemma DollarStep(tag: Text, s: Text)
    requires AllAscii(tag) && '$' !in tag && s != []
    ensures var mark := ['$'] + tag + ['$'];
      Step(s, Dollar(tag)) == if mark <= s then Token(|tag| + 2, Top, mark, false) else Plain(s[0], Dollar(tag))
  {
    if s[0] == '$' {
      var j := NextDollar(s, 1);
      ClosesDollar(tag, s);
      if j < |s| {
        SameTag(s[1..j], tag);
      }
    }
  }

  /** Inside, a token is the closing mark where the text begins with it, and else the next byte. */
  lemma InsideStep(k: Kind, s: Text)
    requires IsKind(k) && s != []
    ensures Step(s, Inside(k)) ==
      if Closing(k) <= s then Token(|Closing(k)|, Top, Closing(k), false) else Plain(s[0], Inside(k))
  {
    match k
    case DollarQuoted(tag) =>
      DollarStep(tag, s);
    case Block =>
      assert ['*', '/'] <= s <==> StartsWith(s, '*', '/');
    case _ =>
      assert Closing(k) <= s <==> Closing(k)[0] == s[0];
  }

  lemma InsideAhead(k: Kind, text: Text)
    requires IsKind(k) && text != []
    ensures Pieces(text, Inside(k)) ==
      if Closing(k) <= text then Prepend(Closing(k), Pieces(text[|Closing(k)|..], Top))
      else Prepend([text[0]], Pieces(text[1..], Inside(k)))
  {
    InsideStep(k, text);
    StepAhead(text, Inside(k), Step(text, Inside(k)));
  }

  /** The opening mark is the first token. */
  lemma OpeningStep(k: Kind, rest: Text) returns (t: Token)
    requires IsKind(k)
    ensures t == Step(Opening(k) + rest, Top) && !t.cut && t.size <= |Opening(k)|
    ensures t.mode == Inside(k) && t.out == Opening(k)[..t.size]
    ensures t.size < |Opening(k)| ==> k.Line? && t.size == 1
  {
    var s := Opening(k) + rest;
    t := Step(s, Top);
    if k.DollarQuoted? {
      OpensDollar(k.tag, rest);
    } else {
      assert s[0] == Opening(k)[0] && (|Opening(k)| > 1 ==> s[1] == Opening(k)[1]);
    }
  }

  lemma OpensDollar(tag: Text, rest: Text)
    requires AllAscii(tag) && '$' !in tag
    ensures var mark := ['$'] + tag + ['$'];
      Step(mark + rest, Top) == Token(|mark|, Dollar(tag), mark, false)
  {
    var s := ['$'] + tag + ['$'] + rest;
    ClosesDollar(tag, s);
    SameTag(tag, tag);
  }

  lemma FirstClosingInTail(mark: Text, text: Text, n: nat)
    requires 0 < n <= |text| && FirstClosing(mark, text, n)
    ensures !(mark <= text) && FirstClosing(mark, text[1..], n - 1)
  {
    assert !ClosesAt(mark, text, 0) && text[0..] == text;
    forall i | 0 <= i < |text|
      ensures ClosesAt(mark, text[1..], i) == ClosesAt(mark, text, i + 1)
    {
      assert text[1..][i..] == text[i + 1..];
    }
  }

  lemma FirstClosingAtStart(mark: Text, text: Text)
    requires text != [] && FirstClosing(mark, text, 0)
    ensures mark <= text
  {
    assert ClosesAt(mark, text, 0) && text[0..] == text;
  }

  type Reader = Text -> seq<Text>

  function ReadIn(m: Mode): Reader
  {
    (text: Text) => Pieces(text, m)
  }

  /** One step of a reader that is inside: the closing mark, and then another reader, or the next byte. */
  ghost predicate StepsOn(mark: Text, text: Text, inside: Reader, top: Reader)
    requires text != []
  {
    if mark <= text then
      var rest := top(text[|mark|..]);
      rest != [] && inside(text) == Prepend(mark, rest)
    else
      var rest := inside(text[1..]);
      rest != [] && inside(text) == Prepend([text[0]], rest)
  }

  ghost predicate ReadsInside(mark: Text, inside: Reader, top: Reader)
  {
    && inside([]) == [[]] && (forall text: Text :: top(text) != [])
    && forall text: Text {:trigger StepsOn(mark, text, inside, top)} :: text != [] ==> StepsOn(mark, text, inside, top)
  }

  lemma LexerReadsInside(k: Kind)
    requires IsKind(k)
    ensures ReadsInside(Closing(k), ReadIn(Inside(k)), ReadIn(Top))
  {
    forall text: Text | text != []
      ensures StepsOn(Closing(k), text, ReadIn(Inside(k)), ReadIn(Top))
    {
      InsideAhead(k, text);
    }
  }

  /** Up to position `m` the text is copied, and from there read at top level. */
  ghost predicate CopiedTo(text: Text, m: nat, inside: Reader, top: Reader)
    requires m <= |text|
  {
    top(text[m..]) != [] && inside(text) == Prepend(text[..m], top(text[m..]))
  }

  lemma {:induction false} InsideIsWhole(mark: Text, text: Text, n: nat, m: nat, inside: Reader, top: Reader)
    requires ReadsInside(mark, inside, top) && n < |text| && FirstClosing(mark, text, n) && m == n + |mark|
    ensures m <= |text| && CopiedTo(text, m, inside, top)
    decreases n
  {
    if n == 0 {
      FirstClosingAtStart(mark, text);
      CopiedToMark(mark, text, m, inside, top);
    } else {
      FirstClosingInTail(mark, text, n);
      InsideIsWhole(mark, text[1..], n - 1, m - 1, inside, top);
      CopiedFurther(mark, text, m, inside, top);
    }
  }

  lemma CopiedToMark(mark: Text, text: Text, m: nat, inside: Reader, top: Reader)
    requires text != [] && ReadsInside(mark, inside, top) && mark <= text && m == |mark|
    ensures CopiedTo(text, m, inside, top)
  {
    assert StepsOn(mark, text, inside, top);
    assert text[..m] == mark;
  }

  lemma CopiedFurther(mark: Text, text: Text, m: nat, inside: Reader, top: Reader)
    requires ReadsInside(mark, inside, top) && 0 < m <= |text| && !(mark <= text)
    requires CopiedTo(text[1..], m - 1, inside, top)
    ensures CopiedTo(text, m, inside, top)
  {
    assert StepsOn(mark, text, inside, top);
    OneByteMore(text, m, top(text[m..]));
  }

  lemma OneByteMore(text: Text, m: nat, pieces: seq<Text>)
    requires 0 < m <= |text| && pieces != []
    ensures text[1..][m - 1..] == text[m..]
    ensures Prepend([text[0]], Prepend(text[1..][..m - 1], pieces)) == Prepend(text[..m], pieces)
  {
    assert text[..m] == [text[0]] + text[1..][..m - 1];
    PrependTwice([text[0]], text[1..][..m - 1], pieces);
  }

  lemma {:induction false} InsideTakesRest(mark: Text, text: Text, inside: Reader, top: Reader)
    requires ReadsInside(mark, inside, top) && FirstClosing(mark, text, |text|)
    ensures inside(text) == [text]
  {
    if text != [] {
      assert StepsOn(mark, text, inside, top);
      FirstClosingInTail(mark, text, |text|);
      InsideTakesRest(mark, text[1..], inside, top);
      assert [text[0]] + text[1..] == text;
    }
  }

  // ----- Whole regions -----

  /** The opening mark is kept, and what follows is read inside. */
  lemma Opens(k: Kind, text: Text)
    requires IsKind(k)
    ensures Pieces(Opening(k) + text, Top) == Prepend(Opening(k), Pieces(text, Inside(k)))
  {
    var s := Opening(k) + text;
    var t := OpeningStep(k, text);
    StepAhead(s, Top, t);
    if t.size == |Opening(k)| {
      assert s[t.size..] == text && t.out == Opening(k);
    } else {
      var rest := s[1..];
      assert rest == ['-'] + text;
      InsideAhead(k, rest);
      assert rest[1..] == text;
      PrependTwice(['-'], ['-'], Pieces(text, Inside(k)));
      assert t.out == ['-'] && ['-'] + ['-'] == Opening(k);
    }
  }

  /**
    * A comment, a quote or a dollar quote goes up to the first closing mark
    * behind its opening mark, whatever it holds, and what follows is read at
    * top level.
    */
  lemma RegionIsWhole(k: Kind, body: Text, rest: Text)
    requires IsKind(k) && FirstClosing(Closing(k), body + Closing(k), |body|)
    ensures var u := Opening(k) + body + Closing(k);
      Pieces(u + rest, Top) == Prepend(u, Pieces(rest, Top))
  {
    var closed := body + Closing(k);
    ClosedEarly(k, body, rest);
    Opens(k, closed + rest);
    BodyIsWhole(k, closed, rest, |body|);
    PrependTwice(Opening(k), closed, Pieces(rest, Top));
    PlusIsAssociative(Opening(k), body, Closing(k));
    PlusIsAssociative(Opening(k), closed, rest);
  }

  lemma BodyIsWhole(k: Kind, closed: Text, rest: Text, n: nat)
    requires IsKind(k) && n + |Closing(k)| == |closed| && FirstClosing(Closing(k), closed + rest, n)
    ensures Pieces(closed + rest, Inside(k)) == Prepend(closed, Pieces(rest, Top))
  {
    var text := closed + rest;
    LexerReadsInside(k);
    InsideIsWhole(Closing(k), text, n, n + |Closing(k)|, ReadIn(Inside(k)), ReadIn(Top));
    assert text[..|closed|] == closed && text[|closed|..] == rest;
  }

  /** Where the first closing mark is does not depend on what follows it. */
  lemma ClosedEarly(k: Kind, body: Text, rest: Text)
    requires FirstClosing(Closing(k), body + Closing(k), |body|)
    ensures FirstClosing(Closing(k), body + Closing(k) + rest, |body|)
  {
    var closed, mark := body + Closing(k), Closing(k);
    forall i | 0 <= i < |body|
      ensures !ClosesAt(Closing(k), closed + rest, i)
    {
      BeginsInFront(mark, closed, rest, i);
      assert !ClosesAt(Closing(k), closed, i);
    }
    assert (closed + rest)[|body|..] == mark + rest;
  }

  lemma BeginsInFront(mark: Text, a: Text, b: Text, i: nat)
    requires i + |mark| <= |a|
    ensures mark <= (a + b)[i..] <==> mark <= a[i..]
  {
    assert (a + b)[i..] == a[i..] + b;
  }

  /** Without a closing mark it takes all the rest, in one piece. */
  lemma OpenRegionTakesRest(k: Kind, body: Text)
    requires IsKind(k) && FirstClosing(Closing(k), body, |body|)
    ensures Pieces(Opening(k) + body, Top) == [Opening(k) + body]
  {
    Opens(k, body);
    LexerReadsInside(k);
    InsideTakesRest(Closing(k), body, ReadIn(Inside(k)), ReadIn(Top));
  }

  /** Plain text is copied, and a semicolon behind it ends a statement. */
  lemma PlainThenCut(u: Text, rest: Text)
    requires IsPlain(u)
    ensures Pieces(u + rest, Top) == Prepend(u, Pieces(rest, Top))
    ensures Pieces(u + ([';'] + rest), Top) == [u] + Pieces(rest, Top)
  {
    InertPrefix(u, rest);
    var s := [';'] + rest;
    InertPrefix(u, s);
    StepAhead(s, Top, Step(s, Top));
    assert s[1..] == rest;
    assert u + [] == u;
  }

  /** No opening mark begins here: a `$` has no other one behind it, a dash is not doubled, a slash is not before a
      star. */
  ghost predicate NoMark(s: Text)
    requires s != []
  {
    && !(Opening(Line) <= s) && !(Opening(Block) <= s)
    && !(Opening(SingleQuoted) <= s) && !(Opening(DoubleQuoted) <= s) && (s[0] == '$' ==> '$' !in s[1..])
  }

  lemma LonelyDollar(s: Text)
    requires s != [] && '$' !in s[1..]
    ensures NextDollar(s, 1) == |s|
  {
    assert forall i :: 1 <= i < |s| ==> s[1..][i - 1] == s[i];
  }

  lemma NoMarkStep(s: Text)
    requires s != [] && s[0] != ';' && NoMark(s)
    ensures Step(s, Top) == Plain(s[0], Top)
  {
    if s[0] == '$' {
      LonelyDollar(s);
    }
    assert StartsWith(s, '-', '-') ==> ['-', '-'] <= s;
    assert StartsWith(s, '/', '*') ==> ['/', '*'] <= s;
    assert s[0] == '\'' ==> ['\''] <= s;
    assert s[0] == '"' ==> ['"'] <= s;
  }

  /** Any other byte is copied too. */
  lemma OtherByteIsCopied(s: Text)
    requires s != [] && s[0] != ';' && NoMark(s)
    ensures Pieces(s, Top) == Prepend([s[0]], Pieces(s[1..], Top))
  {
    NoMarkStep(s);
    StepAhead(s, Top, Plain(s[0], Top));
  }

  // ----- The statements -----

  /** What is copied in front of a text becomes the beginning of its first statement. */
  lemma CopiedInFront(u: Text, rest: Text)
    requires Pieces(u + rest, Top) == Prepend(u, Pieces(rest, Top))
    ensures var p := Pieces(rest, Top);
      Split(u + rest) ==
      if |p| == 1 then Alone(Trim(u + p[0])) else [u + Split(rest)[0]] + Split(rest)[1..]
  {
    var p := Pieces(rest, Top);
    if |p| > 1 {
      LastTrimmedOfPrepend(u, p);
    }
  }

  lemma LastTrimmedOfPrepend(u: Text, p: seq<Text>)
    requires |p| > 1
    ensures LastTrimmed(p) != [] && LastTrimmed(Prepend(u, p)) == [u + LastTrimmed(p)[0]] + LastTrimmed(p)[1..]
  {
    var q, n := Prepend(u, p), |p| - 1;
    assert q[n] == p[n];
    assert q[..n] == [u + p[0]] + p[..n][1..];
    assert LastTrimmed(p)[0] == p[0];
    assert LastTrimmed(p)[1..] == p[..n][1..] + Alone(Trim(p[n]));
  }

  /** A region alone is one statement, closed or not: no semicolon in it ends one. */
  lemma RegionIsOneStatement(k: Kind, body: Text)
    requires IsKind(k)
    ensures FirstClosing(Closing(k), body + Closing(k), |body|) ==>
      Split(Opening(k) + body + Closing(k)) == Alone(Trim(Opening(k) + body + Closing(k)))
    ensures FirstClosing(Closing(k), body, |body|) ==> Split(Opening(k) + body) == Alone(Trim(Opening(k) + body))
  {
    if FirstClosing(Closing(k), body + Closing(k), |body|) {
      var u := Opening(k) + body + Closing(k);
      RegionIsWhole(k, body, []);
      assert u + [] == u;
    }
    if FirstClosing(Closing(k), body, |body|) {
      OpenRegionTakesRest(k, body);
    }
  }

  /** So the statements of a text that begins with a region are those of the rest, with the region in front. */
  lemma RegionStaysInStatement(k: Kind, body: Text, rest: Text)
    requires IsKind(k) && FirstClosing(Closing(k), body + Closing(k), |body|)
    ensures var u, p := Opening(k) + body + Closing(k), Pieces(rest, Top);
      Split(u + rest) ==
      if |p| == 1 then Alone(Trim(u + p[0])) else [u + Split(rest)[0]] + Split(rest)[1..]
  {
    RegionIsWhole(k, body, rest);
    CopiedInFront(Opening(k) + body + Closing(k), rest);
  }
}
