// `splitSQLStatements` (pkg/db/migrate.go): the index loop over five mode
// flags, checked against the lexer, and what its result promises.
module SqlSplitter {
  import opened SqlLexer

  // ----- strings.TrimSpace -----

  predicate IsAsciiSpace(b: Byte)
  {
    '\t' <= b <= '\r' || b == ' '
  }

  /** The encodings of U+1680, U+2000 to U+200A, U+2028, U+2029, U+202F, U+205F and U+3000. */
  predicate IsWideSpace(a: Byte, b: Byte, c: Byte)
  {
    || (a == '\U{E1}' && b == '\U{9A}' && c == '\U{80}')
    || (a == '\U{E2}' && b == '\U{80}' &&
        ('\U{80}' <= c <= '\U{8A}' || c == '\U{A8}' || c == '\U{A9}' || c == '\U{AF}'))
    || (a == '\U{E2}' && b == '\U{81}' && c == '\U{9F}')
    || (a == '\U{E3}' && b == '\U{80}' && c == '\U{80}')
  }

  predicate IsLatinSpace(a: Byte, b: Byte)
  {
    a == '\U{C2}' && (b == '\U{85}' || b == '\U{A0}')
  }

  /** How many bytes the white space character at the start of `s` takes, if there is one. */
  function SpaceAtStart(s: Text): (n: nat)
    ensures n <= |s|
  {
    if s != [] && IsAsciiSpace(s[0]) then 1
    else if |s| >= 2 && IsLatinSpace(s[0], s[1]) then 2
    else if |s| >= 3 && IsWideSpace(s[0], s[1], s[2]) then 3
    else 0
  }

  function SpaceAtEnd(s: Text): (n: nat)
    ensures n <= |s|
  {
    var z := |s|;
    if z >= 1 && IsAsciiSpace(s[z - 1]) then 1
    else if z >= 2 && IsLatinSpace(s[z - 2], s[z - 1]) then 2
    else if z >= 3 && IsWideSpace(s[z - 3], s[z - 2], s[z - 1]) then 3
    else 0
  }

  function TrimLeft(s: Text): Text
    decreases |s|
  {
    if SpaceAtStart(s) == 0 then s else TrimLeft(s[SpaceAtStart(s)..])
  }

  function TrimRight(s: Text): Text
    decreases |s|
  {
    if SpaceAtEnd(s) == 0 then s else TrimRight(s[..|s| - SpaceAtEnd(s)])
  }

  function Trim(s: Text): Text
  {
    TrimRight(TrimLeft(s))
  }

  /** A byte that means nothing to the lexer at top level: no part of white space does. */
  predicate IsInert(b: Byte)
  {
    b != '$' && b != '-' && b != '*' && b != '/' && b != ';' && b != '\'' && b != '"'
  }

  ghost predicate AllInert(t: Text)
  {
    forall i :: 0 <= i < |t| ==> IsInert(t[i])
  }

  lemma SpaceAtStartIsInert(s: Text)
    ensures AllInert(s[..SpaceAtStart(s)])
  {
  }

  lemma InertAppend(s: Text, n: nat, j: nat)
    requires n + j <= |s| && AllInert(s[..n]) && AllInert(s[n..][..j])
    ensures AllInert(s[..n + j]) && s[n..][j..] == s[n + j..]
  {
    assert s[..n + j] == s[..n] + s[n..][..j];
  }

  lemma {:induction false} TrimLeftDrops(s: Text) returns (k: nat)
    ensures k <= |s| && TrimLeft(s) == s[k..] && AllInert(s[..k])
    ensures SpaceAtStart(TrimLeft(s)) == 0
    decreases |s|
  {
    var n := SpaceAtStart(s);
    if n == 0 {
      k := 0;
    } else {
      SpaceAtStartIsInert(s);
      var j := TrimLeftDrops(s[n..]);
      InertAppend(s, n, j);
      k := n + j;
    }
  }

  lemma SpaceAtEndIsInert(s: Text)
    ensures forall i :: |s| - SpaceAtEnd(s) <= i < |s| ==> IsInert(s[i])
  {
  }

  lemma {:induction false} TrimRightDrops(s: Text) returns (k: nat)
    ensures k <= |s| && TrimRight(s) == s[..k] && AllInert(s[k..])
    ensures SpaceAtEnd(TrimRight(s)) == 0
    decreases |s|
  {
    var n := SpaceAtEnd(s);
    if n == 0 {
      k := |s|;
    } else {
      SpaceAtEndIsInert(s);
      k := TrimRightDrops(s[..|s| - n]);
      forall i | 0 <= i < |s[k..]| ensures IsInert(s[k..][i]) {
        if k + i < |s| - n {
          assert s[k..][i] == s[..|s| - n][k..][i];
        }
      }
    }
  }

  lemma TrimTwice(s: Text)
    ensures Trim(Trim(s)) == Trim(s)
  {
    var v := TrimLeft(s);
    var i := TrimLeftDrops(s);
    var j := TrimRightDrops(v);
    assert SpaceAtStart(v[..j]) == 0;
  }

  // ----- The split -----

  function Alone(t: Text): seq<Text>
  {
    if t == [] then [] else [t]
  }

  /** The pieces between cuts, the last one trimmed and dropped if blank. */
  function Split(sql: Text): seq<Text>
  {
    LastTrimmed(Pieces(sql, Top))
  }

  function LastTrimmed(p: seq<Text>): seq<Text>
    requires p != []
  {
    p[..|p| - 1] + Alone(Trim(p[|p| - 1]))
  }

  /** The five mode flags of the loop and the tag of an open dollar quote. */
  datatype Flags = Flags(inSingleQuote: bool, inDoubleQuote: bool, inDollarQuote: bool, dollarTag: Text,
                         inLineComment: bool, inBlockComment: bool)
  {
    /** They name the mode the lexer is in, so at most one of them is set. */
    predicate Say(m: Mode)
    {
      && inSingleQuote == m.Single? && inDoubleQuote == m.Double? && inDollarQuote == m.Dollar?
      && inLineComment == m.LineComment? && inBlockComment == m.BlockComment?
      && dollarTag == if m.Dollar? then m.tag else []
    }
  }

  /** What the loop has finished and begun, followed by the pieces still to come. */
  function Resume(statements: seq<Text>, current: Text, pieces: seq<Text>): seq<Text>
    requires pieces != []
  {
    statements + Prepend(current, pieces)
  }

  /** A cut finishes the piece begun. */
  lemma ResumeCut(statements: seq<Text>, current: Text, rest: seq<Text>)
    requires rest != []
    ensures Resume(statements, current, [[]] + rest) == Resume(statements + [current], [], rest)
  {
    assert current + [] == current && [] + rest[0] == rest[0];
    assert ([[]] + rest)[1..] == rest;
    assert [rest[0]] + rest[1..] == rest;
  }

  /** Any other token goes on with it. */
  lemma ResumeCopy(statements: seq<Text>, current: Text, out: Text, rest: seq<Text>)
    requires rest != []
    ensures Resume(statements, current, Prepend(out, rest)) == Resume(statements, current + out, rest)
  {
    assert current + (out + rest[0]) == current + out + rest[0];
  }

  /** The scan for the `$` that ends a tag begun at `i`, accumulating the tag byte by byte. */
  method ScanTag(sql: Text, i: nat) returns (j: nat, tag: Text)
    requires i < |sql|
    ensures i < j <= |sql| && j - i == NextDollar(sql[i..], 1)
    ensures tag == Encoded(sql[i..][1..j - i])
  {
    j := i + 1;
    tag := [];
    while j < |sql| && sql[j] != '$'
      invariant i < j && TagRead(sql, i + 1, j, tag)
    {
      TagGrows(sql, i + 1, j, tag);
      tag := tag + Utf8(sql[j]);
      j := j + 1;
    }
    TagFound(sql, i, j);
  }

  /** From `i` up to `j` there is no `$`, and `tag` is what is there, re-encoded. */
  ghost predicate TagRead(sql: Text, i: nat, j: nat, tag: Text)
  {
    i <= j <= |sql| && (forall k :: i <= k < j ==> sql[k] != '$') && tag == Encoded(sql[i..j])
  }

  lemma TagGrows(sql: Text, i: nat, j: nat, tag: Text)
    requires TagRead(sql, i, j, tag) && j < |sql| && sql[j] != '$'
    ensures TagRead(sql, i, j + 1, tag + Utf8(sql[j]))
  {
    var more := sql[i..j + 1];
    assert more != [] && more[..|more| - 1] == sql[i..j] && more[|more| - 1] == sql[j];
    assert Encoded(more) == Encoded(sql[i..j]) + Utf8(sql[j]);
  }

  lemma TagFound(sql: Text, i: nat, j: nat)
    requires i < j <= |sql| && (forall k :: i < k < j ==> sql[k] != '$') && (j < |sql| ==> sql[j] == '$')
    ensures NextDollar(sql[i..], 1) == j - i && sql[i..][1..j - i] == sql[i + 1..j]
  {
    var s := sql[i..];
    assert forall k :: 0 <= k < |s| ==> s[k] == sql[i + k];
    SliceOfRest(sql, i, j);
  }

  lemma SliceOfRest(sql: Text, i: nat, j: nat)
    requires i < j <= |sql|
    ensures sql[i..][1..j - i] == sql[i + 1..j]
  {
    var a, b := sql[i..][1..j - i], sql[i + 1..j];
    assert |a| == |b| && forall k :: 0 <= k < |a| ==> a[k] == sql[i + 1 + k] == b[k];
  }

  ghost predicate IsDollarToken(s: Text, m: Mode)
    requires s != []
  {
    && s[0] == '$' && NextDollar(s, 1) < |s|
    && (m.Top? || (m.Dollar? && Encoded(s[1..NextDollar(s, 1)]) == m.tag))
  }

  /** The first section of the loop body: a dollar quote opens or closes. */
  method ReadDollar(sql: Text, i: nat, f0: Flags, ghost m: Mode) returns (taken: bool, f: Flags, j: nat, tag: Text)
    requires i < |sql| && f0.Say(m)
    ensures taken <==> IsDollarToken(sql[i..], m)
    ensures taken ==> i < j < |sql| && j - i == NextDollar(sql[i..], 1) && tag == Encoded(sql[i..][1..j - i])
    ensures taken ==> f.Say(if m.Top? then Dollar(tag) else Top)
    ensures !taken ==> f == f0
  {
    taken, f, j, tag := false, f0, i, [];
    if !f.inSingleQuote && !f.inDoubleQuote && !f.inLineComment && !f.inBlockComment {
      if sql[i] == '$' && !f.inDollarQuote {
        j, tag := ScanTag(sql, i);
        if j < |sql| {
          taken, f := true, f.(inDollarQuote := true, dollarTag := tag);
        }
      } else if sql[i] == '$' && f.inDollarQuote {
        j, tag := ScanTag(sql, i);
        if j < |sql| && tag == f.dollarTag {
          taken, f := true, f.(inDollarQuote := false, dollarTag := []);
        }
      }
    }
  }

  /** The token at the head of `s` has been handled: `size` bytes read, `out` written, the flags set. */
  ghost predicate Took(s: Text, m: Mode, f: Flags, size: nat, out: Text)
    requires s != []
  {
    var t := Step(s, m);
    !t.cut && f.Say(t.mode) && size == t.size && out == t.out
  }

  ghost predicate IsCommentToken(s: Text, m: Mode)
    requires s != []
  {
    m.LineComment? || m.BlockComment? || (m.Top? && (StartsWith(s, '-', '-') || StartsWith(s, '/', '*')))
  }

  /** The second section: comments open, go on and close. */
  method ReadComment(sql: Text, i: nat, f0: Flags, ghost m: Mode) returns (taken: bool, f: Flags, size: nat, out: Text)
    requires i < |sql| && f0.Say(m) && !IsDollarToken(sql[i..], m)
    ensures if taken then Took(sql[i..], m, f, size, out) else f == f0 && !IsCommentToken(sql[i..], m)
  {
    var ch := sql[i];
    var next: Byte := '\0';
    if i + 1 < |sql| {
      next := sql[i + 1];
    }
    ghost var s := sql[i..];
    assert s[0] == ch && (|s| > 1 ==> s[1] == next && s[..2] == [ch, next]);
    taken, f, size, out := true, f0, 1, [ch];
    if !f.inSingleQuote && !f.inDoubleQuote && !f.inDollarQuote {
      if !f.inBlockComment && ch == '-' && next == '-' {
        f := f.(inLineComment := true);
        return;
      }
      if f.inLineComment && ch == '\n' {
        f := f.(inLineComment := false);
        return;
      }
      if f.inLineComment {
        return;
      }
      if !f.inBlockComment && ch == '/' && next == '*' {
        f := f.(inBlockComment := true);
        size, out := 2, [ch, next];
        return;
      }
      if f.inBlockComment && ch == '*' && next == '/' {
        f := f.(inBlockComment := false);
        size, out := 2, [ch, next];
        return;
      }
      if f.inBlockComment {
        return;
      }
    }
    taken := false;
  }

  /** The last section: quotes toggle, a top-level semicolon cuts, everything else is copied. */
  method ReadPlain(ch: Byte, f0: Flags, ghost s: Text, ghost m: Mode) returns (f: Flags, cut: bool)
    requires s != [] && s[0] == ch && f0.Say(m) && !IsDollarToken(s, m) && !IsCommentToken(s, m)
    ensures cut == Step(s, m).cut && if cut then f.Say(Top) else Took(s, m, f, 1, [ch])
  {
    f := f0;
    if ch == '\'' && !f.inDoubleQuote && !f.inDollarQuote {
      f := f.(inSingleQuote := !f.inSingleQuote);
    }
    if ch == '"' && !f.inSingleQuote && !f.inDollarQuote {
      f := f.(inDoubleQuote := !f.inDoubleQuote);
    }
    cut := ch == ';' && !f.inSingleQuote && !f.inDoubleQuote && !f.inDollarQuote &&
           !f.inLineComment && !f.inBlockComment;
  }

  /** One turn of the loop: the sections in order, each only if the ones before did not apply. */
  method ReadToken(sql: Text, i: nat, f0: Flags, ghost m: Mode)
    returns (f: Flags, size: nat, out: Text, cut: bool, ghost next: Mode)
    requires i < |sql| && f0.Say(m)
    ensures 1 <= size <= |sql| - i && f.Say(next)
    ensures Step(sql[i..], m) == Token(size, next, out, cut)
  {
    next := Step(sql[i..], m).mode;
    var taken, j, tag;
    taken, f, j, tag := ReadDollar(sql, i, f0, m);
    if taken {
      return f, j - i + 1, ['$'] + tag + ['$'], false, next;
    }
    taken, f, size, out := ReadComment(sql, i, f, m);
    if taken {
      return f, size, out, false, next;
    }
    f, cut := ReadPlain(sql[i], f, sql[i..], m);
    return f, 1, if cut then [] else [sql[i]], cut, next;
  }

  /** The token read, and what the pieces to come owe to it. */
  method Advance(sql: Text, i: nat, f0: Flags, ghost m: Mode)
    returns (f: Flags, size: nat, out: Text, cut: bool, ghost next: Mode)
    requires i < |sql| && f0.Say(m)
    ensures 1 <= size <= |sql| - i && f.Say(next)
    ensures var rest := Pieces(sql[i + size..], next);
      Pieces(sql[i..], m) == if cut then [[]] + rest else Prepend(out, rest)
  {
    f, size, out, cut, next := ReadToken(sql, i, f0, m);
    StepAhead(sql[i..], m, Token(size, next, out, cut));
    assert sql[i + size..] == sql[i..][size..];
  }

  /** `splitSQLStatements`. */
  method SplitSQLStatements(sql: Text) returns (statements: seq<Text>)
    ensures statements == Split(sql)
  {
    var current: Text;
    statements, current := Scan(sql);
    LastPiece(statements, current, sql);
    var remaining := Trim(current);
    if remaining != [] {
      statements := statements + [remaining];
    }
  }

  /** A token ends the piece begun or is copied into it; the pieces in all stay the same. */
  method Turn(statements0: seq<Text>, current0: Text, out: Text, cut: bool, ghost left: seq<Text>)
    returns (statements: seq<Text>, current: Text)
    requires left != []
    ensures Resume(statements, current, left) ==
            Resume(statements0, current0, if cut then [[]] + left else Prepend(out, left))
  {
    if cut {
      ResumeCut(statements0, current0, left);
      statements, current := statements0 + [current0], [];
    } else {
      ResumeCopy(statements0, current0, out, left);
      statements, current := statements0, current0 + out;
    }
  }

  /** The loop over the text; what is left in the builder at the end is the last piece. */
  method Scan(sql: Text) returns (statements: seq<Text>, current: Text)
    ensures Resume(statements, current, [[]]) == Pieces(sql, Top)
  {
    statements, current := [], [];
    var f := Flags(false, false, false, [], false, false);
    ghost var m, left := Top, Pieces(sql, Top);
    ResumeWhole(left);
    assert sql[0..] == sql;
    var i := 0;
    while i < |sql|
      invariant i <= |sql| && f.Say(m)
      invariant left == Pieces(sql[i..], m)
      invariant Resume(statements, current, left) == Pieces(sql, Top)
    {
      ghost var next;
      var size, out, cut;
      f, size, out, cut, next := Advance(sql, i, f, m);
      left := Pieces(sql[i + size..], next);
      statements, current := Turn(statements, current, out, cut, left);
      i, m := i + size, next;
    }
  }

  lemma ResumeWhole(p: seq<Text>)
    requires p != []
    ensures Resume([], [], p) == p
  {
    assert [] + p[0] == p[0] && [p[0]] + p[1..] == p;
  }

  lemma LastPiece(statements: seq<Text>, current: Text, sql: Text)
    requires Resume(statements, current, [[]]) == Pieces(sql, Top)
    ensures Split(sql) == statements + Alone(Trim(current))
  {
    assert current + [] == current;
    assert Pieces(sql, Top) == statements + [current];
  }

  // ----- What the split promises -----

  /** Every dollar tag met in `s` consists of ASCII bytes. */
  ghost predicate AsciiTags(s: Text, m: Mode)
    decreases |s|
  {
    s == [] ||
    var t := Step(s, m);
    && (IsDollarToken(s, m) ==> AllAscii(s[1..NextDollar(s, 1)]))
    && AsciiTags(s[t.size..], t.mode)
  }

  lemma AsciiTokenKeepsLength(s: Text, m: Mode)
    requires s != []
    ensures var t := Step(s, m);
      var written := |t.out| + if t.cut then 1 else 0;
      written >= t.size && (written == t.size <==> (IsDollarToken(s, m) ==> AllAscii(s[1..NextDollar(s, 1)])))
  {
    if IsDollarToken(s, m) {
      EncodedLength(s[1..NextDollar(s, 1)]);
    }
  }

  lemma {:induction false} AsciiTagsKeepLength(s: Text, m: Mode)
    ensures AsciiTags(s, m) <==> Widened(s, m) == 0
    decreases |s|
  {
    if s != [] {
      var t := Step(s, m);
      StepAhead(s, m, t);
      AsciiTagsKeepLength(s[t.size..], t.mode);
      AsciiTokenKeepsLength(s, m);
    }
  }

  /** The pieces, joined with semicolons, give the text back exactly when its dollar tags are ASCII. */
  lemma NothingIsLost(sql: Text)
    ensures Join(Pieces(sql, Top)) == sql <==> AsciiTags(sql, Top)
  {
    JoinedPieces(sql, Top);
    AsciiTagsKeepLength(sql, Top);
  }

  /** Splitting a piece again leaves every piece whole exactly when the dollar tags are ASCII. */
  lemma SplittingAgainIsStable(sql: Text)
    ensures (forall i :: 0 <= i < |Pieces(sql, Top)| ==> Pieces(Pieces(sql, Top)[i], Top) == [Pieces(sql, Top)[i]])
       <==> AsciiTags(sql, Top)
  {
    PiecesStandAloneIff(sql);
    AsciiTagsKeepLength(sql, Top);
  }

  lemma InertStep(s: Text)
    requires s != [] && IsInert(s[0])
    ensures Step(s, Top) == Plain(s[0], Top)
  {
  }

  lemma InertFirst(s: Text)
    requires s != [] && IsInert(s[0])
    ensures Pieces(s, Top) == Prepend([s[0]], Pieces(s[1..], Top)) && Widened(s, Top) == Widened(s[1..], Top)
  {
    InertStep(s);
    StepAhead(s, Top, Plain(s[0], Top));
  }

  lemma PrependTwice(a: Text, b: Text, pieces: seq<Text>)
    requires pieces != []
    ensures Prepend(a, Prepend(b, pieces)) == Prepend(a + b, pieces)
  {
    assert a + (b + pieces[0]) == a + b + pieces[0];
  }

  lemma PrependNothing(pieces: seq<Text>)
    requires pieces != []
    ensures Prepend([], pieces) == pieces
  {
    assert [] + pieces[0] == pieces[0];
  }

  /** Text that means nothing to the lexer is copied ahead of what follows. */
  lemma {:induction false} InertPrefix(u: Text, v: Text)
    requires AllInert(u)
    ensures Pieces(u + v, Top) == Prepend(u, Pieces(v, Top)) && Widened(u + v, Top) == Widened(v, Top)
  {
    if u == [] {
      assert u + v == v;
      PrependNothing(Pieces(v, Top));
    } else {
      var s, rest := u + v, u[1..];
      assert s[0] == u[0] && IsInert(u[0]) && s[1..] == rest + v;
      InertFirst(s);
      InertPrefix(rest, v);
      PrependTwice([u[0]], rest, Pieces(v, Top));
      assert [u[0]] + rest == u;
    }
  }

  lemma {:induction false} TokensEndBeforeInert(a: Text, b: Text, m: Mode)
    requires AllInert(b)
    ensures ModeAt(a + b, m, |a|).0
    decreases |a|
  {
    if a != [] {
      var s := a + b;
      var t := Step(s, m);
      TokenEnd(s, m);
      assert forall i :: |a| <= i < |s| ==> s[i] == b[i - |a|];
      assert t.size <= |a|;
      assert s[t.size..] == a[t.size..] + b;
      TokensEndBeforeInert(a[t.size..], b, t.mode);
    }
  }

  /** A token of several bytes ends in a byte that is not inert. */
  lemma TokenEnd(s: Text, m: Mode)
    requires s != []
    ensures var t := Step(s, m); t.size > 1 ==> !IsInert(s[t.size - 1])
  {
  }

  /** White space in front of a text read in one piece can go. */
  lemma WithoutSpaceInFront(blank: Text, v: Text)
    requires AllInert(blank) && Pieces(blank + v, Top) == [blank + v] && Widened(blank + v, Top) == 0
    ensures Pieces(v, Top) == [v] && Widened(v, Top) == 0
  {
    InertPrefix(blank, v);
    PrependedIsWhole(blank, v, Pieces(v, Top));
  }

  lemma PrependedIsWhole(out: Text, v: Text, pieces: seq<Text>)
    requires pieces != [] && Prepend(out, pieces) == [out + v]
    ensures pieces == [v]
  {
    var p := pieces[0];
    assert Prepend(out, pieces)[0] == out + p;
    assert (out + p)[|out|..] == p && (out + v)[|out|..] == v;
  }

  /** And so can white space behind it. */
  lemma WithoutSpaceBehind(w: Text, blank: Text)
    requires AllInert(blank) && Pieces(w + blank, Top) == [w + blank] && Widened(w + blank, Top) == 0
    ensures Pieces(w, Top) == [w]
  {
    TokensEndBeforeInert(w, blank, Top);
    var m := ModeAt(w + blank, Top, |w|).1;
    ReadInParts(w, blank, Top, m);
    GlueIsOne(Pieces(w, Top), Pieces(blank, m));
    JoinedPieces(w, Top);
  }

  lemma GlueIsOne(a: seq<Text>, b: seq<Text>)
    requires a != [] && b != [] && |Glue(a, b)| == 1
    ensures |a| == 1
  {
  }

  lemma LeftTrimmedStandsAlone(p: Text)
    requires Pieces(p, Top) == [p] && Widened(p, Top) == 0
    ensures Pieces(TrimLeft(p), Top) == [TrimLeft(p)] && Widened(TrimLeft(p), Top) == 0
  {
    var i := TrimLeftDrops(p);
    assert p == p[..i] + p[i..];
    WithoutSpaceInFront(p[..i], p[i..]);
  }

  lemma RightTrimmedStandsAlone(v: Text)
    requires Pieces(v, Top) == [v] && Widened(v, Top) == 0
    ensures Pieces(TrimRight(v), Top) == [TrimRight(v)]
  {
    var j := TrimRightDrops(v);
    var w, blank := v[..j], v[j..];
    assert w + blank == v;
    WithoutSpaceBehind(w, blank);
  }

  /** Trimming a text read in one piece leaves a text read in one piece. */
  lemma TrimmedStandsAlone(p: Text)
    requires Pieces(p, Top) == [p] && Widened(p, Top) == 0
    ensures Pieces(Trim(p), Top) == [Trim(p)]
  {
    LeftTrimmedStandsAlone(p);
    RightTrimmedStandsAlone(TrimLeft(p));
  }

  /** Splitting a returned statement again yields just its trimmed text, or nothing if it is blank. */
  lemma StatementsAreWhole(sql: Text, i: nat)
    requires AsciiTags(sql, Top) && i < |Split(sql)|
    ensures Split(Split(sql)[i]) == Alone(Trim(Split(sql)[i]))
  {
    AsciiTagsKeepLength(sql, Top);
    SplitAt(sql, i);
    PiecesStandAlone(sql, i);
    TrimmedStandsAlone(Pieces(sql, Top)[i]);
    SplitOfWhole(Split(sql)[i]);
  }

  /** What is left of a returned statement after trimming is split into itself from then on. */
  lemma TrimmedStatementsAreFixed(sql: Text, i: nat)
    requires AsciiTags(sql, Top) && i < |Split(sql)|
    ensures var t := Trim(Split(sql)[i]); Split(t) == Alone(t)
  {
    AsciiTagsKeepLength(sql, Top);
    PiecesStandAlone(sql, i);
    var p := Pieces(sql, Top)[i];
    TrimmedStandsAlone(p);
    TrimTwice(p);
    assert Trim(Split(sql)[i]) == Trim(p) by {
      SplitAt(sql, i);
    }
    SplitOfWhole(Trim(p));
  }

  lemma SplitAt(sql: Text, i: nat)
    requires i < |Split(sql)|
    ensures Split(sql)[i] == if i < |Pieces(sql, Top)| - 1 then Pieces(sql, Top)[i] else Trim(Pieces(sql, Top)[i])
  {
    LastTrimmedAt(Pieces(sql, Top), i);
  }

  lemma LastTrimmedAt(p: seq<Text>, i: nat)
    requires p != [] && i < |LastTrimmed(p)|
    ensures i < |p| && LastTrimmed(p)[i] == if i < |p| - 1 then p[i] else Trim(p[i])
  {
  }

  lemma SplitOfWhole(t: Text)
    requires Pieces(t, Top) == [t]
    ensures Split(t) == Alone(Trim(t))
  {
  }

  /** `$`, the byte 0xC8, `$`: the tag is re-encoded, and the text comes back changed. */
  lemma ForeignTagIsChanged()
    ensures var sql: Text := ['$', '\U{C8}', '$']; Join(Pieces(sql, Top)) != sql
  {
    var sql: Text := ['$', '\U{C8}', '$'];
    assert NextDollar(sql, 1) == 2 && sql[1..2] == ['\U{C8}'];
    assert !AllAscii(sql[1..2]) by {
      assert !IsAscii(sql[1..2][0]);
    }
    NothingIsLost(sql);
  }

  /** At a top-level semicolon the text splits as its two parts do, except that only the last part is trimmed. */
  lemma SplitAtCut(sql: Text, k: nat)
    requires IsCut(sql, Top, k)
    ensures Split(sql) == Pieces(sql[..k], Top) + Split(sql[k + 1..])
  {
    CutSplits(sql, Top, k);
    LastTrimmedBehind(Pieces(sql[..k], Top), Pieces(sql[k + 1..], Top));
  }

  lemma LastTrimmedBehind(a: seq<Text>, b: seq<Text>)
    requires b != []
    ensures LastTrimmed(a + b) == a + LastTrimmed(b)
  {
    assert (a + b)[..|a + b| - 1] == a + b[..|b| - 1];
  }
}
