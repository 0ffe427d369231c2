// Reading cron expressions (pkg/scheduler/scheduler.go): cutting the expression
// into fields, and the values a field allows.
module CronFields {
  import opened Common

  // ----- Fields of an expression -----

  /** The maximal runs of characters other than space. */
  function Words(expr: string): (r: seq<string>)
    decreases |expr|
  {
    if expr == "" then []
    else if expr[0] == ' ' then Words(expr[1..])
    else
      var n := WordLength(expr);
      [expr[..n]] + Words(expr[n..])
  }

  function WordLength(expr: string): (n: nat)
    ensures n <= |expr|
    ensures forall i :: 0 <= i < n ==> expr[i] != ' '
    ensures n == |expr| || expr[n] == ' '
    ensures expr != "" && expr[0] != ' ' ==> n > 0
  {
    if expr == "" || expr[0] == ' ' then 0 else 1 + WordLength(expr[1..])
  }

  /** `parseCronFields`. */
  method ParseCronFields(expr: string) returns (result: seq<string>)
    ensures result == Words(expr)
  {
    result := [];
    var current := "";
    assert "" + expr[0..] == expr;
    for i := 0 to |expr|
      invariant NoSpace(current) && result + Words(current + expr[i..]) == Words(expr)
    {
      var ch := expr[i];
      ReadCharacter(current, expr, i);
      if ch == ' ' {
        CutWord(result, current, Words(expr[i + 1..]));
        if current != "" {
          result := result + [current];
          current := "";
        }
      } else {
        current := current + [ch];
      }
    }
    assert current + expr[|expr|..] == current;
    if current != "" {
      WordAlone(current);
      result := result + [current];
    }
  }

  ghost predicate NoSpace(word: string)
  {
    forall j :: 0 <= j < |word| ==> word[j] != ' '
  }

  lemma ReadCharacter(current: string, expr: string, i: nat)
    requires i < |expr| && NoSpace(current)
    ensures if expr[i] == ' '
            then Words(current + expr[i..]) == Alone(current) + Words(expr[i + 1..]) &&
                 "" + expr[i + 1..] == expr[i + 1..]
            else current + expr[i..] == current + [expr[i]] + expr[i + 1..]
  {
    var rest := expr[i + 1..];
    assert expr[i..] == [expr[i]] + rest;
    if expr[i] == ' ' {
      SpaceEndsWord(current, rest);
    } else {
      assert current + ([expr[i]] + rest) == current + [expr[i]] + rest;
    }
  }

  function Alone(word: string): seq<string>
  {
    if word == "" then [] else [word]
  }

  lemma SpaceEndsWord(word: string, rest: string)
    requires forall j :: 0 <= j < |word| ==> word[j] != ' '
    ensures Words(word + ([' '] + rest)) == Alone(word) + Words(rest)
  {
    if word == "" {
      assert word + ([' '] + rest) == [' '] + rest;
      SpaceThen(rest);
    } else {
      WordThenSpace(word, rest);
    }
  }

  lemma CutWord(result: seq<string>, word: string, words: seq<string>)
    ensures result + (Alone(word) + words) == (if word == "" then result else result + [word]) + words
  {
  }

  lemma SpaceThen(rest: string)
    ensures Words([' '] + rest) == Words(rest)
  {
    assert ([' '] + rest)[1..] == rest;
  }

  lemma WordThenSpace(word: string, rest: string)
    requires word != "" && forall j :: 0 <= j < |word| ==> word[j] != ' '
    ensures Words(word + ([' '] + rest)) == [word] + Words(rest)
  {
    var all := word + ([' '] + rest);
    var n := WordLength(all);
    assert all[0] == word[0];
    assert n == |word| by {
      assert all[|word|] == ' ';
      assert forall j :: 0 <= j < |word| ==> all[j] == word[j];
    }
    assert all[..n] == word && all[n..] == [' '] + rest;
    SpaceThen(rest);
  }

  lemma WordAlone(word: string)
    requires word != "" && forall j :: 0 <= j < |word| ==> word[j] != ' '
    ensures Words(word) == [word]
  {
    assert WordLength(word) == |word|;
    assert word[..|word|] == word && word[|word|..] == "";
  }

  /** Fields written with at least one space after each, and any more around, are read back. */
  ghost function Spaced(fields: seq<string>, gaps: seq<nat>): string
    requires |gaps| == |fields| + 1
  {
    if fields == [] then Spaces(gaps[0])
    else Spaces(gaps[0]) + fields[0] + [' '] + Spaced(fields[1..], gaps[1..])
  }

  ghost function Spaces(n: nat): (s: string)
    ensures |s| == n && forall i :: 0 <= i < n ==> s[i] == ' '
  {
    seq(n, _ => ' ')
  }

  lemma {:induction false} LeadingSpaces(n: nat, rest: string)
    ensures Words(Spaces(n) + rest) == Words(rest)
  {
    if n == 0 {
      assert Spaces(0) + rest == rest;
    } else {
      assert (Spaces(n) + rest)[1..] == Spaces(n - 1) + rest;
      LeadingSpaces(n - 1, rest);
    }
  }

  lemma {:induction false} FieldsReadBack(fields: seq<string>, gaps: seq<nat>)
    requires |gaps| == |fields| + 1
    requires forall f :: f in fields ==> f != "" && forall j :: 0 <= j < |f| ==> f[j] != ' '
    ensures Words(Spaced(fields, gaps)) == fields
  {
    if fields == [] {
      LeadingSpaces(gaps[0], "");
      assert Spaces(gaps[0]) + "" == Spaces(gaps[0]);
    } else {
      var rest := Spaced(fields[1..], gaps[1..]);
      assert Spaces(gaps[0]) + fields[0] + [' '] + rest == Spaces(gaps[0]) + (fields[0] + ([' '] + rest));
      LeadingSpaces(gaps[0], fields[0] + ([' '] + rest));
      WordThenSpace(fields[0], rest);
      FieldsReadBack(fields[1..], gaps[1..]);
    }
  }

  // ----- Integers as fmt.Sscanf reads them with %d -----

  const MAX_INT64: int := 0x7FFF_FFFF_FFFF_FFFF
  const MIN_INT64: int := -0x8000_0000_0000_0000

  predicate IsSpace(c: char)
  {
    || '\t' <= c <= '\r' || c == ' ' || c == '\U{0085}' || c == '\U{00A0}' || c == '\U{1680}'
    || '\U{2000}' <= c <= '\U{200A}' || c == '\U{2028}' || c == '\U{2029}' || c == '\U{202F}'
    || c == '\U{205F}' || c == '\U{3000}'
  }

  predicate IsDigit(c: char)
  {
    '0' <= c <= '9'
  }

  function DigitsLength(s: string): (n: nat)
    ensures n <= |s| && (forall i :: 0 <= i < n ==> IsDigit(s[i])) && (n < |s| ==> !IsDigit(s[n]))
  {
    if s == "" || !IsDigit(s[0]) then 0 else 1 + DigitsLength(s[1..])
  }

  function Decimal(s: string): (v: int)
    requires forall i :: 0 <= i < |s| ==> IsDigit(s[i])
    ensures v >= 0
  {
    if s == "" then 0 else
    assert IsDigit(s[|s| - 1]);
    10 * Decimal(s[..|s| - 1]) + (s[|s| - 1] as int - '0' as int)
  }

  /** Skips blanks, takes a sign and digits, ignores what follows; a newline, no digit or overflow fails. */
  function ScanInt(s: string): (r: Option<int>)
    ensures r.Some? ==> MIN_INT64 <= r.value <= MAX_INT64
  {
    if s == "" || s[0] == '\n' then None
    else if IsSpace(s[0]) then ScanInt(s[1..])
    else
      var digits := if s[0] == '+' || s[0] == '-' then s[1..] else s;
      var n := DigitsLength(digits);
      if n == 0 then None else
      var v := Decimal(digits[..n]);
      var signed := if s[0] == '-' then -v else v;
      if MIN_INT64 <= signed <= MAX_INT64 then Some(signed) else None
  }

  // ----- The values a field allows -----

  datatype Field = Every | Step(n: int) | At(v: int) | Malformed

  /** What the text of a field says. */
  function FieldOf(text: string): Field
  {
    if text == "*" then Every
    else if |text| > 2 && text[..2] == "*/" then
      match ScanInt(text[2..])
      case Some(n) => if n > 0 then Step(n) else Malformed
      case None => Malformed
    else
      match ScanInt(text)
      case Some(v) => At(v)
      case None => Malformed
  }

  /** A text of digits. */
  ghost predicate AllDigits(s: string)
  {
    forall i :: 0 <= i < |s| ==> IsDigit(s[i])
  }

  lemma DigitsEnd(digits: string, suffix: string)
    requires AllDigits(digits) && (suffix != "" ==> !IsDigit(suffix[0]))
    ensures DigitsLength(digits + suffix) == |digits|
  {
    var s, n := digits + suffix, DigitsLength(digits + suffix);
    assert forall i :: 0 <= i < |digits| ==> s[i] == digits[i];
    assert suffix != "" ==> s[|digits|] == suffix[0];
  }

  /** Whatever follows the leading digits of a field is ignored: a range or a list is its first number. */
  lemma OnlyFirstNumberCounts(digits: string, suffix: string)
    requires digits != "" && AllDigits(digits) && (suffix != "" ==> !IsDigit(suffix[0]))
    ensures FieldOf(digits + suffix) == if Decimal(digits) <= MAX_INT64 then At(Decimal(digits)) else Malformed
  {
    var s := digits + suffix;
    assert s[0] == digits[0] && IsDigit(s[0]);
    ScansDigits(digits, suffix);
    assert |s| > 2 ==> s[..2][0] == s[0] && "*/"[0] == '*';
  }

  /** A digit in front is worth ten times as much as the next place. */
  lemma {:induction false} DecimalOfFirst(c: char, s: string)
    requires IsDigit(c) && AllDigits(s)
    ensures AllDigits([c] + s) && Decimal([c] + s) == (c as int - '0' as int) * Power10(|s|) + Decimal(s)
  {
    if s == "" {
      assert [c] + s == [c] && [c][..0] == "";
    } else {
      var n := |s| - 1;
      DecimalOfFirst(c, s[..n]);
      assert ([c] + s)[..n + 1] == [c] + s[..n];
      TenTimes(c as int - '0' as int, Power10(n));
    }
  }

  lemma TenTimes(d: int, p: int)
    ensures d * (10 * p) == 10 * (d * p)
  {
  }

  function Power10(n: nat): nat
  {
    if n == 0 then 1 else 10 * Power10(n - 1)
  }

  /** A number as it is written. */
  function Written(n: nat): (s: string)
    ensures s != "" && AllDigits(s)
  {
    var last := ['0' + (n % 10) as char];
    if n < 10 then last else Written(n / 10) + last
  }

  lemma {:induction false} WrittenIsRead(n: nat)
    ensures Decimal(Written(n)) == n
  {
    var s := Written(n);
    if n >= 10 {
      WrittenIsRead(n / 10);
      assert s[..|s| - 1] == Written(n / 10);
    } else {
      assert s[..0] == "";
    }
  }

  /** A star means every value, and a step is the number behind the slash, whatever follows it. */
  lemma StarsAndSteps(digits: string, suffix: string)
    requires digits != "" && AllDigits(digits) && (suffix != "" ==> !IsDigit(suffix[0]))
    ensures FieldOf("*") == Every
    ensures FieldOf("*/" + digits + suffix) ==
            if 0 < Decimal(digits) <= MAX_INT64 then Step(Decimal(digits)) else Malformed
  {
    var rest := digits + suffix;
    var s := "*/" + digits + suffix;
    assert s == "*/" + rest;
    assert s[..2] == "*/" && s[2..] == rest && s[1] == '/';
    ScansDigits(digits, suffix);
  }

  lemma ScansDigits(digits: string, suffix: string)
    requires digits != "" && AllDigits(digits) && (suffix != "" ==> !IsDigit(suffix[0]))
    ensures ScanInt(digits + suffix) == if Decimal(digits) <= MAX_INT64 then Some(Decimal(digits)) else None
  {
    var s := digits + suffix;
    assert s[0] == digits[0] && IsDigit(s[0]);
    DigitsEnd(digits, suffix);
    assert s[..|digits|] == digits;
  }

  /** "5-10" and "1,2" admit one value each. */
  lemma RangeAndListAreFirst()
    ensures FieldOf("5-10") == At(5) && FieldOf("1,2") == At(1)
  {
    OnlyFirstNumberCounts("5", "-10");
    OnlyFirstNumberCounts("1", ",2");
    assert "5" + "-10" == "5-10" && "1" + ",2" == "1,2";
    assert "5"[..0] == "" && "1"[..0] == "";
  }

  ghost predicate IsValid(f: Field, min: int, max: int)
  {
    !f.Malformed? && (f.At? ==> min <= f.v <= max) && (f.Step? ==> 0 < f.n <= MAX_INT64)
  }

  ghost predicate Admits(f: Field, min: int, v: int)
    requires f.Step? ==> f.n > 0
  {
    match f
    case Every => true
    case Step(n) => (v - min) % n == 0
    case At(w) => v == w
    case Malformed => false
  }

  /** Which values the three forms of a field admit: all, every so many from the first one on, or one. */
  lemma AdmittedValues(digits: string, suffix: string, min: int, v: int)
    requires digits != "" && AllDigits(digits) && (suffix != "" ==> !IsDigit(suffix[0]))
    requires 0 < Decimal(digits) <= MAX_INT64
    ensures Admits(FieldOf("*"), min, v)
    ensures var f := FieldOf("*/" + digits + suffix);
      f.Step? && f.n > 0 && (Admits(f, min, v) <==> (v - min) % Decimal(digits) == 0)
    ensures Admits(FieldOf(digits + suffix), min, v) <==> v == Decimal(digits)
  {
    StarsAndSteps(digits, suffix);
    OnlyFirstNumberCounts(digits, suffix);
  }

  /** Signs and blanks before a number, as Sscanf takes them. */
  lemma SignsAndBlanks(digits: string, suffix: string, c: char, s: string)
    requires digits != "" && AllDigits(digits) && (suffix != "" ==> !IsDigit(suffix[0]))
    ensures ScanInt("+" + (digits + suffix)) == if Decimal(digits) <= MAX_INT64 then Some(Decimal(digits)) else None
    ensures ScanInt("-" + (digits + suffix)) == if -Decimal(digits) >= MIN_INT64 then Some(-Decimal(digits)) else None
    ensures IsSpace(c) && c != '\n' ==> ScanInt([c] + s) == ScanInt(s)
  {
    var t, n := digits + suffix, |digits|;
    DigitsEnd(digits, suffix);
    assert t[..n] == digits;
    assert ("+" + t)[1..] == t && ("-" + t)[1..] == t && ([c] + s)[1..] == s;
    ScanSigned("+" + t, t, n);
    ScanSigned("-" + t, t, n);
  }

  lemma ScanSigned(s: string, t: string, n: nat)
    requires s != "" && (s[0] == '+' || s[0] == '-') && s[1..] == t && n == DigitsLength(t) > 0
    ensures var v := if s[0] == '-' then -Decimal(t[..n]) else Decimal(t[..n]);
      ScanInt(s) == if MIN_INT64 <= v <= MAX_INT64 then Some(v) else None
  {
  }

  /** A field that begins with anything else, like the name of a month, is an error. */
  lemma OtherFieldsAreMalformed(text: string)
    requires text == "" || (!IsSpace(text[0]) && !IsDigit(text[0]) && text[0] !in {'+', '-', '*'})
    ensures FieldOf(text) == Malformed
  {
    if |text| > 2 {
      assert text[..2][0] == text[0] && "*/"[0] == '*';
    }
  }

  /** Addition of the machine integers. */
  function Add64(a: int, b: int): int
  {
    var s := a + b;
    if s > MAX_INT64 then s - 0x1_0000_0000_0000_0000
    else if s < MIN_INT64 then s + 0x1_0000_0000_0000_0000
    else s
  }

  /** Counting on from a multiple `a` of `n`, the next one is `a + n`. */
  lemma NextMultiple(a: int, n: int, v: int)
    requires n > 0 && a % n == 0 && a < v <= a + n
    ensures v % n == 0 <==> v == a + n
  {
    var q := a / n;
    assert a == q * n;
    if v == a + n {
      assert v == (q + 1) * n + 0;
      QuotientIsUnique(v, n, q + 1, 0);
    } else {
      QuotientIsUnique(v, n, q, v - a);
    }
  }

  lemma QuotientIsUnique(a: int, n: int, q: int, r: int)
    requires n > 0 && a == q * n + r && 0 <= r < n
    ensures a % n == r
  {
    var p := a / n;
    assert a == p * n + a % n;
    assert (q - p) * n == a % n - r;
    MultipleIsFar(n, q - p);
  }

  lemma MultipleIsFar(n: int, k: int)
    requires n > 0
    ensures k > 0 ==> k * n >= n
    ensures k < 0 ==> k * n <= -n
  {
    if k > 0 {
      assert (k - 1) * n >= 0;
    } else if k < 0 {
      assert (-k - 1) * n >= 0;
    }
  }

  /** `parseCronField`, for the five ranges of a cron expression. */
  method ParseCronField(field: string, min: int, max: int) returns (r: Result<seq<int>>)
    requires 0 <= min <= 1 && min <= max <= 59
    ensures r.Ok? <==> IsValid(FieldOf(field), min, max)
    ensures r.Ok? ==> forall v :: min <= v <= max ==> (v in r.value <==> Admits(FieldOf(field), min, v))
  {
    if field == "*" {
      var result := [];
      for i := min to max + 1
        invariant forall v :: v in result <==> min <= v < i
      {
        result := result + [i];
      }
      return Ok(result);
    }
    if |field| > 2 && field[..2] == "*/" {
      var scanned := ScanInt(field[2..]);
      var step := if scanned.Some? then scanned.value else 0;
      if step <= 0 {
        return Err;
      }
      var result := StepValues(min, max, step);
      return Ok(result);
    }
    var scanned := ScanInt(field);
    if scanned.Some? {
      if scanned.value < min || scanned.value > max {
        return Err;
      }
      assert forall v :: v in [scanned.value] <==> v == scanned.value;
      return Ok([scanned.value]);
    }
    return Err;
  }

  /** The values of `result` within the range are the multiples before `bound`. */
  ghost predicate CountedTo(result: seq<int>, min: int, max: int, step: int, bound: int)
    requires step > 0
  {
    forall v :: min <= v <= max ==> (v in result <==> v < bound && (v - min) % step == 0)
  }

  lemma CountOn(result: seq<int>, min: int, max: int, step: int, i: int)
    requires 0 < step && min <= i && (i - min) % step == 0 && CountedTo(result, min, max, step, i)
    ensures CountedTo(result + [i], min, max, step, i + step) && (i + step - min) % step == 0
  {
    NextMultiple(i - min, step, i - min + step);
    forall v | min <= v <= max ensures v in result + [i] <==> v < i + step && (v - min) % step == 0 {
      CountOnAt(result, min, max, step, i, v);
    }
  }

  lemma CountOnAt(result: seq<int>, min: int, max: int, step: int, i: int, v: int)
    requires 0 < step && min <= i && (i - min) % step == 0 && CountedTo(result, min, max, step, i)
    requires min <= v <= max
    ensures v in result + [i] <==> v < i + step && (v - min) % step == 0
  {
    assert v in result + [i] <==> v in result || v == i;
    if i < v < i + step {
      NextMultiple(i - min, step, v - min);
    }
  }

  lemma CountBelow(result: seq<int>, min: int, max: int, step: int, bound: int, i: int)
    requires 0 < step && i < min && CountedTo(result, min, max, step, bound)
    ensures CountedTo(result + [i], min, max, step, bound)
  {
    forall v | min <= v <= max ensures v in result + [i] <==> v in result {
    }
  }

  /** Only a one-based range counted in steps of the largest integer overflows. */
  lemma StepOverflow(min: int, max: int, step: int, i: int)
    requires 0 <= min <= 1 && min <= i <= max <= 59 && 0 < step <= MAX_INT64 && (i - min) % step == 0
    requires i + step > MAX_INT64
    ensures i == 1 && step == MAX_INT64
  {
    QuotientIsUnique(i - min, step, 0, i - min);
  }

  /** The counting loop; its last addition may wrap around, which adds negative values only. */
  method StepValues(min: int, max: int, step: int) returns (result: seq<int>)
    requires 0 <= min <= 1 && min <= max <= 59 && 0 < step <= MAX_INT64
    ensures CountedTo(result, min, max, step, max + 1)
  {
    result := [];
    var i := min;
    ghost var bound, wrapped := min, false;
    while i <= max
      invariant CountedTo(result, min, max, step, bound)
      invariant !wrapped ==> min <= i == bound && (i - min) % step == 0
      invariant wrapped ==> bound > max && step == MAX_INT64
      invariant wrapped ==> i == MIN_INT64 || i == -1 || i == MAX_INT64 - 1
      decreases if i > max then 0 else if i >= min then 3 + max - i else if i == -1 then 1 else 2
    {
      if wrapped {
        CountBelow(result, min, max, step, bound, i);
      } else {
        CountOn(result, min, max, step, i);
        bound := i + step;
        if i + step > MAX_INT64 {
          StepOverflow(min, max, step, i);
          wrapped := true;
        }
      }
      result := result + [i];
      i := Add64(i, step);
    }
  }
}
