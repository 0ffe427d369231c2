// The fallback log (pkg/audit/file_fallback.go): one JSON record per line,
// files rotated by size, the oldest removed. The directory is the list of file
// contents in the order of their names, which is the order of creation.
module FileFallback {
  import opened Common

  // ----- Lines -----

  const NL: char := '\n'

  /** Every line followed by a newline. */
  function Terminated(lines: seq<string>): string
  {
    if lines == [] then "" else Terminated(lines[..|lines| - 1]) + (lines[|lines| - 1] + [NL])
  }

  /** Where the line that position `n` is in begins. */
  function LastStart(data: string, n: nat): (k: nat)
    requires n <= |data|
    ensures k <= n
  {
    if n == 0 then 0 else if data[n - 1] == NL then n else LastStart(data, n - 1)
  }

  /** The terminated lines among the first `n` characters. */
  function LinesUpTo(data: string, n: nat): seq<string>
    requires n <= |data|
  {
    if n == 0 then []
    else if data[n - 1] == NL then LinesUpTo(data, n - 1) + [data[LastStart(data, n - 1)..n - 1]]
    else LinesUpTo(data, n - 1)
  }

  /** The terminated lines, and what follows the last newline if anything. */
  function Lines(data: string): seq<string>
  {
    var rest := data[LastStart(data, |data|)..];
    LinesUpTo(data, |data|) + if rest == "" then [] else [rest]
  }

  /** `splitLines`. */
  method SplitLines(data: string) returns (lines: seq<string>)
    ensures lines == Lines(data)
  {
    lines := [];
    var start := 0;
    for i := 0 to |data|
      invariant start == LastStart(data, i) && lines == LinesUpTo(data, i)
    {
      if data[i] == NL {
        lines := lines + [data[start..i]];
        start := i + 1;
      }
    }
    if start < |data| {
      lines := lines + [data[start..]];
    }
  }

  lemma {:induction false} LinesOfPrefix(data: string, all: string, n: nat)
    requires data <= all && n <= |data|
    ensures LastStart(all, n) == LastStart(data, n) && LinesUpTo(all, n) == LinesUpTo(data, n)
  {
    if n > 0 {
      LinesOfPrefix(data, all, n - 1);
      SliceOfPrefix(data, all, LastStart(data, n - 1), n - 1);
    }
  }

  lemma SliceOfPrefix(data: string, all: string, k: nat, n: nat)
    requires data <= all && k <= n < |data|
    ensures all[n] == data[n] && all[k..n] == data[k..n]
  {
  }

  /** Nothing ends within a stretch without newlines. */
  lemma {:induction false} NoLineEnds(data: string, m: nat, n: nat)
    requires m <= n <= |data| && NL !in data[m..n]
    ensures LastStart(data, n) == LastStart(data, m) && LinesUpTo(data, n) == LinesUpTo(data, m)
    decreases n
  {
    if m < n {
      assert data[n - 1] == data[m..n][n - 1 - m];
      assert data[m..n - 1] == data[m..n][..n - 1 - m];
      NoLineEnds(data, m, n - 1);
    }
  }

  ghost predicate EndsLine(data: string)
  {
    data == "" || data[|data| - 1] == NL
  }

  lemma EndOfTerminated(data: string)
    requires EndsLine(data)
    ensures LastStart(data, |data|) == |data| && Lines(data) == LinesUpTo(data, |data|)
  {
  }

  /** What follows the last newline. */
  function Rest(data: string): string
  {
    data[LastStart(data, |data|)..]
  }

  /** A line written at the end runs on from what follows the last newline. */
  lemma LineRunsOn(data: string, line: string)
    requires NL !in line
    ensures Lines(data + (line + [NL])) == LinesUpTo(data, |data|) + [Rest(data) + line]
    ensures EndsLine(data + (line + [NL]))
  {
    AllLines(data, line, data + (line + [NL]));
  }

  lemma {:induction false} AllLines(data: string, line: string, all: string)
    requires NL !in line && all == data + (line + [NL])
    ensures Lines(all) == LinesUpTo(data, |data|) + [Rest(data) + line] && EndsLine(all)
  {
    EndOfAll(data, line, all, LastStart(data, |data|));
    OneLineMore(data, all, |data| + |line|, Rest(data) + line);
  }

  lemma OneLineMore(data: string, all: string, n: nat, last: string)
    requires data <= all && |data| <= n && |all| == n + 1 && all[n] == NL && NL !in all[|data|..n]
    requires all[LastStart(data, |data|)..n] == last
    ensures Lines(all) == LinesUpTo(data, |data|) + [last] && EndsLine(all)
  {
    LinesOfPrefix(data, all, |data|);
    NoLineEnds(all, |data|, n);
    LastLine(all, n);
  }

  lemma EndOfAll(data: string, line: string, all: string, k: nat)
    requires all == data + (line + [NL]) && k <= |data|
    ensures data <= all && |all| == |data| + |line| + 1 && all[|data| + |line|] == NL
    ensures all[|data|..|data| + |line|] == line && all[k..|data| + |line|] == data[k..] + line
  {
  }

  lemma LastLine(all: string, n: nat)
    requires |all| == n + 1 && all[n] == NL
    ensures Lines(all) == LinesUpTo(all, n) + [all[LastStart(all, n)..n]] && EndsLine(all)
  {
    EndOfTerminated(all);
  }

  lemma RestIsEmptyIff(data: string)
    ensures Rest(data) == "" <==> EndsLine(data)
  {
  }

  /** Writing one more line adds one more line exactly when the text is empty or ends in a newline. */
  lemma LinesGrowIff(data: string, line: string)
    requires NL !in line
    ensures Lines(data + (line + [NL])) == Lines(data) + [line] <==> EndsLine(data)
  {
    LineRunsOn(data, line);
    RestIsEmptyIff(data);
    if EndsLine(data) {
      assert Rest(data) == "" && Rest(data) + line == line;
    }
  }

  /** Splitting gives back newline-free lines that were each written with a newline. */
  lemma {:induction false} SplitInvertsWriting(lines: seq<string>)
    requires forall i :: 0 <= i < |lines| ==> NL !in lines[i]
    ensures EndsLine(Terminated(lines)) && Lines(Terminated(lines)) == lines
  {
    if lines != [] {
      var front, last := lines[..|lines| - 1], lines[|lines| - 1];
      SplitInvertsWriting(front);
      LineRunsOn(Terminated(front), last);
      LinesGrowIff(Terminated(front), last);
      assert lines == front + [last];
    }
  }

  lemma {:induction false} WritingInvertsUpTo(data: string, n: nat)
    requires n <= |data|
    ensures Terminated(LinesUpTo(data, n)) == data[..LastStart(data, n)]
    ensures NL !in data[LastStart(data, n)..n]
  {
    if n > 0 {
      WritingInvertsUpTo(data, n - 1);
      OneMoreCharacter(data, LinesUpTo(data, n - 1), LastStart(data, n - 1), n - 1);
    }
  }

  lemma OneMoreCharacter(data: string, lines: seq<string>, k: nat, n: nat)
    requires k <= n < |data| && Terminated(lines) == data[..k] && NL !in data[k..n]
    ensures data[n] == NL ==> Terminated(lines + [data[k..n]]) == data[..n + 1] && NL !in data[n + 1..n + 1]
    ensures data[n] != NL ==> NL !in data[k..n + 1]
  {
    assert (lines + [data[k..n]])[..|lines|] == lines;
    assert data[..n + 1] == data[..k] + (data[k..n] + [data[n]]);
    assert data[k..n + 1] == data[k..n] + [data[n]];
  }

  /** Writing the lines of a text again gives the text back exactly when it ends in a newline or is empty. */
  lemma WritingInvertsSplit(data: string)
    ensures Terminated(Lines(data)) == data <==> EndsLine(data)
  {
    WritingInvertsUpTo(data, |data|);
    var k := LastStart(data, |data|);
    var rest, lines := data[k..], LinesUpTo(data, |data|);
    assert data == data[..k] + rest;
    if rest == "" {
      assert k == |data| && lines + [] == lines && data[..k] == data;
    } else {
      assert rest == data[k..|data|];
      assert data[|data| - 1] == rest[|rest| - 1];
      assert (lines + [rest])[..|lines|] == lines;
      assert |Terminated(Lines(data))| == |data| + 1;
    }
  }

  // ----- Records -----

  /** json.Marshal and json.Unmarshal as far as the log needs them. */
  datatype Codec<!E> = Codec(encode: E -> Option<string>, decode: string -> Option<E>)

  /** An encoded record is one non-empty line, and decodes to itself. */
  ghost predicate IsCodec<E(!new)>(c: Codec<E>)
  {
    forall e {:trigger c.encode(e)} :: c.encode(e).Some? ==>
      var text := c.encode(e).value;
      text != "" && NL !in text && c.decode(text) == Some(e)
  }

  /** The records that can be encoded. */
  function Encodable<E>(c: Codec<E>, es: seq<E>): seq<E>
  {
    if es == [] then []
    else Encodable(c, es[..|es| - 1]) + if c.encode(es[|es| - 1]).Some? then [es[|es| - 1]] else []
  }

  ghost predicate AllEncodable<E>(c: Codec<E>, es: seq<E>)
  {
    forall i :: 0 <= i < |es| ==> c.encode(es[i]).Some?
  }

  function Encoded<E>(c: Codec<E>, es: seq<E>): (r: seq<string>)
    requires AllEncodable(c, es)
    ensures |r| == |es| && forall i :: 0 <= i < |es| ==> r[i] == c.encode(es[i]).value
  {
    seq(|es|, i requires 0 <= i < |es| => c.encode(es[i]).value)
  }

  /** The text of a file holding the records `es`. */
  function FileText<E>(c: Codec<E>, es: seq<E>): string
    requires AllEncodable(c, es)
  {
    Terminated(Encoded(c, es))
  }

  /** The record of a line, if it decodes. */
  function Read<E>(c: Codec<E>, line: string): (r: seq<E>)
    ensures |r| <= 1
  {
    if line != "" && c.decode(line).Some? then [c.decode(line).value] else []
  }

  /** The records decoded from lines; lines that do not decode are skipped. */
  function Decoded<E>(c: Codec<E>, lines: seq<string>): seq<E>
  {
    if lines == [] then [] else Decoded(c, lines[..|lines| - 1]) + Read(c, lines[|lines| - 1])
  }

  lemma {:induction false} EncodedDecodes<E(!new)>(c: Codec<E>, es: seq<E>)
    requires IsCodec(c) && AllEncodable(c, es)
    ensures Decoded(c, Encoded(c, es)) == es
  {
    if es != [] {
      var n := |es| - 1;
      var lines := Encoded(c, es);
      EncodedDecodes(c, es[..n]);
      assert lines[..n] == Encoded(c, es[..n]);
      EncodedIsRead(c, es[n]);
      assert es == es[..n] + [es[n]];
    }
  }

  lemma EncodedIsRead<E(!new)>(c: Codec<E>, e: E)
    requires IsCodec(c) && c.encode(e).Some?
    ensures Read(c, c.encode(e).value) == [e]
  {
  }

  /** Reading a file gives back the records written to it. */
  lemma FileReadsBack<E(!new)>(c: Codec<E>, es: seq<E>)
    requires IsCodec(c) && AllEncodable(c, es)
    ensures Decoded(c, Lines(FileText(c, es))) == es
  {
    SplitInvertsWriting(Encoded(c, es));
    EncodedDecodes(c, es);
  }

  /** The records read from a file. */
  function Records<E>(c: Codec<E>, data: string): seq<E>
  {
    Decoded(c, Lines(data))
  }

  /** `read` reads the records of a file. */
  ghost predicate IsReader<E>(c: Codec<E>, read: string -> seq<E>)
  {
    forall data {:trigger Records(c, data)} :: read(data) == Records(c, data)
  }

  lemma ReaderOf<E>(c: Codec<E>) returns (read: string -> seq<E>)
    ensures IsReader(c, read) && read("") == []
  {
    read := data => Records(c, data);
  }

  ghost function EachRead<E>(read: string -> seq<E>, dir: seq<string>): (r: seq<seq<E>>)
    ensures Holds(read, dir, r)
  {
    seq(|dir|, i requires 0 <= i < |dir| => read(dir[i]))
  }

  /** File `i` of the directory is read as the records `contents[i]`. */
  ghost predicate Holds<E>(read: string -> seq<E>, dir: seq<string>, contents: seq<seq<E>>)
  {
    |dir| == |contents| && forall i :: 0 <= i < |dir| ==> contents[i] == read(dir[i])
  }

  lemma DecodedSnoc<E>(c: Codec<E>, lines: seq<string>, line: string)
    ensures Decoded(c, lines + [line]) == Decoded(c, lines) + Read(c, line)
  {
    assert (lines + [line])[..|lines|] == lines;
  }

  /** The records of a file, and those of the file with one more line. */
  lemma RecordsRunOn<E>(c: Codec<E>, data: string, line: string)
    requires NL !in line
    ensures var whole := Decoded(c, LinesUpTo(data, |data|));
      && Records(c, data) == whole + Read(c, Rest(data))
      && Records(c, data + (line + [NL])) == whole + Read(c, Rest(data) + line)
  {
    var lines := LinesUpTo(data, |data|);
    LineRunsOn(data, line);
    DecodedSnoc(c, lines, Rest(data) + line);
    if Rest(data) == "" {
      assert lines + [] == lines;
    } else {
      DecodedSnoc(c, lines, Rest(data));
    }
  }

  /** A record written to a file is read back after what was there exactly when the file ends in a newline or is empty,
      or what follows its last newline is no record and does not disturb this one. */
  lemma RecordIsAddedIff<E(!new)>(c: Codec<E>, data: string, e: E)
    requires IsCodec(c) && c.encode(e).Some?
    ensures var text := c.encode(e).value;
      Records(c, data + (text + [NL])) == Records(c, data) + [e] <==>
      EndsLine(data) || (Read(c, Rest(data)) == [] && c.decode(Rest(data) + text) == Some(e))
  {
    var text := c.encode(e).value;
    RecordsRunOn(c, data, text);
    RestIsEmptyIff(data);
    var whole, pending, next := Decoded(c, LinesUpTo(data, |data|)), Read(c, Rest(data)), Read(c, Rest(data) + text);
    SameTail(whole, next, pending + [e]);
    PlusIsAssociative(whole, pending, [e]);
    if EndsLine(data) {
      assert Rest(data) + text == text;
    } else {
      assert next == pending + [e] <==> pending == [] && next == [e];
    }
  }

  lemma SameTail<E>(whole: seq<E>, a: seq<E>, b: seq<E>)
    ensures whole + a == whole + b <==> a == b
  {
    assert (whole + a)[|whole|..] == a && (whole + b)[|whole|..] == b;
  }

  function Flatten<E>(parts: seq<seq<E>>): seq<E>
  {
    if parts == [] then [] else Flatten(parts[..|parts| - 1]) + parts[|parts| - 1]
  }

  lemma {:induction false} FlattenSplit<E>(parts: seq<seq<E>>, k: nat)
    requires k <= |parts|
    ensures Flatten(parts) == Flatten(parts[..k]) + Flatten(parts[k..])
    decreases |parts|
  {
    if k == |parts| {
      assert parts[..k] == parts && parts[k..] == [];
    } else {
      var front := parts[..|parts| - 1];
      FlattenSplit(front, k);
      assert front[..k] == parts[..k] && parts[k..][..|parts| - k - 1] == front[k..];
    }
  }

  // ----- The directory -----

  /** From file `from` on, every file is within the size limit or holds a single record (or none). */
  ghost predicate WithinLimit<E>(dir: seq<string>, contents: seq<seq<E>>, maxFileSize: int, from: nat)
  {
    |dir| == |contents| &&
    forall i :: from <= i < |dir| ==> |dir[i]| <= maxFileSize || |contents[i]| <= 1
  }

  /** The directory once its newest file has room for `line`: as it is, or with a fresh file. */
  function WithRoom(dir: seq<string>, size: int, line: string, maxFileSize: int, maxFiles: nat): (r: seq<string>)
    requires dir != [] && maxFiles > 0
    ensures r != []
  {
    if size + |line| > maxFileSize then Newest(dir + [""], maxFiles) else dir
  }

  /** The directory with `line` added to its newest file. */
  function WithLine(dir: seq<string>, line: string): seq<string>
    requires dir != []
  {
    dir[|dir| - 1 := dir[|dir| - 1] + line]
  }

  /** The directory after the record `e`, or as it is when `e` cannot be encoded. */
  function AfterRecord<E>(c: Codec<E>, dir: seq<string>, e: E, maxFileSize: int, maxFiles: nat): (r: seq<string>)
    requires dir != [] && maxFiles > 0
    ensures r != []
  {
    match c.encode(e)
    case None => dir
    case Some(text) =>
      WithLine(WithRoom(dir, |dir[|dir| - 1]|, text + [NL], maxFileSize, maxFiles), text + [NL])
  }

  function AfterRecords<E>(c: Codec<E>, dir: seq<string>, es: seq<E>, maxFileSize: int, maxFiles: nat): (r: seq<string>)
    requires dir != [] && maxFiles > 0
    ensures r != []
  {
    if es == [] then dir
    else AfterRecord(c, AfterRecords(c, dir, es[..|es| - 1], maxFileSize, maxFiles), es[|es| - 1],
                     maxFileSize, maxFiles)
  }

  /** What was written, once the line `text` is added to the newest file: what follows its last newline is no longer a
      record of its own but the beginning of this one. */
  ghost function WithText<E>(c: Codec<E>, written: seq<E>, data: string, text: string): seq<E>
  {
    var pending := |Read(c, Rest(data))|;
    (if pending <= |written| then written[..|written| - pending] else []) + Read(c, Rest(data) + text)
  }

  /** What was written after the record `e`. */
  ghost function WrittenAfter<E>(c: Codec<E>, written: seq<E>, dir: seq<string>, e: E,
                                 maxFileSize: int, maxFiles: nat): seq<E>
    requires dir != [] && maxFiles > 0
  {
    match c.encode(e)
    case None => written
    case Some(text) =>
      var room := WithRoom(dir, |dir[|dir| - 1]|, text + [NL], maxFileSize, maxFiles);
      WithText(c, written, room[|room| - 1], text)
  }

  ghost function AllWrittenAfter<E>(c: Codec<E>, written: seq<E>, dir: seq<string>, es: seq<E>,
                                    maxFileSize: int, maxFiles: nat): seq<E>
    requires dir != [] && maxFiles > 0
  {
    if es == [] then written else
    var n := |es| - 1;
    WrittenAfter(c, AllWrittenAfter(c, written, dir, es[..n], maxFileSize, maxFiles),
                 AfterRecords(c, dir, es[..n], maxFileSize, maxFiles), es[n], maxFileSize, maxFiles)
  }

  /** Writing goes on behind a newline. */
  ghost predicate Whole(dir: seq<string>)
    requires dir != []
  {
    EndsLine(dir[|dir| - 1])
  }

  lemma WrittenWhole<E(!new)>(c: Codec<E>, written: seq<E>, dir: seq<string>, e: E, maxFileSize: int, maxFiles: nat)
    requires dir != [] && maxFiles > 0 && IsCodec(c)
    ensures c.encode(e).Some? || Whole(dir) ==> Whole(AfterRecord(c, dir, e, maxFileSize, maxFiles))
    ensures Whole(dir) ==> WrittenAfter(c, written, dir, e, maxFileSize, maxFiles) == written + Encodable(c, [e])
  {
    assert [e][..0] == [];
    match c.encode(e)
    case None =>
    case Some(text) =>
      var room := WithRoom(dir, |dir[|dir| - 1]|, text + [NL], maxFileSize, maxFiles);
      var data := room[|room| - 1];
      LineRunsOn(data, text);
      if Whole(dir) {
        RestIsEmptyIff(data);
        assert Rest(data) == "" && Rest(data) + text == text;
      }
  }

  lemma EncodableLast<E>(c: Codec<E>, es: seq<E>)
    requires es != []
    ensures var n := |es| - 1;
      Encodable(c, es) == Encodable(c, es[..n]) + Encodable(c, [es[n]])
  {
    assert [es[|es| - 1]][..0] == [];
  }

  /** Behind a newline, all that can be encoded is written, in order. */
  lemma {:induction false} AllWrittenWhole<E(!new)>(c: Codec<E>, written: seq<E>, dir: seq<string>, es: seq<E>,
                                                    maxFileSize: int, maxFiles: nat)
    requires dir != [] && maxFiles > 0 && IsCodec(c) && Whole(dir)
    ensures Whole(AfterRecords(c, dir, es, maxFileSize, maxFiles))
    ensures AllWrittenAfter(c, written, dir, es, maxFileSize, maxFiles) == written + Encodable(c, es)
  {
    if es != [] {
      var n := |es| - 1;
      AllWrittenWhole(c, written, dir, es[..n], maxFileSize, maxFiles);
      WrittenWhole(c, written + Encodable(c, es[..n]), AfterRecords(c, dir, es[..n], maxFileSize, maxFiles), es[n],
                   maxFileSize, maxFiles);
      EncodableLast(c, es);
      PlusIsAssociative(written, Encodable(c, es[..n]), Encodable(c, [es[n]]));
    }
  }

  lemma FlattenReplaced<E>(parts: seq<seq<E>>, part: seq<E>)
    requires parts != []
    ensures var n := |parts| - 1;
      Flatten(parts) == Flatten(parts[..n]) + parts[n] && Flatten(parts[n := part]) == Flatten(parts[..n]) + part
  {
    var n := |parts| - 1;
    assert parts[n := part][..n] == parts[..n];
  }

  lemma FlattenSnocEmpty<E>(parts: seq<seq<E>>)
    ensures Flatten(parts + [[]]) == Flatten(parts)
  {
    assert (parts + [[]])[..|parts|] == parts;
  }

  /** What holds of the directory between calls, over values. The first `kept` files were found and are as they were. */
  ghost predicate Consistent<E(!new)>(read: string -> seq<E>, maxFileSize: int, maxFiles: nat,
                                      dir: seq<string>, kept: nat,
                                      contents: seq<seq<E>>, written: seq<E>, lost: seq<E>, created: nat)
  {
    && Holds(read, dir, contents) && WithinLimit(dir, contents, maxFileSize, kept)
    && written == lost + Flatten(contents)
    && kept <= |dir| <= created && (created <= maxFiles ==> lost == [])
  }

  lemma FoundIsConsistent<E(!new)>(read: string -> seq<E>, maxFileSize: int, maxFiles: nat,
                                   found: seq<string>, kept: nat)
    requires kept == |found| || (kept == |found| - 1 && |found[kept]| < maxFileSize)
    ensures Consistent(read, maxFileSize, maxFiles, found, kept, EachRead(read, found),
                       Flatten(EachRead(read, found)), [], |found|)
  {
    var contents := EachRead(read, found);
    assert [] + Flatten(contents) == Flatten(contents);
  }

  lemma FileAdded<E(!new)>(read: string -> seq<E>, maxFileSize: int, maxFiles: nat, dir: seq<string>, kept: nat,
                           contents: seq<seq<E>>, written: seq<E>, lost: seq<E>, created: nat)
    requires Consistent(read, maxFileSize, maxFiles, dir, kept, contents, written, lost, created) && read("") == []
    ensures Consistent(read, maxFileSize, maxFiles, dir + [""], kept, contents + [[]], written, lost, created + 1)
  {
    FlattenSnocEmpty(contents);
  }

  function Less(a: nat, n: nat): nat
  {
    if a > n then a - n else 0
  }

  lemma NewestFiles<E>(read: string -> seq<E>, maxFileSize: int, dir: seq<string>, kept: nat,
                       contents: seq<seq<E>>, n: nat)
    requires Holds(read, dir, contents) && WithinLimit(dir, contents, maxFileSize, kept) && n <= |dir|
    ensures Holds(read, dir[n..], contents[n..])
    ensures WithinLimit(dir[n..], contents[n..], maxFileSize, Less(kept, n))
  {
    assert forall i :: 0 <= i < |dir| - n ==> dir[n..][i] == dir[n + i] && contents[n..][i] == contents[n + i];
  }

  lemma OldestRemoved<E(!new)>(read: string -> seq<E>, maxFileSize: int, maxFiles: nat, dir: seq<string>, kept: nat,
                               contents: seq<seq<E>>, written: seq<E>, lost: seq<E>, created: nat, n: nat)
    requires Consistent(read, maxFileSize, maxFiles, dir, kept, contents, written, lost, created)
    requires maxFiles > 0 && maxFiles < |dir| && n == |dir| - maxFiles
    ensures Consistent(read, maxFileSize, maxFiles, dir[n..], Less(kept, n), contents[n..], written,
                       lost + Flatten(contents[..n]), created)
    ensures dir[n..] == Newest(dir, maxFiles) && contents[n..] == Newest(contents, maxFiles)
    ensures dir[n..][maxFiles - 1] == dir[|dir| - 1]
  {
    NewestFiles(read, maxFileSize, dir, kept, contents, n);
    FlattenSplit(contents, n);
    assert written == lost + Flatten(contents[..n]) + Flatten(contents[n..]);
  }

  lemma FileGrown<E(!new)>(read: string -> seq<E>, maxFileSize: int, maxFiles: nat, dir: seq<string>, kept: nat,
                           contents: seq<seq<E>>, written: seq<E>, lost: seq<E>, created: nat,
                           data: string, more: seq<E>)
    requires Consistent(read, maxFileSize, maxFiles, dir, kept, contents, written, lost, created) && dir != []
    requires |data| <= maxFileSize || |read(data)| <= 1
    requires more == lost + Flatten(contents[|dir| - 1 := read(data)])
    ensures var n := |dir| - 1;
      Consistent(read, maxFileSize, maxFiles, dir[n := data], kept, contents[n := read(data)], more, lost, created)
  {
  }

  lemma OneRecordOrFits<E>(c: Codec<E>, last: string, text: string, maxFileSize: int)
    requires NL !in text && (last == "" || |last| + |text| + 1 <= maxFileSize)
    ensures var data := last + (text + [NL]);
      |data| <= maxFileSize || |Records(c, data)| <= 1
  {
    if last == "" {
      RecordsRunOn(c, "", text);
      assert Records(c, "" + (text + [NL])) == Read(c, Rest("") + text);
    }
  }

  lemma TextWritten<E>(c: Codec<E>, written: seq<E>, lost: seq<E>, contents: seq<seq<E>>, last: string, text: string)
    requires contents != [] && contents[|contents| - 1] == Records(c, last)
    requires written == lost + Flatten(contents) && NL !in text
    ensures var n := |contents| - 1;
      WithText(c, written, last, text) == lost + Flatten(contents[n := Records(c, last + (text + [NL]))])
  {
    var n, data := |contents| - 1, last + (text + [NL]);
    RecordsRunOn(c, last, text);
    FlattenReplaced(contents, Records(c, data));
    TextReplaced(c, lost, Flatten(contents[..n]), Decoded(c, LinesUpTo(last, |last|)), last, text);
  }

  /** One more line in the newest file, which is empty or has room for it. */
  lemma LineAdded<E(!new)>(c: Codec<E>, read: string -> seq<E>, maxFileSize: int, maxFiles: nat,
                                              dir: seq<string>, kept: nat, contents: seq<seq<E>>, written: seq<E>,
                                              lost: seq<E>, created: nat, text: string)
    requires Consistent(read, maxFileSize, maxFiles, dir, kept, contents, written, lost, created) && dir != []
    requires IsReader(c, read) && NL !in text
    requires dir[|dir| - 1] == "" || |dir[|dir| - 1]| + |text| + 1 <= maxFileSize
    ensures var n := |dir| - 1;
      var data := dir[n] + (text + [NL]);
      Consistent(read, maxFileSize, maxFiles, dir[n := data], kept, contents[n := read(data)],
                 WithText(c, written, dir[n], text), lost, created)
  {
    var last := dir[|dir| - 1];
    var more := WithText(c, written, last, text);
    OneRecordOrFits(c, last, text, maxFileSize);
    TextWritten(c, written, lost, contents, last, text);
    FileGrown(read, maxFileSize, maxFiles, dir, kept, contents, written, lost, created, last + (text + [NL]), more);
  }

  lemma TextReplaced<E>(c: Codec<E>, lost: seq<E>, before: seq<E>, whole: seq<E>, data: string, text: string)
    ensures WithText(c, lost + (before + (whole + Read(c, Rest(data)))), data, text) ==
            lost + (before + (whole + Read(c, Rest(data) + text)))
  {
    var kept := lost + (before + whole);
    var w := lost + (before + (whole + Read(c, Rest(data))));
    assert w == kept + Read(c, Rest(data));
    assert w[..|w| - |Read(c, Rest(data))|] == kept;
  }

  // ----- Files are only as many as needed -----

  /** What a batch writes: each record that can be encoded on a line of its own. */
  function BatchText<E>(c: Codec<E>, es: seq<E>): string
  {
    if es == [] then "" else
    var n := |es| - 1;
    BatchText(c, es[..n]) + match c.encode(es[n]) case None => "" case Some(text) => text + [NL]
  }

  lemma {:induction false} BatchTextIsFileText<E>(c: Codec<E>, es: seq<E>)
    ensures AllEncodable(c, Encodable(c, es)) && BatchText(c, es) == FileText(c, Encodable(c, es))
  {
    if es != [] {
      var n := |es| - 1;
      BatchTextIsFileText(c, es[..n]);
      if c.encode(es[n]).Some? {
        LastEncoded(c, Encodable(c, es[..n]), es[n]);
      } else {
        assert Encodable(c, es) == Encodable(c, es[..n]) && BatchText(c, es) == BatchText(c, es[..n]);
      }
    }
  }

  lemma LastEncoded<E>(c: Codec<E>, es: seq<E>, e: E)
    requires AllEncodable(c, es) && c.encode(e).Some?
    ensures AllEncodable(c, es + [e]) && FileText(c, es + [e]) == FileText(c, es) + (c.encode(e).value + [NL])
  {
    assert Encoded(c, es + [e])[..|es|] == Encoded(c, es);
  }

  /** The newest file has room for the whole batch. */
  ghost predicate Fits<E>(c: Codec<E>, dir: seq<string>, es: seq<E>, maxFileSize: int)
  {
    dir != [] && |dir[|dir| - 1]| + |BatchText(c, es)| <= maxFileSize
  }

  lemma NoRecordsNoText<E>(c: Codec<E>, dir: seq<string>)
    ensures dir != [] ==> WithLine(dir, BatchText(c, [])) == dir
  {
    if dir != [] {
      assert dir[|dir| - 1] + "" == dir[|dir| - 1];
    }
  }

  /** If the newest file has room for the whole batch, the batch goes to its end and nothing else changes. */
  lemma {:induction false} BatchFits<E>(c: Codec<E>, dir: seq<string>, es: seq<E>, maxFileSize: int, maxFiles: nat)
    requires maxFiles > 0 && Fits(c, dir, es, maxFileSize)
    ensures AfterRecords(c, dir, es, maxFileSize, maxFiles) == WithLine(dir, BatchText(c, es))
  {
    if es == [] {
      NoRecordsNoText(c, dir);
    } else {
      var n := |es| - 1;
      var front := BatchText(c, es[..n]);
      BatchFits(c, dir, es[..n], maxFileSize, maxFiles);
      RecordFits(c, dir, front, es[n], maxFileSize, maxFiles);
    }
  }

  lemma RecordFits<E>(c: Codec<E>, dir: seq<string>, front: string, e: E, maxFileSize: int, maxFiles: nat)
    requires dir != [] && maxFiles > 0
    requires var line := match c.encode(e) case None => "" case Some(text) => text + [NL];
      |dir[|dir| - 1]| + |front + line| <= maxFileSize
    ensures var line := match c.encode(e) case None => "" case Some(text) => text + [NL];
      AfterRecord(c, WithLine(dir, front), e, maxFileSize, maxFiles) == WithLine(dir, front + line)
  {
    var last := dir[|dir| - 1];
    match c.encode(e)
    case None =>
      assert front + "" == front;
    case Some(text) =>
      PlusIsAssociative(last, front, text + [NL]);
  }

  /** The length of the first line, with its newline. */
  function FirstLine(data: string): (n: nat)
    ensures n <= |data|
  {
    if data == "" then 0 else if data[0] == NL then 1 else 1 + FirstLine(data[1..])
  }

  lemma {:induction false} FirstLineStays(data: string, more: string)
    requires NL in data
    ensures FirstLine(data + more) == FirstLine(data)
  {
    if data[0] != NL {
      assert (data + more)[1..] == data[1..] + more;
      FirstLineStays(data[1..], more);
    }
  }

  lemma {:induction false} FirstLineOfLine(text: string)
    requires NL !in text
    ensures FirstLine(text + [NL]) == |text| + 1
  {
    if text != "" {
      assert (text + [NL])[1..] == text[1..] + [NL];
      FirstLineOfLine(text[1..]);
    }
  }

  /** From file `from` on, a file was begun only when the one before had no room for its first line. */
  ghost predicate Needed(dir: seq<string>, from: nat, maxFileSize: int)
  {
    forall i :: from < i < |dir| ==> NeededAt(dir, i, maxFileSize)
  }

  ghost predicate NeededAt(dir: seq<string>, i: nat, maxFileSize: int)
    requires 0 < i < |dir|
  {
    NL in dir[i] && |dir[i - 1]| + FirstLine(dir[i]) > maxFileSize
  }

  /** `m`, `n` times. */
  function Times(n: nat, m: int): int
  {
    if n == 0 then 0 else Times(n - 1, m) + m
  }

  lemma {:induction false} TimesIsProduct(n: nat, m: int)
    ensures Times(n, m) == n * m
  {
    if n > 0 {
      TimesIsProduct(n - 1, m);
      assert (n - 1) * m + m == n * m;
    }
  }

  lemma NeededGrows(dir: seq<string>, from: nat, maxFileSize: int, line: string)
    requires from < |dir| && Needed(dir, from, maxFileSize)
    ensures Needed(WithLine(dir, line), from, maxFileSize)
  {
    var n, more := |dir| - 1, WithLine(dir, line);
    forall i | from < i < |more|
      ensures NeededAt(more, i, maxFileSize)
    {
      assert NeededAt(dir, i, maxFileSize);
      if i == n {
        FirstLineStays(dir[n], line);
      }
    }
  }

  /** How many of `n` files are too many. */
  function TooMany(n: nat, maxFiles: nat): nat
  {
    if n > maxFiles then n - maxFiles else 0
  }

  lemma NeededRotates(dir: seq<string>, from: nat, maxFileSize: int, maxFiles: nat, text: string)
    requires from < |dir| && Needed(dir, from, maxFileSize) && maxFiles > 0 && NL !in text
    requires |dir[|dir| - 1]| + |text| + 1 > maxFileSize
    ensures var k := TooMany(|dir| + 1, maxFiles);
      var more := WithLine(Newest(dir + [""], maxFiles), text + [NL]);
      Less(from, k) < |more| && Needed(more, Less(from, k), maxFileSize) && more[|more| - 1] == text + [NL]
  {
    var k := TooMany(|dir| + 1, maxFiles);
    var more := WithLine(Newest(dir + [""], maxFiles), text + [NL]);
    FirstLineOfLine(text);
    assert forall i :: 0 <= i < |dir| - k ==> more[i] == dir[k + i];
    assert "" + (text + [NL]) == text + [NL];
    assert more[|dir| - k] == text + [NL];
    forall i | Less(from, k) < i < |more|
      ensures NeededAt(more, i, maxFileSize)
    {
      if i < |dir| - k {
        assert NeededAt(dir, k + i, maxFileSize);
      }
    }
  }

  lemma TextOfOne<E>(c: Codec<E>, e: E)
    ensures BatchText(c, [e]) == match c.encode(e) case None => "" case Some(text) => text + [NL]
  {
    assert [e][..0] == [];
  }

  lemma TextOfLast<E>(c: Codec<E>, es: seq<E>)
    requires es != []
    ensures BatchText(c, es) == BatchText(c, es[..|es| - 1]) + BatchText(c, [es[|es| - 1]])
  {
    TextOfOne(c, es[|es| - 1]);
  }

  lemma {:induction false} TextGrows<E>(c: Codec<E>, es: seq<E>, i: nat)
    requires i <= |es|
    ensures |BatchText(c, es[..i])| <= |BatchText(c, es)|
  {
    if i == |es| {
      assert es[..i] == es;
    } else {
      var n := |es| - 1;
      TextGrows(c, es[..n], i);
      assert es[..n][..i] == es[..i];
    }
  }

  lemma MoreTimes(a: int, b: int, m: int)
    requires a <= b && m >= 0
    ensures a * m <= b * m
  {
    assert (b - a) * m >= 0;
  }

  /** Whether a new file is begun for the record `e`. */
  predicate Rotates<E>(c: Codec<E>, dir: seq<string>, e: E, maxFileSize: int)
    requires dir != []
  {
    c.encode(e).Some? && |dir[|dir| - 1]| + |c.encode(e).value| + 1 > maxFileSize
  }

  /** How many new files are begun for a batch. */
  function Rotations<E>(c: Codec<E>, dir: seq<string>, es: seq<E>, maxFileSize: int, maxFiles: nat): nat
    requires dir != [] && maxFiles > 0
  {
    if es == [] then 0 else
    var n := |es| - 1;
    Rotations(c, dir, es[..n], maxFileSize, maxFiles) +
      if Rotates(c, AfterRecords(c, dir, es[..n], maxFileSize, maxFiles), es[n], maxFileSize) then 1 else 0
  }

  /** None for a batch that fits into the newest file. */
  lemma {:induction false} FittingNeedsNoFile<E>(c: Codec<E>, dir: seq<string>, es: seq<E>,
                                                 maxFileSize: int, maxFiles: nat)
    requires maxFiles > 0 && Fits(c, dir, es, maxFileSize)
    ensures Rotations(c, dir, es, maxFileSize, maxFiles) == 0
  {
    if es != [] {
      var n := |es| - 1;
      TextGrows(c, es, n);
      FittingNeedsNoFile(c, dir, es[..n], maxFileSize, maxFiles);
      BatchFits(c, dir, es[..n], maxFileSize, maxFiles);
    }
  }

  /** The first `b` files of `after` are those in front of position `a`. */
  ghost predicate Kept(dir: seq<string>, a: nat, after: seq<string>, b: nat)
  {
    b <= a &&
    var shift := a - b;
    forall i :: 0 <= i < b ==> IsFile(dir, shift, after, i)
  }

  ghost predicate IsFile(dir: seq<string>, shift: nat, after: seq<string>, i: nat)
  {
    i + shift < |dir| && i < |after| && after[i] == dir[i + shift]
  }

  lemma StillKept(dir: seq<string>, before: seq<string>, after: seq<string>, a: nat, b: nat, c: nat)
    requires Kept(dir, a, before, b) && Kept(before, b, after, c)
    ensures Kept(dir, a, after, c)
  {
    var shift := a - c;
    forall i | 0 <= i < c
      ensures IsFile(dir, shift, after, i)
    {
      assert IsFile(before, b - c, after, i);
      assert IsFile(dir, a - b, before, i + (b - c));
    }
  }

  lemma AllKept(dir: seq<string>, a: nat)
    requires a <= |dir|
    ensures Kept(dir, a, dir, a)
  {
  }

  lemma OldFilesStay(dir: seq<string>, from: nat, maxFiles: nat, line: string)
    requires from < |dir| && maxFiles > 0
    ensures Kept(dir, from, WithLine(Newest(dir + [""], maxFiles), line), Less(from, TooMany(|dir| + 1, maxFiles)))
  {
    var k := TooMany(|dir| + 1, maxFiles);
    var more := WithLine(Newest(dir + [""], maxFiles), line);
    assert forall i :: 0 <= i < |dir| - k ==> more[i] == dir[k + i];
    assert forall i :: 0 <= i < Less(from, k) ==> IsFile(dir, k, more, i);
  }

  lemma NeededRecord<E(!new)>(c: Codec<E>, dir: seq<string>, from: nat, e: E, maxFileSize: int, maxFiles: nat)
    returns (from': nat)
    requires from < |dir| && Needed(dir, from, maxFileSize) && maxFiles > 0 && IsCodec(c)
    ensures var more := AfterRecord(c, dir, e, maxFileSize, maxFiles);
      from' < |more| && Needed(more, from', maxFileSize) && Kept(dir, from, more, from')
  {
    from' := from;
    match c.encode(e)
    case None =>
    case Some(text) =>
      if Rotates(c, dir, e, maxFileSize) {
        from' := Less(from, TooMany(|dir| + 1, maxFiles));
        NeededRotates(dir, from, maxFileSize, maxFiles, text);
        OldFilesStay(dir, from, maxFiles, text + [NL]);
      } else {
        NeededGrows(dir, from, maxFileSize, text + [NL]);
      }
  }

  /** Of the files of `after`, those not in front of position `from` of `dir` were needed. */
  ghost predicate NeededSince(dir: seq<string>, from: nat, after: seq<string>, maxFileSize: int)
  {
    exists from': nat :: Kept(dir, from, after, from') && from' < |after| && Needed(after, from', maxFileSize)
  }

  lemma NeededNext<E(!new)>(c: Codec<E>, dir: seq<string>, from: nat, before: seq<string>, e: E, after: seq<string>,
                            maxFileSize: int, maxFiles: nat)
    requires before != [] && maxFiles > 0 && IsCodec(c) && NeededSince(dir, from, before, maxFileSize)
    requires after == AfterRecord(c, before, e, maxFileSize, maxFiles)
    ensures NeededSince(dir, from, after, maxFileSize)
  {
    var middle: nat :| Kept(dir, from, before, middle) && middle < |before| && Needed(before, middle, maxFileSize);
    var next := NeededRecord(c, before, middle, e, maxFileSize, maxFiles);
    StillKept(dir, before, after, from, middle, next);
  }

  lemma {:induction false} NeededThroughout<E(!new)>(c: Codec<E>, dir: seq<string>, from: nat, es: seq<E>,
                                                     maxFileSize: int, maxFiles: nat)
    requires dir != [] && maxFiles > 0 && IsCodec(c) && NeededSince(dir, from, dir, maxFileSize)
    ensures NeededSince(dir, from, AfterRecords(c, dir, es, maxFileSize, maxFiles), maxFileSize)
  {
    if es != [] {
      var n := |es| - 1;
      NeededThroughout(c, dir, from, es[..n], maxFileSize, maxFiles);
      NeededNext(c, dir, from, AfterRecords(c, dir, es[..n], maxFileSize, maxFiles), es[n],
                 AfterRecords(c, dir, es, maxFileSize, maxFiles), maxFileSize, maxFiles);
    }
  }

  /**
    * Over any batch: of the files written, each was begun only when the one
    * before had no room for its first line. Files before them are those
    * found, unless removed.
    */
  lemma BatchIsEconomical<E(!new)>(c: Codec<E>, dir: seq<string>, from: nat, es: seq<E>,
                                   maxFileSize: int, maxFiles: nat)
    returns (from': nat)
    requires from < |dir| && Needed(dir, from, maxFileSize) && maxFiles > 0 && IsCodec(c)
    ensures var after := AfterRecords(c, dir, es, maxFileSize, maxFiles);
      Kept(dir, from, after, from') && from' < |after| && Needed(after, from', maxFileSize)
  {
    AllKept(dir, from);
    NeededThroughout(c, dir, from, es, maxFileSize, maxFiles);
    from' :| Kept(dir, from, AfterRecords(c, dir, es, maxFileSize, maxFiles), from') &&
      from' < |AfterRecords(c, dir, es, maxFileSize, maxFiles)| &&
      Needed(AfterRecords(c, dir, es, maxFileSize, maxFiles), from', maxFileSize);
  }

  /** The record `e` turns `dir` into `after`, and `made` files and `bytes` characters into `m` and `b`. */
  ghost predicate Turns<E>(c: Codec<E>, maxFileSize: int, maxFiles: nat, e: E, dir: seq<string>, made: nat, bytes: nat,
                           after: seq<string>, m: nat, b: nat)
  {
    && dir != [] && maxFiles > 0 && after == AfterRecord(c, dir, e, maxFileSize, maxFiles)
    && m == made + (if Rotates(c, dir, e, maxFileSize) then 1 else 0) && b == bytes + |BatchText(c, [e])|
  }

  lemma LastTurns<E>(c: Codec<E>, dir: seq<string>, es: seq<E>, n: nat, maxFileSize: int, maxFiles: nat, bytes: nat)
    requires dir != [] && maxFiles > 0 && |es| == n + 1
    ensures Turns(c, maxFileSize, maxFiles, es[n], AfterRecords(c, dir, es[..n], maxFileSize, maxFiles),
                  Rotations(c, dir, es[..n], maxFileSize, maxFiles), bytes + |BatchText(c, es[..n])|,
                  AfterRecords(c, dir, es, maxFileSize, maxFiles),
                  Rotations(c, dir, es, maxFileSize, maxFiles), bytes + |BatchText(c, es)|)
  {
    TextOfLast(c, es);
  }

  /** The `made` new files, and what is in the newest, are paid for with `bytes` characters. */
  ghost predicate Paid(dir: seq<string>, made: nat, bytes: nat, maxFileSize: int)
  {
    dir != [] && Times(made, maxFileSize + 1) + |dir[|dir| - 1]| <= 2 * bytes
  }

  /** A new file is paid for by what is in the one before and the record that does not fit into it. */
  lemma PaidNext<E>(c: Codec<E>, maxFileSize: int, maxFiles: nat, e: E,
                                       before: seq<string>, made: nat, bytes: nat, after: seq<string>, m: nat, b: nat)
    requires Turns(c, maxFileSize, maxFiles, e, before, made, bytes, after, m, b)
    requires Paid(before, made, bytes, maxFileSize)
    ensures Paid(after, m, b, maxFileSize)
  {
    TextOfOne(c, e);
  }

  lemma {:induction false} RotationsArePaid<E>(c: Codec<E>, dir: seq<string>, es: seq<E>,
                                               maxFileSize: int, maxFiles: nat)
    requires dir != [] && maxFiles > 0
    ensures Paid(AfterRecords(c, dir, es, maxFileSize, maxFiles), Rotations(c, dir, es, maxFileSize, maxFiles),
                 |dir[|dir| - 1]| + |BatchText(c, es)|, maxFileSize)
  {
    if es != [] {
      var n, size := |es| - 1, |dir[|dir| - 1]|;
      RotationsArePaid(c, dir, es[..n], maxFileSize, maxFiles);
      LastTurns(c, dir, es, n, maxFileSize, maxFiles, size);
      PaidNext(c, maxFileSize, maxFiles, es[n], AfterRecords(c, dir, es[..n], maxFileSize, maxFiles),
               Rotations(c, dir, es[..n], maxFileSize, maxFiles), size + |BatchText(c, es[..n])|,
               AfterRecords(c, dir, es, maxFileSize, maxFiles), Rotations(c, dir, es, maxFileSize, maxFiles),
               size + |BatchText(c, es)|);
    }
  }

  /** The number of files begun for a batch, times a size over the limit, is at most twice what is in the newest file
      and the batch. */
  lemma FewRotations<E>(c: Codec<E>, dir: seq<string>, es: seq<E>, maxFileSize: int, maxFiles: nat)
    requires dir != [] && maxFiles > 0
    ensures Rotations(c, dir, es, maxFileSize, maxFiles) * (maxFileSize + 1) <=
            2 * (|dir[|dir| - 1]| + |BatchText(c, es)|)
  {
    RotationsArePaid(c, dir, es, maxFileSize, maxFiles);
    TimesIsProduct(Rotations(c, dir, es, maxFileSize, maxFiles), maxFileSize + 1);
  }

  /** So with few characters there are few files, whatever sizes the records have. */
  lemma FewCharactersFewFiles<E>(c: Codec<E>, dir: seq<string>, es: seq<E>, maxFileSize: int, maxFiles: nat,
                                 created: nat)
    requires dir != [] && maxFiles > 0 && maxFileSize >= 0
    requires 2 * (|dir[|dir| - 1]| + |BatchText(c, es)|) < (maxFiles + 1 - created) * (maxFileSize + 1)
    ensures created + Rotations(c, dir, es, maxFileSize, maxFiles) <= maxFiles
  {
    FewRotations(c, dir, es, maxFileSize, maxFiles);
    var begun := Rotations(c, dir, es, maxFileSize, maxFiles);
    if begun >= maxFiles + 1 - created {
      MoreTimes(maxFiles + 1 - created, begun, maxFileSize + 1);
    }
  }

  class FileFallback<E(!new)> {
    const codec: Codec<E>
    const maxFileSize: int
    const maxFiles: nat

    var dir: seq<string>
    var open: bool
    var currentSize: int
    var enabled: bool

    // How a file is read, what is read from the files, everything that could ever be read, the
    // part of it that rotation removed, how many files there have been, and
    // how many of those found are left as they were.
    ghost const read: string -> seq<E>
    ghost var contents: seq<seq<E>>
    ghost var written: seq<E>
    ghost var lost: seq<E>
    ghost var created: nat
    ghost var untouched: nat

    ghost predicate Valid()
      reads this
    {
      && maxFiles > 0 && IsCodec(codec) && IsReader(codec, read) && read("") == []
      && Consistent(read, maxFileSize, maxFiles, dir, untouched, contents, written, lost, created)
      && (open ==> untouched < |dir| && currentSize == |dir[|dir| - 1]|)
    }

    /** `NewFileFallback` on a directory of any files: go on with the newest unless it is full. */
    constructor (codec: Codec<E>, maxFileSize: int, maxFiles: nat, found: seq<string>)
      requires maxFiles > 0 && IsCodec(codec)
      ensures Valid() && enabled && open && this.codec == codec
      ensures this.maxFileSize == maxFileSize && this.maxFiles == maxFiles
      ensures written == Flatten(EachRead(read, found))
      ensures found != [] && |found[|found| - 1]| < maxFileSize ==>
        dir == found && created == |found| && untouched == |found| - 1
      ensures found == [] || |found[|found| - 1]| >= maxFileSize ==>
        dir == Newest(found + [""], maxFiles) && created == |found| + 1
    {
      this.codec, this.maxFileSize, this.maxFiles := codec, maxFileSize, maxFiles;
      dir, open, currentSize, enabled := found, false, 0, true;
      ghost var reader := ReaderOf(codec);
      read, contents, written, lost := reader, EachRead(reader, found), Flatten(EachRead(reader, found)), [];
      created, untouched := |found|, |found|;
      new;
      FoundIsConsistent(reader, maxFileSize, maxFiles, found, |found|);
      if |found| == 0 || |found[|found| - 1]| >= maxFileSize {
        CreateNewFile();
      } else {
        FoundIsConsistent(reader, maxFileSize, maxFiles, found, |found| - 1);
        open, currentSize, untouched := true, |found[|found| - 1]|, |found| - 1;
      }
    }

    /** `createNewFile`: a fresh empty file, then the oldest files beyond the limit go. */
    method CreateNewFile()
      requires Valid()
      modifies this
      ensures Valid() && open && currentSize == 0 && enabled == old(enabled)
      ensures dir == Newest(old(dir) + [""], maxFiles) && contents == Newest(old(contents) + [[]], maxFiles)
      ensures written == old(written) && old(lost) <= lost && created == old(created) + 1
    {
      AddFile();
      CleanupOldFiles();
    }

    method AddFile()
      requires Valid()
      modifies `dir, `contents, `open, `currentSize, `created
      ensures Valid() && open && currentSize == 0
      ensures dir == old(dir) + [""] && contents == old(contents) + [[]] && created == old(created) + 1
    {
      FileAdded(read, maxFileSize, maxFiles, dir, untouched, contents, written, lost, created);
      open, currentSize := true, 0;
      dir, contents, created := dir + [""], contents + [[]], created + 1;
    }

    /** `cleanupOldFiles` */
    method CleanupOldFiles()
      requires Valid()
      modifies `dir, `contents, `lost, `untouched
      ensures Valid()
      ensures dir == Newest(old(dir), maxFiles) && contents == Newest(old(contents), maxFiles)
      ensures old(lost) <= lost
    {
      if |dir| <= maxFiles {
        return;
      }
      var toDelete := |dir| - maxFiles;
      OldestRemoved(read, maxFileSize, maxFiles, dir, untouched, contents, written, lost, created, toDelete);
      lost := lost + Flatten(contents[..toDelete]);
      dir, contents := dir[toDelete..], contents[toDelete..];
      untouched := Less(untouched, toDelete);
    }

    /** The rotation test of `WriteBatch`. */
    method MakeRoom(line: string)
      requires Valid() && open
      modifies this
      ensures Valid() && open && enabled == old(enabled)
      ensures dir == WithRoom(old(dir), old(currentSize), line, maxFileSize, maxFiles)
      ensures currentSize + |line| <= maxFileSize || dir[|dir| - 1] == ""
      ensures written == old(written) && old(lost) <= lost
      ensures created == old(created) + if old(currentSize) + |line| > maxFileSize then 1 else 0
      ensures created == old(created) ==> lost == old(lost)
    {
      if currentSize + |line| > maxFileSize {
        CreateNewFile();
      }
    }

    /** The write at the end of the newest file. */
    method WriteLine(text: string)
      requires Valid() && open && NL !in text
      requires currentSize + |text| + 1 <= maxFileSize || dir[|dir| - 1] == ""
      modifies `dir, `contents, `written, `currentSize
      ensures Valid() && dir == WithLine(old(dir), text + [NL])
      ensures written == WithText(codec, old(written), old(dir)[|old(dir)| - 1], text)
    {
      var n := |dir| - 1;
      var data := dir[n] + (text + [NL]);
      LineAdded(codec, read, maxFileSize, maxFiles, dir, untouched, contents, written, lost, created, text);
      written := WithText(codec, written, dir[n], text);
      dir, currentSize := dir[n := data], currentSize + |text + [NL]|;
      contents := contents[n := read(data)];
    }

    /** One turn of the loop of `WriteBatch`: a record that cannot be encoded is skipped. */
    method WriteRecord(event: E)
      requires Valid() && open
      modifies this
      ensures Valid() && open && enabled == old(enabled) && old(lost) <= lost
      ensures dir == AfterRecord(codec, old(dir), event, maxFileSize, maxFiles)
      ensures written == WrittenAfter(codec, old(written), old(dir), event, maxFileSize, maxFiles)
      ensures created == old(created) + if Rotates(codec, old(dir), event, maxFileSize) then 1 else 0
      ensures created == old(created) ==> lost == old(lost)
    {
      match codec.encode(event)
      case None =>
      case Some(data) =>
        MakeRoom(data + [NL]);
        WriteLine(data);
    }

    /** `WriteBatch`. Every record that can be encoded is written in order if the newest file ends in a newline or is
        empty; what an unterminated last line becomes is in `WrittenAfter`. */
    method WriteBatch(events: seq<E>) returns (ok: bool)
      requires Valid()
      modifies this
      ensures Valid() && enabled == old(enabled) && old(lost) <= lost
      ensures ok == old(enabled)
      ensures !ok || events == [] ==> dir == old(dir) && written == old(written) && open == old(open)
      ensures ok && events != [] ==> open
      ensures ok && events != [] ==>
        var start := if old(open) then old(dir) else Newest(old(dir) + [""], maxFiles);
        && dir == AfterRecords(codec, start, events, maxFileSize, maxFiles)
        && written == AllWrittenAfter(codec, old(written), start, events, maxFileSize, maxFiles)
        && (Whole(start) ==> Whole(dir) && written == old(written) + Encodable(codec, events))
        && created == old(created) + (if old(open) then 0 else 1) +
                      Rotations(codec, start, events, maxFileSize, maxFiles)
      ensures ok && old(open && Fits(codec, dir, events, maxFileSize)) ==>
        && dir == WithLine(old(dir), BatchText(codec, events)) && created == old(created)
      ensures ok && old(open) && created == old(created) ==> lost == old(lost)
    {
      if !enabled {
        return false;
      }
      if events == [] {
        NoRecordsNoText(codec, dir);
        return true;
      }
      if !open {
        CreateNewFile();
      }
      ghost var start := dir;
      WriteEach(events);
      if Whole(start) {
        AllWrittenWhole(codec, old(written), start, events, maxFileSize, maxFiles);
      }
      if Fits(codec, start, events, maxFileSize) {
        BatchFits(codec, start, events, maxFileSize, maxFiles);
        FittingNeedsNoFile(codec, start, events, maxFileSize, maxFiles);
      }
      return true;
    }

    /** The loop of `WriteBatch`. A new file is begun, and an old one removed, only for a record that does not fit. */
    method WriteEach(events: seq<E>)
      requires Valid() && open
      modifies this
      ensures Valid() && open && enabled == old(enabled) && old(lost) <= lost
      ensures dir == AfterRecords(codec, old(dir), events, maxFileSize, maxFiles)
      ensures written == AllWrittenAfter(codec, old(written), old(dir), events, maxFileSize, maxFiles)
      ensures created == old(created) + Rotations(codec, old(dir), events, maxFileSize, maxFiles)
      ensures created == old(created) ==> lost == old(lost)
    {
      ghost var start := dir;
      for i := 0 to |events|
        invariant Valid() && open && enabled == old(enabled) && old(lost) <= lost
        invariant dir == AfterRecords(codec, start, events[..i], maxFileSize, maxFiles)
        invariant written == AllWrittenAfter(codec, old(written), start, events[..i], maxFileSize, maxFiles)
        invariant created == old(created) + Rotations(codec, start, events[..i], maxFileSize, maxFiles)
        invariant created == old(created) ==> lost == old(lost)
      {
        assert events[..i + 1][..i] == events[..i];
        WriteRecord(events[i]);
      }
      assert events[..|events|] == events;
    }

    /** `readFile`: empty lines and lines that do not decode are skipped. */
    method ReadFile(data: string) returns (events: seq<E>)
      ensures events == Records(codec, data)
    {
      events := [];
      var lines := SplitLines(data);
      for i := 0 to |lines|
        invariant events == Decoded(codec, lines[..i])
      {
        assert lines[..i + 1][..i] == lines[..i];
        if lines[i] != "" {
          match codec.decode(lines[i])
          case None =>
          case Some(event) => events := events + [event];
        }
      }
      assert lines[..|lines|] == lines;
    }

    /** `ReadAll`: what was written, in order, without what rotation removed. */
    method ReadAll() returns (events: seq<E>)
      requires Valid()
      ensures written == lost + events
      ensures created <= maxFiles ==> events == written
    {
      events := [];
      for i := 0 to |dir|
        invariant events == Flatten(contents[..i])
      {
        var more := ReadFile(dir[i]);
        assert contents[..i + 1][..i] == contents[..i];
        events := events + more;
      }
      assert contents[..|dir|] == contents;
    }

    /** `Clear`: every file goes; writing starts over in a new file. */
    method Clear()
      requires Valid()
      modifies this
      ensures Valid() && dir == [] && !open && enabled == old(enabled)
      ensures written == [] && lost == [] && created == 0
    {
      open, dir, currentSize := false, [], 0;
      contents, written, lost, created, untouched := [], [], [], 0, 0;
    }

    /** `Close`: the files stay as they are and can be read, nothing is written any more. */
    method Close()
      requires Valid()
      modifies this
      ensures Valid() && !enabled && !open
      ensures dir == old(dir) && written == old(written) && lost == old(lost) && created == old(created)
    {
      open, enabled := false, false;
    }
  }
}
