/**
 The six-line question format of the *.units files: what the loader accepts (a pure
 specification over the chunks that fgets delivers), how a list of questions is written,
 and the round trip between the two.
 */
module UnitText {
  import opened CStrings

  const Q_LEN := 202
  const A_LEN := 82
  const RA_LEN := 3
  const ANS_COUNT := 4
  const CHUNK_MAX := Q_LEN * 2 - 1 // fgets keeps one byte of its buffer for the terminator
  const RECORD_LINES := 1 + ANS_COUNT + 1

  /** What one node of the ring says: the question, its answers, the number of the right one. */
  datatype UnitValue = UnitValue(quest: Text, ans: seq<Text>, rans: Byte)

  // ----- reading -----

  /** Bytes taken by one fgets call that may store up to room bytes. */
  function FgetsLength(input: Text, room: nat): (n: nat)
    ensures n <= |input| && n <= room
    ensures input != [] && room > 0 ==> n > 0
    ensures forall i :: 0 <= i < n - 1 ==> input[i] != NEWLINE
    ensures n < room && n < |input| ==> n > 0 && input[n - 1] == NEWLINE
  {
    if input == [] || room == 0 then 0
    else if input[0] == NEWLINE then 1
    else 1 + FgetsLength(input[1..], room - 1)
  }

  /** The chunks successive fgets calls deliver until the end of the file. */
  function Chunks(input: Text): (chunks: seq<Text>)
    decreases |input|
  {
    if input == [] then []
    else
      var n := FgetsLength(input, CHUNK_MAX);
      [input[..n]] + Chunks(input[n..])
  }

  // fgets stops behind a newline, at the end of the input, and when its buffer is full.
  lemma FgetsStep(input: Text, k: nat, room: nat)
    requires k <= |input|
    ensures FgetsLength(input[k..], room) ==
              if k == |input| || room == 0 then 0
              else if input[k] == NEWLINE then 1
              else 1 + FgetsLength(input[k + 1..], room - 1)
  {
    if k < |input| {
      assert input[k..][1..] == input[k + 1..];
    }
  }

  lemma ChunksStep(input: Text)
    ensures Chunks(input) ==
              if input == [] then []
              else [input[..FgetsLength(input, CHUNK_MAX)]] + Chunks(input[FgetsLength(input, CHUNK_MAX)..])
  {
  }

  /** A chunk without its last byte, which is normally the newline. */
  function Strip(chunk: Text): (s: Text)
    ensures NUL !in s
  {
    var s := CString(chunk);
    if s == [] then [] else s[..|s| - 1]
  }

  /** The key byte: the first byte of the chunk less '0', in unsigned char arithmetic. */
  function KeyOf(chunk: Text): Byte
    requires chunk != []
  {
    ((chunk[0] as int - DIGIT_ZERO as int) % 256) as Byte
  }

  predicate ValidRecord(record: seq<Text>)
    requires |record| == RECORD_LINES
  {
    && StrLen(record[0]) <= Q_LEN - 1
    && (forall i :: 1 <= i <= ANS_COUNT ==> StrLen(record[i]) <= A_LEN - 1)
    && StrLen(record[RECORD_LINES - 1]) <= RA_LEN - 1
    && record[RECORD_LINES - 1] != []
    && 1 <= KeyOf(record[RECORD_LINES - 1]) <= ANS_COUNT as Byte
  }

  function ValueOf(record: seq<Text>): UnitValue
    requires |record| == RECORD_LINES && record[RECORD_LINES - 1] != []
  {
    UnitValue(
      Strip(record[0]),
      seq(ANS_COUNT, i requires 0 <= i < ANS_COUNT => Strip(record[1 + i])),
      KeyOf(record[RECORD_LINES - 1]))
  }

  /** The accepted six-chunk groups, in order; a short tail is dropped. */
  function Records(chunks: seq<Text>): seq<UnitValue>
  {
    if |chunks| < RECORD_LINES then []
    else
      (if ValidRecord(chunks[..RECORD_LINES]) then [ValueOf(chunks[..RECORD_LINES])] else [])
      + Records(chunks[RECORD_LINES..])
  }

  /** What the loader takes from the files, in the order it opens them. */
  function LoadFiles(files: seq<Text>): seq<UnitValue>
  {
    if files == [] then [] else Records(Chunks(files[0])) + LoadFiles(files[1..])
  }

  lemma NoFiles()
    ensures LoadFiles([]) == []
  {
  }

  lemma {:induction false} LoadFilesSnoc(files: seq<Text>, file: Text)
    ensures LoadFiles(files + [file]) == LoadFiles(files) + Records(Chunks(file))
  {
    hide Records;
    hide Chunks;
    if files == [] {
      assert files + [file] == [file];
      assert [file][1..] == [];
    } else {
      assert (files + [file])[1..] == files[1..] + [file];
      LoadFilesSnoc(files[1..], file);
    }
  }

  // ----- what loading means, without the functions that compute it -----

  function Concat(pieces: seq<Text>): Text
  {
    if pieces == [] then [] else pieces[0] + Concat(pieces[1..])
  }

  /** A chunk fits the buffer, and a newline can only be its last byte. */
  predicate IsChunk(c: Text)
  {
    1 <= |c| <= 403 && forall i :: 0 <= i < |c| - 1 ==> c[i] != 10
  }

  /** The pieces make up the input, and each but the last is ended by a newline or a full buffer. */
  predicate Cuts(pieces: seq<Text>, input: Text)
  {
    && Concat(pieces) == input
    && (forall k :: 0 <= k < |pieces| ==> IsChunk(pieces[k]))
    && forall k :: 0 <= k < |pieces| - 1 ==> |pieces[k]| == 403 || pieces[k][|pieces[k]| - 1] == 10
  }

  // The first piece of a cutting is the first chunk.
  lemma ConsCuts(input: Text, n: nat, rest: seq<Text>)
    requires input != [] && n == FgetsLength(input, CHUNK_MAX) && Cuts(rest, input[n..])
    ensures Cuts([input[..n]] + rest, input)
  {
    var pieces := [input[..n]] + rest;
    assert pieces[1..] == rest && input[..n] + input[n..] == input;
    assert IsChunk(input[..n]);
    assert rest != [] ==> n < |input|;
    forall k | 0 <= k < |pieces| - 1 ensures |pieces[k]| == 403 || pieces[k][|pieces[k]| - 1] == 10 {
      if k > 0 {
        assert pieces[k] == rest[k - 1];
      }
    }
  }

  lemma CutsStartAlike(input: Text, n: nat, pieces: seq<Text>)
    requires input != [] && n == FgetsLength(input, CHUNK_MAX) && Cuts(pieces, input)
    ensures pieces != [] && pieces[0] == input[..n] && Cuts(pieces[1..], input[n..])
  {
    hide FgetsLength;
    var c := pieces[0];
    assert IsChunk(c) && input == c + Concat(pieces[1..]);
    assert |pieces| == 1 ==> input == c;
    assert forall i :: 0 <= i < |c| ==> input[i] == c[i];
    assert forall k :: 0 <= k < |pieces| - 1 ==> pieces[1..][k] == pieces[k + 1];
  }

  // fgets takes all of the input, and there is only one way to cut it.
  lemma {:induction false} ChunksIff(input: Text, pieces: seq<Text>)
    ensures pieces == Chunks(input) <==> Cuts(pieces, input)
    decreases |input|
  {
    hide FgetsLength;
    if input == [] {
      assert Cuts([], []);
      assert pieces != [] && IsChunk(pieces[0]) ==> Concat(pieces) != [];
    } else {
      var n := FgetsLength(input, CHUNK_MAX);
      ChunksIff(input[n..], Chunks(input[n..]));
      if pieces == Chunks(input) {
        ConsCuts(input, n, Chunks(input[n..]));
      }
      if Cuts(pieces, input) {
        CutsStartAlike(input, n, pieces);
        ChunksIff(input[n..], pieces[1..]);
      }
    }
  }

  /** The first n bytes, none when n is negative. */
  function FirstBytes(text: Text, n: int): Text
    requires n <= |text|
  {
    if n <= 0 then [] else text[..n]
  }

  lemma StripLaw(chunk: Text)
    ensures Strip(chunk) == FirstBytes(chunk, StrLen(chunk) - 1)
  {
    assert StrLen(chunk) > 0 ==> chunk[..StrLen(chunk)][..StrLen(chunk) - 1] == chunk[..StrLen(chunk) - 1];
  }

  /** A group of six chunks the loader takes: short lines, and a digit from '1' to '4' (49 to 52). */
  predicate IsGood(record: seq<Text>)
    requires |record| == 6
  {
    && StrLen(record[0]) <= 201
    && (forall i :: 1 <= i <= 4 ==> StrLen(record[i]) <= 81)
    && StrLen(record[5]) <= 2 && record[5] != [] && 49 <= record[5][0] <= 52
  }

  lemma GoodIsValid(record: seq<Text>)
    requires |record| == 6
    ensures ValidRecord(record) <==> IsGood(record)
  {
    hide StrLen;
  }

  lemma ValueLaw(record: seq<Text>)
    requires |record| == 6 && record[5] != [] && 49 <= record[5][0] <= 52
    ensures var u := ValueOf(record);
            && u.quest == FirstBytes(record[0], StrLen(record[0]) - 1)
            && |u.ans| == 4 && u.rans as int == record[5][0] as int - 48
            && forall i :: 1 <= i <= 4 ==> u.ans[i - 1] == FirstBytes(record[i], StrLen(record[i]) - 1)
  {
    hide StrLen;
    hide Strip;
    hide FirstBytes;
    StripLaw(record[0]);
    forall i | 1 <= i <= 4 ensures ValueOf(record).ans[i - 1] == FirstBytes(record[i], StrLen(record[i]) - 1) {
      StripLaw(record[i]);
    }
  }

  // Which groups of six chunks are taken, and what of each: its first line, its four answers and its
  // digit, each line without its last byte.
  lemma RecordLaw(record: seq<Text>)
    requires |record| == 6
    ensures !IsGood(record) ==> Records(record) == []
    ensures IsGood(record) ==>
              && |Records(record)| == 1
              && var u := Records(record)[0];
                 && u.quest == FirstBytes(record[0], StrLen(record[0]) - 1)
                 && |u.ans| == 4 && u.rans as int == record[5][0] as int - 48
                 && forall i :: 1 <= i <= 4 ==> u.ans[i - 1] == FirstBytes(record[i], StrLen(record[i]) - 1)
  {
    hide StrLen;
    hide ValidRecord;
    hide ValueOf;
    hide FirstBytes;
    assert record[..6] == record && record[6..] == [];
    assert Records([]) == [];
    GoodIsValid(record);
    if IsGood(record) {
      ValueLaw(record);
    }
  }

  // A group that is not taken does not disturb those after it; what is left at the end is dropped.
  lemma {:induction false} RecordsSplit(groups: seq<Text>, rest: seq<Text>)
    requires |groups| % 6 == 0
    ensures Records(groups + rest) == Records(groups) + Records(rest)
    ensures |rest| < 6 ==> Records(rest) == []
  {
    hide ValidRecord;
    hide ValueOf;
    if groups == [] {
      assert groups + rest == rest;
    } else {
      RecordsSplit(groups[6..], rest);
      assert (groups + rest)[..6] == groups[..6] && (groups + rest)[6..] == groups[6..] + rest;
    }
  }

  // ----- writing -----

  predicate PlainLine(line: Text)
  {
    NEWLINE !in line && NUL !in line
  }

  /** The questions the format can carry. */
  predicate Writable(u: UnitValue)
  {
    && |u.quest| <= Q_LEN - 2 && PlainLine(u.quest)
    && |u.ans| == ANS_COUNT
    && (forall i :: 0 <= i < ANS_COUNT ==> |u.ans[i]| <= A_LEN - 2 && PlainLine(u.ans[i]))
    && 1 <= u.rans <= ANS_COUNT as Byte
  }

  function KeyLine(u: UnitValue): Text
    requires Writable(u)
  {
    [u.rans + DIGIT_ZERO]
  }

  function LinesOf(units: seq<UnitValue>): (lines: seq<Text>)
    requires forall u :: u in units ==> Writable(u)
    ensures |lines| == RECORD_LINES * |units|
    ensures forall l :: l in lines ==> PlainLine(l) && |l| < CHUNK_MAX
    ensures units != [] ==> lines[|lines| - 1] != []
  {
    if units == [] then []
    else [units[0].quest] + units[0].ans + [KeyLine(units[0])] + LinesOf(units[1..])
  }

  /** Every line followed by a newline, the last one only when closed is set. */
  function Join(lines: seq<Text>, closed: bool): Text
  {
    if lines == [] then []
    else if |lines| == 1 && !closed then lines[0]
    else lines[0] + [NEWLINE] + Join(lines[1..], closed)
  }

  /** The file holding a list of questions, with or without a final newline. */
  function Write(units: seq<UnitValue>, closed: bool): Text
    requires forall u :: u in units ==> Writable(u)
  {
    Join(LinesOf(units), closed)
  }

  // ----- round trip -----

  lemma {:induction false} FgetsTakesLine(line: Text, rest: Text, room: nat)
    requires NEWLINE !in line && |line| < room
    ensures FgetsLength(line + [NEWLINE] + rest, room) == |line| + 1
  {
    var input := line + [NEWLINE] + rest;
    if line != [] {
      assert input[1..] == line[1..] + [NEWLINE] + rest;
      FgetsTakesLine(line[1..], rest, room - 1);
    }
  }

  lemma {:induction false} FgetsTakesTail(line: Text, room: nat)
    requires NEWLINE !in line && |line| <= room
    ensures FgetsLength(line, room) == |line|
  {
    if line != [] {
      FgetsTakesTail(line[1..], room - 1);
    }
  }

  /** The chunks hold the lines, each with its newline except perhaps the last. */
  predicate Carries(lines: seq<Text>, chunks: seq<Text>)
  {
    && |chunks| == |lines|
    && forall i :: 0 <= i < |lines| ==>
         || chunks[i] == lines[i] + [NEWLINE]
         || (i == |lines| - 1 && chunks[i] == lines[i])
  }

  // The first chunk of a file that starts with a short line is that line.
  lemma ChunksOfLine(line: Text, rest: Text)
    requires NEWLINE !in line && |line| < CHUNK_MAX
    ensures Chunks(line + [NEWLINE] + rest) == [line + [NEWLINE]] + Chunks(rest)
  {
    hide FgetsLength;
    var input := line + [NEWLINE] + rest;
    FgetsTakesLine(line, rest, CHUNK_MAX);
    assert input[..|line| + 1] == line + [NEWLINE];
    assert input[|line| + 1..] == rest;
  }

  lemma ChunksOfTail(line: Text)
    requires NEWLINE !in line && 0 < |line| < CHUNK_MAX
    ensures Chunks(line) == [line]
  {
    hide FgetsLength;
    FgetsTakesTail(line, CHUNK_MAX);
    assert line[..|line|] == line && line[|line|..] == [];
    assert Chunks([]) == [];
  }

  lemma NoChunks()
    ensures Chunks([]) == []
  {
  }

  // fgets gives back exactly the lines that were joined.
  lemma {:induction false} ChunksOfJoin(lines: seq<Text>, closed: bool)
    requires forall l :: l in lines ==> PlainLine(l) && |l| < CHUNK_MAX
    requires lines != [] && !closed ==> lines[|lines| - 1] != []
    ensures Carries(lines, Chunks(Join(lines, closed)))
  {
    hide Chunks;
    if lines == [] {
      NoChunks();
    } else if |lines| == 1 && !closed {
      ChunksOfTail(lines[0]);
    } else {
      ChunksOfLine(lines[0], Join(lines[1..], closed));
      ChunksOfJoin(lines[1..], closed);
    }
  }

  lemma StripLine(line: Text)
    requires PlainLine(line)
    ensures Strip(line + [NEWLINE]) == line
    ensures StrLen(line + [NEWLINE]) == |line| + 1
  {
    CStringOfText(line + [NEWLINE]);
  }

  // One group of six chunks that carry the lines of u reads back as u.
  lemma RecordReadsBack(u: UnitValue, record: seq<Text>)
    requires Writable(u) && |record| == RECORD_LINES
    requires record[0] == u.quest + [NEWLINE]
    requires forall i :: 0 <= i < ANS_COUNT ==> record[1 + i] == u.ans[i] + [NEWLINE]
    requires record[5] == KeyLine(u) || record[5] == KeyLine(u) + [NEWLINE]
    ensures ValidRecord(record) && ValueOf(record) == u
  {
    StripLine(u.quest);
    forall i | 1 <= i <= ANS_COUNT
      ensures Strip(record[i]) == u.ans[i - 1] && StrLen(record[i]) <= A_LEN - 1
    {
      assert record[1 + (i - 1)] == u.ans[i - 1] + [NEWLINE];
      StripLine(u.ans[i - 1]);
    }
    assert KeyOf(record[5]) == u.rans;
    assert ValueOf(record).ans == u.ans;
  }

  lemma CarriesRest(lines: seq<Text>, chunks: seq<Text>)
    requires Carries(lines, chunks) && |lines| >= RECORD_LINES
    ensures Carries(lines[RECORD_LINES..], chunks[RECORD_LINES..])
  {
    var n := |lines| - RECORD_LINES;
    forall i | 0 <= i < n
      ensures lines[RECORD_LINES..][i] == lines[RECORD_LINES + i]
      ensures chunks[RECORD_LINES..][i] == chunks[RECORD_LINES + i]
    {
    }
  }

  // The first six lines of a list are those of its first question.
  lemma FirstRecord(units: seq<UnitValue>)
    requires units != [] && forall u :: u in units ==> Writable(u)
    ensures |LinesOf(units)| >= RECORD_LINES
    ensures LinesOf(units)[0] == units[0].quest && LinesOf(units)[5] == KeyLine(units[0])
    ensures forall i :: 0 <= i < ANS_COUNT ==> LinesOf(units)[1 + i] == units[0].ans[i]
    ensures LinesOf(units)[RECORD_LINES..] == LinesOf(units[1..])
  {
    var head := [units[0].quest] + units[0].ans + [KeyLine(units[0])];
    assert |head| == RECORD_LINES && head[0] == units[0].quest && head[5] == KeyLine(units[0]);
    assert forall i :: 0 <= i < ANS_COUNT ==> head[1 + i] == units[0].ans[i];
    assert LinesOf(units) == head + LinesOf(units[1..]);
  }

  lemma {:induction false} RecordsReadBack(units: seq<UnitValue>, chunks: seq<Text>)
    requires forall u :: u in units ==> Writable(u)
    requires Carries(LinesOf(units), chunks)
    ensures Records(chunks) == units
  {
    hide LinesOf;
    hide ValidRecord;
    hide ValueOf;
    hide StrLen;
    if units != [] {
      var record, rest := chunks[..RECORD_LINES], chunks[RECORD_LINES..];
      FirstRecord(units);
      CarriesRest(LinesOf(units), chunks);
      RecordReadsBack(units[0], record);
      RecordsReadBack(units[1..], rest);
    }
  }

  // Writing a list of questions and loading the file gives the list back.
  lemma RoundTrip(units: seq<UnitValue>, closed: bool)
    requires forall u :: u in units ==> Writable(u)
    ensures LoadFiles([Write(units, closed)]) == units
  {
    ChunksOfJoin(LinesOf(units), closed);
    RecordsReadBack(units, Chunks(Write(units, closed)));
    assert [Write(units, closed)][1..] == [];
    assert LoadFiles([]) == [];
  }

  // ----- what can come out of a load -----

  // Only the last byte of a chunk can be a newline.
  lemma {:induction false} ChunksEndLines(input: Text)
    ensures forall c :: c in Chunks(input) ==> c != [] && NEWLINE !in c[..|c| - 1]
    decreases |input|
  {
    if input != [] {
      ChunksEndLines(input[FgetsLength(input, CHUNK_MAX)..]);
    }
  }

  lemma StripIsPlain(chunk: Text)
    requires chunk != [] && NEWLINE !in chunk[..|chunk| - 1]
    ensures PlainLine(Strip(chunk)) && |Strip(chunk)| <= if StrLen(chunk) == 0 then 0 else StrLen(chunk) - 1
  {
    var s := Strip(chunk);
    forall i | 0 <= i < |s| ensures s[i] != NEWLINE {
      assert s[i] == chunk[..|chunk| - 1][i];
    }
  }

  lemma {:induction false} RecordsAreWritable(chunks: seq<Text>)
    requires forall c :: c in chunks ==> c != [] && NEWLINE !in c[..|c| - 1]
    ensures forall u :: u in Records(chunks) ==> Writable(u)
  {
    if |chunks| >= RECORD_LINES {
      RecordsAreWritable(chunks[RECORD_LINES..]);
      var record := chunks[..RECORD_LINES];
      if ValidRecord(record) {
        StripIsPlain(record[0]);
        forall i | 0 <= i < ANS_COUNT
          ensures |ValueOf(record).ans[i]| <= A_LEN - 2 && PlainLine(ValueOf(record).ans[i])
        {
          StripIsPlain(record[1 + i]);
        }
        assert Writable(ValueOf(record));
      }
    }
  }

  // The loader only ever produces questions that the format can carry, whatever the files hold.
  lemma {:induction false} LoadedAreWritable(files: seq<Text>)
    ensures forall u :: u in LoadFiles(files) ==> Writable(u)
  {
    if files != [] {
      ChunksEndLines(files[0]);
      RecordsAreWritable(Chunks(files[0]));
      LoadedAreWritable(files[1..]);
    }
  }

  // So a list of questions can be loaded from some files exactly when every question is writable.
  lemma LoadableIffWritable(units: seq<UnitValue>)
    ensures (exists files :: LoadFiles(files) == units) <==> (forall u :: u in units ==> Writable(u))
  {
    if exists files :: LoadFiles(files) == units {
      var files :| LoadFiles(files) == units;
      LoadedAreWritable(files);
    }
    if forall u :: u in units ==> Writable(u) {
      RoundTrip(units, true);
    }
  }
}
