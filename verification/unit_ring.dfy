/**
 The question ring on the heap: the loader that builds a circular doubly linked list out of
 the question files, and the destructor that cuts the ring and frees it.
 */
module UnitRing {
  import opened CStrings
  import opened UnitText
  import Modular

  /** A stdio stream over a file that nobody writes to. */
  class TextFile {
    const data: Text
    var pos: nat
    var eof: bool

    ghost predicate Valid()
      reads this
    {
      pos <= |data| && (eof ==> pos == |data|)
    }

    ghost function Rest(): Text
      requires Valid()
      reads this
    {
      data[pos..]
    }

    /** The chunks still to be delivered. */
    ghost function Left(): seq<Text>
      requires Valid()
      reads this
    {
      Chunks(Rest())
    }

    constructor (data: Text)
      ensures Valid() && this.data == data && Left() == Chunks(data) && !eof
    {
      this.data := data;
      pos, eof := 0, false;
    }

    // The bytes up to and including the next newline, as far as the buffer and the file reach.
    method FillBuffer() returns (line: Text)
      requires Valid()
      modifies this
      ensures Valid()
      ensures var n := FgetsLength(old(Rest()), CHUNK_MAX);
              line == old(Rest())[..n] && Rest() == old(Rest())[n..]
      ensures eof == (old(eof) || (|line| < CHUNK_MAX && (line == [] || line[|line| - 1] != NEWLINE)))
    {
      hide FgetsLength;
      ghost var input, n := Rest(), FgetsLength(Rest(), CHUNK_MAX);
      line := [];
      assert input[0..] == input;
      while |line| < CHUNK_MAX
        invariant Valid() && |line| <= |input| && |line| <= CHUNK_MAX
        invariant line == input[..|line|] && Rest() == input[|line|..]
        invariant n == |line| + FgetsLength(input[|line|..], CHUNK_MAX - |line|)
        invariant eof == old(eof)
        invariant forall i :: 0 <= i < |line| ==> line[i] != NEWLINE
      {
        FgetsStep(input, |line|, CHUNK_MAX - |line|);
        if pos == |data| {
          eof := true;
          break;
        }
        var c := data[pos];
        assert c == Rest()[0] == input[|line|];
        pos := pos + 1;
        line := line + [c];
        if c == NEWLINE {
          break;
        }
      }
      if |line| == CHUNK_MAX {
        FgetsStep(input, |line|, 0);
      }
      assert n == |line|;
    }

    // Reads the next chunk. A failed call promises nothing about the line: the caller's
    // buffer keeps whatever it held before.
    method Fgets() returns (ok: bool, line: Text)
      requires Valid()
      modifies this
      ensures Valid()
      ensures ok == (old(Left()) != [])
      ensures ok ==> line == old(Left())[0] && Left() == old(Left())[1..]
      ensures !ok ==> Left() == [] && eof
      ensures line != []
      ensures eof == (old(eof) || !ok || (|line| < CHUNK_MAX && line[|line| - 1] != NEWLINE))
    {
      hide Chunks;
      hide FgetsLength;
      ChunksStep(Rest());
      line := FillBuffer();
      ok := line != [];
      if !ok {
        line := [NUL];
      }
    }
  }

  /** One question. The character buffers are embedded in the node, so they are values of fixed size. */
  class Unit {
    var quest: Text
    var ans: seq<Text>
    var rans: Byte
    var next: Unit?
    var prev: Unit?

    // calloc
    constructor ()
      ensures |ans| == ANS_COUNT && next == null && prev == null
    {
      quest := seq(Q_LEN, i => NUL);
      ans := seq(ANS_COUNT, i => seq(A_LEN, j => NUL));
      rans := 0;
      next := null;
      prev := null;
    }

    /** Every byte of every buffer is determined by u: its strings, then zeros to the end. */
    ghost predicate Holds(u: UnitValue)
      reads this
    {
      && |u.ans| == ANS_COUNT == |ans|
      && quest == Strncpy(u.quest, Q_LEN)
      && (forall i :: 0 <= i < ANS_COUNT ==> ans[i] == Strncpy(u.ans[i], A_LEN))
      && rans == u.rans
    }
  }

  /** The allocator, as far as this code sees it: which nodes were given back, in which order. */
  class Heap {
    ghost var freed: seq<Unit>

    constructor ()
      ensures freed == []
    {
      freed := [];
    }

    method Free(u: Unit)
      requires u !in freed
      modifies this
      ensures freed == old(freed) + [u]
    {
      freed := freed + [u];
    }

    // Reading or writing a link of a freed node is an error, so each access asks for a live one.
    method GetNext(u: Unit) returns (next: Unit?)
      requires u !in freed
      ensures next == u.next
    {
      next := u.next;
    }

    method SetNext(u: Unit, next: Unit?)
      requires u !in freed
      modifies u`next
      ensures u.next == next
    {
      u.next := next;
    }

    method SetPrev(u: Unit, prev: Unit?)
      requires u !in freed
      modifies u`prev
      ensures u.prev == prev
    {
      u.prev := prev;
    }
  }

  ghost predicate Distinct(nodes: seq<Unit>)
  {
    forall i, j :: 0 <= i < j < |nodes| ==> nodes[i] != nodes[j]
  }

  /** The nodes hold the values, one for one. */
  ghost predicate HoldAll(nodes: seq<Unit>, values: seq<UnitValue>)
    reads nodes
  {
    && |nodes| == |values|
    && forall i :: 0 <= i < |nodes| ==> nodes[i].Holds(values[i])
  }

  /** A doubly linked list that ends in null on the right. */
  ghost predicate IsChain(chain: seq<Unit>)
    reads chain
  {
    && chain != [] && Distinct(chain)
    && (forall i :: 0 <= i < |chain| - 1 ==> chain[i].next == chain[i + 1])
    && (forall i :: 0 < i < |chain| ==> chain[i].prev == chain[i - 1])
    && chain[|chain| - 1].next == null
  }

  /** A single cycle, followed forwards by next and backwards by prev. */
  ghost predicate IsRing(ring: seq<Unit>)
    reads ring
  {
    && ring != [] && Distinct(ring)
    && (forall i :: 0 <= i < |ring| ==> ring[i].next == ring[if i + 1 == |ring| then 0 else i + 1])
    && (forall i :: 0 <= i < |ring| ==> ring[i].prev == ring[if i == 0 then |ring| - 1 else i - 1])
  }

  // ----- construction -----

  ghost predicate ShortAnswers(lines: seq<Text>, n: nat)
    requires n <= |lines|
  {
    forall i :: 0 <= i < n ==> StrLen(lines[i]) <= A_LEN - 1
  }

  // The four answer lines. Each buffer is overwritten whether or not its line is good.
  method ReadAnswers(file: TextFile, node: Unit) returns (errorFlag: bool)
    requires file.Valid() && |node.ans| == ANS_COUNT
    modifies file, node`ans
    ensures file.Valid() && |node.ans| == ANS_COUNT
    ensures var lines := old(file.Left());
            && file.Left() == (if |lines| >= ANS_COUNT then lines[ANS_COUNT..] else [])
            && errorFlag == !(|lines| >= ANS_COUNT && ShortAnswers(lines, ANS_COUNT))
            && (!errorFlag ==> forall i :: 0 <= i < ANS_COUNT ==> node.ans[i] == Strncpy(Strip(lines[i]), A_LEN))
            && |file.Left()| <= |lines|
    ensures |old(file.Left())| < ANS_COUNT ==> file.eof
  {
    ghost var lines := file.Left();
    errorFlag := false;
    for idx := 0 to ANS_COUNT
      invariant file.Valid() && |node.ans| == ANS_COUNT
      invariant |lines| >= idx ==> file.Left() == lines[idx..]
      invariant |lines| < idx ==> errorFlag && file.eof && file.Left() == []
      invariant |lines| >= idx ==> errorFlag == !ShortAnswers(lines, idx)
      invariant !errorFlag ==> forall i :: 0 <= i < idx ==> node.ans[i] == Strncpy(Strip(lines[i]), A_LEN)
    {
      ghost var left := file.Left();
      var ok, input := file.Fgets();
      if !ok {
        errorFlag := true;
      } else {
        assert input == lines[idx] && left[1..] == lines[idx + 1..];
      }
      if StrLen(input) > A_LEN - 1 {
        errorFlag := true;
      }
      node.ans := node.ans[idx := Strncpy(Strip(input), A_LEN)];
    }
  }

  // A record judged and read line by line is the record judged and read as a whole.
  lemma RecordParts(chunks: seq<Text>, lines: seq<Text>, key: Text)
    requires |chunks| >= RECORD_LINES && lines == chunks[1..] && key == chunks[RECORD_LINES - 1] && key != []
    ensures ValidRecord(chunks[..RECORD_LINES]) <==>
              StrLen(chunks[0]) <= Q_LEN - 1
              && ShortAnswers(lines, ANS_COUNT)
              && StrLen(key) <= RA_LEN - 1
              && 1 <= KeyOf(key) <= ANS_COUNT as Byte
    ensures var u := ValueOf(chunks[..RECORD_LINES]);
            && u.quest == Strip(chunks[0]) && u.rans == KeyOf(key)
            && |u.ans| == ANS_COUNT && forall i :: 0 <= i < ANS_COUNT ==> u.ans[i] == Strip(lines[i])
  {
    var record := chunks[..RECORD_LINES];
    assert forall i :: 1 <= i <= ANS_COUNT ==> record[i] == lines[i - 1];
    assert forall i :: 0 <= i < ANS_COUNT ==> record[1 + i] == lines[i];
  }

  // Reads six lines into a node. The node is overwritten in full whether or not the record is good.
  method ReadUnit(file: TextFile, node: Unit) returns (accepted: bool)
    requires file.Valid() && !file.eof && |node.ans| == ANS_COUNT
    modifies file, node`quest, node`ans, node`rans
    ensures file.Valid() && |node.ans| == ANS_COUNT
    ensures file.eof || |file.Left()| < |old(file.Left())|
    ensures var chunks := old(file.Left());
            && accepted == (|chunks| >= RECORD_LINES && ValidRecord(chunks[..RECORD_LINES]))
            && (accepted ==> node.Holds(ValueOf(chunks[..RECORD_LINES])))
            && file.Left() == (if |chunks| >= RECORD_LINES then chunks[RECORD_LINES..] else [])
            && |file.Left()| <= |chunks|
  {
    ghost var chunks := file.Left();
    var errorFlag := false;

    var ok, input := file.Fgets();
    if !ok {
      errorFlag := true;
    }
    if StrLen(input) > Q_LEN - 1 {
      errorFlag := true;
    }
    node.quest := Strncpy(Strip(input), Q_LEN);
    ghost var lines := file.Left();
    assert ok ==> chunks[0] == input && lines == chunks[1..];

    var badAnswers := ReadAnswers(file, node);
    errorFlag := errorFlag || badAnswers;
    assert !badAnswers ==> file.Left() == lines[ANS_COUNT..];

    ok, input := file.Fgets();
    if !ok {
      errorFlag := true;
    }
    if StrLen(input) > RA_LEN - 1 {
      errorFlag := true;
    }
    node.rans := KeyOf(input);

    accepted := 0 < node.rans < ANS_COUNT as Byte + 1 && !errorFlag;
    if |chunks| >= RECORD_LINES {
      RecordParts(chunks, lines, input);
    }
  }

  // Reading one record moves it, when it is good, from the front of the file to the end of the values.
  lemma RecordsStep(chunks: seq<Text>, left: seq<Text>, held: seq<UnitValue>, accepted: bool)
    requires accepted == (|chunks| >= RECORD_LINES && ValidRecord(chunks[..RECORD_LINES]))
    requires left == if |chunks| >= RECORD_LINES then chunks[RECORD_LINES..] else []
    ensures held + Records(chunks)
         == (if accepted then held + [ValueOf(chunks[..RECORD_LINES])] else held) + Records(left)
  {
  }

  /** The chain built so far: its nodes but the last hold the values, the last one is to be filled next. */
  ghost predicate IsBuilt(chain: seq<Unit>, last: Unit, next: Unit, values: seq<UnitValue>)
    reads chain
  {
    && IsChain(chain) && next == chain[|chain| - 1] && |next.ans| == ANS_COUNT
    && (|chain| > 1 ==> last == chain[|chain| - 2])
    && HoldAll(chain[..|chain| - 1], values)
  }

  // A fresh node behind the last one of a chain, once that one holds a value.
  method Extend(last: Unit, ghost chain: seq<Unit>, ghost values: seq<UnitValue>, ghost value: UnitValue)
    returns (next: Unit)
    requires IsChain(chain) && last == chain[|chain| - 1]
    requires HoldAll(chain[..|chain| - 1], values) && last.Holds(value)
    modifies last`next
    ensures fresh(next)
    ensures IsBuilt(chain + [next], last, next, values + [value])
  {
    ghost var nodes := chain[..|chain| - 1];
    next := new Unit();
    last.next := next;
    next.prev := last;
    assert HoldAll(nodes, values) && last.Holds(value);
    assert (chain + [next])[..|chain|] == nodes + [last];
    assert HoldAll(nodes + [last], values + [value]);
  }

  // Reads the next record into the node at the end of the chain and, when it is good, puts a
  // fresh node behind it; otherwise the same node is used again.
  method LoadUnit(file: TextFile, prior: Unit, placeholder: Unit, ghost chain: seq<Unit>, ghost values: seq<UnitValue>)
    returns (last: Unit, next: Unit, ghost longer: seq<Unit>, ghost held: seq<UnitValue>)
    requires file.Valid() && !file.eof
    requires IsBuilt(chain, prior, placeholder, values)
    modifies file, placeholder
    ensures file.Valid() && |file.Left()| <= |old(file.Left())|
    ensures file.eof || |file.Left()| < |old(file.Left())|
    ensures IsBuilt(longer, last, next, held)
    ensures longer == chain || (longer == chain + [next] && fresh(next))
    ensures held + Records(file.Left()) == values + Records(old(file.Left()))
  {
    ghost var chunks := file.Left();
    ghost var nodes := chain[..|chain| - 1];
    last, next, longer, held := prior, placeholder, chain, values;
    var accepted := ReadUnit(file, next);
    RecordsStep(chunks, file.Left(), held, accepted);
    assert HoldAll(nodes, held);
    if accepted {
      last := next;
      next := Extend(last, longer, values, ValueOf(chunks[..RECORD_LINES]));
      longer := longer + [next];
      held := held + [ValueOf(chunks[..RECORD_LINES])];
    }
  }

  // Appends the questions of one file to the chain.
  method LoadFile(data: Text, prior: Unit, placeholder: Unit, ghost chain: seq<Unit>, ghost values: seq<UnitValue>)
    returns (last: Unit, next: Unit, ghost longer: seq<Unit>)
    requires IsBuilt(chain, prior, placeholder, values)
    modifies placeholder
    ensures IsBuilt(longer, last, next, values + Records(Chunks(data)))
    ensures chain <= longer
    ensures forall i :: |chain| <= i < |longer| ==> fresh(longer[i])
  {
    hide Chunks;
    last, next, longer := prior, placeholder, chain;
    ghost var held := values;
    var file := new TextFile(data);
    while !file.eof
      invariant file.Valid() && fresh(file)
      invariant IsBuilt(longer, last, next, held)
      invariant chain <= longer
      invariant forall i :: |chain| <= i < |longer| ==> fresh(longer[i])
      invariant held + Records(file.Left()) == values + Records(Chunks(data))
      invariant next == placeholder || fresh(next)
      decreases |file.Left()|, !file.eof
    {
      last, next, longer, held := LoadUnit(file, last, next, longer, held);
    }
    NoChunks();
    assert file.Rest() == [];
    assert Records(file.Left()) == [];
  }

  // Cutting off the placeholder and joining the ends of what remains gives a ring.
  method Close(heap: Heap, first: Unit, last: Unit, ghost chain: seq<Unit>, ghost values: seq<UnitValue>)
    requires IsChain(chain) && |chain| > 1 && first == chain[0] && last == chain[|chain| - 2]
    requires first !in heap.freed && last !in heap.freed
    requires HoldAll(chain[..|chain| - 1], values)
    modifies first, last
    ensures IsRing(chain[..|chain| - 1])
    ensures HoldAll(chain[..|chain| - 1], values)
  {
    heap.SetNext(last, first);
    heap.SetPrev(first, last);
  }

  // Builds the ring of all questions found in the files and returns its last node.
  method UnitDequeInit(heap: Heap, files: seq<Text>) returns (last: Unit, ghost ring: seq<Unit>)
    requires LoadFiles(files) != []
    modifies heap
    ensures IsRing(ring) && last == ring[|ring| - 1]
    ensures HoldAll(ring, LoadFiles(files))
    ensures forall u :: u in ring ==> fresh(u) && u !in heap.freed
    ensures |heap.freed| == |old(heap.freed)| + 1 && old(heap.freed) <= heap.freed
    ensures fresh(heap.freed[|heap.freed| - 1])
  {
    hide LoadFiles;
    hide Records;
    hide Chunks;
    NoFiles();
    var next := new Unit();
    var first := next;
    last := next; // not yet assigned in the source, and not read before the first record
    ghost var chain := [next];

    for f := 0 to |files|
      invariant IsBuilt(chain, last, next, LoadFiles(files[..f])) && first == chain[0]
      invariant forall i :: 0 <= i < |chain| ==> fresh(chain[i])
      invariant heap.freed == old(heap.freed)
    {
      ghost var longer;
      last, next, longer := LoadFile(files[f], last, next, chain, LoadFiles(files[..f]));
      assert forall i :: 0 <= i < |chain| ==> longer[i] == chain[i];
      chain := longer;
      assert files[..f + 1] == files[..f] + [files[f]];
      LoadFilesSnoc(files[..f], files[f]);
    }
    assert files[..|files|] == files;

    ring := chain[..|chain| - 1];
    heap.Free(next);
    Close(heap, first, last, chain, LoadFiles(files));
  }

  // ----- destruction -----

  /** The ring as the destructor meets it: from the node after position k round to k itself. */
  ghost function From(ring: seq<Unit>, k: nat): (nodes: seq<Unit>)
    requires k < |ring|
    ensures |nodes| == |ring|
  {
    ring[k + 1..] + ring[..k + 1]
  }

  lemma FromVisitsEachOnce(ring: seq<Unit>, k: nat)
    requires k < |ring|
    ensures multiset(From(ring, k)) == multiset(ring)
    ensures Distinct(ring) ==> Distinct(From(ring, k))
  {
    assert ring == ring[..k + 1] + ring[k + 1..];
  }

  // From follows the next links, beginning after position k and ending on it.
  lemma FromFollowsNext(ring: seq<Unit>, k: nat)
    requires IsRing(ring) && k < |ring|
    ensures var nodes := From(ring, k);
            && nodes[0] == ring[k].next && nodes[|ring| - 1] == ring[k]
            && (forall i :: 0 <= i < |ring| - 1 ==> nodes[i].next == nodes[i + 1])
            && (forall i :: 0 <= i < |ring| - 1 ==> nodes[i] != ring[k])
            && (forall u :: u in nodes ==> u in ring)
            && Distinct(nodes)
  {
    FromVisitsEachOnce(ring, k);
  }

  // The loop of the destructor, on the chain that cutting the ring leaves.
  method FreeUpTo(heap: Heap, start: Unit, ghost nodes: seq<Unit>)
    requires nodes != [] && Distinct(nodes) && start == nodes[0]
    requires forall i :: 0 <= i < |nodes| - 1 ==> nodes[i].next == nodes[i + 1]
    requires nodes[|nodes| - 1].next == null
    requires forall u :: u in nodes ==> u !in heap.freed
    modifies heap
    ensures heap.freed == old(heap.freed) + nodes
  {
    var tmp2 := start;
    var next := heap.GetNext(tmp2);
    ghost var j := 0;
    assert j < |nodes| - 1 ==> nodes[j].next == nodes[j + 1];
    while next != null
      invariant 0 <= j < |nodes| && tmp2 == nodes[j] && next == tmp2.next
      invariant (next == null) == (j == |nodes| - 1)
      invariant heap.freed == old(heap.freed) + nodes[..j]
      decreases |nodes| - j
    {
      assert j < |nodes| - 1 && tmp2 !in nodes[..j] && nodes[j + 1] !in nodes[..j + 1];
      var tmp1 := tmp2;
      tmp2 := next;
      heap.Free(tmp1);
      assert nodes[..j + 1] == nodes[..j] + [tmp1];
      j := j + 1;
      next := heap.GetNext(tmp2);
      assert j < |nodes| - 1 ==> nodes[j].next == nodes[j + 1];
    }
    heap.Free(tmp2);
    assert nodes == nodes[..j] + [tmp2];
  }

  // Frees the nodes of a ring, whichever node it is given. Every access is through the heap,
  // which refuses a freed node; the measure is the number of nodes still ahead.
  method UnitDequeFree(heap: Heap, point: Unit?, ghost ring: seq<Unit>, ghost k: nat) returns (code: int)
    requires point != null ==> point !in heap.freed
    requires point != null && point.next != null ==>
               IsRing(ring) && k < |ring| && point == ring[k] && forall u :: u in ring ==> u !in heap.freed
    modifies heap, point
    ensures point == null ==> code == -2 && heap.freed == old(heap.freed)
    ensures point != null && old(point.next) == null ==> code == -1 && heap.freed == old(heap.freed) + [point]
    ensures point != null && old(point.next) != null ==> code == 0 && heap.freed == old(heap.freed) + From(ring, k)
  {
    if point == null {
      return -2;
    }
    var next := heap.GetNext(point);
    if next == null {
      heap.Free(point);
      return -1;
    }
    ghost var nodes := From(ring, k);
    FromFollowsNext(ring, k);
    var tmp2: Unit := next;
    heap.SetNext(point, null);
    FreeUpTo(heap, tmp2, nodes);
    return 0;
  }

  // ----- the shape that was built -----

  ghost function NextOnRing(ring: seq<Unit>, u: Unit): (v: Unit)
    requires IsRing(ring) && u in ring
    reads ring
    ensures v in ring && v == u.next && v.prev == u
  {
    var i: nat :| i < |ring| && ring[i] == u;
    assert ring[i].next == ring[if i + 1 == |ring| then 0 else i + 1];
    u.next
  }

  /** The node reached from u by following next k times, on a ring that contains u. */
  ghost function After(ring: seq<Unit>, u: Unit, k: nat): (v: Unit)
    requires IsRing(ring) && u in ring
    reads ring
    ensures v in ring
    decreases k
  {
    if k == 0 then u else NextOnRing(ring, After(ring, u, k - 1))
  }

  // Pointer chasing is addition modulo the size of the ring.
  lemma {:induction false} AfterIsModular(ring: seq<Unit>, i: nat, k: nat)
    requires IsRing(ring) && i < |ring|
    ensures After(ring, ring[i], k) == ring[(i + k) % |ring|]
  {
    if k == 0 {
      Modular.Small(i, |ring|);
    } else {
      AfterIsModular(ring, i, k - 1);
      Modular.Successor(i + k - 1, |ring|);
    }
  }

  // One cycle through all the nodes: n steps return to the start, and no smaller number does.
  lemma RingReturnsAfterItsSize(ring: seq<Unit>, u: Unit, k: nat)
    requires IsRing(ring) && u in ring
    ensures After(ring, u, k) == u <==> k % |ring| == 0
  {
    var i: nat :| i < |ring| && ring[i] == u;
    AfterIsModular(ring, i, k);
    Modular.SameResidue(i, k, |ring|);
    Modular.Small(i, |ring|);
    var j := (i + k) % |ring|;
    assert 0 <= j < |ring|;
    assert ring[j] == ring[i] <==> j == i;
  }

  lemma NextAndPrevAreInverse(ring: seq<Unit>, u: Unit)
    requires IsRing(ring) && u in ring
    ensures u.next != null && u.next in ring && u.next.prev == u
    ensures u.prev != null && u.prev in ring && u.prev.next == u
  {
    var i: nat :| i < |ring| && ring[i] == u;
    var after, before := if i + 1 == |ring| then 0 else i + 1, if i == 0 then |ring| - 1 else i - 1;
    assert ring[i].next == ring[after] && ring[i].prev == ring[before];
    assert ring[after].prev == ring[i] && ring[before].next == ring[i];
  }

  // Every node of the ring is reached from every other.
  lemma RingIsConnected(ring: seq<Unit>, i: nat, j: nat)
    requires IsRing(ring) && i < |ring| && j < |ring|
    ensures exists k :: 0 <= k < |ring| && After(ring, ring[i], k) == ring[j]
  {
    var k := if i <= j then j - i else j - i + |ring|;
    AfterIsModular(ring, i, k);
    if i <= j {
      Modular.Small(j, |ring|);
    } else {
      Modular.Unique(i + k, |ring|, 1, j);
    }
  }

  // A node outside the ring, such as the discarded placeholder, is reached from none of its nodes.
  lemma NothingElseIsReached(ring: seq<Unit>, u: Unit, other: Unit, k: nat)
    requires IsRing(ring) && u in ring && other !in ring
    ensures After(ring, u, k) != other && After(ring, u, k).prev != other
  {
    var v := After(ring, u, k);
    var i: nat :| i < |ring| && ring[i] == v;
    assert ring[i].prev == ring[if i == 0 then |ring| - 1 else i - 1];
  }

  // The strings read back from a node are the ones the file gave, with no residue behind them.
  lemma HeldTextReadsBack(node: Unit, u: UnitValue)
    requires node.Holds(u) && Writable(u)
    ensures CString(node.quest) == u.quest
    ensures forall i :: 0 <= i < ANS_COUNT ==> CString(node.ans[i]) == u.ans[i]
    ensures |node.quest| == 202 && forall j :: |u.quest| <= j < 202 ==> node.quest[j] == 0
    ensures |node.ans| == 4 && forall i :: 0 <= i < 4 ==>
              |node.ans[i]| == 82 && forall j :: |u.ans[i]| <= j < 82 ==> node.ans[i][j] == 0
    ensures node.rans == u.rans
  {
    StrncpyKeepsString(u.quest, Q_LEN);
    CStringOfText(u.quest);
    forall i | 0 <= i < ANS_COUNT
      ensures CString(node.ans[i]) == u.ans[i]
      ensures |node.ans[i]| == 82 && forall j :: |u.ans[i]| <= j < 82 ==> node.ans[i][j] == 0
    {
      StrncpyKeepsString(u.ans[i], A_LEN);
      CStringOfText(u.ans[i]);
    }
  }
}
