/** Extraction of call traces from a kernel log: blocks of a header and its continuation
    lines, without the ignored ones, one trace per distinct header. */
module CallTraces {
  import opened Positions

  /** The three questions the scan asks about a line. */
  datatype Tests<!L> = Tests(isHeader: L -> bool, isCont: L -> bool, isIgnored: L -> bool)

  /** A header at position `start` and the lines that continue it. */
  datatype Block<L> = Block(start: nat, header: L, rest: seq<L>) {
    function End(): nat {
      start + 1 + |rest|
    }

    function Text(): seq<L> {
      [header] + rest
    }
  }

  // ----- the specification: segment, then select -----

  /** The first position from `j` on that does not continue a trace. */
  function RunEnd<L>(t: Tests<L>, lines: seq<L>, j: nat): (e: nat)
    requires j <= |lines|
    ensures j <= e <= |lines|
    ensures forall k | j <= k < e :: t.isCont(lines[k])
    ensures e < |lines| ==> !t.isCont(lines[e])
    decreases |lines| - j
  {
    if j < |lines| && t.isCont(lines[j]) then RunEnd(t, lines, j + 1) else j
  }

  predicate OpensBlock<L>(t: Tests<L>, line: L) {
    t.isHeader(line) && !t.isIgnored(line)
  }

  /** The block opened by the line at `i`. */
  function BlockAt<L>(t: Tests<L>, lines: seq<L>, i: nat): (b: Block<L>)
    requires i < |lines|
    ensures b.End() == RunEnd(t, lines, i + 1) <= |lines|
    ensures b.Text() == lines[i..b.End()]
  {
    Block(i, lines[i], lines[i + 1..RunEnd(t, lines, i + 1)])
  }

  /** The blocks scanned from position `i` on. */
  function Blocks<L>(t: Tests<L>, lines: seq<L>, i: nat): seq<Block<L>>
    requires i <= |lines|
    decreases |lines| - i
  {
    if i == |lines| then []
    else if OpensBlock(t, lines[i]) then
      var b := BlockAt(t, lines, i);
      [b] + Blocks(t, lines, b.End())
    else Blocks(t, lines, i + 1)
  }

  predicate Clean<L>(t: Tests<L>, b: Block<L>) {
    !t.isIgnored(b.header) && forall k | 0 <= k < |b.rest| :: !t.isIgnored(b.rest[k])
  }

  predicate Takes<L(==)>(t: Tests<L>, b: Block<L>, seen: set<L>) {
    Clean(t, b) && b.header !in seen
  }

  /** The clean blocks whose header is not in `seen` and was not selected before. */
  function Select<L(==)>(t: Tests<L>, blocks: seq<Block<L>>, seen: set<L>): seq<Block<L>> {
    if blocks == [] then []
    else if Takes(t, blocks[0], seen) then
      [blocks[0]] + Select(t, blocks[1..], seen + {blocks[0].header})
    else
      Select(t, blocks[1..], seen)
  }

  /** The blocks reported for a whole log. */
  function Reported<L(==)>(t: Tests<L>, lines: seq<L>): seq<Block<L>> {
    Select(t, Blocks(t, lines, 0), {})
  }

  function Texts<L>(blocks: seq<Block<L>>): seq<seq<L>> {
    seq(|blocks|, i requires 0 <= i < |blocks| => blocks[i].Text())
  }

  // ----- the scan -----

  /** The traces are those headed by the lines at `heads`, in the order of the log. */
  method ExtractCallTraces<L(==)>(t: Tests<L>, lines: seq<L>) returns (callTraces: seq<seq<L>>, ghost heads: seq<nat>)
    ensures callTraces == Texts(Reported(t, lines))
    ensures Lists(heads, |lines|, (h: nat) => HeadsNewTrace(t, lines, h))
    ensures |callTraces| == |heads|
    ensures forall i | 0 <= i < |heads| :: IsTraceAt(t, lines, heads[i], callTraces[i])
  {
    callTraces := [];
    var uniqueTraces: set<L> := {};
    ghost var found: seq<Block<L>> := [];
    var i := 0;
    while i < |lines|
      invariant i <= |lines|
      invariant callTraces == Texts(found)
      invariant found + Select(t, Blocks(t, lines, i), uniqueTraces) == Reported(t, lines)
    {
      var line := lines[i];
      if t.isHeader(line) {
        var shouldIgnore := t.isIgnored(line);
        if !shouldIgnore {
          ghost var b := BlockAt(t, lines, i);
          ghost var bs := Blocks(t, lines, i);
          var traceLines;
          i, shouldIgnore, traceLines := CollectTrace(t, lines, i);
          assert bs[0] == b && bs[1..] == Blocks(t, lines, i);
          if !shouldIgnore && traceLines != [] {
            var traceKey := traceLines[0];
            if traceKey !in uniqueTraces {
              uniqueTraces := uniqueTraces + {traceKey};
              callTraces := callTraces + [traceLines];
              found := found + [b];
            }
          }
          continue;
        }
      }
      i := i + 1;
    }
    heads := ReturnedHeads(t, lines);
  }

  /** The inner loop: moves the cursor behind the block opened at `start`, and collects its
      lines as long as none of them is ignored. */
  method CollectTrace<L>(t: Tests<L>, lines: seq<L>, start: nat)
    returns (i: nat, shouldIgnore: bool, traceLines: seq<L>)
    requires start < |lines| && OpensBlock(t, lines[start])
    ensures i == BlockAt(t, lines, start).End()
    ensures shouldIgnore <==> !Clean(t, BlockAt(t, lines, start))
    ensures !shouldIgnore ==> traceLines == BlockAt(t, lines, start).Text()
  {
    shouldIgnore := false;
    traceLines := [lines[start]];
    i := start + 1;
    while i < |lines|
      invariant start < i <= |lines|
      invariant RunEnd(t, lines, i) == RunEnd(t, lines, start + 1)
      invariant shouldIgnore <==> exists k | start < k < i :: t.isIgnored(lines[k])
      invariant !shouldIgnore ==> traceLines == lines[start..i]
    {
      var nextLine := lines[i];
      if t.isCont(nextLine) {
        if t.isIgnored(nextLine) {
          shouldIgnore := true;
        } else {
          traceLines := traceLines + [nextLine];
        }
        i := i + 1;
      } else {
        break;
      }
    }
    ghost var b := BlockAt(t, lines, start);
    assert forall k | 0 <= k < |b.rest| :: b.rest[k] == lines[start + 1 + k];
    assert forall k | start < k < i :: lines[k] == b.rest[k - start - 1];
  }

  // ----- the segmentation -----

  ghost predicate Maximal<L>(t: Tests<L>, lines: seq<L>, b: Block<L>) {
    && b.End() <= |lines|
    && b.Text() == lines[b.start..b.End()]
    && OpensBlock(t, b.header)
    && (forall line | line in b.rest :: t.isCont(line))
    && (b.End() < |lines| ==> !t.isCont(lines[b.End()]))
  }

  /** Every block is a header that is not ignored and all the lines that continue it. */
  lemma {:induction false} BlocksAreMaximal<L>(t: Tests<L>, lines: seq<L>, i: nat)
    requires i <= |lines|
    ensures forall b | b in Blocks(t, lines, i) :: Maximal(t, lines, b) && i <= b.start
    decreases |lines| - i
  {
    if i < |lines| {
      if OpensBlock(t, lines[i]) {
        BlocksAreMaximal(t, lines, BlockAt(t, lines, i).End());
      } else {
        BlocksAreMaximal(t, lines, i + 1);
      }
    }
  }

  /** Disjoint, and in the order of the log. */
  ghost predicate Ordered<L>(bs: seq<Block<L>>) {
    forall j, k | 0 <= j < k < |bs| :: bs[j].End() <= bs[k].start
  }

  lemma {:induction false} BlocksAreOrdered<L>(t: Tests<L>, lines: seq<L>, i: nat)
    requires i <= |lines|
    ensures Ordered(Blocks(t, lines, i))
    decreases |lines| - i
  {
    if i < |lines| {
      if OpensBlock(t, lines[i]) {
        var e := BlockAt(t, lines, i).End();
        BlocksAreOrdered(t, lines, e);
        BlocksAreMaximal(t, lines, e);
        PrependOrdered(BlockAt(t, lines, i), Blocks(t, lines, e));
      } else {
        BlocksAreOrdered(t, lines, i + 1);
      }
    }
  }

  lemma PrependOrdered<L>(b: Block<L>, rest: seq<Block<L>>)
    requires Ordered(rest) && forall c | c in rest :: b.End() <= c.start
    ensures Ordered([b] + rest)
  {
    var bs := [b] + rest;
    assert forall k | 0 < k < |bs| :: bs[k] == rest[k - 1] && rest[k - 1] in rest;
  }

  ghost predicate Covers<L>(b: Block<L>, h: int) {
    b.start <= h < b.End()
  }

  lemma {:induction false} HeaderIsCovered<L>(t: Tests<L>, lines: seq<L>, i: nat, h: nat) returns (j: nat)
    requires i <= h < |lines| && OpensBlock(t, lines[h])
    ensures j < |Blocks(t, lines, i)| && Covers(Blocks(t, lines, i)[j], h)
    decreases |lines| - i
  {
    if OpensBlock(t, lines[i]) {
      var e := BlockAt(t, lines, i).End();
      if h < e {
        j := 0;
      } else {
        j := HeaderIsCovered(t, lines, e, h);
        j := j + 1;
      }
    } else {
      j := HeaderIsCovered(t, lines, i + 1, h);
    }
  }

  /** Every header line that is not ignored lies in exactly one scanned block. */
  lemma HeaderInExactlyOneBlock<L>(t: Tests<L>, lines: seq<L>, h: nat)
    requires h < |lines| && OpensBlock(t, lines[h])
    ensures var bs := Blocks(t, lines, 0);
            exists j | 0 <= j < |bs| ::
              Covers(bs[j], h) && forall k | 0 <= k < |bs| && k != j :: !Covers(bs[k], h)
  {
    var bs := Blocks(t, lines, 0);
    BlocksAreOrdered(t, lines, 0);
    var j := HeaderIsCovered(t, lines, 0, h);
    forall k | 0 <= k < |bs| && k != j
      ensures !Covers(bs[k], h)
    {
      if k < j {
        assert bs[k].End() <= bs[j].start;
      } else {
        assert bs[j].End() <= bs[k].start;
      }
    }
  }

  // ----- the selection -----

  ghost predicate DistinctHeaders<L>(bs: seq<Block<L>>) {
    forall j, k | 0 <= j < k < |bs| :: bs[j].header != bs[k].header
  }

  /** Only blocks that may be taken are selected. */
  lemma {:induction false} SelectedAreTakeable<L>(t: Tests<L>, bs: seq<Block<L>>, seen: set<L>, b: Block<L>)
    requires b in Select(t, bs, seen)
    ensures b in bs && Takes(t, b, seen)
  {
    if Takes(t, bs[0], seen) {
      if b != bs[0] {
        SelectedAreTakeable(t, bs[1..], seen + {bs[0].header}, b);
      }
    } else {
      SelectedAreTakeable(t, bs[1..], seen, b);
    }
  }

  /** The selection keeps the order of the blocks and has pairwise distinct headers. */
  lemma {:induction false} SelectedAreDistinct<L>(t: Tests<L>, bs: seq<Block<L>>, seen: set<L>)
    requires Ordered(bs)
    ensures Ordered(Select(t, bs, seen)) && DistinctHeaders(Select(t, bs, seen))
  {
    if bs != [] {
      if Takes(t, bs[0], seen) {
        var seen' := seen + {bs[0].header};
        var rest := Select(t, bs[1..], seen');
        SelectedAreDistinct(t, bs[1..], seen');
        forall b | b in rest
          ensures bs[0].End() <= b.start && b.header != bs[0].header
        {
          SelectedAreTakeable(t, bs[1..], seen', b);
        }
        PrependOrdered(bs[0], rest);
        PrependDistinct(bs[0], rest);
      } else {
        SelectedAreDistinct(t, bs[1..], seen);
      }
    }
  }

  lemma PrependDistinct<L>(b: Block<L>, rest: seq<Block<L>>)
    requires DistinctHeaders(rest) && forall c | c in rest :: c.header != b.header
    ensures DistinctHeaders([b] + rest)
  {
    var bs := [b] + rest;
    assert forall k | 0 < k < |bs| :: bs[k] == rest[k - 1] && rest[k - 1] in rest;
  }

  /** Block `k` may be taken and no clean block before it has the same header. */
  ghost predicate FirstOfItsHeader<L>(t: Tests<L>, bs: seq<Block<L>>, seen: set<L>, k: nat)
    requires k < |bs|
  {
    Takes(t, bs[k], seen) && forall j | 0 <= j < k && Clean(t, bs[j]) :: bs[j].header != bs[k].header
  }

  /** A block is selected if and only if it is the first clean block of its header. */
  lemma {:induction false} SelectedIff<L>(t: Tests<L>, bs: seq<Block<L>>, seen: set<L>, k: nat)
    requires Ordered(bs) && k < |bs|
    ensures bs[k] in Select(t, bs, seen) <==> FirstOfItsHeader(t, bs, seen, k)
    decreases |bs|
  {
    var rest := bs[1..];
    var seen' := if Takes(t, bs[0], seen) then seen + {bs[0].header} else seen;
    if k == 0 {
      if bs[0] in Select(t, bs, seen) {
        SelectedAreTakeable(t, bs, seen, bs[0]);
      }
    } else {
      SelectedIff(t, rest, seen', k - 1);
      assert bs[k] == rest[k - 1] && bs[0].End() <= bs[k].start;
      FirstAfterHead(t, bs, seen, k);
    }
  }

  lemma FirstAfterHead<L>(t: Tests<L>, bs: seq<Block<L>>, seen: set<L>, k: nat)
    requires 0 < k < |bs|
    ensures FirstOfItsHeader(t, bs, seen, k) <==>
            FirstOfItsHeader(t, bs[1..], if Takes(t, bs[0], seen) then seen + {bs[0].header} else seen, k - 1)
  {
    var rest := bs[1..];
    assert forall j | 0 <= j < |rest| :: rest[j] == bs[j + 1];
    assert forall j | 0 < j < |bs| :: bs[j] == rest[j - 1];
  }

  // ----- what the extraction returns -----

  /** The returned traces are, in the order of the log, maximal slices of a header and its
      continuations without any ignored line, and no two of them have the same header. */
  lemma TracesAreCleanAndDistinct<L>(t: Tests<L>, lines: seq<L>)
    ensures var s := Reported(t, lines);
            && Ordered(s)
            && DistinctHeaders(s)
            && forall b | b in s :: Maximal(t, lines, b) && Clean(t, b)
  {
    var bs := Blocks(t, lines, 0);
    BlocksAreMaximal(t, lines, 0);
    BlocksAreOrdered(t, lines, 0);
    SelectedAreDistinct(t, bs, {});
    forall b | b in Reported(t, lines)
      ensures b in bs && Clean(t, b)
    {
      SelectedAreTakeable(t, bs, {}, b);
    }
  }

  /** A scanned block is returned if and only if it is clean and no clean block before it
      has the same header line. */
  lemma BlockIsReturnedIff<L>(t: Tests<L>, lines: seq<L>, k: nat)
    requires k < |Blocks(t, lines, 0)|
    ensures var bs := Blocks(t, lines, 0);
            bs[k] in Reported(t, lines) <==>
            Clean(t, bs[k]) && forall j | 0 <= j < k && Clean(t, bs[j]) :: bs[j].header != bs[k].header
  {
    BlocksAreOrdered(t, lines, 0);
    SelectedIff(t, Blocks(t, lines, 0), {}, k);
  }

  // ----- which headers get a trace of their own -----

  /** Between every earlier opening line and `h` some line, possibly `h`, breaks the run of
      continuations. */
  ghost predicate StandsAlone<L>(t: Tests<L>, lines: seq<L>, h: nat)
    requires h < |lines|
  {
    OpensBlock(t, lines[h]) &&
    forall g | 0 <= g < h && OpensBlock(t, lines[g]) :: exists k | g < k <= h :: !t.isCont(lines[k])
  }

  ghost predicate StartsBlock<L>(t: Tests<L>, lines: seq<L>, h: nat) {
    exists b :: b in Blocks(t, lines, 0) && b.start == h
  }

  /** The block that starts at a position is the one opened there. */
  lemma BlockIsBlockAt<L>(t: Tests<L>, lines: seq<L>, b: Block<L>)
    requires Maximal(t, lines, b)
    ensures b == BlockAt(t, lines, b.start)
  {
    var e := RunEnd(t, lines, b.start + 1);
    assert b.Text()[0] == b.header && b.Text()[1..] == b.rest;
    assert forall k | b.start < k < b.End() :: lines[k] == b.rest[k - b.start - 1];
    assert e == b.End();
    assert lines[b.start..e][0] == lines[b.start] && lines[b.start..e][1..] == lines[b.start + 1..e];
  }

  /** A line that opens a block starts a block of its own if and only if no earlier opening
      line is joined to it by continuations. */
  lemma StartsBlockIff<L>(t: Tests<L>, lines: seq<L>, h: nat)
    requires h < |lines| && OpensBlock(t, lines[h])
    ensures StartsBlock(t, lines, h) <==> StandsAlone(t, lines, h)
  {
    var bs := Blocks(t, lines, 0);
    BlocksAreMaximal(t, lines, 0);
    BlocksAreOrdered(t, lines, 0);
    if StartsBlock(t, lines, h) {
      var i :| 0 <= i < |bs| && bs[i].start == h;
      forall g | 0 <= g < h && OpensBlock(t, lines[g])
        ensures exists k | g < k <= h :: !t.isCont(lines[k])
      {
        var j := HeaderIsCovered(t, lines, 0, g);
        StartsDecideOrder(bs, j, i);
        assert bs[j] in bs;
        assert g < bs[j].End() <= h && !t.isCont(lines[bs[j].End()]);
      }
    } else {
      var j := HeaderIsCovered(t, lines, 0, h);
      var b := bs[j];
      assert b in bs;
      forall k | b.start < k <= h
        ensures t.isCont(lines[k])
      {
        assert b.Text()[k - b.start] == lines[k] && b.rest[k - b.start - 1] in b.rest;
      }
      assert b.Text()[0] == lines[b.start];
    }
  }

  /** Blocks are in the order of their starts, and the earlier one ends first. */
  lemma StartsDecideOrder<L>(bs: seq<Block<L>>, j: nat, i: nat)
    requires Ordered(bs) && j < |bs| && i < |bs|
    ensures j < i <==> bs[j].start < bs[i].start
    ensures j < i ==> bs[j].End() <= bs[i].start
  {
    assert j < i ==> bs[j].End() <= bs[i].start;
    assert i < j ==> bs[i].End() <= bs[j].start;
  }

  /** The position heads a returned trace. */
  ghost predicate HeadsTrace<L>(t: Tests<L>, lines: seq<L>, h: nat) {
    exists b :: b in Reported(t, lines) && b.start == h
  }

  /** A header that stands alone, whose block has no ignored line. */
  ghost predicate HeadsCleanBlock<L>(t: Tests<L>, lines: seq<L>, h: nat)
    requires h < |lines|
  {
    StandsAlone(t, lines, h) && forall k | h <= k < RunEnd(t, lines, h + 1) :: !t.isIgnored(lines[k])
  }

  lemma StartedCleanBlock<L>(t: Tests<L>, lines: seq<L>, j: nat)
    requires j < |Blocks(t, lines, 0)|
    ensures var b := Blocks(t, lines, 0)[j];
            b.start < |lines| && b.header == lines[b.start] && (HeadsCleanBlock(t, lines, b.start) <==> Clean(t, b))
  {
    var bs := Blocks(t, lines, 0);
    BlocksAreMaximal(t, lines, 0);
    assert bs[j] in bs;
    BlockIsBlockAt(t, lines, bs[j]);
    StartsBlockIff(t, lines, bs[j].start);
  }

  /** A line heads a returned trace if and only if it stands alone, its block is clean, and
      no line before it with the same text does so. */
  lemma HeadsTraceIff<L>(t: Tests<L>, lines: seq<L>, h: nat)
    requires h < |lines|
    ensures HeadsTrace(t, lines, h) <==>
            HeadsCleanBlock(t, lines, h) &&
            forall g | 0 <= g < h && HeadsCleanBlock(t, lines, g) :: lines[g] != lines[h]
  {
    hide Clean, RunEnd, Select;
    if StartsBlock(t, lines, h) {
      var bs := Blocks(t, lines, 0);
      var k :| 0 <= k < |bs| && bs[k].start == h;
      BlockIsReturnedIff(t, lines, k);
      StartedCleanBlock(t, lines, k);
      EarlierCleanBlocks(t, lines, k);
      ReturnedByStart(t, lines, k);
    } else {
      ReturnedStartsBlock(t, lines, h);
      if OpensBlock(t, lines[h]) {
        StartsBlockIff(t, lines, h);
      }
    }
  }

  lemma ReturnedStartsBlock<L>(t: Tests<L>, lines: seq<L>, h: nat)
    ensures HeadsTrace(t, lines, h) ==> StartsBlock(t, lines, h)
  {
    var bs := Blocks(t, lines, 0);
    forall b | b in Reported(t, lines)
      ensures b in bs
    {
      SelectedAreTakeable(t, bs, {}, b);
    }
  }

  /** A start heads a returned trace if and only if its block is returned. */
  lemma ReturnedByStart<L>(t: Tests<L>, lines: seq<L>, k: nat)
    requires k < |Blocks(t, lines, 0)|
    ensures var b := Blocks(t, lines, 0)[k];
            HeadsTrace(t, lines, b.start) <==> b in Reported(t, lines)
  {
    var bs := Blocks(t, lines, 0);
    BlocksAreOrdered(t, lines, 0);
    forall b | b in Reported(t, lines) && b.start == bs[k].start
      ensures b == bs[k]
    {
      SelectedAreTakeable(t, bs, {}, b);
      var j :| 0 <= j < |bs| && bs[j] == b;
      StartsDecideOrder(bs, j, k);
      StartsDecideOrder(bs, k, j);
    }
  }

  /** The clean blocks before block `k` are those headed by positions before its start. */
  lemma EarlierCleanBlocks<L>(t: Tests<L>, lines: seq<L>, k: nat)
    requires k < |Blocks(t, lines, 0)| && Blocks(t, lines, 0)[k].start < |lines|
    ensures var bs := Blocks(t, lines, 0);
            (forall j | 0 <= j < k && Clean(t, bs[j]) :: bs[j].header != bs[k].header) <==>
            (forall g | 0 <= g < bs[k].start && HeadsCleanBlock(t, lines, g) :: lines[g] != bs[k].header)
  {
    var bs := Blocks(t, lines, 0);
    BlocksAreOrdered(t, lines, 0);
    forall j | 0 <= j < k
      ensures bs[j].start < bs[k].start && bs[j].start < |lines| && bs[j].header == lines[bs[j].start]
      ensures HeadsCleanBlock(t, lines, bs[j].start) <==> Clean(t, bs[j])
    {
      StartedCleanBlock(t, lines, j);
      StartsDecideOrder(bs, j, k);
    }
    forall g | 0 <= g < bs[k].start && HeadsCleanBlock(t, lines, g)
      ensures exists j :: 0 <= j < k && bs[j].start == g
    {
      StartsBlockIff(t, lines, g);
      var j :| 0 <= j < |bs| && bs[j].start == g;
      StartsDecideOrder(bs, j, k);
    }
  }

  /** A header that starts a clean block, the first one with its text. */
  ghost predicate HeadsNewTrace<L>(t: Tests<L>, lines: seq<L>, h: nat) {
    && h < |lines|
    && HeadsCleanBlock(t, lines, h)
    && forall g | 0 <= g < h && HeadsCleanBlock(t, lines, g) :: lines[g] != lines[h]
  }

  /** The line at `h` and all the lines that continue it. */
  ghost predicate IsTraceAt<L>(t: Tests<L>, lines: seq<L>, h: nat, trace: seq<L>) {
    var e := h + |trace|;
    && h < e <= |lines|
    && trace == lines[h..e]
    && (forall k | h < k < e :: t.isCont(lines[k]))
    && (e < |lines| ==> !t.isCont(lines[e]))
  }

  /** One trace is returned for each line that heads a new one, in the order of these lines. */
  lemma ReturnedHeads<L>(t: Tests<L>, lines: seq<L>) returns (heads: seq<nat>)
    ensures Lists(heads, |lines|, (h: nat) => HeadsNewTrace(t, lines, h))
    ensures |Texts(Reported(t, lines))| == |heads|
    ensures forall i | 0 <= i < |heads| :: IsTraceAt(t, lines, heads[i], Texts(Reported(t, lines))[i])
  {
    var s := Reported(t, lines);
    TracesAreCleanAndDistinct(t, lines);
    heads := seq(|s|, i requires 0 <= i < |s| => s[i].start);
    forall i | 0 <= i < |s|
      ensures IsTraceAt(t, lines, heads[i], s[i].Text())
    {
      assert s[i] in s && Maximal(t, lines, s[i]);
      BlockIsBlockAt(t, lines, s[i]);
    }
    forall h: nat
      ensures h in heads <==> HeadsNewTrace(t, lines, h)
    {
      if h < |lines| {
        HeadsTraceIff(t, lines, h);
      }
      if HeadsTrace(t, lines, h) {
        var i :| 0 <= i < |s| && s[i].start == h;
        assert heads[i] == h;
      }
    }
  }

  /** Two headers are returned as two traces if and only if both stand alone, both blocks are
      clean, their texts differ, and neither text headed a clean block before. */
  lemma ReturnedSeparatelyIff<L>(t: Tests<L>, lines: seq<L>, g: nat, h: nat)
    requires g < h < |lines|
    ensures HeadsTrace(t, lines, g) && HeadsTrace(t, lines, h) <==>
            && HeadsCleanBlock(t, lines, g)
            && HeadsCleanBlock(t, lines, h)
            && lines[g] != lines[h]
            && (forall f | 0 <= f < g && HeadsCleanBlock(t, lines, f) :: lines[f] != lines[g])
            && (forall f | 0 <= f < h && HeadsCleanBlock(t, lines, f) :: lines[f] != lines[h])
  {
    HeadsTraceIff(t, lines, g);
    HeadsTraceIff(t, lines, h);
  }

  // ----- the tests on the text of a line -----

  predicate Contains(s: string, part: string) {
    exists i | 0 <= i <= |s| :: part <= s[i..]
  }

  predicate IsSpace(c: char) {
    c == ' ' || '\t' <= c <= '\r'
  }

  /** The line without leading white space. */
  function StripLeft(s: string): string {
    if s != [] && IsSpace(s[0]) then StripLeft(s[1..]) else s
  }

  predicate LooksLikeTrace(line: string) {
    || "[" <= StripLeft(line)
    || "?" <= StripLeft(line)
    || Contains(line, "0x")
    || Contains(line, "+0x")
    || "---[" <= StripLeft(line)
    || (|line| > 0 && line[0] == ' ' && ('[' in line || ']' in line || '+' in line))
  }

  /** The first character that is not white space. */
  ghost predicate FirstVisible(line: string, i: int) {
    0 <= i < |line| && !IsSpace(line[i]) && forall j | 0 <= j < i :: IsSpace(line[j])
  }

  lemma {:induction false} StripLeftFrom(s: string) returns (i: nat)
    ensures i <= |s| && StripLeft(s) == s[i..]
    ensures (i < |s| ==> FirstVisible(s, i)) && forall j | 0 <= j < i :: IsSpace(s[j])
  {
    if s != [] && IsSpace(s[0]) {
      i := StripLeftFrom(s[1..]);
      i := i + 1;
      assert forall j | 0 < j < |s| :: s[j] == s[1..][j - 1];
    } else {
      i := 0;
    }
  }

  /** The six tests come down to four: the first visible character is a bracket or a question
      mark, or starts "---["; "0x" occurs anywhere; or the line is indented by a blank and
      has a bracket or a plus sign. */
  lemma LooksLikeTraceIff(line: string)
    ensures LooksLikeTrace(line) <==>
            || (exists i :: FirstVisible(line, i) && (line[i] == '[' || line[i] == '?' || "---[" <= line[i..]))
            || (exists i | 0 <= i < |line| - 1 :: line[i] == '0' && line[i + 1] == 'x')
            || (|line| > 0 && line[0] == ' ' && exists i | 0 <= i < |line| :: line[i] in {'[', ']', '+'})
  {
    hide StripLeft, IsSpace, Contains, FirstVisible;
    VisibleStart(line);
    HexIsDigitPair(line);
    assert ('[' in line || ']' in line || '+' in line) <==>
           exists i | 0 <= i < |line| :: line[i] in {'[', ']', '+'};
  }

  lemma VisibleStart(line: string)
    ensures var s := StripLeft(line);
            ("[" <= s || "?" <= s || "---[" <= s) <==>
            exists i :: FirstVisible(line, i) && (line[i] == '[' || line[i] == '?' || "---[" <= line[i..])
  {
    var v := StripLeftFrom(line);
    if i :| FirstVisible(line, i) {
      assert i == v;
    }
    if v < |line| {
      assert line[v..][0] == line[v];
    }
  }

  lemma HexIsDigitPair(line: string)
    ensures Contains(line, "0x") <==> exists i | 0 <= i < |line| - 1 :: line[i] == '0' && line[i + 1] == 'x'
    ensures Contains(line, "+0x") ==> Contains(line, "0x")
  {
    if i :| 0 <= i < |line| - 1 && line[i] == '0' && line[i + 1] == 'x' {
      assert "0x" <= line[i..];
    }
    if i :| 0 <= i <= |line| && "0x" <= line[i..] {
      assert line[i..][0] == line[i] && line[i..][1] == line[i + 1];
    }
    if i :| 0 <= i <= |line| && "+0x" <= line[i..] {
      assert line[i + 1..] == line[i..][1..];
      assert "0x" <= line[i + 1..];
    }
  }

  predicate MatchesAny(line: string, patterns: seq<string>) {
    exists p | p in patterns :: Contains(line, p)
  }

  function KernelLog(ignorePatterns: seq<string>): Tests<string> {
    Tests(line => Contains(line, "Call Trace:"), LooksLikeTrace, line => MatchesAny(line, ignorePatterns))
  }

  ghost predicate BracketedAfter(lines: seq<string>, h: nat) {
    forall k | h < k < |lines| :: "[" <= lines[k]
  }

  /** When every line after the first header that is not ignored starts with a bracketed time
      stamp, all of them belong to its block. So at most one trace is returned, and none at
      all if any of these lines matches an ignore pattern. */
  lemma StampedLogGivesOneTrace(patterns: seq<string>, lines: seq<string>, h: nat)
    requires h < |lines| && BracketedAfter(lines, h)
    requires OpensBlock(KernelLog(patterns), lines[h])
    requires forall k | 0 <= k < h :: !OpensBlock(KernelLog(patterns), lines[k])
    ensures Texts(Reported(KernelLog(patterns), lines)) ==
            if exists k | h <= k < |lines| :: MatchesAny(lines[k], patterns) then [] else [lines[h..]]
  {
    var t := KernelLog(patterns);
    forall k | h < k < |lines|
      ensures t.isCont(lines[k])
    {
      assert StripLeft(lines[k]) == lines[k];
    }
    assert forall k | 0 <= k < |lines| :: t.isIgnored(lines[k]) <==> MatchesAny(lines[k], patterns);
    UnbrokenLogGivesOneTrace(t, lines, h);
  }

  /** Two different traces, a second apart, come out as one. */
  lemma StampedTracesMerge()
    ensures var first, second := "[ 1.0] Call Trace: a", "[ 2.0] Call Trace: b";
            var t := KernelLog([]);
            && OpensBlock(t, first) && OpensBlock(t, second)
            && Texts(Reported(t, [first, second])) == [[first, second]]
  {
    var first, second := "[ 1.0] Call Trace: a", "[ 2.0] Call Trace: b";
    assert "Call Trace:" <= first[7..] && "Call Trace:" <= second[7..];
    StampedLogGivesOneTrace([], [first, second], 0);
    assert [first, second][0..] == [first, second];
  }

  /** The same for any log whose lines after the first opening line all continue a trace. */
  lemma UnbrokenLogGivesOneTrace<L>(t: Tests<L>, lines: seq<L>, h: nat)
    requires h < |lines| && OpensBlock(t, lines[h])
    requires forall k | 0 <= k < h :: !OpensBlock(t, lines[k])
    requires forall k | h < k < |lines| :: t.isCont(lines[k])
    ensures Texts(Reported(t, lines)) ==
            if exists k | h <= k < |lines| :: t.isIgnored(lines[k]) then [] else [lines[h..]]
  {
    hide RunEnd;
    OnlyBlock(t, lines, 0, h);
    var b := BlockAt(t, lines, h);
    SelectSingle(t, b);
    assert forall k | 0 <= k < |b.rest| :: b.rest[k] == lines[h + 1 + k];
    assert forall k | h < k < |lines| :: lines[k] == b.rest[k - h - 1];
    if Clean(t, b) {
      assert Reported(t, lines) == [b] && b.Text() == lines[h..];
      assert Texts([b]) == [lines[h..]];
    } else {
      assert Reported(t, lines) == [];
    }
  }

  lemma SelectSingle<L>(t: Tests<L>, b: Block<L>)
    ensures Select(t, [b], {}) == if Clean(t, b) then [b] else []
  {
    assert [b][1..] == [];
  }

  lemma {:induction false} OnlyBlock<L>(t: Tests<L>, lines: seq<L>, i: nat, h: nat)
    requires i <= h < |lines| && OpensBlock(t, lines[h])
    requires forall k | i <= k < h :: !OpensBlock(t, lines[k])
    requires forall k | h < k < |lines| :: t.isCont(lines[k])
    ensures Blocks(t, lines, i) == [BlockAt(t, lines, h)] && BlockAt(t, lines, h).End() == |lines|
    decreases h - i
  {
    if i < h {
      OnlyBlock(t, lines, i + 1, h);
    } else {
      assert RunEnd(t, lines, h + 1) == |lines|;
    }
  }
}
