/**
 Splitting a shader program's source into blocks. A block starts with a header comment, opened by a
 comment sign and a bracket, that holds a title, and ends where the next one starts.
 */
module GlslBlocks {

  /** A header that the scan comes to: closed with text behind it, not closed, or closed by the end of the text. */
  datatype Header = Closed | Unclosed | PastEnd

  /** One block, by its places in the text. */
  datatype Block = Block(start: nat, titleEnd: nat, close: nat, textEnd: nat, firstLine: nat) {
    function TextStart(): nat {
      close + 3
    }
  }

  predicate HeaderAt(text: string, p: nat) {
    p + 3 <= |text| && text[p] == '/' && text[p + 1] == '*' && text[p + 2] == '['
  }

  predicate CloseAt(text: string, p: nat) {
    p + 2 <= |text| && text[p] == '*' && text[p + 1] == '/'
  }

  /** The number of line ends among the first n characters. */
  function Newlines(text: string, n: nat): nat
    requires n <= |text|
  {
    if n == 0 then 0 else Newlines(text, n - 1) + if text[n - 1] == '\n' then 1 else 0
  }

  lemma HeaderAtIff(text: string, p: nat)
    ensures HeaderAt(text, p) <==> p + 3 <= |text| && text[p..p + 3] == "/*["
    ensures CloseAt(text, p) <==> p + 2 <= |text| && text[p..p + 2] == "*/"
  {
    if p + 3 <= |text| {
      assert text[p..p + 3] == [text[p], text[p + 1], text[p + 2]];
    }
    if p + 2 <= |text| {
      assert text[p..p + 2] == [text[p], text[p + 1]];
    }
  }

  /** It is the size of the set of their places. */
  lemma {:induction false} NewlinesAre(text: string, n: nat)
    requires n <= |text|
    ensures Newlines(text, n) == |set i: nat | i < n && text[i] == '\n'|
  {
    if n > 0 {
      NewlinesAre(text, n - 1);
      var before, all := set i: nat | i < n - 1 && text[i] == '\n', set i: nat | i < n && text[i] == '\n';
      assert all == if text[n - 1] == '\n' then before + {n - 1} else before;
    }
  }

  ghost predicate NoHeader(text: string, from: nat, to: nat) {
    forall p: nat :: from <= p < to ==> !HeaderAt(text, p)
  }

  ghost predicate NoClose(text: string, from: nat, to: nat) {
    forall p: nat :: from <= p < to ==> !CloseAt(text, p)
  }

  /** The header that opens at `start` is closed at `close`, and the last bracket in it is at `titleEnd`. */
  ghost predicate IsHeader(text: string, start: nat, titleEnd: nat, close: nat) {
    && HeaderAt(text, start) && CloseAt(text, close) && start + 3 <= titleEnd < close
    && NoClose(text, start + 3, close)
    && text[titleEnd] == ']' && (forall p :: titleEnd < p < close ==> text[p] != ']')
  }

  /** The header that opens at p is never closed, or holds no title. */
  ghost predicate IsUnclosed(text: string, p: nat) {
    HeaderAt(text, p) && forall titleEnd: nat, close: nat :: !IsHeader(text, p, titleEnd, close)
  }

  /** Every header that is closed stands at the end of its line. */
  ghost predicate HeadersEndLines(text: string) {
    forall start: nat, titleEnd: nat, close: nat :: IsHeader(text, start, titleEnd, close) ==> EndsLine(text, close)
  }

  predicate EndsLine(text: string, close: nat) {
    close + 2 < |text| && text[close + 2] == '\n'
  }

  /** The header that opens at p is closed by the very end of the text; the original then reads on behind it. */
  ghost predicate ClosedByEnd(text: string, p: nat) {
    exists titleEnd: nat, close: nat :: IsHeader(text, p, titleEnd, close) && close + 2 == |text|
  }

  /** The block's header is one, and its text ends at textEnd without another header. */
  ghost predicate IsBlock(text: string, b: Block) {
    && IsHeader(text, b.start, b.titleEnd, b.close)
    && b.TextStart() <= b.textEnd <= |text|
    && NoHeader(text, b.TextStart(), b.textEnd)
  }

  /** The number of the first n blocks whose header does not end its line. */
  function Unended(text: string, blocks: seq<Block>, n: nat): nat
    requires n <= |blocks|
  {
    if n == 0 then 0
    else Unended(text, blocks, n - 1) + if EndsLine(text, blocks[n - 1].close) then 0 else 1
  }

  /** The first line of each block is counted right, but for one line too many for each unended header so far. */
  ghost predicate Counted(text: string, blocks: seq<Block>) {
    forall k :: 0 <= k < |blocks| ==> CountedAt(text, blocks, k)
  }

  ghost predicate CountedAt(text: string, blocks: seq<Block>, k: nat)
    requires k < |blocks|
  {
    && blocks[k].TextStart() <= |text|
    && blocks[k].firstLine == 1 + Newlines(text, blocks[k].TextStart()) + Unended(text, blocks, k + 1)
  }

  /** Every block but the last ends where the next one starts. */
  ghost predicate Linked(text: string, blocks: seq<Block>) {
    && (forall k :: 0 <= k < |blocks| - 1 ==> IsBlock(text, blocks[k]))
    && (forall k, l :: 0 <= k && l == k + 1 < |blocks| ==> blocks[k].textEnd == blocks[l].start)
  }

  /** The blocks follow one another without a gap from the first header on; the last is still open at i. */
  ghost predicate OpenTile(text: string, blocks: seq<Block>, i: nat) {
    && i <= |text|
    && Linked(text, blocks)
    && (blocks != [] ==> IsBlock(text, blocks[|blocks| - 1].(textEnd := i)))
    && NoHeader(text, 0, if blocks == [] then i else blocks[0].start)
  }

  /** The blocks follow one another without a gap, from the first header of the text up to `end`. */
  ghost predicate Tile(text: string, blocks: seq<Block>, end: nat) {
    OpenTile(text, blocks, end) && (blocks != [] ==> blocks[|blocks| - 1].textEnd == end)
  }

  lemma OpenFurther(text: string, blocks: seq<Block>, i: nat)
    requires OpenTile(text, blocks, i) && i < |text| && !HeaderAt(text, i)
    ensures OpenTile(text, blocks, i + 1)
  {
  }

  /** The blocks with the end of the last one put in. */
  function Patched(blocks: seq<Block>, i: nat): (r: seq<Block>)
    ensures |r| == |blocks|
    ensures forall k :: 0 <= k < |blocks| - 1 ==> r[k] == blocks[k]
    ensures blocks != [] ==> r[|blocks| - 1] == blocks[|blocks| - 1].(textEnd := i)
  {
    if blocks == [] then [] else blocks[|blocks| - 1 := blocks[|blocks| - 1].(textEnd := i)]
  }

  lemma PatchedTile(text: string, blocks: seq<Block>, i: nat)
    requires OpenTile(text, blocks, i)
    ensures Tile(text, Patched(blocks, i), i)
  {
    PatchedLinked(text, blocks, i);
  }

  lemma PatchedLinked(text: string, blocks: seq<Block>, i: nat)
    requires Linked(text, blocks)
    ensures Linked(text, Patched(blocks, i))
  {
    var r := Patched(blocks, i);
    forall k, l | 0 <= k && l == k + 1 < |r|
      ensures IsBlock(text, r[k]) && r[k].textEnd == r[l].start
    {
      assert r[k] == blocks[k] && r[l].start == blocks[l].start;
    }
  }

  /** Counting looks at the headers only. */
  lemma {:induction false} SameUnended(text: string, a: seq<Block>, b: seq<Block>, n: nat)
    requires n <= |a| && n <= |b| && forall k :: 0 <= k < n ==> a[k].close == b[k].close
    ensures Unended(text, a, n) == Unended(text, b, n)
  {
    if n > 0 {
      SameUnended(text, a, b, n - 1);
    }
  }

  /** Blocks with the same headers and first lines are counted alike. */
  lemma SameCounted(text: string, a: seq<Block>, b: seq<Block>, k: nat)
    requires k < |a| && k < |b| && forall l :: 0 <= l <= k ==> a[l].close == b[l].close && a[l].firstLine == b[l].firstLine
    requires CountedAt(text, a, k)
    ensures CountedAt(text, b, k)
  {
    SameUnended(text, a, b, k + 1);
  }

  lemma PatchedCounted(text: string, blocks: seq<Block>, i: nat)
    requires Counted(text, blocks)
    ensures Counted(text, Patched(blocks, i))
    ensures Unended(text, Patched(blocks, i), |blocks|) == Unended(text, blocks, |blocks|)
  {
    var r := Patched(blocks, i);
    assert forall l :: 0 <= l < |blocks| ==> r[l].close == blocks[l].close && r[l].firstLine == blocks[l].firstLine;
    SameUnended(text, r, blocks, |blocks|);
    forall k | 0 <= k < |r|
      ensures CountedAt(text, r, k)
    {
      SameCounted(text, blocks, r, k);
    }
  }

  lemma CountedNext(text: string, blocks: seq<Block>, b: Block)
    requires Counted(text, blocks) && b.TextStart() <= |text|
    requires b.firstLine == 1 + Newlines(text, b.TextStart()) + Unended(text, blocks, |blocks|)
                          + if EndsLine(text, b.close) then 0 else 1
    ensures Counted(text, blocks + [b])
    ensures b.firstLine == 1 + Newlines(text, b.TextStart()) + Unended(text, blocks + [b], |blocks| + 1)
  {
    var next := blocks + [b];
    SameUnended(text, next, blocks, |blocks|);
    forall k | 0 <= k < |next|
      ensures CountedAt(text, next, k)
    {
      if k < |blocks| {
        SameCounted(text, blocks, next, k);
      }
    }
  }

  lemma OpenNext(text: string, blocks: seq<Block>, b: Block)
    requires Tile(text, blocks, b.start) && IsBlock(text, b) && b.textEnd == b.TextStart()
    ensures OpenTile(text, blocks + [b], b.textEnd)
  {
    var next := blocks + [b];
    forall k, l | 0 <= k && l == k + 1 < |next|
      ensures IsBlock(text, next[k]) && next[k].textEnd == next[l].start
    {
      if k == |blocks| - 1 {
        assert blocks[k] == blocks[k].(textEnd := b.start);
      }
    }
    assert next[|next| - 1].(textEnd := b.textEnd) == b;
  }

  lemma {:induction false} NoNewlines(text: string, from: nat, to: nat)
    requires from <= to <= |text| && forall p :: from <= p < to ==> text[p] != '\n'
    ensures Newlines(text, to) == Newlines(text, from)
  {
    if from < to {
      NoNewlines(text, from, to - 1);
    }
  }

  /** The line counted at a closed header is right behind it, or one too many. */
  lemma CountAfterHeader(text: string, close: nat)
    requires CloseAt(text, close) && close + 2 < |text|
    ensures Newlines(text, close) + 1 == Newlines(text, close + 3) + if EndsLine(text, close) then 0 else 1
  {
    NoNewlines(text, close, close + 2);
  }

  /** The inner loop: looks for the end of the header opened at `start`, and counts lines. */
  method ScanHeader(text: string, start: nat, line: nat) returns (titleEnd: int, close: int, line': nat)
    requires HeaderAt(text, start) && line >= 1 + Newlines(text, start)
    ensures titleEnd >= 0 && close >= 0 ==>
              IsHeader(text, start, titleEnd, close) && line' - line == Newlines(text, close) + 1 - Newlines(text, start)
    ensures titleEnd < 0 || close < 0 ==> IsUnclosed(text, start)
  {
    titleEnd, close, line' := -1, -1, line;
    var j := start + 3;
    NoNewlines(text, start, j);
    while j < |text|
      invariant start + 3 <= j <= |text| && close == -1
      invariant line' - line == Newlines(text, j) - Newlines(text, start) && NoClose(text, start + 3, j)
      invariant titleEnd == -1 || (start + 3 <= titleEnd < j && text[titleEnd] == ']')
      invariant forall p :: start + 3 <= p < j && p > titleEnd ==> text[p] != ']'
    {
      if text[j] == ']' {
        titleEnd := j;
      } else if CloseAt(text, j) {
        close := j;
        line' := line' + 1;
        break;
      } else if text[j] == '\n' {
        line' := line' + 1;
      }
      j := j + 1;
    }
    if close < 0 {
      NeverClosed(text, start);
    } else if titleEnd < 0 {
      NoTitle(text, start, close);
    }
  }

  lemma NeverClosed(text: string, start: nat)
    requires HeaderAt(text, start) && NoClose(text, start + 3, |text|)
    ensures IsUnclosed(text, start)
  {
  }

  lemma NoTitle(text: string, start: nat, close: nat)
    requires HeaderAt(text, start) && CloseAt(text, close) && NoClose(text, start + 3, close) && start + 3 <= close
    requires forall p :: start + 3 <= p < close ==> text[p] != ']'
    ensures IsUnclosed(text, start)
  {
  }

  /** The scan goes no further than `end`: the text ends there, or a header that is not closed before the text ends. */
  ghost predicate StopsAt(text: string, end: nat, last: Header) {
    match last
    case Closed => end == |text|
    case Unclosed => IsUnclosed(text, end)
    case PastEnd => ClosedByEnd(text, end)
  }

  /** The scan gets to a place that it goes no further from. */
  ghost predicate StopReached(text: string, last: Header) {
    exists blocks: seq<Block>, end: nat :: Tile(text, blocks, end) && StopsAt(text, end, last)
  }

  /** The state of the scan at i. */
  ghost predicate Scanning(text: string, blocks: seq<Block>, i: nat, line: nat) {
    && OpenTile(text, blocks, i) && Counted(text, blocks)
    && line == 1 + Newlines(text, i) + Unended(text, blocks, |blocks|)
  }

  /** Appending a block behind those that are complete. */
  lemma AppendedBlock(text: string, blocks: seq<Block>, b: Block, before: nat)
    requires Tile(text, blocks, b.start) && Counted(text, blocks)
    requires before == 1 + Newlines(text, b.start) + Unended(text, blocks, |blocks|)
    requires IsHeader(text, b.start, b.titleEnd, b.close) && b.close + 2 < |text| && b.textEnd == b.TextStart()
    requires b.firstLine - before == Newlines(text, b.close) + 1 - Newlines(text, b.start)
    ensures Scanning(text, blocks + [b], b.textEnd, b.firstLine)
  {
    CountAfterHeader(text, b.close);
    OpenNext(text, blocks, b);
    CountedNext(text, blocks, b);
  }

  /** Ends the last block where the next header opens. */
  method EndLast(text: string, blocks: seq<Block>, i: nat, ghost before: nat) returns (ended: seq<Block>)
    requires Scanning(text, blocks, i, before)
    ensures Tile(text, ended, i) && Counted(text, ended) && before == 1 + Newlines(text, i) + Unended(text, ended, |ended|)
  {
    PatchedTile(text, blocks, i);
    PatchedCounted(text, blocks, i);
    ended := Patched(blocks, i);
  }

  /** Ends the block before, and appends the new one. */
  method AddBlock(text: string, blocks: seq<Block>, b: Block, ghost before: nat) returns (next: seq<Block>)
    requires Scanning(text, blocks, b.start, before)
    requires IsHeader(text, b.start, b.titleEnd, b.close) && b.close + 2 < |text| && b.textEnd == b.TextStart()
    requires b.firstLine - before == Newlines(text, b.close) + 1 - Newlines(text, b.start)
    ensures Scanning(text, next, b.textEnd, b.firstLine)
  {
    var ended := EndLast(text, blocks, b.start, before);
    AppendedBlock(text, ended, b, before);
    next := ended + [b];
  }

  /** The scan at a header: a block is added, unless the header is not closed, or closed by the end of the text. */
  method TakeHeader(text: string, blocks: seq<Block>, i: nat, line: nat) returns (next: seq<Block>, i': nat, line': nat, header: Header)
    requires Scanning(text, blocks, i, line) && HeaderAt(text, i)
    ensures header.Closed? ==> i < i' && Scanning(text, next, i', line')
    ensures !header.Closed? ==> StopsAt(text, i, header)
  {
    var titleEnd, close;
    titleEnd, close, line' := ScanHeader(text, i, line);
    if titleEnd < 0 || close < 0 {
      return blocks, i, line', Unclosed;
    }
    if close + 2 == |text| {
      return blocks, i, line', PastEnd;
    }
    var b := Block(i, titleEnd, close, close + 3, line');
    next := AddBlock(text, blocks, b, line);
    return next, b.textEnd, b.firstLine, Closed;
  }

  lemma ScanOver(text: string, blocks: seq<Block>, i: nat, line: nat)
    requires Scanning(text, blocks, i, line) && i < |text| && !HeaderAt(text, i)
    ensures Scanning(text, blocks, i + 1, if text[i] == '\n' then line + 1 else line)
  {
    OpenFurther(text, blocks, i);
  }

  lemma ScanDone(text: string, blocks: seq<Block>, i: nat, line: nat)
    requires Scanning(text, blocks, i, line)
    ensures Tile(text, Patched(blocks, i), i) && Counted(text, Patched(blocks, i))
  {
    PatchedTile(text, blocks, i);
    PatchedCounted(text, blocks, i);
  }

  /** A block's text, as a string of its own, holds no header. */
  lemma TextHoldsNoHeader(text: string, b: Block, p: nat)
    requires IsBlock(text, b)
    ensures !HeaderAt(text[b.TextStart()..b.textEnd], p)
  {
    assert !HeaderAt(text, b.TextStart() + p) || b.TextStart() + p >= b.textEnd;
  }

  lemma TileBlock(text: string, blocks: seq<Block>, end: nat, k: nat)
    requires Tile(text, blocks, end) && k < |blocks|
    ensures IsBlock(text, blocks[k]) && blocks[k].textEnd <= end
    decreases |blocks| - k
  {
    if k == |blocks| - 1 {
      assert blocks[k] == blocks[k].(textEnd := end);
    } else {
      TileBlock(text, blocks, end, k + 1);
    }
  }

  /** Every header that was scanned starts a block, or lies inside a block's own header. */
  lemma EveryHeaderFound(text: string, blocks: seq<Block>, end: nat, p: nat) returns (k: nat)
    requires Tile(text, blocks, end) && HeaderAt(text, p) && p < end
    ensures k < |blocks| && blocks[k].start <= p < blocks[k].TextStart()
  {
    k := 0;
    while k + 1 < |blocks| && blocks[k + 1].start <= p
      invariant k < |blocks| && blocks[k].start <= p
    {
      k := k + 1;
    }
    TileBlock(text, blocks, end, k);
  }

  // ---------------------------------------------------------------- where the scan ends

  lemma TileOrdered(text: string, blocks: seq<Block>, end: nat, k: nat, l: nat)
    requires Tile(text, blocks, end) && k < l < |blocks|
    ensures blocks[k].TextStart() <= blocks[l].start
    decreases l - k
  {
    TileBlock(text, blocks, end, k);
    if k + 1 < l {
      TileBlock(text, blocks, end, k + 1);
      TileOrdered(text, blocks, end, k + 1, l);
    }
  }

  lemma OneClose(text: string, start: nat, titleEnd: nat, close: nat, titleEnd': nat, close': nat)
    requires IsHeader(text, start, titleEnd, close) && IsHeader(text, start, titleEnd', close')
    ensures close == close'
  {
    assert close <= close' || CloseAt(text, close');
    assert close' <= close || CloseAt(text, close);
  }

  /** The first header behind a place is the only one, and is closed at one place. */
  lemma OneNextHeader(text: string, from: nat, a: Block, b: Block)
    requires from <= a.start && from <= b.start && NoHeader(text, from, a.start) && NoHeader(text, from, b.start)
    requires IsBlock(text, a) && IsBlock(text, b)
    ensures a.start == b.start && a.close == b.close
  {
    assert HeaderAt(text, a.start) && HeaderAt(text, b.start);
    OneClose(text, a.start, a.titleEnd, a.close, b.titleEnd, b.close);
  }

  /** Any two tilings of a text have the same headers. */
  lemma {:induction false} TilesAgree(text: string, a: seq<Block>, b: seq<Block>, aEnd: nat, bEnd: nat, k: nat)
    requires Tile(text, a, aEnd) && Tile(text, b, bEnd) && k < |a| && k < |b|
    ensures a[k].start == b[k].start && a[k].close == b[k].close
  {
    TileBlock(text, a, aEnd, k);
    TileBlock(text, b, bEnd, k);
    var from := 0;
    if k > 0 {
      TilesAgree(text, a, b, aEnd, bEnd, k - 1);
      TileBehind(text, a, aEnd, k);
      TileBehind(text, b, bEnd, k);
      from := a[k - 1].TextStart();
    }
    OneNextHeader(text, from, a[k], b[k]);
  }

  /** There is no header between two blocks. */
  lemma TileBehind(text: string, blocks: seq<Block>, end: nat, k: nat)
    requires Tile(text, blocks, end) && 0 < k < |blocks|
    ensures blocks[k - 1].TextStart() <= blocks[k].start && NoHeader(text, blocks[k - 1].TextStart(), blocks[k].start)
  {
    assert blocks[k - 1].textEnd == blocks[k].start;
    assert IsBlock(text, blocks[k - 1]);
  }

  /** No tiling goes on behind a place where the scan stops. */
  lemma NoneFurther(text: string, a: seq<Block>, b: seq<Block>, aEnd: nat, bEnd: nat, last: Header)
    requires Tile(text, a, aEnd) && Tile(text, b, bEnd) && StopsAt(text, aEnd, last)
    ensures bEnd <= aEnd
  {
    if aEnd < bEnd {
      var k := EveryHeaderFound(text, b, bEnd, aEnd);
      TileBlock(text, b, bEnd, k);
      NoBlockAtStop(text, b[k], aEnd, last);
      var l := EveryHeaderFound(text, a, aEnd, b[k].start);
      if l < k {
        TilesAgree(text, a, b, aEnd, bEnd, l);
        TileOrdered(text, b, bEnd, l, k);
      } else {
        TilesAgree(text, a, b, aEnd, bEnd, k);
        TileBlock(text, a, aEnd, k);
      }
      assert false;
    }
  }

  /** A block does not start where the scan stops. */
  lemma NoBlockAtStop(text: string, b: Block, end: nat, last: Header)
    requires IsBlock(text, b) && StopsAt(text, end, last)
    ensures b.start != end
  {
    forall titleEnd: nat, close: nat | IsHeader(text, b.start, titleEnd, close)
      ensures close + 2 < |text|
    {
      OneClose(text, b.start, titleEnd, close, b.titleEnd, b.close);
    }
  }

  /** The scan can stop at one place only, and in one way. */
  lemma OneStop(text: string, a: seq<Block>, b: seq<Block>, aEnd: nat, bEnd: nat, last: Header, last': Header)
    requires Tile(text, a, aEnd) && Tile(text, b, bEnd) && StopsAt(text, aEnd, last) && StopsAt(text, bEnd, last')
    ensures aEnd == bEnd && last == last'
  {
    NoneFurther(text, a, b, aEnd, bEnd, last);
    NoneFurther(text, b, a, bEnd, aEnd, last');
  }

  lemma OnlyStop(text: string, blocks: seq<Block>, end: nat, last: Header)
    requires Tile(text, blocks, end) && StopsAt(text, end, last)
    ensures forall other :: StopReached(text, other) <==> other == last
  {
    forall other | StopReached(text, other)
      ensures other == last
    {
      var b: seq<Block>, bEnd: nat :| Tile(text, b, bEnd) && StopsAt(text, bEnd, other);
      OneStop(text, blocks, b, end, bEnd, last, other);
    }
  }

  /**
   The block scan of ParseProgramSource. `end` is where it stops: the end of the text, or the first
   header it comes to that is not closed, holds no title, or is closed by the end of the text.
   */
  method ScanBlocks(text: string) returns (blocks: seq<Block>, end: nat, last: Header)
    ensures Tile(text, blocks, end) && Counted(text, blocks) && StopsAt(text, end, last)
    ensures forall other :: StopReached(text, other) <==> other == last
  {
    blocks := [];
    var i, line: nat := 0, 1;
    while i < |text|
      invariant Scanning(text, blocks, i, line)
      decreases |text| - i
    {
      if HeaderAt(text, i) {
        var next, i', line', header := TakeHeader(text, blocks, i, line);
        if !header.Closed? {
          ScanDone(text, blocks, i, line);
          OnlyStop(text, Patched(blocks, i), i, header);
          return Patched(blocks, i), i, header;
        }
        blocks, i, line := next, i', line';
        continue;
      }
      ScanOver(text, blocks, i, line);
      if text[i] == '\n' {
        line := line + 1;
      }
      i := i + 1;
    }
    ScanDone(text, blocks, i, line);
    OnlyStop(text, Patched(blocks, i), i, Closed);
    return Patched(blocks, i), i, Closed;
  }

  /** All first lines are right exactly if every block's header ends its line. */
  lemma {:induction false} UnendedZeroIff(text: string, blocks: seq<Block>, n: nat)
    requires n <= |blocks|
    ensures Unended(text, blocks, n) == 0 <==> forall k :: 0 <= k < n ==> EndsLine(text, blocks[k].close)
  {
    if n > 0 {
      UnendedZeroIff(text, blocks, n - 1);
    }
  }

  ghost predicate FirstLinesRight(text: string, blocks: seq<Block>) {
    forall k :: 0 <= k < |blocks| ==>
      blocks[k].TextStart() <= |text| && blocks[k].firstLine == 1 + Newlines(text, blocks[k].TextStart())
  }

  lemma LinesRightIfEnded(text: string, blocks: seq<Block>)
    requires Tile(text, blocks, |text|) && Counted(text, blocks) && HeadersEndLines(text)
    ensures FirstLinesRight(text, blocks)
  {
    forall l | 0 <= l < |blocks|
      ensures EndsLine(text, blocks[l].close)
    {
      TileBlock(text, blocks, |text|, l);
    }
    forall k | 0 <= k < |blocks|
      ensures blocks[k].TextStart() <= |text| && blocks[k].firstLine == 1 + Newlines(text, blocks[k].TextStart())
    {
      assert CountedAt(text, blocks, k);
      UnendedZeroIff(text, blocks, k + 1);
    }
  }

  lemma EndedIfLinesRight(text: string, blocks: seq<Block>, start: nat, titleEnd: nat, close: nat)
    requires Tile(text, blocks, |text|) && Counted(text, blocks) && FirstLinesRight(text, blocks)
    requires IsHeader(text, start, titleEnd, close)
    ensures EndsLine(text, close)
  {
    var k := EveryHeaderFound(text, blocks, |text|, start);
    assert CountedAt(text, blocks, k);
    UnendedZeroIff(text, blocks, k + 1);
    TileBlock(text, blocks, |text|, k);
    SameClose(text, blocks[k], start, titleEnd, close);
  }

  /** Of a text scanned to its end, the first lines are right exactly if every closed header ends its line. */
  lemma LinesRightIff(text: string, blocks: seq<Block>)
    requires Tile(text, blocks, |text|) && Counted(text, blocks)
    ensures FirstLinesRight(text, blocks) <==> HeadersEndLines(text)
  {
    if HeadersEndLines(text) {
      LinesRightIfEnded(text, blocks);
    }
    if FirstLinesRight(text, blocks) {
      forall start: nat, titleEnd: nat, close: nat | IsHeader(text, start, titleEnd, close)
        ensures EndsLine(text, close)
      {
        EndedIfLinesRight(text, blocks, start, titleEnd, close);
      }
    }
  }

  /** A header inside the header of a block that ends its line is closed where that one is. */
  lemma SameClose(text: string, b: Block, start: nat, titleEnd: nat, close: nat)
    requires IsBlock(text, b) && EndsLine(text, b.close)
    requires IsHeader(text, start, titleEnd, close) && b.start <= start < b.TextStart()
    ensures close == b.close
  {
    assert text[start] == '/' && text[start + 1] == '*' && text[start + 2] == '[';
    assert start + 3 <= b.close;
    assert close >= b.close || CloseAt(text, close);
  }

  /** A header with text behind it on its line: the block's first line is taken for the second. */
  method HeaderInLine() returns (blocks: seq<Block>)
    ensures blocks != [] && blocks[0].TextStart() == 8 && blocks[0].firstLine == 2 && Newlines("/*[A]*/x", 8) == 0
  {
    var text := "/*[A]*/x";
    assert HeaderAt(text, 0) && CloseAt(text, 5);
    assert !CloseAt(text, 3) && !CloseAt(text, 4) && !CloseAt(text, 6) && !CloseAt(text, 7);
    assert IsHeader(text, 0, 4, 5);
    assert forall p: nat :: p >= 1 ==> !HeaderAt(text, p);
    NoNewlines(text, 0, 8);
    var end, last;
    blocks, end, last := ScanBlocks(text);
    assert blocks != [];
    TileBlock(text, blocks, end, 0);
    assert blocks[0].start == 0 && blocks[0].close == 5;
    assert CountedAt(text, blocks, 0) && Unended(text, blocks, 1) == 1;
  }

  /** A text that ends with its header: the original goes on behind the end. */
  lemma HeaderEndsText()
    ensures StopReached("/*[A]*/", PastEnd)
  {
    var text := "/*[A]*/";
    assert !CloseAt(text, 3) && !CloseAt(text, 4) && CloseAt(text, 5);
    assert IsHeader(text, 0, 4, 5);
    assert Tile(text, [], 0) && StopsAt(text, 0, PastEnd);
  }
}
