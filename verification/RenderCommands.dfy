/**
 The command list between the two halves of the renderer. The front end writes commands, each padded
 to eight bytes, into a buffer of fixed size; the back end walks the buffer up to a terminator.
 */
module RenderCommands {
  import Arithmetic

  type Byte = Arithmetic.Byte

  const MAX_RENDER_COMMANDS := 0x40000
  const POINTER_SIZE := 8
  const ID_SIZE := 4

  const RC_END_OF_LIST := 0
  const RC_SET_COLOR := 1
  const RC_STRETCH_PIC := 2
  const RC_DRAW_SURFS := 3
  const RC_DRAW_BUFFER := 4
  const RC_SWAP_BUFFERS := 5
  const RC_SCREENSHOT := 6
  const RC_VIDEOFRAME := 7
  const RC_COLORMASK := 8
  const RC_CLEARDEPTH := 9
  const RC_CAPSHADOWMAP := 10
  const RC_POSTPROCESS := 11
  const RC_EXPORT_CUBEMAPS := 12

  /** A command: its id, and the bytes of its struct behind the id. */
  datatype Command = Command(id: nat, payload: seq<Byte>)

  const SWAP := Command(RC_SWAP_BUFFERS, [])

  /** The answer to a request for space: where it is, that there is none, or that there never can be. */
  datatype Space = At(offset: nat) | NoRoom | BadSize

  /** The size of each command's struct, by its id; the id comes first in every one of them. */
  type Sizes = sizes: seq<nat> | GoodSizes(sizes) witness seq(13, _ => 4)

  predicate GoodSizes(sizes: seq<nat>) {
    && |sizes| == 13
    && (forall id :: RC_SET_COLOR <= id <= RC_EXPORT_CUBEMAPS ==> sizes[id] >= ID_SIZE)
    && sizes[RC_SWAP_BUFFERS] == ID_SIZE
  }

  ghost predicate WellFormed(c: Command, sizes: Sizes) {
    RC_SET_COLOR <= c.id <= RC_EXPORT_CUBEMAPS && |c.payload| == sizes[c.id] - ID_SIZE
  }

  // ---------------------------------------------------------------- padding

  /** n rounded up to a multiple of a pointer's size. */
  function Pad(n: nat): (r: nat)
    ensures n <= r < n + POINTER_SIZE
  {
    if n == 0 then 0 else if n <= POINTER_SIZE then POINTER_SIZE else POINTER_SIZE + Pad(n - POINTER_SIZE)
  }

  predicate Aligned(n: nat) {
    Pad(n) == n
  }

  lemma NextAligned(end: nat, size: nat)
    requires Aligned(end)
    ensures Aligned(end + Pad(size))
  {
    PadIsAligned(size);
    SumAligned(end, Pad(size));
  }

  type AlignedAddress = n: nat | Aligned(n) witness 0

  /** What the original's PAD computes: it adds a pointer's size less one, and clears the low bits. */
  lemma {:induction false} PadClearsLowBits(n: nat)
    ensures Pad(n) == n + POINTER_SIZE - 1 - (n + POINTER_SIZE - 1) % POINTER_SIZE
  {
    if n > POINTER_SIZE {
      PadClearsLowBits(n - POINTER_SIZE);
    }
  }

  lemma {:induction false} PadIsAligned(n: nat)
    ensures Aligned(Pad(n))
  {
    if n > POINTER_SIZE {
      PadIsAligned(n - POINTER_SIZE);
    }
  }

  /** From an aligned base, aligning an address and aligning the offset are the same. */
  lemma {:induction false} PadFromBase(base: nat, offset: nat)
    requires Aligned(base)
    ensures Pad(base + offset) - base == Pad(offset)
  {
    if base > POINTER_SIZE {
      PadFromBase(base - POINTER_SIZE, offset);
    }
  }

  lemma SumAligned(a: nat, b: nat)
    requires Aligned(a) && Aligned(b)
    ensures Aligned(a + b)
  {
    PadFromBase(a, b);
  }

  // ---------------------------------------------------------------- bytes

  function IdBytes(id: nat): (bytes: seq<Byte>)
    requires id < 256
    ensures |bytes| == ID_SIZE
  {
    [id, 0, 0, 0]
  }

  /** The little-endian number of four bytes. */
  function IdAt(buf: seq<Byte>, p: nat): nat
    requires p + ID_SIZE <= |buf|
  {
    var b0: nat, b1: nat, b2: nat, b3: nat := buf[p], buf[p + 1], buf[p + 2], buf[p + 3];
    b0 + 256 * (b1 + 256 * (b2 + 256 * b3))
  }

  function Bytes(c: Command): seq<Byte>
    requires c.id < 256
  {
    IdBytes(c.id) + c.payload
  }

  /** Between p and end the buffer holds the commands, each padded to the next multiple of eight. */
  ghost predicate Holds(buf: seq<Byte>, p: nat, list: seq<Command>, end: nat, sizes: Sizes)
    decreases list
  {
    if list == [] then p == end
    else
      var next := p + Pad(ID_SIZE + |list[0].payload|);
      && WellFormed(list[0], sizes) && Aligned(p) && next <= end <= |buf|
      && buf[p..p + sizes[list[0].id]] == Bytes(list[0])
      && Holds(buf, next, list[1..], end, sizes)
  }

  lemma SliceInPrefix<T>(s: seq<T>, t: seq<T>, p: nat, q: nat, end: nat)
    requires p <= q <= end <= |s| && end <= |t| && s[..end] == t[..end]
    ensures s[p..q] == t[p..q]
  {
    forall i | 0 <= i < q - p
      ensures s[p..q][i] == t[p..q][i]
    {
      assert s[..end][p + i] == t[..end][p + i];
    }
  }

  /** Only the bytes before the end matter. */
  lemma {:induction false} HoldsInPrefix(buf: seq<Byte>, buf': seq<Byte>, p: nat, list: seq<Command>, end: nat, sizes: Sizes)
    requires Holds(buf, p, list, end, sizes) && p <= end <= |buf| && end <= |buf'| && buf[..end] == buf'[..end]
    ensures Holds(buf', p, list, end, sizes)
    decreases list
  {
    if list != [] {
      var q := p + sizes[list[0].id];
      assert sizes[list[0].id] == ID_SIZE + |list[0].payload| && q <= p + Pad(ID_SIZE + |list[0].payload|) <= end;
      SliceInPrefix(buf, buf', p, q, end);
      HoldsInPrefix(buf, buf', p + Pad(ID_SIZE + |list[0].payload|), list[1..], end, sizes);
    }
  }

  /** A command in front of those held behind it. */
  lemma HoldsFirst(buf: seq<Byte>, p: nat, all: seq<Command>, rest: seq<Command>, end: nat, sizes: Sizes)
    requires all != [] && all[1..] == rest && WellFormed(all[0], sizes) && Aligned(p)
    requires p + Pad(ID_SIZE + |all[0].payload|) <= end <= |buf| && buf[p..p + sizes[all[0].id]] == Bytes(all[0])
    requires Holds(buf, p + Pad(ID_SIZE + |all[0].payload|), rest, end, sizes)
    ensures Holds(buf, p, all, end, sizes)
  {
  }

  /** One more command behind the others. */
  lemma {:induction false} HoldsAppend(buf: seq<Byte>, p: nat, list: seq<Command>, end: nat, c: Command, end': nat, sizes: Sizes)
    requires Holds(buf, p, list, end, sizes) && p <= end && Aligned(end)
    requires WellFormed(c, sizes) && end' == end + Pad(sizes[c.id]) <= |buf| && buf[end..end + sizes[c.id]] == Bytes(c)
    ensures Holds(buf, p, list + [c], end', sizes)
    decreases list
  {
    if list == [] {
      assert list + [c] == [c];
      HoldsOne(buf, p, c, end', sizes);
      return;
    }
    var next, rest := p + Pad(ID_SIZE + |list[0].payload|), list[1..];
    HoldsAppend(buf, next, rest, end, c, end', sizes);
    HoldsMore(buf, p, list, next, rest, c, end, end', sizes);
  }

  lemma HoldsOne(buf: seq<Byte>, p: nat, c: Command, end: nat, sizes: Sizes)
    requires WellFormed(c, sizes) && Aligned(p) && end == p + Pad(sizes[c.id]) <= |buf| && buf[p..p + sizes[c.id]] == Bytes(c)
    ensures Holds(buf, p, [c], end, sizes)
  {
    HoldsFirst(buf, p, [c], [], end, sizes);
  }

  lemma HoldsMore(buf: seq<Byte>, p: nat, list: seq<Command>, next: nat, rest: seq<Command>, c: Command, end: nat, end': nat, sizes: Sizes)
    requires list != [] && next == p + Pad(ID_SIZE + |list[0].payload|) && rest == list[1..]
    requires Holds(buf, p, list, end, sizes) && end <= end' <= |buf| && Holds(buf, next, rest + [c], end', sizes)
    ensures Holds(buf, p, list + [c], end', sizes)
  {
    FirstAndRest(list, c);
    HoldsFirst(buf, p, list + [c], rest + [c], end', sizes);
  }

  lemma FirstAndRest<T>(list: seq<T>, c: T)
    requires list != []
    ensures (list + [c])[0] == list[0] && (list + [c])[1..] == list[1..] + [c]
  {
  }

  /** Writing a command behind the others. */
  lemma HoldsWritten(was: seq<Byte>, now: seq<Byte>, list: seq<Command>, end: nat, c: Command, sizes: Sizes)
    requires Holds(was, 0, list, end, sizes) && Aligned(end)
    requires WellFormed(c, sizes) && end + Pad(sizes[c.id]) <= |was| == |now|
    requires now[..end] == was[..end] && now[end..end + sizes[c.id]] == Bytes(c)
    ensures Holds(now, 0, list + [c], end + Pad(sizes[c.id]), sizes)
  {
    HoldsInPrefix(was, now, 0, list, end, sizes);
    HoldsAppend(now, 0, list, end, c, end + Pad(sizes[c.id]), sizes);
  }

  /** What a reader finds at p, and where it has to go on. */
  lemma HoldsNext(buf: seq<Byte>, p: nat, rest: seq<Command>, end: nat, sizes: Sizes)
    requires Holds(buf, p, rest, end, sizes) && rest != []
    ensures p + ID_SIZE <= p + sizes[rest[0].id] <= |buf| && IdAt(buf, p) == rest[0].id
    ensures RC_SET_COLOR <= rest[0].id <= RC_EXPORT_CUBEMAPS
    ensures Command(rest[0].id, buf[p + ID_SIZE..p + sizes[rest[0].id]]) == rest[0]
    ensures Pad(p + sizes[rest[0].id]) <= end && Holds(buf, Pad(p + sizes[rest[0].id]), rest[1..], end, sizes)
  {
    var c := rest[0];
    var q := p + sizes[c.id];
    PadFromBase(p, sizes[c.id]);
    assert q == p + ID_SIZE + |c.payload| && q <= |buf|;
    IdOfBytes(buf, p, q, c);
  }

  lemma IdOfBytes(buf: seq<Byte>, p: nat, q: nat, c: Command)
    requires c.id < 256 && p <= q <= |buf| && buf[p..q] == Bytes(c)
    ensures p + ID_SIZE <= q && IdAt(buf, p) == c.id && buf[p + ID_SIZE..q] == c.payload
  {
    var w := buf[p..q];
    assert w[0] == buf[p] && w[1] == buf[p + 1] && w[2] == buf[p + 2] && w[3] == buf[p + 3];
    assert buf[p + ID_SIZE..q] == w[ID_SIZE..];
  }

  // ---------------------------------------------------------------- what the back end finds in any buffer

  /** The commands met on a walk through a buffer, and whether it ended inside the buffer. */
  datatype Walked = Walked(commands: seq<Command>, inside: bool)

  predicate IsCommand(id: nat) {
    RC_SET_COLOR <= id <= RC_EXPORT_CUBEMAPS
  }

  lemma CommandIds(id: nat)
    ensures IsCommand(id) <==> 1 <= id <= 12
    ensures RC_END_OF_LIST == 0 && RC_DRAW_BUFFER == 4 && RC_SWAP_BUFFERS == 5 && RC_COLORMASK == 8
  {
  }

  /** The walk from the aligned place p, whatever the bytes are; it stops at the first id of no command. */
  function Walk(buf: seq<Byte>, p: nat, sizes: Sizes): Walked
    decreases |buf| - p
  {
    if p + ID_SIZE > |buf| then Walked([], false)
    else
      var id := IdAt(buf, p);
      if !IsCommand(id) then Walked([], true)
      else if p + sizes[id] > |buf| then Walked([], false)
      else
        var rest := Walk(buf, Pad(p + sizes[id]), sizes);
        Walked([Command(id, buf[p + ID_SIZE..p + sizes[id]])] + rest.commands, rest.inside)
  }

  /** `all` are the given commands and those of a walk. */
  ghost predicate Met(all: Walked, list: seq<Command>, rest: Walked) {
    all.commands == list + rest.commands && all.inside == rest.inside
  }

  /** Appends the next command met. */
  method MetMore(list: seq<Command>, c: Command, ghost all: Walked, ghost middle: Walked, ghost rest: Walked) returns (more: seq<Command>)
    requires Met(all, list, middle) && Met(middle, [c], rest)
    ensures more == list + [c] && Met(all, more, rest)
  {
    more := list + [c];
  }

  lemma WalkOne(buf: seq<Byte>, p: nat, sizes: Sizes, c: Command)
    requires IsCommand(c.id) && p + ID_SIZE <= p + sizes[c.id] <= |buf|
    requires IdAt(buf, p) == c.id && Command(c.id, buf[p + ID_SIZE..p + sizes[c.id]]) == c
    ensures Met(Walk(buf, p, sizes), [c], Walk(buf, Pad(p + sizes[c.id]), sizes))
  {
  }

  lemma MetOne(all: Walked, middle: Walked, rest: Walked, list: seq<Command>)
    requires list != [] && Met(middle, list[1..], rest) && Met(all, [list[0]], middle)
    ensures Met(all, list, rest)
  {
    assert list == [list[0]] + list[1..];
  }

  /** Where a walk stops. */
  lemma WalkStops(buf: seq<Byte>, p: nat, sizes: Sizes)
    ensures p + ID_SIZE > |buf| ==> Walk(buf, p, sizes) == Walked([], false)
    ensures p + ID_SIZE <= |buf| && !IsCommand(IdAt(buf, p)) ==> Walk(buf, p, sizes) == Walked([], true)
    ensures p + ID_SIZE <= |buf| && IsCommand(IdAt(buf, p)) && p + sizes[IdAt(buf, p)] > |buf| ==>
              Walk(buf, p, sizes) == Walked([], false)
  {
  }

  lemma WalkOver(buf: seq<Byte>, p: nat, list: seq<Command>, sizes: Sizes, rest: Walked)
    requires list != [] && IsCommand(list[0].id) && p + ID_SIZE <= p + sizes[list[0].id] <= |buf|
    requires IdAt(buf, p) == list[0].id && Command(list[0].id, buf[p + ID_SIZE..p + sizes[list[0].id]]) == list[0]
    requires Met(Walk(buf, Pad(p + sizes[list[0].id]), sizes), list[1..], rest)
    ensures Met(Walk(buf, p, sizes), list, rest)
  {
    WalkOne(buf, p, sizes, list[0]);
    MetOne(Walk(buf, p, sizes), Walk(buf, Pad(p + sizes[list[0].id]), sizes), rest, list);
  }

  /** Commands that are held are met in order, and then whatever lies behind them. */
  lemma {:induction false} HoldsWalk(buf: seq<Byte>, p: nat, list: seq<Command>, end: nat, sizes: Sizes)
    requires Holds(buf, p, list, end, sizes)
    ensures Met(Walk(buf, p, sizes), list, Walk(buf, end, sizes))
    decreases list
  {
    if list != [] {
      HoldsNext(buf, p, list, end, sizes);
      HoldsWalk(buf, Pad(p + sizes[list[0].id]), list[1..], end, sizes);
      WalkOver(buf, p, list, sizes, Walk(buf, end, sizes));
    }
  }

  /** The buffer `now` is `was` up to end, and ends a list there. */
  ghost predicate Ended(was: seq<Byte>, now: seq<Byte>, end: nat) {
    end + ID_SIZE <= |was| == |now| && now[..end] == was[..end] && now[end..end + ID_SIZE] == IdBytes(RC_END_OF_LIST)
  }

  lemma TerminatorStops(was: seq<Byte>, now: seq<Byte>, end: nat, sizes: Sizes)
    requires Ended(was, now, end)
    ensures Walk(now, end, sizes) == Walked([], true)
  {
    var w := now[end..end + ID_SIZE];
    assert w[0] == now[end] && w[1] == now[end + 1] && w[2] == now[end + 2] && w[3] == now[end + 3];
  }

  /** Walking a list that has been ended meets just the list. */
  lemma EndedWalk(was: seq<Byte>, now: seq<Byte>, list: seq<Command>, end: nat, sizes: Sizes)
    requires Holds(was, 0, list, end, sizes) && Ended(was, now, end)
    ensures Walk(now, 0, sizes) == Walked(list, true)
  {
    HoldsInPrefix(was, now, 0, list, end, sizes);
    HoldsWalk(now, 0, list, end, sizes);
    TerminatorStops(was, now, end, sizes);
  }

  lemma KeptBelow(was: seq<Byte>, written: seq<Byte>, now: seq<Byte>, used: nat)
    requires used + Pad(ID_SIZE) <= |was| == |written| && written[..used] == was[..used]
    requires Ended(written, now, used + Pad(ID_SIZE))
    ensures now[..used] == was[..used]
  {
    SliceInPrefix(written, now, 0, used, used + Pad(ID_SIZE));
    assert now[..used] == now[0..used] && written[..used] == written[0..used];
  }

  /** A list followed by space that was never written: what is met there are the bytes left from before. */
  lemma TornWalk(was: seq<Byte>, now: seq<Byte>, list: seq<Command>, end: nat, used: nat, sizes: Sizes)
    requires Holds(was, 0, list, end, sizes) && end + ID_SIZE <= used <= |was| == |now| && now[..used] == was[..used]
    ensures Walk(now, 0, sizes).commands == list + Walk(now, end, sizes).commands
    ensures IdAt(now, end) == IdAt(was, end)
    ensures !IsCommand(IdAt(was, end)) ==> Walk(now, 0, sizes) == Walked(list, true)
  {
    SliceInPrefix(was, now, 0, end, used);
    assert was[..end] == was[0..end] && now[..end] == now[0..end];
    HoldsInPrefix(was, now, 0, list, end, sizes);
    HoldsWalk(now, 0, list, end, sizes);
    assert forall i :: 0 <= i < used ==> was[..used][i] == was[i] && now[..used][i] == now[i];
    assert list + [] == list;
  }

  /** The buffer `written` is `was` with a swap of buffers written at `used`, and `now` ends the list there. */
  ghost predicate SwapWritten(was: seq<Byte>, written: seq<Byte>, now: seq<Byte>, used: nat) {
    && used + Pad(ID_SIZE) + ID_SIZE <= |was| == |written|
    && written[..used] == was[..used] && written[used..used + ID_SIZE] == Bytes(SWAP)
    && Ended(written, now, used + Pad(ID_SIZE))
  }

  lemma SwapFound(was: seq<Byte>, written: seq<Byte>, now: seq<Byte>, list: seq<Command>, used: nat, sizes: Sizes)
    requires SwapWritten(was, written, now, used) && Aligned(used) && Holds(was, 0, list, used, sizes)
    ensures Walk(now, 0, sizes) == Walked(list + [SWAP], true)
  {
    HoldsWritten(was, written, list, used, SWAP, sizes);
    EndedWalk(written, now, list + [SWAP], used + Pad(ID_SIZE), sizes);
  }

  lemma SwapLost(was: seq<Byte>, written: seq<Byte>, now: seq<Byte>, list: seq<Command>, used: nat, sizes: Sizes)
    requires SwapWritten(was, written, now, used) && Total(list) + ID_SIZE <= used && Holds(was, 0, list, Total(list), sizes)
    ensures Walk(now, 0, sizes).commands == list + Walk(now, Total(list), sizes).commands
    ensures IdAt(now, Total(list)) == IdAt(was, Total(list))
    ensures !IsCommand(IdAt(was, Total(list))) ==> Walk(now, 0, sizes) == Walked(list, true)
  {
    KeptBelow(was, written, now, used);
    TornWalk(was, now, list, Total(list), used, sizes);
  }

  // ---------------------------------------------------------------- which requests get room

  /** Whether a command still fits, with room kept for the swap of buffers and for the terminator. */
  predicate HasRoom(used: nat, size: nat) {
    used + Pad(size) + ID_SIZE + Pad(ID_SIZE) <= MAX_RENDER_COMMANDS
  }

  /** The space the commands take. */
  function Total(list: seq<Command>): nat {
    if list == [] then 0 else Total(list[..|list| - 1]) + Pad(ID_SIZE + |list[|list| - 1].payload|)
  }

  /** Of a run of requests, those that get room: a request is dropped when it does not fit by itself. */
  function Accepted(requests: seq<Command>): seq<Command> {
    if requests == [] then []
    else
      var before, c := Accepted(requests[..|requests| - 1]), requests[|requests| - 1];
      if HasRoom(Total(before), ID_SIZE + |c.payload|) then before + [c] else before
  }

  lemma AcceptedNext(requests: seq<Command>, c: Command)
    ensures Accepted(requests + [c])
         == Accepted(requests) + if HasRoom(Total(Accepted(requests)), ID_SIZE + |c.payload|) then [c] else []
  {
    assert (requests + [c])[..|requests|] == requests;
  }

  lemma TotalNext(list: seq<Command>, c: Command)
    ensures Total(list + [c]) == Total(list) + Pad(ID_SIZE + |c.payload|)
  {
    assert (list + [c])[..|list|] == list;
  }

  /** In bytes: the request in units of eight, four for the terminator and eight for the swap of buffers. */
  lemma RoomInBytes(used: nat, size: nat)
    ensures HasRoom(used, size) <==> used + (size + 7) / 8 * 8 + 4 + 8 <= 262144
  {
    PadClearsLowBits(size);
    PadClearsLowBits(ID_SIZE);
  }

  /** The list is what got room of what was requested, and takes what is used. */
  ghost predicate Books(requests: seq<Command>, pending: seq<Command>, used: nat) {
    pending == Accepted(requests) && used == Total(pending)
  }

  /** A request that gets room. */
  lemma BooksNext(requests: seq<Command>, pending: seq<Command>, used: nat, c: Command)
    requires Books(requests, pending, used) && HasRoom(used, ID_SIZE + |c.payload|)
    ensures Books(requests + [c], pending + [c], used + Pad(ID_SIZE + |c.payload|))
  {
    AcceptedNext(requests, c);
    TotalNext(pending, c);
  }

  /** A request that is dropped. */
  lemma BooksDrop(requests: seq<Command>, pending: seq<Command>, used: nat, c: Command)
    requires Books(requests, pending, used) && !HasRoom(used, ID_SIZE + |c.payload|)
    ensures Books(requests + [c], pending, used)
  {
    AcceptedNext(requests, c);
  }

  lemma BooksTwice(requests: seq<Command>, pending: seq<Command>, used: nat, c: Command, d: Command)
    requires Books(requests, pending, used)
    requires HasRoom(used, ID_SIZE + |c.payload|) && HasRoom(used + Pad(ID_SIZE + |c.payload|), ID_SIZE + |d.payload|)
    ensures Books(requests + [c] + [d], pending + [c] + [d], used + Pad(ID_SIZE + |c.payload|) + Pad(ID_SIZE + |d.payload|))
  {
    BooksNext(requests, pending, used, c);
    BooksNext(requests + [c], pending + [c], used + Pad(ID_SIZE + |c.payload|), d);
  }

  /** No run of requests eats into the room kept for the swap of buffers and the terminator. */
  lemma {:induction false} AlwaysRoomToSwap(requests: seq<Command>)
    ensures Total(Accepted(requests)) + Pad(ID_SIZE) + ID_SIZE <= MAX_RENDER_COMMANDS
  {
    if requests != [] {
      AlwaysRoomToSwap(requests[..|requests| - 1]);
      TotalNext(Accepted(requests[..|requests| - 1]), requests[|requests| - 1]);
    }
  }

  /** Requests that fit together are all accepted, and only those. */
  lemma {:induction false} AllAcceptedIffFit(requests: seq<Command>)
    ensures Accepted(requests) == requests <==> Total(requests) + Pad(ID_SIZE) + ID_SIZE <= MAX_RENDER_COMMANDS
    ensures |Accepted(requests)| <= |requests|
  {
    if requests == [] {
      return;
    }
    var before, c := requests[..|requests| - 1], requests[|requests| - 1];
    assert requests == before + [c];
    AllAcceptedIffFit(before);
    TotalNext(before, c);
    AcceptedNext(before, c);
    if Accepted(requests) == requests {
      assert Accepted(before) == before;
    }
  }

  // ---------------------------------------------------------------- the list

  class RenderCommandList {
    const sizes: Sizes
    const cmds: array<Byte>
    /** The address of the first byte of cmds. */
    const base: AlignedAddress
    var used: nat
    /** What has been requested since the list was last issued. */
    ghost var requests: seq<Command>
    /** What of it got room. */
    ghost var pending: seq<Command>

    ghost predicate Valid()
      reads this, cmds
    {
      Accounted() && Contains(pending, used)
    }

    constructor (sizes: Sizes, base: AlignedAddress)
      ensures Valid() && requests == [] && this.sizes == sizes && this.base == base && fresh(cmds)
      ensures ZeroFrom(0)
    {
      this.sizes, this.base := sizes, base;
      cmds := new Byte[MAX_RENDER_COMMANDS](_ => 0);
      used, requests, pending := 0, [], [];
    }

    /** The bytes from p on are those of memory never written. */
    ghost predicate ZeroFrom(p: nat)
      reads cmds
    {
      forall k :: p <= k < cmds.Length ==> cmds[k] == 0
    }

    /** The buffer holds the list, and behind it space that was taken but not written. */
    ghost predicate Torn()
      reads this, cmds
    {
      && Contains(pending, Total(pending)) && Total(pending) + ID_SIZE <= used
      && used + Pad(ID_SIZE) + ID_SIZE <= MAX_RENDER_COMMANDS
    }

    /** The books are right: the list is what got room of what was requested, and takes what is used. */
    ghost predicate Accounted()
      reads this
    {
      Books(requests, pending, used)
    }

    ghost predicate Contains(list: seq<Command>, end: nat)
      reads cmds
    {
      cmds.Length == MAX_RENDER_COMMANDS && Aligned(end) && Holds(cmds[..], 0, list, end, sizes)
    }

    /** R_GetCommandBufferReserved: there is space exactly if it, the reserve and a terminator fit. */
    method GetCommandBufferReserved(bytes: nat, reserved: nat) returns (space: Space)
      modifies this`used
      ensures
        if old(used) + Pad(bytes) + ID_SIZE + reserved <= MAX_RENDER_COMMANDS then
          space == At(old(used)) && used == old(used) + Pad(bytes)
        else
          used == old(used) && space == if Pad(bytes) + ID_SIZE > MAX_RENDER_COMMANDS then BadSize else NoRoom
    {
      var padded := Pad(bytes);
      if used + padded + ID_SIZE + reserved > MAX_RENDER_COMMANDS {
        if padded > MAX_RENDER_COMMANDS - ID_SIZE {
          return BadSize;
        }
        return NoRoom;
      }
      used := used + padded;
      return At(used - padded);
    }

    method GetCommandBuffer(bytes: nat) returns (space: Space)
      modifies this`used
      ensures
        if HasRoom(old(used), bytes) then space == At(old(used)) && used == old(used) + Pad(bytes)
        else used == old(used) && space == if Pad(bytes) + ID_SIZE > MAX_RENDER_COMMANDS then BadSize else NoRoom
    {
      space := GetCommandBufferReserved(bytes, Pad(ID_SIZE));
    }

    /** Fills a command's struct in place. */
    method WriteCommand(offset: nat, c: Command)
      requires c.id < 256 && offset + ID_SIZE + |c.payload| <= cmds.Length
      modifies cmds
      ensures cmds[..offset] == old(cmds[..offset])
      ensures cmds[offset..offset + ID_SIZE + |c.payload|] == Bytes(c)
      ensures old(ZeroFrom(offset)) ==> ZeroFrom(offset + ID_SIZE + |c.payload|)
    {
      WriteId(offset, c.id);
      for i := 0 to |c.payload|
        invariant cmds[..offset] == old(cmds[..offset])
        invariant cmds[offset..offset + ID_SIZE + i] == IdBytes(c.id) + c.payload[..i]
        invariant forall k :: offset + ID_SIZE + i <= k < cmds.Length ==> cmds[k] == old(cmds[k])
      {
        cmds[offset + ID_SIZE + i] := c.payload[i];
        assert cmds[offset..offset + ID_SIZE + i + 1] == cmds[offset..offset + ID_SIZE + i] + [c.payload[i]];
      }
      assert c.payload[..|c.payload|] == c.payload;
    }

    method WriteId(offset: nat, id: nat)
      requires id < 256 && offset + ID_SIZE <= cmds.Length
      modifies cmds
      ensures cmds[..offset] == old(cmds[..offset]) && cmds[offset..offset + ID_SIZE] == IdBytes(id)
      ensures forall k :: offset + ID_SIZE <= k < cmds.Length ==> cmds[k] == old(cmds[k])
    {
      cmds[offset], cmds[offset + 1], cmds[offset + 2], cmds[offset + 3] := id, 0, 0, 0;
    }

    /** Takes space for a command, and enters it in the books. */
    method Request(c: Command) returns (space: Space)
      requires Accounted()
      modifies this`used, this`requests, this`pending
      ensures Accounted() && requests == old(requests) + [c]
      ensures
        var size := ID_SIZE + |c.payload|;
        if HasRoom(old(used), size) then
          space == At(old(used)) && pending == old(pending) + [c] && used == old(used) + Pad(size)
        else
          && pending == old(pending) && used == old(used)
          && space == if Pad(size) + ID_SIZE > MAX_RENDER_COMMANDS then BadSize else NoRoom
    {
      ghost var end := used;
      space := GetCommandBuffer(ID_SIZE + |c.payload|);
      if space.At? {
        BooksNext(requests, pending, end, c);
        requests, pending := requests + [c], pending + [c];
        return;
      }
      BooksDrop(requests, pending, end, c);
      requests := requests + [c];
    }

    /** The writers: a command goes into the list if there is room, and is dropped otherwise. */
    method AddCommand(c: Command) returns (space: Space)
      requires Valid() && WellFormed(c, sizes)
      modifies this`used, this`requests, this`pending, cmds
      ensures Valid() && requests == old(requests) + [c]
      ensures space.At? <==> HasRoom(old(used), sizes[c.id])
      ensures space.BadSize? <==> Pad(sizes[c.id]) + ID_SIZE > MAX_RENDER_COMMANDS
      ensures old(ZeroFrom(used)) ==> ZeroFrom(used)
    {
      ghost var list := pending;
      space := Request(c);
      if !space.At? {
        return;
      }
      Append(space.offset, c, list);
    }

    /** Writes a command into the space just taken for it. */
    method Append(offset: nat, c: Command, ghost list: seq<Command>)
      requires WellFormed(c, sizes) && Contains(list, offset) && offset + Pad(sizes[c.id]) <= MAX_RENDER_COMMANDS
      modifies cmds
      ensures Contains(list + [c], offset + Pad(sizes[c.id]))
      ensures old(ZeroFrom(offset)) ==> ZeroFrom(offset + Pad(sizes[c.id]))
    {
      WriteCommand(offset, c);
      HoldsWritten(old(cmds[..]), cmds[..], list, offset, c, sizes);
      NextAligned(offset, sizes[c.id]);
    }

    /**
     RB_ExecuteRenderCommands: runs through the commands, and stops at the terminator. What it would
     find behind the end of the buffer is not part of this model; `inside` says that it got there.
     */
    method ExecuteRenderCommands() returns (executed: seq<Command>, inside: bool)
      ensures Walked(executed, inside) == Walk(cmds[..], 0, sizes)
    {
      executed := [];
      var data: nat := 0;
      while true
        invariant Met(Walk(cmds[..], 0, sizes), executed, Walk(cmds[..], Pad(data), sizes))
        decreases cmds.Length + POINTER_SIZE - data
      {
        ghost var middle := Walk(cmds[..], Pad(data), sizes);
        var stop, c;
        stop, inside, c, data := Dispatch(data);
        if stop {
          return;
        }
        executed := MetMore(executed, c, Walk(cmds[..], 0, sizes), middle, Walk(cmds[..], Pad(data), sizes));
      }
    }

    /** One turn of the loop: aligns the cursor, and takes the command there, if there is one. */
    method Dispatch(data: nat) returns (stop: bool, inside: bool, c: Command, next: nat)
      ensures stop ==> Walk(cmds[..], Pad(data), sizes) == Walked([], inside)
      ensures !stop ==>
                && data < next <= cmds.Length
                && Met(Walk(cmds[..], Pad(data), sizes), [c], Walk(cmds[..], Pad(next), sizes))
    {
      stop, c, next := true, SWAP, data;
      var p := AlignedBehind(data);
      WalkStops(cmds[..], p, sizes);
      if p + ID_SIZE > cmds.Length {
        inside := false;
        return;
      }
      var id := IdAt(cmds[..], p);
      if !IsCommand(id) {
        inside := true;
        return;
      }
      if p + sizes[id] > cmds.Length {
        inside := false;
        return;
      }
      stop, inside := false, true;
      c, next := TakeCommand(id, p);
    }

    /** Reads the command at p. */
    method TakeCommand(id: nat, p: nat) returns (c: Command, next: nat)
      requires p + ID_SIZE <= cmds.Length && id == IdAt(cmds[..], p) && IsCommand(id) && p + sizes[id] <= cmds.Length
      ensures p < next <= cmds.Length && Met(Walk(cmds[..], p, sizes), [c], Walk(cmds[..], Pad(next), sizes))
    {
      c, next := Command(id, cmds[p + ID_SIZE..p + sizes[id]]), p + sizes[id];
      assert cmds[..][p + ID_SIZE..p + sizes[id]] == c.payload;
      WalkOne(cmds[..], p, sizes, c);
    }

    /** The offset of the next aligned address. */
    method AlignedBehind(offset: nat) returns (aligned: nat)
      ensures aligned == Pad(offset)
    {
      PadFromBase(base, offset);
      aligned := Pad(base + offset) - base;
    }

    /** R_IssueRenderCommands: ends the list, empties it, and has the back end run it unless told to skip. */
    method IssueRenderCommands(skipBackEnd: bool) returns (executed: seq<Command>, inside: bool)
      requires used + ID_SIZE <= MAX_RENDER_COMMANDS == cmds.Length
      modifies this`used, this`requests, this`pending, cmds
      ensures Valid() && used == 0 && requests == []
      ensures Ended(old(cmds[..]), cmds[..], old(used))
      ensures Walked(executed, inside) == if skipBackEnd then Walked([], true) else Walk(cmds[..], 0, sizes)
    {
      WriteId(used, RC_END_OF_LIST);
      used := 0;
      requests, pending := [], [];
      executed, inside := [], true;
      if !skipBackEnd {
        executed, inside := ExecuteRenderCommands();
      }
    }

    /** A sync in mid-frame: what has been accepted is executed, in order. */
    method IssuePendingRenderCommands(registered: bool, skipBackEnd: bool) returns (executed: seq<Command>, inside: bool)
      requires Valid()
      modifies this`used, this`requests, this`pending, cmds
      ensures Valid() && requests == if registered then [] else old(requests)
      ensures executed == (if registered && !skipBackEnd then old(Accepted(requests)) else []) && inside
    {
      if !registered {
        return [], true;
      }
      AlwaysRoomToSwap(requests);
      ghost var was, list, end := cmds[..], pending, used;
      executed, inside := IssueRenderCommands(skipBackEnd);
      EndedWalk(was, cmds[..], list, end, sizes);
    }

    /**
     The end of a frame: the swap of buffers always finds room. It is executed behind all that has been
     accepted, unless space was taken and not written: then the back end goes by the bytes that were
     there before, and never gets to the swap if they are no command.
     */
    method EndFrame(registered: bool, skipBackEnd: bool) returns (executed: seq<Command>, inside: bool)
      requires Valid() || Torn()
      modifies this`used, this`requests, this`pending, cmds
      ensures registered ==> Valid() && requests == []
      ensures !registered ==> used == old(used) && requests == old(requests) && pending == old(pending) && cmds[..] == old(cmds[..])
      ensures !registered || skipBackEnd ==> executed == []
      ensures registered && !skipBackEnd && old(Valid()) ==> executed == old(Accepted(requests)) + [SWAP] && inside
      ensures registered && !skipBackEnd && old(Torn()) ==>
                && executed == old(pending) + Walk(cmds[..], old(Total(pending)), sizes).commands
                && IdAt(cmds[..], old(Total(pending))) == old(IdAt(cmds[..], Total(pending)))
                && (!IsCommand(old(IdAt(cmds[..], Total(pending)))) ==> executed == old(pending) && inside)
    {
      if !registered {
        return [], true;
      }
      var space := ReserveSwap();
      if !space.At? {
        assert false;
        return [], true;
      }
      ghost var was, list, used0, valid := cmds[..], pending, space.offset, old(Valid());
      WriteCommand(space.offset, SWAP);
      ghost var written := cmds[..];
      executed, inside := IssueRenderCommands(skipBackEnd);
      if valid {
        SwapFound(was, written, cmds[..], list, used0, sizes);
      } else {
        SwapLost(was, written, cmds[..], list, used0, sizes);
      }
    }

    /** The reserve kept by all other requests is used here, and always suffices. */
    method ReserveSwap() returns (space: Space)
      requires Valid() || Torn()
      modifies this`used
      ensures space == At(old(used)) && used == old(used) + Pad(ID_SIZE) <= MAX_RENDER_COMMANDS - ID_SIZE
    {
      AlwaysRoomToSwap(requests);
      space := GetCommandBufferReserved(sizes[RC_SWAP_BUFFERS], 0);
    }

    /**
     The start of a left-eye frame in anaglyph mode takes the space of two commands before it writes
     either. When only the first fits, its space stays taken with nothing written in it; in all other
     cases the list is what has been accepted.
     */
    method BeginFrameLeft(draw: Command, mask: Command) returns (ok: bool)
      requires Valid() && WellFormed(draw, sizes) && WellFormed(mask, sizes)
      modifies this`used, this`requests, this`pending, cmds
      ensures ok == (HasRoom(old(used), sizes[draw.id]) && HasRoom(old(used) + Pad(sizes[draw.id]), sizes[mask.id]))
      ensures if HasRoom(old(used), sizes[draw.id]) && !ok then Torn() else Valid()
      ensures ok ==> pending == old(pending) + [draw] + [mask]
      ensures !ok ==> pending == old(pending) && requests == old(requests) && cmds[..] == old(cmds[..])
    {
      var space, colorSpace := TakeBoth(sizes[draw.id], sizes[mask.id]);
      if !space.At? {
        return false;
      }
      if !colorSpace.At? {
        return false;
      }
      EnterAndWrite(space.offset, draw, colorSpace.offset, mask);
      return true;
    }

    /** Takes space for two commands one after the other; the second is not asked for if the first has no room. */
    method TakeBoth(drawSize: nat, maskSize: nat) returns (space: Space, colorSpace: Space)
      requires Valid()
      modifies this`used
      ensures space.At? <==> HasRoom(old(used), drawSize)
      ensures colorSpace.At? <==> space.At? && HasRoom(old(used) + Pad(drawSize), maskSize)
      ensures !space.At? ==> Valid()
      ensures space.At? && !colorSpace.At? && drawSize >= ID_SIZE ==> Torn()
      ensures colorSpace.At? ==>
                && space.offset == old(used) && colorSpace.offset == old(used) + Pad(drawSize)
                && used == old(used) + Pad(drawSize) + Pad(maskSize)
    {
      space := GetCommandBuffer(drawSize);
      colorSpace := NoRoom;
      if space.At? {
        colorSpace := GetCommandBuffer(maskSize);
      }
    }

    /** Enters two commands in the books, and writes them. */
    method EnterAndWrite(offset: nat, draw: Command, offset': nat, mask: Command)
      requires WellFormed(draw, sizes) && WellFormed(mask, sizes)
      requires Books(requests, pending, offset) && Contains(pending, offset)
      requires HasRoom(offset, sizes[draw.id]) && HasRoom(offset', sizes[mask.id])
      requires offset' == offset + Pad(sizes[draw.id]) && used == offset' + Pad(sizes[mask.id])
      modifies this`requests, this`pending, cmds
      ensures Valid() && pending == old(pending) + [draw] + [mask]
    {
      WriteBoth(offset, draw, offset', mask, pending, used);
      EnterBoth(draw, mask, offset);
    }

    /** Writes two commands into the spaces taken for them. */
    method WriteBoth(offset: nat, draw: Command, offset': nat, mask: Command, ghost list: seq<Command>, ghost end: nat)
      requires WellFormed(draw, sizes) && WellFormed(mask, sizes)
      requires Contains(list, offset) && offset' == offset + Pad(sizes[draw.id])
      requires end == offset' + Pad(sizes[mask.id]) <= MAX_RENDER_COMMANDS
      modifies cmds
      ensures Contains(list + [draw] + [mask], end)
    {
      Append(offset, draw, list);
      Append(offset', mask, list + [draw]);
    }

    ghost method EnterBoth(draw: Command, mask: Command, offset: nat)
      requires Books(requests, pending, offset)
      requires HasRoom(offset, ID_SIZE + |draw.payload|)
      requires HasRoom(offset + Pad(ID_SIZE + |draw.payload|), ID_SIZE + |mask.payload|)
      requires used == offset + Pad(ID_SIZE + |draw.payload|) + Pad(ID_SIZE + |mask.payload|)
      modifies this`requests, this`pending
      ensures Accounted() && pending == old(pending) + [draw] + [mask]
    {
      BooksTwice(requests, pending, offset, draw, mask);
      requests := requests + [draw] + [mask];
      pending := pending + [draw] + [mask];
    }
  }

  // ---------------------------------------------------------------- a run that loses its swap

  function Repeated(c: Command, n: nat): (r: seq<Command>)
    ensures |r| == n && forall i :: 0 <= i < n ==> r[i] == c
  {
    seq(n, _ => c)
  }

  lemma FilledOne(list: seq<Command>, c: Command, n: nat)
    requires ID_SIZE + |c.payload| == 8 && 8 * n + 20 <= MAX_RENDER_COMMANDS
    requires Accepted(list) == list && Total(list) == 8 * n
    ensures Accepted(list + [c]) == list + [c] && Total(list + [c]) == 8 * (n + 1)
  {
    AcceptedNext(list, c);
    TotalNext(list, c);
  }

  /** Commands of eight bytes are all accepted, until no eight more are left besides the reserve. */
  lemma {:induction false} FilledUp(c: Command, n: nat)
    requires ID_SIZE + |c.payload| == 8 && 8 * n + 12 <= MAX_RENDER_COMMANDS
    ensures Accepted(Repeated(c, n)) == Repeated(c, n) && Total(Repeated(c, n)) == 8 * n
  {
    if n > 0 {
      FilledUp(c, n - 1);
      FilledOne(Repeated(c, n - 1), c, n - 1);
      assert Repeated(c, n) == Repeated(c, n - 1) + [c];
    }
  }

  const FULL_BUT_ONE: nat := 32765

  /**
   A first frame that is filled to 262120 bytes with commands of eight bytes each before the left-eye
   frame begins: the two commands asked for do not both fit, and at the end of the frame everything is
   executed but the swap of buffers.
   */
  method LoseSwap(sizes: Sizes, filler: Command, draw: Command, mask: Command) returns (executed: seq<Command>, inside: bool)
    requires sizes[RC_DRAW_BUFFER] == 8 && sizes[RC_COLORMASK] == 8 && |filler.payload| == 4 && filler.id != RC_SWAP_BUFFERS
    requires WellFormed(filler, sizes) && WellFormed(draw, sizes) && WellFormed(mask, sizes)
    requires draw.id == RC_DRAW_BUFFER && mask.id == RC_COLORMASK
    ensures executed == Repeated(filler, FULL_BUT_ONE) && SWAP !in executed && inside
  {
    var list := FillFrame(sizes, filler);
    var ok := list.BeginFrameLeft(draw, mask);
    assert IdAt(list.cmds[..], 262120) == 0;
    executed, inside := list.EndFrame(true, false);
  }

  method FillFrame(sizes: Sizes, filler: Command) returns (list: RenderCommandList)
    requires WellFormed(filler, sizes) && |filler.payload| == 4
    ensures fresh(list) && fresh(list.cmds) && list.sizes == sizes && list.Valid() && list.ZeroFrom(262120)
    ensures list.used == 262120 && list.pending == Repeated(filler, FULL_BUT_ONE) && Total(list.pending) == 262120
  {
    list := new RenderCommandList(sizes, 0);
    assert Repeated(filler, 0) == [];
    for i := 0 to FULL_BUT_ONE
      invariant fresh(list) && fresh(list.cmds) && list.sizes == sizes && list.Valid() && list.ZeroFrom(list.used)
      invariant list.requests == Repeated(filler, i)
    {
      var _ := list.AddCommand(filler);
      assert Repeated(filler, i + 1) == Repeated(filler, i) + [filler];
    }
    FilledUp(filler, FULL_BUT_ONE);
  }
}
