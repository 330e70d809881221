/**
 The capped allocator that scripts run with: every block carries its size in a
 header, and the state counts the bytes in use. Whether the underlying
 allocation succeeds, and where, is an input; it can only grant what memory holds.
 */
module DuktapeHeaps {
  import opened Types

  /** What 64-bit addition and subtraction do. */
  function Wrap(n: int): Size {
    n % (MAX_SIZE + 1)
  }

  const HEADER_BYTES := 8

  type Pointer = nat

  /** The headers of the live blocks, and the state kept beside them. */
  datatype Heap = Heap(blocks: map<Pointer, Size>, used: Size, limit: Size, exceeded: bool)

  // ----- What memory can hold -----

  ghost function Total(blocks: map<Pointer, Size>): nat
    decreases |blocks|
  {
    if blocks == map[] then 0
    else
      var p :| p in blocks;
      blocks[p] + Total(blocks - {p})
  }

  /** The bytes asked of the underlying allocator; the addition of the header can wrap. */
  function TotalBytes(size: Size): Size {
    Wrap(size + HEADER_BYTES)
  }

  ghost function Granted(blocks: map<Pointer, Size>): map<Pointer, Size> {
    map p | p in blocks :: TotalBytes(blocks[p])
  }

  /** A granted block is not live already, and there are addresses for all its bytes. */
  ghost predicate Answers(blocks: map<Pointer, Size>, size: Size, got: Option<Pointer>) {
    got.Some? ==> got.value !in blocks && Total(Granted(blocks)) + TotalBytes(size) <= MAX_SIZE
  }

  // ----- What the three calls do -----

  function AfterAlloc(h: Heap, size: Size, got: Option<Pointer>): Heap {
    if size == 0 then h
    else if Wrap(h.used + size) > h.limit then h.(exceeded := true)
    else if got.None? then h
    else h.(blocks := h.blocks[got.value := size], used := Wrap(h.used + size))
  }

  function AfterFree(h: Heap, p: Pointer): Heap
    requires p in h.blocks
  {
    h.(blocks := h.blocks - {p}, used := Wrap(h.used - h.blocks[p]))
  }

  function AfterRealloc(h: Heap, p: Pointer, size: Size, got: Option<Pointer>): Heap
    requires p in h.blocks
  {
    if size == 0 then AfterFree(h, p)
    else
      var used := Wrap(Wrap(h.used - h.blocks[p]) + size);
      if used > h.limit then h.(exceeded := true)
      else if got.None? then h
      else h.(blocks := (h.blocks - {p})[got.value := size], used := used)
  }

  /** The state that the engine passes back as user data, together with the memory it describes. */
  class HeapState {
    var blocks: map<Pointer, Size>
    var memoryUsedBytes: Size
    var memoryLimitBytes: Size
    var memoryExceeded: bool

    function View(): Heap
      reads this
    {
      Heap(blocks, memoryUsedBytes, memoryLimitBytes, memoryExceeded)
    }

    constructor (limit: Size)
      ensures View() == Heap(map[], 0, limit, false)
    {
      blocks := map[];
      memoryUsedBytes := 0;
      memoryLimitBytes := limit;
      memoryExceeded := false;
    }
  }

  /** `got` is the answer to a request for `TotalBytes(size)` bytes. */
  method Alloc(udata: HeapState?, size: Size, got: Option<Pointer>) returns (r: Option<Pointer>)
    requires udata != null ==> Answers(udata.blocks, size, got)
    modifies udata
    ensures udata == null ==> r.None?
    ensures udata != null ==> udata.View() == AfterAlloc(old(udata.View()), size, got)
    ensures udata != null && r.Some? ==>
              r == got && r.value !in old(udata.blocks) && r.value in udata.blocks && udata.blocks[r.value] == size
    ensures udata != null && r.None? ==>
              udata.blocks == old(udata.blocks) && udata.memoryUsedBytes == old(udata.memoryUsedBytes)
  {
    if size == 0 {
      return None;
    }
    if udata == null {
      return None;
    }
    if Wrap(udata.memoryUsedBytes + size) > udata.memoryLimitBytes {
      udata.memoryExceeded := true;
      return None;
    }
    if got.None? {
      return None;
    }
    udata.blocks := udata.blocks[got.value := size];
    udata.memoryUsedBytes := Wrap(udata.memoryUsedBytes + size);
    r := got;
  }

  /** With nothing to move this is an allocation; moving to size 0 is a release. */
  method Realloc(udata: HeapState?, ptr: Option<Pointer>, size: Size, got: Option<Pointer>) returns (r: Option<Pointer>)
    requires udata != null && ptr.None? ==> Answers(udata.blocks, size, got)
    requires udata != null && ptr.Some? ==>
               ptr.value in udata.blocks && Answers(udata.blocks - {ptr.value}, size, got)
    modifies udata
    ensures udata == null ==> r.None?
    ensures udata != null ==>
              udata.View() == if ptr.None? then AfterAlloc(old(udata.View()), size, got)
                              else AfterRealloc(old(udata.View()), ptr.value, size, got)
    ensures udata != null && r.Some? ==> r.value in udata.blocks && udata.blocks[r.value] == size
    ensures udata != null && r.None? && size != 0 ==>
              udata.blocks == old(udata.blocks) && udata.memoryUsedBytes == old(udata.memoryUsedBytes)
  {
    hide Wrap, Answers;
    if udata == null {
      return None;
    }
    if ptr.None? {
      r := Alloc(udata, size, got);
      return;
    }
    var oldSize := udata.blocks[ptr.value];
    if size == 0 {
      udata.memoryUsedBytes := Wrap(udata.memoryUsedBytes - oldSize);
      udata.blocks := udata.blocks - {ptr.value};
      return None;
    }
    if Wrap(Wrap(udata.memoryUsedBytes - oldSize) + size) > udata.memoryLimitBytes {
      udata.memoryExceeded := true;
      return None;
    }
    if got.None? {
      return None;
    }
    udata.blocks := (udata.blocks - {ptr.value})[got.value := size];
    udata.memoryUsedBytes := Wrap(Wrap(udata.memoryUsedBytes - oldSize) + size);
    r := got;
  }

  method Free(udata: HeapState?, ptr: Option<Pointer>)
    requires udata != null && ptr.Some? ==> ptr.value in udata.blocks
    modifies udata
    ensures udata != null ==>
              udata.View() == if ptr.None? then old(udata.View()) else AfterFree(old(udata.View()), ptr.value)
  {
    if ptr.None? || udata == null {
      return;
    }
    var oldSize := udata.blocks[ptr.value];
    udata.memoryUsedBytes := Wrap(udata.memoryUsedBytes - oldSize);
    udata.blocks := udata.blocks - {ptr.value};
  }

  // ----- Sums over blocks -----

  lemma NoWrap(n: nat)
    requires n <= MAX_SIZE
    ensures Wrap(n) == n
  {
  }

  lemma {:induction false} TotalWithout(blocks: map<Pointer, Size>, p: Pointer)
    requires p in blocks
    ensures Total(blocks) == blocks[p] + Total(blocks - {p})
    decreases |blocks|
  {
    var q :| q in blocks && Total(blocks) == blocks[q] + Total(blocks - {q});
    if q != p {
      TotalWithout(blocks - {q}, p);
      TotalWithout(blocks - {p}, q);
      assert blocks - {q} - {p} == blocks - {p} - {q};
    }
  }

  lemma TotalWith(blocks: map<Pointer, Size>, p: Pointer, size: Size)
    requires p !in blocks
    ensures Total(blocks[p := size]) == Total(blocks) + size
  {
    TotalWithout(blocks[p := size], p);
    assert blocks[p := size] - {p} == blocks;
  }

  /** No header of a live block wrapped. */
  predicate Headed(blocks: map<Pointer, Size>) {
    forall p :: p in blocks ==> blocks[p] + HEADER_BYTES <= MAX_SIZE
  }

  lemma {:induction false} TotalIsGranted(blocks: map<Pointer, Size>)
    requires Headed(blocks)
    ensures Total(blocks) <= Total(Granted(blocks))
    decreases |blocks|
  {
    if blocks != map[] {
      var p :| p in blocks;
      hide Total, Granted;
      TotalIsGranted(blocks - {p});
      TotalWithout(blocks, p);
      GrantedWithout(blocks, p);
    }
  }

  lemma GrantedWithout(blocks: map<Pointer, Size>, p: Pointer)
    requires p in blocks && blocks[p] + HEADER_BYTES <= MAX_SIZE
    ensures Total(Granted(blocks)) == blocks[p] + HEADER_BYTES + Total(Granted(blocks - {p}))
  {
    NoWrap(blocks[p] + HEADER_BYTES);
    assert Granted(blocks)[p] == blocks[p] + HEADER_BYTES;
    assert Granted(blocks) - {p} == Granted(blocks - {p});
    hide Total, Granted, Wrap;
    TotalWithout(Granted(blocks), p);
  }

  // ----- Accounting -----

  /** The counter is the number of live bytes, and the cap holds. */
  ghost predicate Accounted(h: Heap) {
    h.used == Total(h.blocks) && h.used <= h.limit
  }

  lemma FreeAccounted(h: Heap, p: Pointer)
    requires Accounted(h) && p in h.blocks
    ensures Accounted(AfterFree(h, p)) && AfterFree(h, p).used == h.used - h.blocks[p]
  {
    TotalWithout(h.blocks, p);
  }

  /** A request that memory can grant with its whole header cannot make the counter wrap. */
  lemma GrantedFits(blocks: map<Pointer, Size>, size: Size, got: Option<Pointer>)
    requires Headed(blocks) && Answers(blocks, size, got) && got.Some? && size + HEADER_BYTES <= MAX_SIZE
    ensures Total(blocks) + size <= MAX_SIZE
  {
    TotalIsGranted(blocks);
    NoWrap(size + HEADER_BYTES);
    hide Total, Granted, Wrap;
  }

  /** Adding the header wraps, and so does the counter, to a value within the limit. */
  predicate Undercounts(used: int, limit: Size, size: Size) {
    size + HEADER_BYTES > MAX_SIZE && used + size > MAX_SIZE && Wrap(used + size) <= limit
  }

  lemma Recounted(h: Heap, blocks: map<Pointer, Size>, p: Pointer, size: Size, h': Heap)
    requires p !in blocks
    requires h' == Heap(blocks[p := size], Wrap(Total(blocks) + size), h.limit, h.exceeded)
    requires h'.used <= h'.limit
    ensures Accounted(h') <==> Total(blocks) + size <= MAX_SIZE
  {
    TotalWith(blocks, p, size);
  }

  /** An allocation that is granted keeps the accounting, unless its header wraps and the counter with it. */
  lemma AllocAccountedIff(h: Heap, size: Size, got: Option<Pointer>)
    requires Accounted(h) && Headed(h.blocks) && Answers(h.blocks, size, got) && got.Some? && size != 0
    ensures Accounted(AfterAlloc(h, size, got)) <==> !Undercounts(h.used, h.limit, size)
  {
    hide Total, Granted, Headed;
    if size + HEADER_BYTES <= MAX_SIZE {
      GrantedFits(h.blocks, size, got);
    }
    if Wrap(h.used + size) <= h.limit {
      Recounted(h, h.blocks, got.value, size, AfterAlloc(h, size, got));
    }
  }

  /** The same for a block that is moved. */
  lemma ReallocAccountedIff(h: Heap, p: Pointer, size: Size, got: Option<Pointer>)
    requires Accounted(h) && Headed(h.blocks) && p in h.blocks
    requires Answers(h.blocks - {p}, size, got) && got.Some? && size != 0
    ensures Accounted(AfterRealloc(h, p, size, got)) <==> !Undercounts(h.used - h.blocks[p], h.limit, size)
  {
    FreeAccounted(h, p);
    AllocAccountedIff(AfterFree(h, p), size, got);
    MoveIsFreeThenAlloc(h, p, size, got);
  }

  /** Moving a block that is granted does to the counter what releasing and allocating does. */
  lemma MoveIsFreeThenAlloc(h: Heap, p: Pointer, size: Size, got: Option<Pointer>)
    requires p in h.blocks && got.Some? && size != 0
    ensures var h' := AfterRealloc(h, p, size, got);
            if Wrap(Wrap(h.used - h.blocks[p]) + size) > h.limit then h' == h.(exceeded := true)
            else h' == AfterAlloc(AfterFree(h, p), size, got)
  {
  }

  // ----- Whole runs -----

  datatype Op =
    | AllocOp(size: Size, got: Option<Pointer>)
    | ReallocOp(p: Pointer, size: Size, got: Option<Pointer>)
    | FreeOp(p: Pointer)

  /** The engine passes live blocks only. */
  ghost predicate CanDo(h: Heap, op: Op) {
    match op
    case AllocOp(size, got) => Answers(h.blocks, size, got)
    case ReallocOp(p, size, got) => p in h.blocks && Answers(h.blocks - {p}, size, got)
    case FreeOp(p) => p in h.blocks
  }

  ghost function Do(h: Heap, op: Op): Heap
    requires CanDo(h, op)
  {
    match op
    case AllocOp(size, got) => AfterAlloc(h, size, got)
    case ReallocOp(p, size, got) => AfterRealloc(h, p, size, got)
    case FreeOp(p) => AfterFree(h, p)
  }

  ghost predicate CanRun(h: Heap, ops: seq<Op>)
    decreases ops
  {
    ops == [] || (CanDo(h, ops[0]) && CanRun(Do(h, ops[0]), ops[1..]))
  }

  ghost function Run(h: Heap, ops: seq<Op>): Heap
    requires CanRun(h, ops)
    decreases ops
  {
    if ops == [] then h else Run(Do(h, ops[0]), ops[1..])
  }

  /** Adding the header to the request does not wrap. */
  predicate HeaderFits(op: Op) {
    op.FreeOp? || op.size + HEADER_BYTES <= MAX_SIZE
  }

  /** Adding the request to a count within the limit does not wrap. */
  predicate SumFits(limit: Size, op: Op) {
    op.FreeOp? || op.size <= MAX_SIZE - limit
  }

  /** The request does not fit beside the other live blocks. */
  ghost predicate OverLimit(h: Heap, op: Op)
    requires CanDo(h, op)
  {
    match op
    case AllocOp(size, _) => size != 0 && Total(h.blocks) + size > h.limit
    case ReallocOp(p, size, _) => size != 0 && Total(h.blocks - {p}) + size > h.limit
    case FreeOp(_) => false
  }

  /** A request over the limit changes nothing but the report; any other one reports nothing. */
  ghost predicate Guarded(h: Heap, op: Op, h': Heap)
    requires CanDo(h, op)
  {
    && (OverLimit(h, op) ==> h' == h.(exceeded := true))
    && (!OverLimit(h, op) ==> h'.exceeded == h.exceeded)
  }

  /** One call keeps the accounting if the header fits. */
  lemma DoAccounted(h: Heap, op: Op)
    requires Accounted(h) && Headed(h.blocks) && CanDo(h, op) && HeaderFits(op)
    ensures Accounted(Do(h, op)) && Headed(Do(h, op).blocks) && Do(h, op).limit == h.limit
  {
    match op
    case AllocOp(size, got) =>
      if got.Some? && size != 0 {
        AllocAccountedIff(h, size, got);
      }
    case ReallocOp(p, size, got) =>
      FreeAccounted(h, p);
      if got.Some? && size != 0 {
        ReallocAccountedIff(h, p, size, got);
      }
    case FreeOp(p) => FreeAccounted(h, p);
  }

  /** One call refuses exactly what is over the limit if the sum fits. */
  lemma DoGuarded(h: Heap, op: Op)
    requires Accounted(h) && CanDo(h, op) && SumFits(h.limit, op)
    ensures Guarded(h, op, Do(h, op))
  {
    hide Wrap, Total;
    match op
    case AllocOp(size, got) => NoWrap(h.used + size);
    case ReallocOp(p, size, got) =>
      TotalWithout(h.blocks, p);
      NoWrap(h.used - h.blocks[p]);
      NoWrap(h.used - h.blocks[p] + size);
    case FreeOp(p) =>
  }

  /** Over every run the used bytes are the sum of the live blocks, and never exceed the limit. */
  lemma {:induction false} RunAccounted(h: Heap, ops: seq<Op>)
    requires Accounted(h) && Headed(h.blocks) && CanRun(h, ops)
    requires forall op :: op in ops ==> HeaderFits(op)
    ensures Accounted(Run(h, ops)) && Headed(Run(h, ops).blocks) && Run(h, ops).limit == h.limit
    decreases ops
  {
    if ops != [] {
      hide Accounted, Headed, Do, CanDo;
      DoAccounted(h, ops[0]);
      RunAccounted(Do(h, ops[0]), ops[1..]);
    }
  }

  ghost predicate SomeOverLimit(h: Heap, ops: seq<Op>)
    requires CanRun(h, ops)
    decreases ops
  {
    ops != [] && (OverLimit(h, ops[0]) || SomeOverLimit(Do(h, ops[0]), ops[1..]))
  }

  /** The limit is reported exactly if some request went over it. */
  lemma {:induction false} RunReportsLimit(h: Heap, ops: seq<Op>)
    requires Accounted(h) && Headed(h.blocks) && CanRun(h, ops)
    requires forall op :: op in ops ==> HeaderFits(op) && SumFits(h.limit, op)
    ensures Run(h, ops).exceeded <==> h.exceeded || SomeOverLimit(h, ops)
    decreases ops
  {
    if ops != [] {
      hide Accounted, Headed, Do, CanDo, OverLimit;
      DoAccounted(h, ops[0]);
      DoGuarded(h, ops[0]);
      RunReportsLimit(Do(h, ops[0]), ops[1..]);
    }
  }

  // ----- The request that is miscounted -----

  /** With 16 bytes live, a request for all but 7 bytes of the address space leaves a count of 8. */
  lemma WrappedHeaderMiscounts()
    ensures var huge := MAX_SIZE - 7;
            var ops := [AllocOp(16, Some(0)), AllocOp(huge, Some(1))];
            var start := Heap(map[], 0, 100, false);
            && CanRun(start, ops)
            && Run(start, ops).used == 8 && Run(start, ops).blocks == map[0 := 16, 1 := huge]
            && !Accounted(Run(start, ops))
  {
    hide Do, CanDo, CanRun, Run, Total;
    var huge: Size := MAX_SIZE - 7;
    var start, after := Heap(map[], 0, 100, false), Heap(map[0 := 16], 16, 100, false);
    FirstIsCounted();
    HugeIsMiscounted(huge);
    RunTwo(start, AllocOp(16, Some(0)), AllocOp(huge, Some(1)));
    assert Total(map[0 := 16, 1 := huge]) == 16 + huge;
  }

  lemma FirstIsCounted()
    ensures var start, op := Heap(map[], 0, 100, false), AllocOp(16, Some(0));
            CanDo(start, op) && Do(start, op) == Heap(map[0 := 16], 16, 100, false)
  {
    assert Granted(map[]) == map[];
    assert map[][0 := 16] == map[0 := 16];
  }

  lemma HugeIsMiscounted(huge: Size)
    requires huge == MAX_SIZE - 7
    ensures var h, op := Heap(map[0 := 16], 16, 100, false), AllocOp(huge, Some(1));
            CanDo(h, op) && Do(h, op) == Heap(map[0 := 16, 1 := huge], 8, 100, false)
    ensures Total(map[0 := 16, 1 := huge]) == 16 + huge
  {
    assert Granted(map[0 := 16]) == map[][0 := 24];
    TotalWith(map[], 0, 24);
    assert map[0 := 16][1 := huge] == map[0 := 16, 1 := huge] && map[][0 := 16] == map[0 := 16];
    TotalWith(map[], 0, 16);
    TotalWith(map[0 := 16], 1, huge);
    assert TotalBytes(huge) == 0;
  }

  lemma RunTwo(h: Heap, a: Op, b: Op)
    requires CanDo(h, a) && CanDo(Do(h, a), b)
    ensures CanRun(h, [a, b]) && Run(h, [a, b]) == Do(Do(h, a), b)
  {
    var rest := [b];
    assert [a, b][1..] == rest && rest[1..] == [];
    hide Do, CanDo;
    assert CanRun(Do(Do(h, a), b), []);
    assert CanRun(Do(h, a), rest) && Run(Do(h, a), rest) == Do(Do(h, a), b);
  }
}
