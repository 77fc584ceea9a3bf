/**
 * The libc replacement of lubheap/posix/sysheap.c: `malloc`, `free`,
 * `realloc`, `calloc`, `memalign`, `valloc` and `cfree` on top of one
 * process-wide lub heap that is created on first use from `sbrk` memory and
 * grown by one `sbrk` segment when it runs out.
 *
 * The heap (lub_heap_realloc, lub_heap_create, lub_heap_add_segment) and
 * `sbrk` are outside the model. Every call the shim makes to them is
 * appended to `trace`, and what they answer is supplied by an `Oracle`
 * value; the diagnostics written to stderr are appended to `diagnostics`.
 */
module SysHeap {
  import opened Wrappers
  import opened MachineTypes

  /** lub_heap_status_t */
  datatype HeapStatus = Ok | Corrupted | DoubleFree | InvalidPointer | Failed

  /** lub_heap_align_t: native alignment, or 2^exp bytes for exp in 2..27. */
  datatype Align = AlignNative | AlignPow2(exp: nat)

  /** VX_PAGE_SIZE */
  const PageSize: U32 := 4096
  /** DEFAULT_CHUNK_SIZE: the heap grows in 128K chunks. */
  const DefaultChunkSize: SizeT := 128 * 1024

  /** 2^k, as the shift `1 << k` on a 64-bit word. */
  function Pow2(k: nat): nat
    requires k < 64
  {
    ((1 as bv64) << k) as nat
  }

  // ---------------------------------------------------------------------
  // The alignment table of memalign
  // ---------------------------------------------------------------------

  /**
   * The switch at the head of `memalign`: each power of two from 4 to
   * 2^27 selects its alignment class; every other value selects none.
   */
  function AlignmentClass(alignment: U32): (r: Option<Align>)
    ensures r.Some? ==> r.value.AlignPow2? && 2 <= r.value.exp <= 27 && Pow2(r.value.exp) == alignment
  {
    match alignment
    case 4 => Some(AlignPow2(2))
    case 8 => Some(AlignPow2(3))
    case 16 => Some(AlignPow2(4))
    case 32 => Some(AlignPow2(5))
    case 64 => Some(AlignPow2(6))
    case 128 => Some(AlignPow2(7))
    case 256 => Some(AlignPow2(8))
    case 512 => Some(AlignPow2(9))
    case 1024 => Some(AlignPow2(10))
    case 2048 => Some(AlignPow2(11))
    case 4096 => Some(AlignPow2(12))
    case 8192 => Some(AlignPow2(13))
    case 16384 => Some(AlignPow2(14))
    case 32768 => Some(AlignPow2(15))
    case 65536 => Some(AlignPow2(16))
    case 131072 => Some(AlignPow2(17))
    case 262144 => Some(AlignPow2(18))
    case 524288 => Some(AlignPow2(19))
    case 1048576 => Some(AlignPow2(20))
    case 2097152 => Some(AlignPow2(21))
    case 4194304 => Some(AlignPow2(22))
    case 8388608 => Some(AlignPow2(23))
    case 16777216 => Some(AlignPow2(24))
    case 33554432 => Some(AlignPow2(25))
    case 67108864 => Some(AlignPow2(26))
    case 134217728 => Some(AlignPow2(27))
    case _ => None
  }

  /** Every power of two from 2^2 to 2^27 is in the table, with its own class. */
  lemma AlignmentClassComplete(k: nat)
    requires 2 <= k <= 27
    ensures Pow2(k) < U32Modulus && AlignmentClass(Pow2(k)) == Some(AlignPow2(k))
  {
    if k <= 5 {
      Alignments2To5(k);
    } else if k <= 8 {
      Alignments6To8(k);
    } else if k <= 11 {
      Alignments9To11(k);
    } else if k <= 14 {
      Alignments12To14(k);
    } else if k <= 17 {
      Alignments15To17(k);
    } else if k <= 20 {
      Alignments18To20(k);
    } else if k <= 23 {
      Alignments21To23(k);
    } else {
      Alignments24To27(k);
    }
  }

  lemma Alignments2To5(k: nat)
    requires 2 <= k <= 5
    ensures Pow2(k) < U32Modulus && AlignmentClass(Pow2(k)) == Some(AlignPow2(k))
  {
    match k
    case 2 => assert Pow2(2) == 4 && AlignmentClass(4) == Some(AlignPow2(2));
    case 3 => assert Pow2(3) == 8 && AlignmentClass(8) == Some(AlignPow2(3));
    case 4 => assert Pow2(4) == 16 && AlignmentClass(16) == Some(AlignPow2(4));
    case 5 => assert Pow2(5) == 32 && AlignmentClass(32) == Some(AlignPow2(5));
  }

  lemma Alignments6To8(k: nat)
    requires 6 <= k <= 8
    ensures Pow2(k) < U32Modulus && AlignmentClass(Pow2(k)) == Some(AlignPow2(k))
  {
    match k
    case 6 => assert Pow2(6) == 64 && AlignmentClass(64) == Some(AlignPow2(6));
    case 7 => assert Pow2(7) == 128 && AlignmentClass(128) == Some(AlignPow2(7));
    case 8 => assert Pow2(8) == 256 && AlignmentClass(256) == Some(AlignPow2(8));
  }

  lemma Alignments9To11(k: nat)
    requires 9 <= k <= 11
    ensures Pow2(k) < U32Modulus && AlignmentClass(Pow2(k)) == Some(AlignPow2(k))
  {
    match k
    case 9 => assert Pow2(9) == 512 && AlignmentClass(512) == Some(AlignPow2(9));
    case 10 => assert Pow2(10) == 1024 && AlignmentClass(1024) == Some(AlignPow2(10));
    case 11 => assert Pow2(11) == 2048 && AlignmentClass(2048) == Some(AlignPow2(11));
  }

  lemma Alignments12To14(k: nat)
    requires 12 <= k <= 14
    ensures Pow2(k) < U32Modulus && AlignmentClass(Pow2(k)) == Some(AlignPow2(k))
  {
    match k
    case 12 => assert Pow2(12) == 4096 && AlignmentClass(4096) == Some(AlignPow2(12));
    case 13 => assert Pow2(13) == 8192 && AlignmentClass(8192) == Some(AlignPow2(13));
    case 14 => assert Pow2(14) == 16384 && AlignmentClass(16384) == Some(AlignPow2(14));
  }

  lemma Alignments15To17(k: nat)
    requires 15 <= k <= 17
    ensures Pow2(k) < U32Modulus && AlignmentClass(Pow2(k)) == Some(AlignPow2(k))
  {
    match k
    case 15 => assert Pow2(15) == 32768 && AlignmentClass(32768) == Some(AlignPow2(15));
    case 16 => assert Pow2(16) == 65536 && AlignmentClass(65536) == Some(AlignPow2(16));
    case 17 => assert Pow2(17) == 131072 && AlignmentClass(131072) == Some(AlignPow2(17));
  }

  lemma Alignments18To20(k: nat)
    requires 18 <= k <= 20
    ensures Pow2(k) < U32Modulus && AlignmentClass(Pow2(k)) == Some(AlignPow2(k))
  {
    match k
    case 18 => assert Pow2(18) == 262144 && AlignmentClass(262144) == Some(AlignPow2(18));
    case 19 => assert Pow2(19) == 524288 && AlignmentClass(524288) == Some(AlignPow2(19));
    case 20 => assert Pow2(20) == 1048576 && AlignmentClass(1048576) == Some(AlignPow2(20));
  }

  lemma Alignments21To23(k: nat)
    requires 21 <= k <= 23
    ensures Pow2(k) < U32Modulus && AlignmentClass(Pow2(k)) == Some(AlignPow2(k))
  {
    match k
    case 21 => assert Pow2(21) == 2097152 && AlignmentClass(2097152) == Some(AlignPow2(21));
    case 22 => assert Pow2(22) == 4194304 && AlignmentClass(4194304) == Some(AlignPow2(22));
    case 23 => assert Pow2(23) == 8388608 && AlignmentClass(8388608) == Some(AlignPow2(23));
  }

  lemma Alignments24To27(k: nat)
    requires 24 <= k <= 27
    ensures Pow2(k) < U32Modulus && AlignmentClass(Pow2(k)) == Some(AlignPow2(k))
  {
    match k
    case 24 => assert Pow2(24) == 16777216 && AlignmentClass(16777216) == Some(AlignPow2(24));
    case 25 => assert Pow2(25) == 33554432 && AlignmentClass(33554432) == Some(AlignPow2(25));
    case 26 => assert Pow2(26) == 67108864 && AlignmentClass(67108864) == Some(AlignPow2(26));
    case 27 => assert Pow2(27) == 134217728 && AlignmentClass(134217728) == Some(AlignPow2(27));
  }

  /** An alignment has a class exactly when it is 2^k for some k in 2..27. */
  lemma AlignmentClassExact(alignment: U32)
    ensures AlignmentClass(alignment).Some? <==> exists k :: 2 <= k <= 27 && Pow2(k) == alignment
  {
    if exists k :: 2 <= k <= 27 && Pow2(k) == alignment {
      var k :| 2 <= k <= 27 && Pow2(k) == alignment;
      AlignmentClassComplete(k);
    }
  }

  // ---------------------------------------------------------------------
  // Segment sizing
  // ---------------------------------------------------------------------

  /**
   * The size of the `sbrk` segment requested for `required` bytes, in both
   * sysheap_init_memory and sysheap_extend_memory: raise the request to at
   * least half a chunk, then double it with a `size_t` shift.
   */
  function SegmentSize(required: SizeT): (r: SizeT)
    ensures required < SizeModulus / 2 ==> r == 2 * (if required < DefaultChunkSize / 2 then DefaultChunkSize / 2 else required)
  {
    var raised := if required < DefaultChunkSize / 2 then DefaultChunkSize / 2 else required;
    ShiftLeftOne(raised)
  }

  /** Without overflow a segment holds at least twice the request and at least one chunk. */
  lemma SegmentSizeCovers(required: SizeT)
    requires required < SizeModulus / 2
    ensures SegmentSize(required) >= 2 * required
    ensures SegmentSize(required) >= DefaultChunkSize
  {
  }

  /** From 2^63 bytes on, the doubling loses the top bit and the segment is smaller than the request. */
  lemma SegmentSizeOverflows(required: SizeT)
    requires required >= SizeModulus / 2
    ensures SegmentSize(required) < required
  {
  }

  // ---------------------------------------------------------------------
  // Status reporting
  // ---------------------------------------------------------------------

  /** The message sysheap_check_status writes, by kind and the values it quotes. */
  datatype Diagnostic =
    | HeapCorruptedAt(where: string)
    | DoubleFreeOf(where: string, block: Ptr)
    | InvalidPointerAt(where: string, block: Ptr)
    | AllocationFailed(where: string, size: SizeT)

  /** The case sysheap_check_status selects for `status` (None: nothing is written). */
  function Diagnose(status: HeapStatus, where: string, block: Ptr, size: SizeT): (d: Option<Diagnostic>)
    ensures d.None? <==> status == Ok
  {
    match status
    case Ok => None
    case Corrupted => Some(HeapCorruptedAt(where))
    case DoubleFree => Some(DoubleFreeOf(where, block))
    case InvalidPointer => Some(InvalidPointerAt(where, block))
    case Failed => Some(AllocationFailed(where, size))
  }

  /** The status a diagnostic reports. */
  function Reports(d: Diagnostic): HeapStatus
  {
    match d
    case HeapCorruptedAt(_) => Corrupted
    case DoubleFreeOf(_, _) => DoubleFree
    case InvalidPointerAt(_, _) => InvalidPointer
    case AllocationFailed(_, _) => Failed
  }

  /** Each failing status selects its own diagnostic, naming the entry point. */
  lemma DiagnoseDistinguishes(status: HeapStatus, where: string, block: Ptr, size: SizeT)
    requires status != Ok
    ensures Reports(Diagnose(status, where, block, size).value) == status
    ensures Diagnose(status, where, block, size).value.where == where
  {
  }

  /** The diagnostics appended for one status: at most one. */
  function Reported(status: HeapStatus, where: string, block: Ptr, size: SizeT): seq<Diagnostic>
  {
    match Diagnose(status, where, block, size)
    case None => []
    case Some(d) => [d]
  }

  // ---------------------------------------------------------------------
  // The calls the shim makes, and the answers it gets
  // ---------------------------------------------------------------------

  datatype Call =
    | Sbrk(size: SizeT)
    | HeapCreate(segment: Ptr, size: SizeT)
    | HeapAddSegment(heap: Ptr, segment: Ptr, size: SizeT)
    | HeapRealloc(heap: Ptr, block: Ptr, size: SizeT, align: Align)
    | ZeroFill(block: Ptr, size: SizeT)
    | LeakSuppress(heap: Ptr)
    | LeakRestore(heap: Ptr)

  /** What lub_heap_realloc returns, and the block pointer it leaves behind. */
  datatype HeapReply = HeapReply(status: HeapStatus, block: Ptr)

  /** The answers of the collaborators, in the order a shim call may need them. */
  datatype Oracle = Oracle(
    initSegment: Ptr,     // sbrk, when the heap is first created
    createdHeap: Ptr,     // lub_heap_create
    first: HeapReply,     // the first lub_heap_realloc
    extendSegment: Ptr,   // sbrk, when the heap is extended after a failure
    retry: HeapReply)     // the retried lub_heap_realloc

  /** The calls sysheap_init_memory makes, given whether it already ran. */
  function InitCalls(initialised: bool, required: SizeT, env: Oracle): seq<Call>
  {
    if initialised then []
    else [Sbrk(SegmentSize(required)), HeapCreate(env.initSegment, SegmentSize(required))]
  }

  /**
   * The calls of one heap request with the shim's recovery: on FAILED the
   * heap is extended by one segment and, only when that succeeded, the
   * request is made once more (with the block the first call left).
   */
  function RetryCalls(heap: Ptr, block: Ptr, size: SizeT, align: Align, env: Oracle): seq<Call>
  {
    [HeapRealloc(heap, block, size, align)] + RecoveryCalls(heap, size, align, env)
  }

  /** The calls made after the first heap request. */
  function RecoveryCalls(heap: Ptr, size: SizeT, align: Align, env: Oracle): seq<Call>
  {
    if env.first.status != Failed then []
    else [Sbrk(SegmentSize(size))] + ExtensionCalls(heap, size, align, env)
  }

  /** The calls made once the extension segment has been asked for. */
  function ExtensionCalls(heap: Ptr, size: SizeT, align: Align, env: Oracle): seq<Call>
  {
    if env.extendSegment == Null then []
    else [HeapAddSegment(heap, env.extendSegment, SegmentSize(size)), HeapRealloc(heap, env.first.block, size, align)]
  }

  /**
   * The reply the shim acts on after its recovery: the first reply unless it
   * was FAILED and the extension obtained a segment, in which case the retry's.
   */
  function RetryReply(env: Oracle): (r: HeapReply)
    ensures env.first.status != Failed ==> r == env.first
    ensures env.first.status == Failed && env.extendSegment == Null ==> r == env.first
    ensures env.first.status == Failed && env.extendSegment != Null ==> r == env.retry
    ensures r.status == Failed ==> env.first.status == Failed && (env.extendSegment == Null || env.retry.status == Failed)
  {
    if env.first.status == Failed && env.extendSegment != Null then env.retry else env.first
  }

  /** The number of heap requests in a series of calls. */
  function ReallocCount(calls: seq<Call>): nat
  {
    if |calls| == 0 then 0
    else (if calls[0].HeapRealloc? then 1 else 0) + ReallocCount(calls[1..])
  }

  lemma {:induction false} ReallocCountAppend(a: seq<Call>, b: seq<Call>)
    ensures ReallocCount(a + b) == ReallocCount(a) + ReallocCount(b)
    decreases |a|
  {
    if |a| == 0 {
      assert a + b == b;
    } else {
      assert (a + b)[0] == a[0];
      assert (a + b)[1..] == a[1..] + b;
      ReallocCountAppend(a[1..], b);
    }
  }

  /** The number of sbrk calls in a series of calls. */
  function SbrkCount(calls: seq<Call>): nat
  {
    if |calls| == 0 then 0
    else (if calls[0].Sbrk? then 1 else 0) + SbrkCount(calls[1..])
  }

  lemma {:induction false} SbrkCountAppend(a: seq<Call>, b: seq<Call>)
    ensures SbrkCount(a + b) == SbrkCount(a) + SbrkCount(b)
    decreases |a|
  {
    if |a| == 0 {
      assert a + b == b;
    } else {
      assert (a + b)[0] == a[0];
      assert (a + b)[1..] == a[1..] + b;
      SbrkCountAppend(a[1..], b);
    }
  }

  /**
   * The heap is asked at most twice: a second time exactly when the first
   * answer was FAILED and the extension obtained a segment. The heap is
   * extended (one sbrk) exactly once after a FAILED first answer, and never
   * otherwise.
   */
  lemma RetriesAtMostOnce(heap: Ptr, block: Ptr, size: SizeT, align: Align, env: Oracle)
    ensures ReallocCount(RetryCalls(heap, block, size, align, env)) ==
      if env.first.status == Failed && env.extendSegment != Null then 2 else 1
    ensures SbrkCount(RetryCalls(heap, block, size, align, env)) ==
      if env.first.status == Failed then 1 else 0
  {
    var first := [HeapRealloc(heap, block, size, align)];
    ReallocCountAppend(first, RecoveryCalls(heap, size, align, env));
    SbrkCountAppend(first, RecoveryCalls(heap, size, align, env));
    if env.first.status == Failed {
      var sbrk := [Sbrk(SegmentSize(size))];
      ReallocCountAppend(sbrk, ExtensionCalls(heap, size, align, env));
      SbrkCountAppend(sbrk, ExtensionCalls(heap, size, align, env));
      if env.extendSegment != Null {
        var add := [HeapAddSegment(heap, env.extendSegment, SegmentSize(size))];
        var again := [HeapRealloc(heap, env.first.block, size, align)];
        ReallocCountAppend(add, again);
        SbrkCountAppend(add, again);
      }
    }
  }

  // ---------------------------------------------------------------------
  // The shim's state: sysMemPartition and the `initialised` flag
  // ---------------------------------------------------------------------

  class Shim {
    /** The static `initialised` flag of sysheap_init_memory. */
    var initialised: bool
    /** sysMemPartition.heap */
    var heap: Ptr
    /** Every call made to sbrk and to the heap, oldest first. */
    var trace: seq<Call>
    /** Every message written by sysheap_check_status, oldest first. */
    var diagnostics: seq<Diagnostic>

    /** The state of the process before any allocation entry point ran. */
    constructor ()
      ensures !initialised && heap == Null && trace == [] && diagnostics == []
    {
      initialised := false;
      heap := Null;
      trace := [];
      diagnostics := [];
    }

    /**
     * sysheap_init_memory: the first time only, sets the flag, obtains a
     * segment of SegmentSize(required) bytes from sbrk and creates the heap
     * over it. Later calls change nothing.
     */
    method InitMemory(required: SizeT, env: Oracle)
      modifies this`initialised, this`heap, this`trace
      ensures initialised
      ensures trace == old(trace) + InitCalls(old(initialised), required, env)
      ensures heap == if old(initialised) then old(heap) else env.createdHeap
    {
      if !initialised {
        initialised := true;
        var size := SegmentSize(required);
        trace := trace + [Sbrk(size)];
        var segment := env.initSegment;
        trace := trace + [HeapCreate(segment, size)];
        heap := env.createdHeap;
      }
    }

    /**
     * sysheap_extend_memory: obtains a segment of SegmentSize(required) bytes
     * from sbrk (its answer is `segment`) and, when that is not NULL, adds it
     * to the heap and reports success.
     */
    method ExtendMemory(required: SizeT, segment: Ptr) returns (extended: bool)
      modifies this`trace
      ensures extended <==> segment != Null
      ensures trace == old(trace) + [Sbrk(SegmentSize(required))] +
        if extended then [HeapAddSegment(heap, segment, SegmentSize(required))] else []
    {
      extended := false;
      var size := SegmentSize(required);
      trace := trace + [Sbrk(size)];
      if segment != Null {
        trace := trace + [HeapAddSegment(heap, segment, size)];
        extended := true;
      }
    }

    /**
     * The request-with-recovery sequence that `malloc`, `realloc` and
     * `memalign` each spell out: ask the heap; on FAILED extend the memory
     * once and, if that worked, ask once more.
     */
    method ReallocWithRetry(block: Ptr, size: SizeT, align: Align, env: Oracle) returns (status: HeapStatus, pBlock: Ptr)
      modifies this`trace
      ensures trace == old(trace) + RetryCalls(heap, block, size, align, env)
      ensures HeapReply(status, pBlock) == RetryReply(env)
    {
      trace := trace + [HeapRealloc(heap, block, size, align)];
      status, pBlock := env.first.status, env.first.block;
      if status == Failed {
        var extended := ExtendMemory(size, env.extendSegment);
        if extended {
          trace := trace + [HeapRealloc(heap, pBlock, size, align)];
          status, pBlock := env.retry.status, env.retry.block;
        }
      }
    }

    /** sysheap_check_status: writes the diagnostic `status` selects, if any. */
    method CheckStatus(status: HeapStatus, where: string, block: Ptr, size: SizeT)
      modifies this`diagnostics
      ensures diagnostics == old(diagnostics) + Reported(status, where, block, size)
    {
      match Diagnose(status, where, block, size)
      case None =>
      case Some(d) => diagnostics := diagnostics + [d];
    }

    /**
     * free: makes sure the heap exists, then asks it to release `ptr` with a
     * size-0, native-alignment request (its reply is `env.first`).
     */
    method Free(ptr: Ptr, env: Oracle)
      modifies this`initialised, this`heap, this`trace, this`diagnostics
      ensures initialised && heap == if old(initialised) then old(heap) else env.createdHeap
      ensures trace == old(trace) + InitCalls(old(initialised), 0, env) + [HeapRealloc(heap, ptr, 0, AlignNative)]
      ensures diagnostics == old(diagnostics) + Reported(env.first.status, "free", env.first.block, 0)
    {
      InitMemory(0, env);
      trace := trace + [HeapRealloc(heap, ptr, 0, AlignNative)];
      var status, pBlock := env.first.status, env.first.block;
      CheckStatus(status, "free", pBlock, 0);
    }

    /** cfree: the same as free. */
    method Cfree(ptr: Ptr, env: Oracle)
      modifies this`initialised, this`heap, this`trace, this`diagnostics
      ensures initialised && heap == if old(initialised) then old(heap) else env.createdHeap
      ensures trace == old(trace) + InitCalls(old(initialised), 0, env) + [HeapRealloc(heap, ptr, 0, AlignNative)]
      ensures diagnostics == old(diagnostics) + Reported(env.first.status, "free", env.first.block, 0)
    {
      Free(ptr, env);
    }

    /**
     * malloc: makes sure the heap exists, asks it for `nBytes` with native
     * alignment (with recovery) and returns whatever block pointer the heap
     * left, without looking at the status.
     */
    method Malloc(nBytes: SizeT, env: Oracle) returns (p: Ptr)
      modifies this`initialised, this`heap, this`trace, this`diagnostics
      ensures initialised && heap == if old(initialised) then old(heap) else env.createdHeap
      ensures trace == old(trace) + InitCalls(old(initialised), nBytes, env) + RetryCalls(heap, Null, nBytes, AlignNative, env)
      ensures diagnostics == old(diagnostics) + Reported(RetryReply(env).status, "malloc", Null, nBytes)
      ensures p == RetryReply(env).block
    {
      InitMemory(nBytes, env);
      var status, pBlock := ReallocWithRetry(Null, nBytes, AlignNative, env);
      CheckStatus(status, "malloc", Null, nBytes);
      p := pBlock;
    }

    /**
     * calloc: mallocs `nmemb * size` bytes (a `size_t` product, which wraps)
     * and, when the pointer is not NULL, zero-fills its first `size` bytes.
     */
    method Calloc(nmemb: SizeT, size: SizeT, env: Oracle) returns (p: Ptr)
      modifies this`initialised, this`heap, this`trace, this`diagnostics
      ensures initialised && heap == if old(initialised) then old(heap) else env.createdHeap
      ensures p == RetryReply(env).block
      ensures trace == old(trace) + InitCalls(old(initialised), MulWrap(nmemb, size), env)
        + RetryCalls(heap, Null, MulWrap(nmemb, size), AlignNative, env)
        + (if p != Null then [ZeroFill(p, size)] else [])
      ensures diagnostics == old(diagnostics) + Reported(RetryReply(env).status, "malloc", Null, MulWrap(nmemb, size))
    {
      p := Malloc(MulWrap(nmemb, size), env);
      if p != Null {
        trace := trace + [ZeroFill(p, size)];
      }
    }

    /**
     * memalign: looks the alignment up in the table; an alignment outside it
     * is FAILED without a heap call. Otherwise the heap is asked (with
     * recovery). Unlike the other entry points it never initialises the heap.
     * The block is returned only when the final status is OK.
     */
    method Memalign(alignment: U32, nBytes: U32, env: Oracle) returns (p: Ptr)
      modifies this`trace, this`diagnostics
      ensures AlignmentClass(alignment).None? ==>
        && trace == old(trace)
        && diagnostics == old(diagnostics) + [AllocationFailed("memalign", nBytes)]
        && p == Null
      ensures AlignmentClass(alignment).Some? ==>
        var reply := RetryReply(env);
        && trace == old(trace) + RetryCalls(heap, Null, nBytes, AlignmentClass(alignment).value, env)
        && diagnostics == old(diagnostics) + Reported(reply.status, "memalign", reply.block, nBytes)
        && p == if reply.status == Ok then reply.block else Null
    {
      var status := Ok;
      var pBlock := Null;
      var align := AlignmentClass(alignment);
      if align.None? {
        status := Failed;
      }
      if status == Ok {
        status, pBlock := ReallocWithRetry(Null, nBytes, align.value, env);
      }
      CheckStatus(status, "memalign", pBlock, nBytes);
      p := if status == Ok then pBlock else Null;
    }

    /**
     * realloc: makes sure the heap exists, asks it to resize `oldPtr` to
     * `nBytes` (with recovery) and returns the block only when the final
     * status is OK.
     */
    method Realloc(oldPtr: Ptr, nBytes: SizeT, env: Oracle) returns (p: Ptr)
      modifies this`initialised, this`heap, this`trace, this`diagnostics
      ensures initialised && heap == if old(initialised) then old(heap) else env.createdHeap
      ensures trace == old(trace) + InitCalls(old(initialised), nBytes, env) + RetryCalls(heap, oldPtr, nBytes, AlignNative, env)
      ensures diagnostics == old(diagnostics) + Reported(RetryReply(env).status, "realloc", RetryReply(env).block, nBytes)
      ensures p == if RetryReply(env).status == Ok then RetryReply(env).block else Null
    {
      InitMemory(nBytes, env);
      var status, pBlock := ReallocWithRetry(oldPtr, nBytes, AlignNative, env);
      CheckStatus(status, "realloc", pBlock, nBytes);
      p := if status == Ok then pBlock else Null;
    }

    /** valloc: memalign to the page size. */
    method Valloc(size: U32, env: Oracle) returns (p: Ptr)
      modifies this`trace, this`diagnostics
      ensures trace == old(trace) + RetryCalls(heap, Null, size, AlignPow2(12), env)
      ensures diagnostics == old(diagnostics) + Reported(RetryReply(env).status, "memalign", RetryReply(env).block, size)
      ensures p == if RetryReply(env).status == Ok then RetryReply(env).block else Null
    {
      p := Memalign(PageSize, size, env);
    }

    /** sysheap_suppress_leak_detection */
    method SuppressLeakDetection()
      modifies this`trace
      ensures trace == old(trace) + [LeakSuppress(heap)]
    {
      trace := trace + [LeakSuppress(heap)];
    }

    /** sysheap_restore_leak_detection */
    method RestoreLeakDetection()
      modifies this`trace
      ensures trace == old(trace) + [LeakRestore(heap)]
    {
      trace := trace + [LeakRestore(heap)];
    }
  }
}
