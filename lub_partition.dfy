/**
 * The quota side of a lub partition (lub/partition/partition_init.c and
 * lub/partition/partition_sysalloc.c): a record holding the partition's
 * spec, the byte ceiling it may still obtain from the system, a dying flag
 * and the handle of a global heap that is created on demand.
 */
module LubPartition {
  import opened MachineTypes

  /** lub_partition_spec_t: the configuration a partition is created with. */
  datatype Spec = Spec(memoryLimit: SizeT, minSegmentSize: SizeT)

  /** What one lub_partition_sysalloc call answers and the ceiling it leaves. */
  datatype Outcome = Outcome(block: Ptr, ceiling: SizeT)

  /**
   * The decision of lub_partition_sysalloc on a partition whose ceiling is
   * `ceiling`: memory is requested from the system only when `required` is
   * strictly below the ceiling; `obtained` is what that request (`malloc`)
   * returned. Only a granted request lowers the ceiling, by exactly `required`.
   */
  function SysallocOutcome(ceiling: SizeT, required: SizeT, obtained: Ptr): (r: Outcome)
    ensures r.block != Null <==> required < ceiling && obtained != Null
    ensures r.block != Null ==> r.block == obtained && r.ceiling == ceiling - required && r.ceiling > 0
    ensures r.block == Null ==> r.ceiling == ceiling
  {
    if required < ceiling && obtained != Null then Outcome(obtained, ceiling - required)
    else Outcome(Null, ceiling)
  }

  /** One call of lub_partition_sysalloc: the size asked for and what `malloc` would return. */
  datatype Request = Request(required: SizeT, obtained: Ptr)

  /** The ceiling left after a series of sysalloc calls. */
  function FinalCeiling(ceiling: SizeT, requests: seq<Request>): SizeT
    decreases |requests|
  {
    if |requests| == 0 then ceiling
    else
      var step := SysallocOutcome(ceiling, requests[0].required, requests[0].obtained);
      FinalCeiling(step.ceiling, requests[1..])
  }

  /** The bytes handed out by a series of sysalloc calls. */
  function Granted(ceiling: SizeT, requests: seq<Request>): nat
    decreases |requests|
  {
    if |requests| == 0 then 0
    else
      var step := SysallocOutcome(ceiling, requests[0].required, requests[0].obtained);
      (if step.block != Null then requests[0].required else 0) + Granted(step.ceiling, requests[1..])
  }

  /**
   * Over any series of sysalloc calls the ceiling never rises, and what it
   * lost is exactly what was handed out: the partition never grants more than
   * its initial ceiling.
   */
  lemma {:induction false} QuotaConserved(ceiling: SizeT, requests: seq<Request>)
    ensures FinalCeiling(ceiling, requests) <= ceiling
    ensures FinalCeiling(ceiling, requests) + Granted(ceiling, requests) == ceiling
    decreases |requests|
  {
    if |requests| > 0 {
      var step := SysallocOutcome(ceiling, requests[0].required, requests[0].obtained);
      QuotaConserved(step.ceiling, requests[1..]);
    }
  }

  /** lub_partition_t, with the fields the modelled operations touch. */
  class Partition {
    var spec: Spec
    var ceiling: SizeT
    var dying: bool
    /** m_global_heap: 0 until a global heap is created. */
    var globalHeap: Ptr
    /** The sizes `malloc` has been called with on this partition's behalf, in order. */
    ghost var mallocCalls: seq<SizeT>

    /**
     * lub_partition_init: copies the spec, sets the ceiling to the memory
     * limit less the size of the partition record itself (`recordSize`, i.e.
     * sizeof(lub_partition_t)), clears the dying flag and leaves the global
     * heap to be created on demand. The subtraction is unguarded `size_t`
     * arithmetic, so a memory limit below the record size wraps around.
     */
    method Init(s: Spec, recordSize: SizeT)
      modifies this
      ensures spec == s
      ensures ceiling == SubWrap(s.memoryLimit, recordSize)
      ensures !dying && globalHeap == Null
      ensures mallocCalls == old(mallocCalls)
    {
      spec := s;
      ceiling := SubWrap(s.memoryLimit, recordSize);
      dying := false;
      globalHeap := Null;
    }

    /**
     * lub_partition_kill: raises the dying flag; the teardown it then
     * attempts (lub_partition_time_to_die) is not part of this model.
     */
    method Kill()
      modifies this`dying
      ensures dying
    {
      dying := true;
    }

    /**
     * lub_partition_sysalloc: `obtained` is what `malloc(required)` returns
     * when it is called, and `malloc` is called only when `required` is
     * strictly below the ceiling. Only the ceiling and the record of malloc
     * calls may change; the spec, the dying flag and the heaps are neither
     * consulted nor touched.
     */
    method Sysalloc(required: SizeT, obtained: Ptr) returns (result: Ptr)
      modifies this`ceiling, this`mallocCalls
      ensures Outcome(result, ceiling) == SysallocOutcome(old(ceiling), required, obtained)
      ensures mallocCalls == old(mallocCalls) + (if required < old(ceiling) then [required] else [])
    {
      result := Null;
      if required < ceiling {
        mallocCalls := mallocCalls + [required];
        result := obtained;
        if result != Null {
          ceiling := ceiling - required;
        }
      }
    }
  }

  /**
   * A partition that has been killed still grants memory: lub_partition_sysalloc
   * does not look at the dying flag. Here a 1024-byte partition with a 24-byte
   * record is killed and then grants 500 bytes, and still refuses 2000
   * without calling `malloc` for it.
   */
  method KilledPartitionStillGrants(p: Partition, block: Ptr) returns (granted: Ptr, refused: Ptr)
    requires block != Null
    modifies p
    ensures p.dying
    ensures granted == block && refused == Null
    ensures p.ceiling == 1000 - 500
    ensures p.mallocCalls == old(p.mallocCalls) + [500]
  {
    p.Init(Spec(1024, 64), 24);
    p.Kill();
    granted := p.Sysalloc(500, block);
    refused := p.Sysalloc(2000, block);
  }
}
