/**
 Allocating and freeing (vllm/csrc/cumem_allocator.cpp, USE_ROCM): my_malloc and my_free. The
 Python callbacks and the host's malloc are outcomes that may be failures.
 */
module CumemMalloc {
  import opened Numbers
  import opened Options
  import opened CumemChunks
  import opened CumemDriver
  import opened CumemAllocator

  /** Where my_malloc ended. With a chunk size of zero it divides by zero. */
  datatype Stage = BadGranularity | NotReserved | DivisionByZero | NoHostMemory | CallbackFailed | NotCreated(outcome: Outcome) | Done

  /** An allocation: its address, the driver's view of its chunks, its aligned size. */
  datatype Allocation = Allocation(dMem: Address, size: int, handles: array<Handle>, chunkSizes: array<u64>)

  ghost predicate SameState(drv: Driver, live: map<Handle, int>, mapped: map<int, Mapping>, reserved: map<Address, int>)
    reads drv
  {
    drv.live == live && drv.mapped == mapped && drv.reserved == reserved
  }

  /** The table is empty or covers the allocation. */
  ghost predicate TableOk(a: Allocation)
    reads a.handles, a.chunkSizes
  {
    && a.handles.Length == a.chunkSizes.Length && Positive(a.chunkSizes[..])
    && (a.handles.Length > 0 ==> Sum(a.chunkSizes[..]) == a.size)
  }

  /** `a` is reserved, and its table mapped, on top of `live`, `mapped` and `reserved`. */
  ghost predicate Allocated(drv: Driver, a: Allocation, live: map<Handle, int>, mapped: map<int, Mapping>, reserved: map<Address, int>)
    reads drv, a.handles, a.chunkSizes
  {
    && TableOk(a)
    && Awake(drv, live, mapped, a.dMem, a.chunkSizes[..], a.handles[..])
    && a.dMem !in reserved && drv.reserved == reserved[a.dMem := a.size]
    && Unmapped(mapped, a.dMem, a.size)
  }

  /** The same while `a` sleeps: its range stays reserved, and nothing else of it is there. */
  ghost predicate Sleeping(drv: Driver, a: Allocation, live: map<Handle, int>, mapped: map<int, Mapping>, reserved: map<Address, int>)
    reads drv, a.handles, a.chunkSizes
  {
    && TableOk(a)
    && Asleep(drv, live, mapped, a.dMem, a.chunkSizes[..], a.handles[..])
    && a.dMem !in reserved && drv.reserved == reserved[a.dMem := a.size]
    && Unmapped(mapped, a.dMem, a.size)
  }

  lemma StillMapped(drv: Driver, a: Allocation, live: map<Handle, int>, mapped: map<int, Mapping>, reserved: map<Address, int>)
    requires drv.Valid() && Allocated(drv, a, live, mapped, reserved) && a.handles.Length > 0
    ensures !Unmapped(drv.mapped, a.dMem, a.size)
  {
    var sizes: seq<int> := a.chunkSizes[..];
    LaidIsMapped(drv.mapped, mapped, a.dMem, sizes, a.handles[..], |sizes|);
    assert ChunkMapped(drv.mapped, a.dMem, sizes, 0);
    OffsetStep(sizes, 0);
    OffsetsGrow(sizes, 0, |sizes|);
    assert sizes[..|sizes|] == sizes;
  }

  /** Gives a reserved range back after a failure. If that fails, too, its error is the one that
      is left behind. */
  method GiveBack(drv: Driver, dMem: Address, size: int, ghost reserved: map<Address, int>)
    requires drv.Valid() && drv.errorCode != 0 && dMem !in reserved && drv.reserved == reserved[dMem := size]
    modifies drv`reserved, drv`errorCode, drv`faults, drv`failures
    ensures drv.Valid() && drv.errorCode != 0 && drv.faults >= old(drv.faults)
    ensures old(drv.failures) <= drv.failures
    ensures dMem !in drv.reserved ==>
              drv.reserved == reserved && Unmapped(drv.mapped, dMem, size) && drv.errorCode == old(drv.errorCode)
    ensures dMem in drv.reserved ==>
              && drv.reserved == old(drv.reserved)
              && drv.failures != [] && drv.errorCode == drv.failures[|drv.failures| - 1]
    ensures drv.reliable && Unmapped(drv.mapped, dMem, size) ==> dMem !in drv.reserved
  {
    var status := drv.AddressFree(dMem, size);
    drv.Check(status);
  }

  /** The last part of my_malloc: map the reserved range, or give it back. */
  method MapReserved(drv: Driver, a: Allocation, ghost reserved: map<Address, int>) returns (ghost outcome: Outcome)
    requires drv.Valid() && drv.errorCode == 0 && TableOk(a) && a.size > 0
    requires a.dMem !in reserved && drv.reserved == reserved[a.dMem := a.size] && Unmapped(drv.mapped, a.dMem, a.size)
    modifies drv, a.handles
    ensures drv.Valid() && (drv.errorCode == 0 <==> outcome.Mapped?)
    ensures outcome.Mapped? || (outcome.AccessFailed? && a.handles.Length > 0) ==>
              Allocated(drv, a, old(drv.live), old(drv.mapped), reserved)
    ensures drv.errorCode != 0 && !(outcome.AccessFailed? && a.handles.Length > 0) && drv.reliable ==>
              SameState(drv, old(drv.live), old(drv.mapped), reserved)
    ensures outcome.AccessFailed? && a.handles.Length > 0 ==> a.dMem in drv.reserved && drv.mapped != old(drv.mapped)
    ensures outcome.Mapped? || drv.faults > old(drv.faults)
    ensures old(drv.failures) <= drv.failures
    ensures !outcome.Mapped? ==> drv.failures != old(drv.failures) && drv.errorCode == drv.failures[
              if a.dMem in drv.reserved then |drv.failures| - 1 else |old(drv.failures)|]
  {
    assert a.chunkSizes[..] == [] ==> Sum(a.chunkSizes[..]) == 0;
    outcome := CreateAndMap(drv, a.dMem, a.handles, a.chunkSizes);
    if drv.errorCode != 0 {
      if outcome.AccessFailed? && a.handles.Length > 0 { StillMapped(drv, a, old(drv.live), old(drv.mapped), reserved); }
      GiveBack(drv, a.dMem, a.size, reserved);
    }
  }

  /** Counting the chunks does not wrap. */
  ghost predicate Counted(alignedSize: u64, g: u64, env: EnvValue)
    requires g > 0
  {
    alignedSize + AlignUp64(MemcreateChunkSize(env), g) - 1 < TWO_64
  }

  /** The chunk table: it tiles the aligned size, or is empty if counting the chunks wraps. */
  ghost predicate TableFits(table: seq<int>, alignedSize: u64, chunk: u64, g: u64, counted: bool)
    requires g > 0
  {
    && (if counted then Tiles(table, alignedSize, chunk, g) else table == [])
    && Positive(table) && (table != [] ==> Sum(table) == alignedSize)
  }

  /** The host memory for the table, filled. */
  method BuildTable(size: u64, g: u64, env: EnvValue, alignedSize: u64, alignedChunkSize: u64)
    returns (handles: array<Handle>, chunkSizes: array<u64>)
    requires g > 0 && alignedSize == AlignUp64(size, g) > 0 && alignedChunkSize == AlignUp64(MemcreateChunkSize(env), g) > 0
    ensures fresh(handles) && fresh(chunkSizes) && handles.Length == chunkSizes.Length
    ensures TableFits(chunkSizes[..], alignedSize, alignedChunkSize, g, Counted(alignedSize, g, env))
  {
    AllocationTiles(size, g, env);
    var numChunks := NumChunks64(alignedSize, alignedChunkSize);
    handles, chunkSizes := new Handle[numChunks], new u64[numChunks];
    FillChunkSizes(alignedSize, alignedChunkSize, chunkSizes);
  }

  /** The part of my_malloc after the range was reserved: the chunk table, the callback, the mapping. */
  method AllocateReserved(drv: Driver, size: u64, env: EnvValue, dMem: Address, alignedSize: u64, hostMemory: bool, callback: bool,
                          ghost reserved: map<Address, int>)
    returns (result: Option<Allocation>, ghost stage: Stage)
    requires drv.Valid() && drv.errorCode == 0
    requires alignedSize == AlignUp64(size, drv.granularity) > 0
    requires dMem !in reserved && drv.reserved == reserved[dMem := alignedSize] && Unmapped(drv.mapped, dMem, alignedSize)
    modifies drv
    ensures drv.Valid()
    ensures result.Some? <==> stage.Done?
    ensures result.Some? ==>
              && drv.errorCode == 0
              && fresh(result.value.handles) && fresh(result.value.chunkSizes)
              && Allocated(drv, result.value, old(drv.live), old(drv.mapped), reserved)
              && result.value.size == alignedSize
              && if Counted(alignedSize, drv.granularity, env) then
                   Tiles(result.value.chunkSizes[..], alignedSize, AlignUp64(MemcreateChunkSize(env), drv.granularity), drv.granularity)
                 else result.value.chunkSizes.Length == 0
    ensures !stage.BadGranularity? && !stage.NotReserved?
    ensures stage.NoHostMemory? <==> !stage.DivisionByZero? && !hostMemory
    ensures stage.CallbackFailed? <==> !stage.DivisionByZero? && hostMemory && !callback
    ensures stage.DivisionByZero? <==> AlignUp64(MemcreateChunkSize(env), drv.granularity) == 0
    ensures stage.DivisionByZero? || stage.NoHostMemory? || stage.CallbackFailed? ==>
              drv.errorCode == 0 && SameState(drv, old(drv.live), old(drv.mapped), old(drv.reserved))
    ensures stage.NotCreated? ==> drv.errorCode != 0 && drv.faults > old(drv.faults)
    ensures old(drv.failures) <= drv.failures
    ensures stage.NotCreated? ==> drv.failures != old(drv.failures) && drv.errorCode == drv.failures[
              if dMem in drv.reserved then |drv.failures| - 1 else |old(drv.failures)|]
    ensures stage.NotCreated? && !(stage.outcome.AccessFailed? && Counted(alignedSize, drv.granularity, env)) && drv.reliable ==>
              SameState(drv, old(drv.live), old(drv.mapped), reserved)
    ensures stage.NotCreated? && stage.outcome.AccessFailed? && Counted(alignedSize, drv.granularity, env) ==>
              dMem in drv.reserved && drv.mapped != old(drv.mapped)
  {
    result := None;
    var alignedChunkSize := AlignUp64(MemcreateChunkSize(env), drv.granularity);
    if alignedChunkSize == 0 {
      return None, DivisionByZero;
    }
    if !hostMemory {
      return None, NoHostMemory;
    }
    var handles, chunkSizes := BuildTable(size, drv.granularity, env, alignedSize, alignedChunkSize);
    if !callback {
      return None, CallbackFailed;
    }
    var a := Allocation(dMem, alignedSize, handles, chunkSizes);
    ghost var outcome := MapReserved(drv, a, reserved);
    if drv.errorCode != 0 {
      return None, NotCreated(outcome);
    }
    result, stage := Some(a), Done;
  }

  /** my_malloc, for any request. With an error code left behind by an earlier failure it does
      nothing but fail. Otherwise it allocates, with a chunk table that tiles the aligned size
      unless the count of chunks wraps: then nothing is mapped. Or it fails and leaves the driver
      as it was, given a clean-up that works, unless the chunk size was rounded to zero, the host
      or the callback failed (the range stays reserved) or only setting the access failed
      (everything stays). There is no range for a size that is zero or rounded to zero. */
  method MyMalloc(drv: Driver, size: u64, env: EnvValue, hostMemory: bool, callback: bool)
    returns (result: Option<Allocation>, ghost stage: Stage, ghost range: Address)
    requires drv.Valid()
    modifies drv
    ensures drv.Valid()
    ensures old(drv.errorCode) != 0 ==>
              result.None? && drv.errorCode != 0 && SameState(drv, old(drv.live), old(drv.mapped), old(drv.reserved))
    ensures result.Some? <==> stage.Done?
    ensures result.Some? ==>
              && drv.errorCode == 0
              && fresh(result.value.handles) && fresh(result.value.chunkSizes)
              && Allocated(drv, result.value, old(drv.live), old(drv.mapped), old(drv.reserved))
              && IsAlignedUp(size, drv.granularity, result.value.size)
              && if Counted(AlignUp64(size, drv.granularity), drv.granularity, env) then
                   Tiles(result.value.chunkSizes[..], result.value.size, AlignUp64(MemcreateChunkSize(env), drv.granularity), drv.granularity)
                 else result.value.chunkSizes.Length == 0
    ensures size == 0 || size + drv.granularity - 1 >= TWO_64 ==> stage.BadGranularity? || stage.NotReserved?
    ensures stage.BadGranularity? || stage.NotReserved? ==> SameState(drv, old(drv.live), old(drv.mapped), old(drv.reserved))
    ensures !stage.BadGranularity? && !stage.NotReserved? && !stage.DivisionByZero? ==>
              && (stage.NoHostMemory? <==> !hostMemory)
              && (stage.CallbackFailed? <==> hostMemory && !callback)
    ensures !stage.BadGranularity? && !stage.NotReserved? ==>
              (stage.DivisionByZero? <==> MemcreateChunkSize(env) + drv.granularity - 1 >= TWO_64)
    ensures stage.DivisionByZero? || stage.NoHostMemory? || stage.CallbackFailed? ==>
              && range !in old(drv.reserved) && drv.errorCode == 0
              && SameState(drv, old(drv.live), old(drv.mapped), old(drv.reserved)[range := AlignUp64(size, drv.granularity)])
    ensures stage.NotCreated? ==> drv.errorCode != 0
    ensures stage.NotCreated? && drv.reliable
              && !(stage.outcome.AccessFailed? && Counted(AlignUp64(size, drv.granularity), drv.granularity, env)) ==>
              SameState(drv, old(drv.live), old(drv.mapped), old(drv.reserved))
    ensures stage.NotCreated? && stage.outcome.AccessFailed? && Counted(AlignUp64(size, drv.granularity), drv.granularity, env) ==>
              && range in drv.reserved && range !in old(drv.reserved)
              && drv.mapped != old(drv.mapped)
    ensures old(drv.errorCode) == 0 && 0 < size && size + drv.granularity - 1 < TWO_64 && hostMemory && callback
              && drv.faults == old(drv.faults) && MemcreateChunkSize(env) + drv.granularity - 1 < TWO_64 ==>
              result.Some?
    ensures old(drv.errorCode) == 0 && 0 < size && size + drv.granularity - 1 < TWO_64
              && (stage.BadGranularity? || stage.NotReserved? || stage.NotCreated?) ==>
              drv.faults > old(drv.faults)
    ensures old(drv.failures) <= drv.failures
    ensures stage.BadGranularity? || stage.NotReserved? ==>
              drv.errorCode == if drv.failures == old(drv.failures) then old(drv.errorCode) else drv.failures[|old(drv.failures)|]
    ensures stage.NotCreated? ==> drv.failures != old(drv.failures) && drv.errorCode == drv.failures[
              if range in drv.reserved then |drv.failures| - 1 else |old(drv.failures)|]
  {
    result, range := None, 0;
    var status := drv.GetGranularity();
    drv.Check(status);
    if drv.errorCode != 0 {
      return None, BadGranularity, 0;
    }
    var alignedSize := AlignUp64(size, drv.granularity);
    AlignUpIsZeroIff(size, drv.granularity);
    var dMem;
    status, dMem := drv.AddressReserve(alignedSize);
    drv.Check(status);
    if drv.errorCode != 0 {
      return None, NotReserved, 0;
    }
    range := dMem;
    AlignedIsExact(size, drv.granularity);
    AlignUpIsZeroIff(MemcreateChunkSize(env), drv.granularity);
    result, stage := AllocateReserved(drv, size, env, dMem, alignedSize, hostMemory, callback, old(drv.reserved));
  }

  /** An error code left behind by one call makes every later my_malloc fail without touching the
      driver, whatever is asked for and however often it is tried. */
  method ErrorSticks(drv: Driver, requests: seq<u64>, env: EnvValue, hostMemory: bool, callback: bool) returns (results: seq<Option<Allocation>>)
    requires drv.Valid() && drv.errorCode != 0
    modifies drv
    ensures |results| == |requests| && forall r <- results :: r.None?
    ensures drv.Valid() && drv.errorCode != 0 && SameState(drv, old(drv.live), old(drv.mapped), old(drv.reserved))
  {
    results := [];
    for i := 0 to |requests|
      invariant drv.Valid() && drv.errorCode != 0 && |results| == i && forall r <- results :: r.None?
      invariant SameState(drv, old(drv.live), old(drv.mapped), old(drv.reserved))
    {
      var r, stage, range := MyMalloc(drv, requests[i], env, hostMemory, callback);
      results := results + [r];
    }
  }

  /** Waking up another allocation after a failed my_malloc: the entry point raises, nothing is
      mapped, and the first handle of the table is created and leaked unless the driver is at fault. */
  method WakeAfterFailedMalloc(drv: Driver, size: u64, env: EnvValue, hostMemory: bool, callback: bool,
                               dMem: Address, handles: array<Handle>, chunkSizes: array<u64>)
    returns (failed: bool, raised: bool, code: int, ghost live: map<Handle, int>, ghost mapped: map<int, Mapping>, ghost faults: nat)
    requires drv.Valid() && 0 < handles.Length == chunkSizes.Length && Positive(chunkSizes[..])
    modifies drv, handles
    ensures drv.Valid() && (failed ==> drv.errorCode == 0)
    ensures failed ==> raised && drv.mapped == mapped
    ensures failed ==> if drv.faults == faults then OneMoreHandle(live, drv.live, chunkSizes[0]) else drv.live == live
  {
    var result, stage, range := MyMalloc(drv, size, env, hostMemory, callback);
    failed, raised, code := drv.errorCode != 0, false, drv.errorCode;
    live, mapped, faults := drv.live, drv.mapped, drv.faults;
    if failed {
      ghost var outcome;
      raised, code, outcome := PythonCreateAndMap(drv, dMem, handles, chunkSizes);
    }
  }

  /** my_free of an allocation that is awake or asleep, with the size that the caller passes and
      whatever error code was left behind. Given a clean-up that works the chunks go in any case,
      and the address range exactly when that size is the aligned one. The error code is clear
      afterwards exactly when it was clear before, the size is right and there was nothing of the
      table left to unmap in vain. */
  method MyFree(drv: Driver, a: Allocation, size: int, callback: bool, ghost awake: bool,
                ghost live: map<Handle, int>, ghost mapped: map<int, Mapping>, ghost reserved: map<Address, int>)
    requires drv.Valid()
    requires if awake then Allocated(drv, a, live, mapped, reserved) else Sleeping(drv, a, live, mapped, reserved)
    modifies drv
    ensures drv.Valid()
    ensures !callback ==>
              drv.errorCode == old(drv.errorCode) && SameState(drv, old(drv.live), old(drv.mapped), old(drv.reserved))
    ensures callback && drv.reliable ==>
              SameState(drv, live, mapped, if size == a.size then reserved else old(drv.reserved))
    ensures callback && drv.reliable ==>
              (drv.errorCode == 0 <==> old(drv.errorCode) == 0 && size == a.size && (awake || a.handles.Length == 0))
    ensures callback && !awake ==> drv.live == live && drv.mapped == mapped && (a.handles.Length > 0 ==> drv.errorCode != 0)
    ensures callback && drv.reliable && size == a.size && (awake || a.handles.Length == 0) ==> drv.errorCode == old(drv.errorCode)
    ensures old(drv.failures) <= drv.failures
    ensures callback && drv.reserved != old(drv.reserved) ==>
              drv.errorCode == if drv.failures == old(drv.failures) then old(drv.errorCode) else drv.failures[|old(drv.failures)|]
    ensures callback && drv.reserved == old(drv.reserved) ==>
              drv.failures != old(drv.failures) && drv.errorCode == drv.failures[|drv.failures| - 1]
  {
    if !callback {
      return;
    }
    PutToSleep(drv, a.dMem, a.handles, a.chunkSizes, awake, live, mapped);
    var status := drv.AddressFree(a.dMem, size);
    drv.Check(status);
  }

  /** Freeing an allocation while it sleeps, with the right size and a driver that never fails to
      clean up. Putting it to sleep raises nothing and freeing it gives the range back, but an
      error code stays behind: every later my_malloc fails, and the wake-up of the next
      allocation raises, maps nothing and leaks its first handle unless the driver is at fault. */
  method FreeWhileAsleep(drv: Driver, a: Allocation, requests: seq<u64>, env: EnvValue, hostMemory: bool, callback: bool,
                         dMem: Address, handles: array<Handle>, chunkSizes: array<u64>,
                         ghost live: map<Handle, int>, ghost mapped: map<int, Mapping>, ghost reserved: map<Address, int>)
    returns (sleepRaised: bool, results: seq<Option<Allocation>>, wakeRaised: bool, wakeCode: int, ghost faults: nat)
    requires drv.Valid() && drv.reliable && drv.errorCode == 0 && a.handles.Length > 0
    requires Allocated(drv, a, live, mapped, reserved)
    requires 0 < handles.Length == chunkSizes.Length && Positive(chunkSizes[..])
    modifies drv, handles
    ensures drv.Valid() && drv.errorCode == 0
    ensures !sleepRaised && wakeRaised
    ensures |results| == |requests| && forall r <- results :: r.None?
    ensures drv.mapped == mapped && drv.reserved == reserved
    ensures if drv.faults == faults then OneMoreHandle(live, drv.live, chunkSizes[0]) else drv.live == live
  {
    var sleepCode;
    sleepRaised, sleepCode := PythonUnmapAndRelease(drv, a.dMem, a.handles, a.chunkSizes, true, live, mapped);
    MyFree(drv, a, a.size, true, false, live, mapped, reserved);
    results := ErrorSticks(drv, requests, env, hostMemory, callback);
    faults := drv.faults;
    ghost var outcome;
    wakeRaised, wakeCode, outcome := PythonCreateAndMap(drv, dMem, handles, chunkSizes);
  }

  /** Allocating and freeing with the aligned size is no change at all. */
  method MallocThenFree(drv: Driver, size: u64, env: EnvValue, hostMemory: bool, callback: bool) returns (done: bool)
    requires drv.Valid() && drv.reliable
    modifies drv
    ensures done ==> drv.errorCode == 0 && SameState(drv, old(drv.live), old(drv.mapped), old(drv.reserved))
  {
    var result, stage, range := MyMalloc(drv, size, env, hostMemory, callback);
    done := result.Some?;
    if done {
      MyFree(drv, result.value, result.value.size, true, true, old(drv.live), old(drv.mapped), old(drv.reserved));
    }
  }
}
