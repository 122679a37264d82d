/**
 Mapping and unmapping chunks (vllm/csrc/cumem_allocator.cpp, USE_ROCM): create_and_map with its
 rollback, unmap_and_release and the two Python entry points.
 */
module CumemAllocator {
  import opened CumemChunks
  import opened CumemDriver
  import opened Numbers

  /** How far create_and_map got. `Leaked`: an error code that was there before ended it after
      its first handle, which stays. */
  datatype Outcome = CreateFailed | Leaked | MapFailed | AccessFailed | Mapped

  /** `live` and one more handle, of `size` bytes. */
  ghost predicate OneMoreHandle(live: map<Handle, int>, live': map<Handle, int>, size: int) {
    exists h: Handle :: h !in live && live' == live[h := size]
  }

  /** Nothing of this table is in the state yet. */
  ghost predicate Disjoint(live: map<Handle, int>, handles: seq<Handle>, k: nat)
    requires k <= |handles|
  {
    forall i :: 0 <= i < k ==> handles[i] !in live
  }

  // ----- Releasing and unmapping a table -----

  /** Releases the first `k` handles. The calls for handles that are not live fail and change
      nothing; what the calls return is ignored by some callers. */
  method ReleaseHandles(drv: Driver, handles: array<Handle>, k: nat) returns (firstError: int)
    requires drv.Valid() && k <= handles.Length && DistinctHandles(handles[..], k)
    modifies drv`live, drv`faults, drv`failures
    ensures drv.Valid()
    ensures old(drv.failures) <= drv.failures
    ensures firstError == if drv.failures == old(drv.failures) then 0 else drv.failures[|old(drv.failures)|]
    ensures drv.reliable ==> drv.live == old(drv.live) - HandleSet(handles[..], k)
    ensures drv.reliable ==> (firstError == 0 <==> HandleSet(handles[..], k) <= old(drv.live).Keys)
    ensures firstError == 0 ==> HandleSet(handles[..], k) <= old(drv.live).Keys && drv.live == old(drv.live) - HandleSet(handles[..], k)
    ensures HandleSet(handles[..], k) <= old(drv.live).Keys && firstError != 0 ==> drv.faults > old(drv.faults)
    ensures Disjoint(old(drv.live), handles[..], k) ==>
              drv.live == old(drv.live) && drv.faults == old(drv.faults) && (firstError == 0 <==> k == 0)
    ensures drv.faults >= old(drv.faults)
  {
    firstError := 0;
    for j := 0 to k
      invariant drv.Valid() && drv.faults >= old(drv.faults)
      invariant Disjoint(old(drv.live), handles[..], k) ==>
                  drv.live == old(drv.live) && drv.faults == old(drv.faults) && (firstError == 0 <==> j == 0)
      invariant firstError != 0 && HandleSet(handles[..], k) <= old(drv.live).Keys ==> drv.faults > old(drv.faults)
      invariant drv.reliable || firstError == 0 ==> drv.live == old(drv.live) - HandleSet(handles[..], j)
      invariant firstError == 0 ==> HandleSet(handles[..], j) <= old(drv.live).Keys
      invariant drv.reliable && HandleSet(handles[..], j) <= old(drv.live).Keys ==> firstError == 0
      invariant forall h <- old(drv.live) :: h !in HandleSet(handles[..], j) ==> h in drv.live
      invariant drv.live.Keys <= old(drv.live).Keys
      invariant old(drv.failures) <= drv.failures
      invariant firstError == if drv.failures == old(drv.failures) then 0 else drv.failures[|old(drv.failures)|]
    {
      OneMoreHandleOf(handles[..], j);
      assert handles[j] in HandleSet(handles[..], k);
      var status := drv.MemRelease(handles[j]);
      if status != 0 && firstError == 0 {
        firstError := status;
      }
    }
  }

  lemma OneMoreHandleOf(handles: seq<Handle>, j: nat)
    requires j < |handles|
    ensures HandleSet(handles, j + 1) == HandleSet(handles, j) + {handles[j]}
    ensures DistinctHandles(handles, j + 1) ==> handles[j] !in HandleSet(handles, j)
  {}

  /** Chunk `i` is mapped where the table has it, whatever backs it. */
  ghost predicate ChunkMapped(mapped: map<int, Mapping>, d: Address, sizes: seq<int>, i: nat)
    requires i < |sizes|
  {
    AddressOf(d, sizes, i) in mapped && mapped[AddressOf(d, sizes, i)].size == sizes[i]
  }

  ghost predicate AllMapped(mapped: map<int, Mapping>, d: Address, sizes: seq<int>, k: nat)
    requires k <= |sizes|
  {
    forall i :: 0 <= i < k ==> ChunkMapped(mapped, d, sizes, i)
  }

  /** The addresses of the first `k` chunks that are mapped. */
  ghost function MappedOnes(mapped: map<int, Mapping>, d: Address, sizes: seq<int>, k: nat): set<int>
    requires k <= |sizes|
  {
    set i | 0 <= i < k && ChunkMapped(mapped, d, sizes, i) :: AddressOf(d, sizes, i)
  }

  /** Nothing is mapped at the address of any of the first `k` chunks. */
  ghost predicate NoneMapped(mapped: map<int, Mapping>, d: Address, sizes: seq<int>, k: nat)
    requires k <= |sizes|
  {
    forall i :: 0 <= i < k ==> AddressOf(d, sizes, i) !in mapped
  }

  /** After the chunks before `j`: mapped is a part of what was mapped, and the rest is untouched. */
  ghost predicate RestMapped(now: map<int, Mapping>, was: map<int, Mapping>, d: Address, sizes: seq<int>, j: nat)
    requires j <= |sizes|
  {
    && (forall a <- was :: a !in MappedOnes(was, d, sizes, j) ==> a in now)
    && forall a <- now :: a in was && now[a] == was[a]
  }

  lemma NextChunk(now: map<int, Mapping>, was: map<int, Mapping>, d: Address, sizes: seq<int>, j: nat, k: nat)
    requires j < k <= |sizes| && Positive(sizes) && RestMapped(now, was, d, sizes, j)
    ensures ChunkMapped(now, d, sizes, j) <==> ChunkMapped(was, d, sizes, j)
    ensures RestMapped(now, was, d, sizes, j + 1)
    ensures ChunkMapped(was, d, sizes, j) ==> RestMapped(now - {AddressOf(d, sizes, j)}, was, d, sizes, j + 1)
    ensures now == was - MappedOnes(was, d, sizes, j) ==>
              was - MappedOnes(was, d, sizes, j + 1) == if ChunkMapped(was, d, sizes, j) then now - {AddressOf(d, sizes, j)} else now
    ensures AllMapped(was, d, sizes, j + 1) <==> AllMapped(was, d, sizes, j) && ChunkMapped(was, d, sizes, j)
    ensures AllMapped(was, d, sizes, k) ==> ChunkMapped(was, d, sizes, j)
    ensures NoneMapped(was, d, sizes, k) ==> !ChunkMapped(was, d, sizes, j)
  {
    OneMoreMappedOne(was, d, sizes, j);
  }

  lemma OneMoreMappedOne(mapped: map<int, Mapping>, d: Address, sizes: seq<int>, j: nat)
    requires j < |sizes| && Positive(sizes)
    ensures MappedOnes(mapped, d, sizes, j + 1)
         == MappedOnes(mapped, d, sizes, j) + if ChunkMapped(mapped, d, sizes, j) then {AddressOf(d, sizes, j)} else {}
    ensures AddressOf(d, sizes, j) !in MappedOnes(mapped, d, sizes, j)
  {
    forall i | 0 <= i < j ensures AddressOf(d, sizes, i) != AddressOf(d, sizes, j) {
      AddressesDiffer(d, sizes, i, j);
    }
  }

  lemma AllMappedOnes(mapped: map<int, Mapping>, d: Address, sizes: seq<int>, k: nat)
    requires k <= |sizes|
    ensures AllMapped(mapped, d, sizes, k) ==> MappedOnes(mapped, d, sizes, k) == AddressSet(d, sizes, k)
    ensures NoneMapped(mapped, d, sizes, k) ==> MappedOnes(mapped, d, sizes, k) == {}
  {
    if AllMapped(mapped, d, sizes, k) {
      forall a | a in AddressSet(d, sizes, k) ensures a in MappedOnes(mapped, d, sizes, k) {
        var i :| 0 <= i < k && a == AddressOf(d, sizes, i);
        assert ChunkMapped(mapped, d, sizes, i);
      }
    }
  }

  /** What unmapping the first `j` of `k` chunks, from `was` to `now`, can have come to. */
  ghost predicate Unmapping(now: map<int, Mapping>, was: map<int, Mapping>, faults: nat, faultsBefore: nat, reliable: bool,
                            firstError: int, d: Address, sizes: seq<int>, j: nat, k: nat)
    requires j <= k <= |sizes|
  {
    && RestMapped(now, was, d, sizes, j) && faults >= faultsBefore
    && (NoneMapped(was, d, sizes, k) ==> now == was && faults == faultsBefore && (firstError == 0 <==> j == 0))
    && (AllMapped(was, d, sizes, k) && firstError != 0 ==> faults > faultsBefore)
    && (reliable || firstError == 0 ==> now == was - MappedOnes(was, d, sizes, j))
    && (firstError == 0 ==> AllMapped(was, d, sizes, j))
    && (reliable && AllMapped(was, d, sizes, j) ==> firstError == 0)
  }

  /** One more call, with the effect that it has on the driver. */
  lemma UnmappedOne(now: map<int, Mapping>, now': map<int, Mapping>, was: map<int, Mapping>, faults: nat, faults': nat,
                    faultsBefore: nat, reliable: bool, firstError: int, status: int, d: Address, sizes: seq<int>, j: nat, k: nat)
    requires j < k <= |sizes| && Positive(sizes)
    requires Unmapping(now, was, faults, faultsBefore, reliable, firstError, d, sizes, j, k)
    requires status == 0 ==> ChunkMapped(now, d, sizes, j)
    requires now' == if status == 0 then now - {AddressOf(d, sizes, j)} else now
    requires reliable && ChunkMapped(now, d, sizes, j) ==> status == 0
    requires faults' == faults + if status != 0 && ChunkMapped(now, d, sizes, j) then 1 else 0
    ensures Unmapping(now', was, faults', faultsBefore, reliable, if status != 0 && firstError == 0 then status else firstError,
                      d, sizes, j + 1, k)
  {
    NextChunk(now, was, d, sizes, j, k);
  }

  /** Unmaps the first `k` chunks at the offsets at which they were mapped. The calls for chunks
      that are not mapped fail and change nothing. */
  method UnmapChunks(drv: Driver, dMem: Address, chunkSizes: array<u64>, k: nat) returns (firstError: int)
    requires drv.Valid() && k <= chunkSizes.Length && Positive(chunkSizes[..])
    modifies drv`mapped, drv`faults, drv`failures
    ensures drv.Valid()
    ensures old(drv.failures) <= drv.failures
    ensures firstError == if drv.failures == old(drv.failures) then 0 else drv.failures[|old(drv.failures)|]
    ensures drv.reliable ==> drv.mapped == old(drv.mapped) - MappedOnes(old(drv.mapped), dMem, chunkSizes[..], k)
    ensures drv.reliable ==> (firstError == 0 <==> AllMapped(old(drv.mapped), dMem, chunkSizes[..], k))
    ensures firstError == 0 ==>
              && AllMapped(old(drv.mapped), dMem, chunkSizes[..], k)
              && drv.mapped == old(drv.mapped) - MappedOnes(old(drv.mapped), dMem, chunkSizes[..], k)
    ensures AllMapped(old(drv.mapped), dMem, chunkSizes[..], k) && firstError != 0 ==> drv.faults > old(drv.faults)
    ensures NoneMapped(old(drv.mapped), dMem, chunkSizes[..], k) ==>
              drv.mapped == old(drv.mapped) && drv.faults == old(drv.faults) && (firstError == 0 <==> k == 0)
    ensures drv.faults >= old(drv.faults)
  {
    firstError := 0;
    var unmappedSize: int := 0;
    ghost var sizes: seq<int>, was := chunkSizes[..], drv.mapped;
    for j := 0 to k
      invariant drv.Valid() && unmappedSize == Offset(sizes, j)
      invariant Unmapping(drv.mapped, was, drv.faults, old(drv.faults), drv.reliable, firstError, dMem, sizes, j, k)
      invariant old(drv.failures) <= drv.failures
      invariant firstError == if drv.failures == old(drv.failures) then 0 else drv.failures[|old(drv.failures)|]
    {
      OffsetStep(sizes, j);
      ghost var now, faults := drv.mapped, drv.faults;
      var status := drv.MemUnmap(dMem + unmappedSize, chunkSizes[j]);
      UnmappedOne(now, drv.mapped, was, faults, drv.faults, old(drv.faults), drv.reliable, firstError, status, dMem, sizes, j, k);
      if status != 0 && firstError == 0 {
        firstError := status;
      }
      unmappedSize := unmappedSize + chunkSizes[j];
    }
  }

  // ----- Maps with a table added and taken away -----

  lemma AddThenRemove<K, V>(base: map<K, V>, more: map<K, V>, keys: set<K>)
    requires more.Keys == keys && base.Keys !! keys
    ensures (base + more) - keys == base
  {}

  // ----- create_and_map -----

  /** The clean-up: everything created so far is released, whatever the calls return. */
  method RollBackHandles(drv: Driver, handles: array<Handle>, k: nat, ghost sizes: seq<int>, ghost base: map<Handle, int>)
    requires drv.Valid() && k <= handles.Length && k <= |sizes|
    requires DistinctHandles(handles[..], k) && Disjoint(base, handles[..], k)
    requires drv.live == base + LiveOf(sizes, handles[..], k)
    modifies drv`live, drv`faults, drv`failures
    ensures drv.Valid()
    ensures old(drv.failures) <= drv.failures
    ensures drv.reliable ==> drv.live == base
    ensures drv.faults >= old(drv.faults) && (k == 0 ==> drv.live == old(drv.live))
  {
    LivesAre(sizes, handles[..], k);
    AddThenRemove(base, LiveOf(sizes, handles[..], k), HandleSet(handles[..], k));
    var _ := ReleaseHandles(drv, handles, k);
  }

  /** The live handles are `base` and the first `k` of the table. */
  ghost predicate Created(live: map<Handle, int>, base: map<Handle, int>, sizes: seq<int>, handles: seq<Handle>, k: nat)
    requires k <= |handles| && k <= |sizes|
  {
    && DistinctHandles(handles, k) && Disjoint(base, handles, k)
    && live == base + LiveOf(sizes, handles, k)
  }

  lemma OneMoreCreated(live: map<Handle, int>, base: map<Handle, int>, sizes: seq<int>, handles: seq<Handle>, i: nat, h: Handle)
    requires i < |handles| == |sizes| && Created(live, base, sizes, handles, i) && h !in live
    ensures Created(live[h := sizes[i]], base, sizes, handles[i := h], i + 1)
    ensures Created(live, base, sizes, handles[i := h], i)
  {
    var handles' := handles[i := h];
    assert handles'[..i] == handles[..i];
    SameLive(sizes, handles, handles', i);
    LivesAre(sizes, handles, i);
    assert forall j :: 0 <= j < i ==> handles'[j] == handles[j] && handles[j] in live;
  }

  /** One creation, into cell `i`. */
  method CreateOne(drv: Driver, handles: array<Handle>, i: nat, size: u64, ghost sizes: seq<int>, ghost base: map<Handle, int>)
    requires drv.Valid() && i < handles.Length == |sizes| && size == sizes[i]
    requires Created(drv.live, base, sizes, handles[..], i)
    modifies drv`live, drv`nextHandle, drv`errorCode, drv`faults, drv`failures, handles
    ensures drv.Valid()
    ensures old(drv.failures) <= drv.failures
    ensures drv.errorCode == if drv.failures == old(drv.failures) then old(drv.errorCode) else drv.failures[|old(drv.failures)|]
    ensures drv.errorCode == 0 ==> old(drv.errorCode) == 0 && Created(drv.live, base, sizes, handles[..], i + 1)
    ensures drv.errorCode != 0 && old(drv.errorCode) == 0 ==> Created(drv.live, base, sizes, handles[..], i) && drv.faults > old(drv.faults)
    ensures drv.faults >= old(drv.faults)
    ensures if drv.faults == old(drv.faults) then OneMoreHandle(old(drv.live), drv.live, size) else drv.live == old(drv.live)
  {
    var status, h := drv.MemCreate(size);
    if status == 0 {
      OneMoreCreated(old(drv.live), base, sizes, handles[..], i, h);
      ghost var handles' := handles[..][i := h];
      handles[i] := h;
      assert handles[..] == handles';
    }
    drv.Check(status);
  }

  /** The first loop. With a clear error code it creates all handles or, given a reliable
      clean-up, none. */
  method CreateHandles(drv: Driver, handles: array<Handle>, chunkSizes: array<u64>)
    requires drv.Valid() && handles.Length == chunkSizes.Length
    modifies drv`live, drv`nextHandle, drv`errorCode, drv`faults, drv`failures, handles
    ensures drv.Valid()
    ensures old(drv.failures) <= drv.failures
    ensures drv.errorCode == if drv.failures == old(drv.failures) then old(drv.errorCode) else drv.failures[|old(drv.failures)|]
    ensures drv.errorCode == 0 ==> Created(drv.live, old(drv.live), chunkSizes[..], handles[..], handles.Length)
    ensures old(drv.errorCode) == 0 && drv.errorCode != 0 && drv.reliable ==> drv.live == old(drv.live)
    ensures old(drv.errorCode) == 0 && drv.errorCode != 0 ==> drv.faults > old(drv.faults)
    ensures drv.faults >= old(drv.faults)
    ensures handles.Length == 0 ==> drv.errorCode == old(drv.errorCode) && drv.live == old(drv.live) && drv.failures == old(drv.failures)
    ensures old(drv.errorCode) != 0 && handles.Length > 0 ==>
              && drv.errorCode != 0
              && if drv.faults == old(drv.faults) then OneMoreHandle(old(drv.live), drv.live, chunkSizes[0])
                 else drv.live == old(drv.live)
  {
    ghost var sizes: seq<int>, base := chunkSizes[..], drv.live;
    for i := 0 to handles.Length
      invariant drv.Valid() && Created(drv.live, base, sizes, handles[..], i) && drv.faults >= old(drv.faults)
      invariant i == 0 ==> drv.live == old(drv.live) && drv.faults == old(drv.faults)
      invariant if i == 0 then drv.errorCode == old(drv.errorCode) else drv.errorCode == 0 && old(drv.errorCode) == 0
      invariant drv.failures == old(drv.failures)
    {
      CreateOne(drv, handles, i, chunkSizes[i], sizes, base);
      if drv.errorCode != 0 {
        if i == 0 {
          var _ := ReleaseHandles(drv, handles, 0);
        } else {
          RollBackHandles(drv, handles, i, sizes, base);
        }
        return;
      }
    }
  }

  lemma {:induction false} SameLive(sizes: seq<int>, a: seq<Handle>, b: seq<Handle>, k: nat)
    requires k <= |sizes| && k <= |a| && k <= |b| && a[..k] == b[..k]
    ensures LiveOf(sizes, a, k) == LiveOf(sizes, b, k)
    decreases k
  {
    if k > 0 {
      assert a[..k][..k - 1] == a[..k - 1] && b[..k][..k - 1] == b[..k - 1];
      assert a[..k][k - 1] == b[..k][k - 1];
      SameLive(sizes, a, b, k - 1);
    }
  }

  // ----- The second loop -----

  /** The mappings are `base` and the first `k` chunks of the table. */
  ghost predicate Laid(mapped: map<int, Mapping>, base: map<int, Mapping>, d: Address, sizes: seq<int>, handles: seq<Handle>, k: nat)
    requires k <= |handles| && k <= |sizes|
  {
    && (forall i :: 0 <= i < k ==> AddressOf(d, sizes, i) !in base)
    && mapped == base + MappingsOf(d, sizes, handles, k)
  }

  lemma LaidIsMapped(mapped: map<int, Mapping>, base: map<int, Mapping>, d: Address, sizes: seq<int>, handles: seq<Handle>, k: nat)
    requires k <= |handles| && k <= |sizes| && Positive(sizes) && Laid(mapped, base, d, sizes, handles, k)
    ensures AllMapped(mapped, d, sizes, k)
    ensures mapped - AddressSet(d, sizes, k) == base
  {
    MappingsAre(d, sizes, handles, k);
    MappingKeys(d, sizes, handles, k);
    forall i | 0 <= i < k ensures ChunkMapped(mapped, d, sizes, i) {
      assert MappingAt(MappingsOf(d, sizes, handles, k), d, sizes, handles, i);
    }
    AddThenRemove(base, MappingsOf(d, sizes, handles, k), AddressSet(d, sizes, k));
  }

  lemma LaidIsRemoved(mapped: map<int, Mapping>, base: map<int, Mapping>, d: Address, sizes: seq<int>, handles: seq<Handle>, k: nat)
    requires k <= |handles| && k <= |sizes| && Positive(sizes) && Laid(mapped, base, d, sizes, handles, k)
    ensures mapped - MappedOnes(mapped, d, sizes, k) == base
  {
    LaidIsMapped(mapped, base, d, sizes, handles, k);
    AllMappedOnes(mapped, d, sizes, k);
  }

  lemma OneMoreLaid(mapped: map<int, Mapping>, base: map<int, Mapping>, d: Address, sizes: seq<int>, handles: seq<Handle>, i: nat)
    requires i < |handles| && i < |sizes| && Positive(sizes) && Laid(mapped, base, d, sizes, handles, i)
    requires forall a <- mapped :: mapped[a].size > 0
    requires Unmapped(mapped, AddressOf(d, sizes, i), sizes[i])
    ensures Laid(mapped[AddressOf(d, sizes, i) := Mapping(sizes[i], handles[i])], base, d, sizes, handles, i + 1)
  {
    assert base.Keys <= mapped.Keys;
  }

  lemma IsLive(live: map<Handle, int>, base: map<Handle, int>, sizes: seq<int>, handles: seq<Handle>, i: nat)
    requires i < |handles| == |sizes| && Created(live, base, sizes, handles, |handles|)
    ensures handles[i] in live
  {
    LivesAre(sizes, handles, |handles|);
  }

  /** While nothing is mapped in the range of the table, the place of the next chunk is free. */
  lemma NextIsFree(mapped: map<int, Mapping>, base: map<int, Mapping>, d: Address, sizes: seq<int>, handles: seq<Handle>, i: nat)
    requires i < |handles| && i < |sizes| && Positive(sizes) && Laid(mapped, base, d, sizes, handles, i)
    requires Unmapped(base, d, Sum(sizes))
    ensures Unmapped(mapped, AddressOf(d, sizes, i), sizes[i])
  {
    assert sizes[..|sizes|] == sizes;
    OffsetsGrow(sizes, 0, i);
    OffsetsGrow(sizes, i, |sizes|);
    MappingsAre(d, sizes, handles, i);
    MappingKeys(d, sizes, handles, i);
    forall a | a in mapped
      ensures a + mapped[a].size <= AddressOf(d, sizes, i) || AddressOf(d, sizes, i) + sizes[i] <= a
    {
      if a in MappingsOf(d, sizes, handles, i) {
        var j :| 0 <= j < i && a == AddressOf(d, sizes, j);
        assert MappingAt(MappingsOf(d, sizes, handles, i), d, sizes, handles, j);
        OffsetsGrow(sizes, j, i);
      }
    }
  }

  /** Maps chunk `i`. */
  method MapOne(drv: Driver, dMem: Address, addr: int, size: u64, handles: seq<Handle>, i: nat,
                ghost sizes: seq<int>, ghost liveBase: map<Handle, int>, ghost base: map<int, Mapping>)
    requires drv.Valid() && drv.errorCode == 0 && i < |handles| == |sizes| && Positive(sizes)
    requires addr == AddressOf(dMem, sizes, i) && size == sizes[i]
    requires Created(drv.live, liveBase, sizes, handles, |handles|) && Laid(drv.mapped, base, dMem, sizes, handles, i)
    modifies drv`mapped, drv`errorCode, drv`faults, drv`failures
    ensures drv.Valid() && drv.faults >= old(drv.faults)
    ensures old(drv.failures) <= drv.failures
    ensures drv.errorCode == if drv.failures == old(drv.failures) then old(drv.errorCode) else drv.failures[|old(drv.failures)|]
    ensures Laid(drv.mapped, base, dMem, sizes, handles, if drv.errorCode == 0 then i + 1 else i)
    ensures drv.errorCode != 0 && Unmapped(base, dMem, Sum(sizes)) ==> drv.faults > old(drv.faults)
  {
    IsLive(drv.live, liveBase, sizes, handles, i);
    if Unmapped(base, dMem, Sum(sizes)) { NextIsFree(drv.mapped, base, dMem, sizes, handles, i); }
    var status := drv.MemMap(addr, size, handles[i]);
    drv.Check(status);
    if drv.errorCode == 0 {
      OneMoreLaid(old(drv.mapped), base, dMem, sizes, handles, i);
    }
  }

  /** The clean-up after chunk `i` could not be mapped. */
  method RollBackMappings(drv: Driver, dMem: Address, handles: array<Handle>, chunkSizes: array<u64>, i: nat,
                          ghost liveBase: map<Handle, int>, ghost base: map<int, Mapping>)
    requires drv.Valid() && i <= handles.Length == chunkSizes.Length && Positive(chunkSizes[..])
    requires Created(drv.live, liveBase, chunkSizes[..], handles[..], handles.Length)
    requires Laid(drv.mapped, base, dMem, chunkSizes[..], handles[..], i)
    modifies drv`live, drv`mapped, drv`faults, drv`failures
    ensures drv.Valid() && drv.faults >= old(drv.faults)
    ensures old(drv.failures) <= drv.failures
    ensures drv.reliable ==> drv.live == liveBase && drv.mapped == base
  {
    LaidIsRemoved(drv.mapped, base, dMem, chunkSizes[..], handles[..], i);
    var _ := UnmapChunks(drv, dMem, chunkSizes, i);
    RollBackHandles(drv, handles, handles.Length, chunkSizes[..], liveBase);
  }

  /** Maps all chunks, or unmaps the ones mapped so far and releases all handles. */
  method MapChunks(drv: Driver, dMem: Address, handles: array<Handle>, chunkSizes: array<u64>, ghost liveBase: map<Handle, int>)
    requires drv.Valid() && handles.Length == chunkSizes.Length && Positive(chunkSizes[..]) && drv.errorCode == 0
    requires Created(drv.live, liveBase, chunkSizes[..], handles[..], handles.Length)
    modifies drv`live, drv`mapped, drv`errorCode, drv`faults, drv`failures
    ensures drv.Valid()
    ensures old(drv.failures) <= drv.failures
    ensures drv.errorCode == if drv.failures == old(drv.failures) then old(drv.errorCode) else drv.failures[|old(drv.failures)|]
    ensures drv.errorCode == 0 ==>
              drv.live == old(drv.live) && Laid(drv.mapped, old(drv.mapped), dMem, chunkSizes[..], handles[..], handles.Length)
    ensures drv.errorCode != 0 && drv.reliable ==> drv.live == liveBase && drv.mapped == old(drv.mapped)
    ensures drv.errorCode != 0 && Unmapped(old(drv.mapped), dMem, Sum(chunkSizes[..])) ==> drv.faults > old(drv.faults)
    ensures drv.faults >= old(drv.faults) && (handles.Length == 0 ==> drv.errorCode == 0)
  {
    var allocatedSize: int := 0;
    ghost var sizes: seq<int>, base := chunkSizes[..], drv.mapped;
    for i := 0 to handles.Length
      invariant drv.Valid() && drv.errorCode == 0 && allocatedSize == Offset(sizes, i) && drv.faults >= old(drv.faults)
      invariant drv.failures == old(drv.failures)
      invariant drv.live == old(drv.live) && Laid(drv.mapped, base, dMem, sizes, handles[..], i)
    {
      OffsetStep(sizes, i);
      MapOne(drv, dMem, dMem + allocatedSize, chunkSizes[i], handles[..], i, sizes, liveBase, base);
      if drv.errorCode != 0 {
        RollBackMappings(drv, dMem, handles, chunkSizes, i, liveBase, base);
        return;
      }
      allocatedSize := allocatedSize + chunkSizes[i];
    }
  }

  /** create_and_map. Started with a clear error code it maps the whole table at `dMem`, or, if a
      creation or a mapping fails and cleaning up works, changes no handle and no mapping. If
      only setting the access fails, everything stays mapped. On a free range nothing fails
      unless the driver is at fault. Started with an error code it fails in any case, and leaks
      its first handle exactly when the driver creates it. */
  method CreateAndMap(drv: Driver, dMem: Address, handles: array<Handle>, chunkSizes: array<u64>) returns (ghost outcome: Outcome)
    requires drv.Valid() && handles.Length == chunkSizes.Length && Positive(chunkSizes[..])
    modifies drv`live, drv`mapped, drv`nextHandle, drv`errorCode, drv`faults, drv`failures, handles
    ensures drv.Valid()
    ensures old(drv.failures) <= drv.failures
    ensures drv.errorCode == if drv.failures == old(drv.failures) then old(drv.errorCode) else drv.failures[|old(drv.failures)|]
    ensures drv.errorCode == 0 <==> outcome.Mapped?
    ensures old(drv.errorCode) == 0 ==> !outcome.Leaked?
    ensures old(drv.errorCode) == 0 && (outcome.Mapped? || outcome.AccessFailed?) ==>
              && Created(drv.live, old(drv.live), chunkSizes[..], handles[..], handles.Length)
              && Laid(drv.mapped, old(drv.mapped), dMem, chunkSizes[..], handles[..], handles.Length)
    ensures old(drv.errorCode) == 0 && drv.reliable && (outcome.CreateFailed? || outcome.MapFailed?) ==>
              drv.live == old(drv.live) && drv.mapped == old(drv.mapped)
    ensures old(drv.errorCode) == 0 && Unmapped(old(drv.mapped), dMem, Sum(chunkSizes[..])) && !outcome.Mapped? ==>
              drv.faults > old(drv.faults)
    ensures drv.faults >= old(drv.faults)
    ensures old(drv.errorCode) != 0 ==> drv.errorCode != 0 && drv.mapped == old(drv.mapped)
    ensures old(drv.errorCode) != 0 && handles.Length > 0 ==>
              && (outcome.Leaked? <==> drv.faults == old(drv.faults))
              && if outcome.Leaked? then OneMoreHandle(old(drv.live), drv.live, chunkSizes[0])
                 else outcome.CreateFailed? && drv.live == old(drv.live)
    ensures drv.errorCode != 0 && drv.reliable ==>
              (drv.live == old(drv.live) && drv.mapped == old(drv.mapped) <==>
               outcome.CreateFailed? || outcome.MapFailed? || handles.Length == 0)
  {
    outcome := CreateFailed;
    CreateHandles(drv, handles, chunkSizes);
    if drv.errorCode == 0 {
      outcome := MapFailed;
      MapChunks(drv, dMem, handles, chunkSizes, old(drv.live));
    }
    if drv.errorCode == 0 || handles.Length == 0 {
      var status := drv.MemSetAccess();
      drv.Check(status);
      outcome := if drv.errorCode == 0 then Mapped else AccessFailed;
      if handles.Length > 0 {
        CreatedIsMore(drv.live, old(drv.live), chunkSizes[..], handles[..]);
      }
    } else if old(drv.errorCode) != 0 && drv.faults == old(drv.faults) {
      outcome := Leaked;
    }
  }

  lemma CreatedIsMore(live: map<Handle, int>, base: map<Handle, int>, sizes: seq<int>, handles: seq<Handle>)
    requires 0 < |handles| == |sizes| && Created(live, base, sizes, handles, |handles|)
    ensures live != base
  {
    IsLive(live, base, sizes, handles, 0);
  }

  // ----- unmap_and_release -----

  /** unmap_and_release. It goes through the whole table whatever fails, and leaves the first
      error behind. Without an error exactly the table's mappings and handles are gone. Given
      calls that work, what there was of the table is gone, and an error is left behind exactly
      when something was missing; of a table of which there is nothing, nothing changes. */
  method UnmapAndRelease(drv: Driver, dMem: Address, handles: array<Handle>, chunkSizes: array<u64>)
    requires drv.Valid() && handles.Length == chunkSizes.Length && Positive(chunkSizes[..])
    requires DistinctHandles(handles[..], handles.Length)
    modifies drv`live, drv`mapped, drv`errorCode, drv`faults, drv`failures
    ensures drv.Valid()
    ensures old(drv.failures) <= drv.failures
    ensures drv.errorCode == if drv.failures == old(drv.failures) then old(drv.errorCode) else drv.failures[|old(drv.failures)|]
    ensures old(drv.errorCode) == 0 && drv.errorCode == 0 ==>
              && Whole(old(drv.live), old(drv.mapped), dMem, chunkSizes[..], handles[..])
              && drv.live == old(drv.live) - HandleSet(handles[..], handles.Length)
              && drv.mapped == old(drv.mapped) - AddressSet(dMem, chunkSizes[..], handles.Length)
    ensures drv.reliable ==>
              && drv.live == old(drv.live) - HandleSet(handles[..], handles.Length)
              && drv.mapped == old(drv.mapped) - MappedOnes(old(drv.mapped), dMem, chunkSizes[..], handles.Length)
              && (drv.errorCode == 0 <==> old(drv.errorCode) == 0 && Whole(old(drv.live), old(drv.mapped), dMem, chunkSizes[..], handles[..]))
    ensures Whole(old(drv.live), old(drv.mapped), dMem, chunkSizes[..], handles[..]) ==>
              drv.errorCode == old(drv.errorCode) || (drv.faults > old(drv.faults) && !drv.reliable)
    ensures Disjoint(old(drv.live), handles[..], handles.Length) && NoneMapped(old(drv.mapped), dMem, chunkSizes[..], handles.Length) ==>
              && drv.live == old(drv.live) && drv.mapped == old(drv.mapped) && drv.faults == old(drv.faults)
              && (drv.errorCode == 0 <==> old(drv.errorCode) == 0 && handles.Length == 0)
    ensures handles.Length == 0 ==> drv.errorCode == old(drv.errorCode)
    ensures drv.faults >= old(drv.faults) && (old(drv.errorCode) != 0 ==> drv.errorCode != 0)
  {
    AllMappedOnes(drv.mapped, dMem, chunkSizes[..], handles.Length);
    var unmapError := UnmapChunks(drv, dMem, chunkSizes, handles.Length);
    ghost var between := drv.failures;
    var releaseError := ReleaseHandles(drv, handles, handles.Length);
    FirstOfTwo(old(drv.failures), between, drv.failures);
    drv.Check(if unmapError != 0 then unmapError else releaseError);
  }

  /** The first failure of two stretches is that of the first stretch, if it has one. */
  lemma FirstOfTwo(before: seq<int>, between: seq<int>, after: seq<int>)
    requires before <= between <= after
    ensures before <= after
    ensures between != before ==> after != before && after[|before|] == between[|before|]
    ensures between == before ==> (after == before <==> after == between)
  {}

  /** All chunks of the table are mapped and all its handles are live. */
  ghost predicate Whole(live: map<Handle, int>, mapped: map<int, Mapping>, d: Address, sizes: seq<int>, handles: seq<Handle>)
    requires |sizes| == |handles|
  {
    AllMapped(mapped, d, sizes, |sizes|) && HandleSet(handles, |handles|) <= live.Keys
  }

  /** An allocation that is awake on top of `live` and `mapped`. */
  ghost predicate Awake(drv: Driver, live: map<Handle, int>, mapped: map<int, Mapping>, dMem: Address, sizes: seq<int>, handles: seq<Handle>)
    requires |sizes| == |handles|
    reads drv
  {
    && Created(drv.live, live, sizes, handles, |handles|)
    && Laid(drv.mapped, mapped, dMem, sizes, handles, |handles|)
  }

  /** An allocation that is asleep: the driver has `live` and `mapped`, and nothing of the table. */
  ghost predicate Asleep(drv: Driver, live: map<Handle, int>, mapped: map<int, Mapping>, dMem: Address, sizes: seq<int>, handles: seq<Handle>)
    requires |sizes| == |handles|
    reads drv
  {
    && DistinctHandles(handles, |handles|) && Disjoint(live, handles, |handles|) && drv.live == live
    && NoneMapped(mapped, dMem, sizes, |sizes|) && drv.mapped == mapped
  }

  /** Unmapping an allocation. If it is awake, this undoes its mapping: the driver is as it was
      before. If it is asleep already, nothing changes and, unless its table is empty, there is
      an error code afterwards, although the driver is not at fault. */
  method PutToSleep(drv: Driver, dMem: Address, handles: array<Handle>, chunkSizes: array<u64>, ghost awake: bool,
                    ghost live: map<Handle, int>, ghost mapped: map<int, Mapping>)
    requires drv.Valid() && handles.Length == chunkSizes.Length && Positive(chunkSizes[..])
    requires if awake then Awake(drv, live, mapped, dMem, chunkSizes[..], handles[..])
             else Asleep(drv, live, mapped, dMem, chunkSizes[..], handles[..])
    modifies drv`live, drv`mapped, drv`errorCode, drv`faults, drv`failures
    ensures drv.Valid()
    ensures old(drv.failures) <= drv.failures
    ensures drv.errorCode == if drv.failures == old(drv.failures) then old(drv.errorCode) else drv.failures[|old(drv.failures)|]
    ensures drv.reliable || !awake || (old(drv.errorCode) == 0 && drv.errorCode == 0) ==>
              Asleep(drv, live, mapped, dMem, chunkSizes[..], handles[..])
    ensures awake && drv.reliable ==> drv.errorCode == old(drv.errorCode)
    ensures awake ==> drv.errorCode == old(drv.errorCode) || drv.faults > old(drv.faults)
    ensures !awake ==> drv.faults == old(drv.faults) && (drv.errorCode == 0 <==> old(drv.errorCode) == 0 && handles.Length == 0)
    ensures handles.Length == 0 ==> drv.errorCode == old(drv.errorCode)
    ensures drv.faults >= old(drv.faults) && (old(drv.errorCode) != 0 ==> drv.errorCode != 0)
  {
    if awake {
      AwakeIsWhole(drv, live, mapped, dMem, chunkSizes[..], handles[..]);
    }
    UnmapAndRelease(drv, dMem, handles, chunkSizes);
  }

  lemma AwakeIsWhole(drv: Driver, live: map<Handle, int>, mapped: map<int, Mapping>, d: Address, sizes: seq<int>, handles: seq<Handle>)
    requires |sizes| == |handles| && Positive(sizes) && Awake(drv, live, mapped, d, sizes, handles)
    ensures Whole(drv.live, drv.mapped, d, sizes, handles)
    ensures drv.live - HandleSet(handles, |handles|) == live
    ensures drv.mapped - AddressSet(d, sizes, |sizes|) == mapped
    ensures drv.mapped - MappedOnes(drv.mapped, d, sizes, |sizes|) == mapped
  {
    LivesAre(sizes, handles, |handles|);
    AddThenRemove(live, LiveOf(sizes, handles, |handles|), HandleSet(handles, |handles|));
    LaidIsMapped(drv.mapped, mapped, d, sizes, handles, |handles|);
    AllMappedOnes(drv.mapped, d, sizes, |sizes|);
  }

  // ----- The Python entry points -----

  /** python_create_and_map: an error is raised to the caller and cleared. */
  method PythonCreateAndMap(drv: Driver, dMem: Address, handles: array<Handle>, chunkSizes: array<u64>)
    returns (raised: bool, code: int, ghost outcome: Outcome)
    requires drv.Valid() && handles.Length == chunkSizes.Length && Positive(chunkSizes[..])
    modifies drv`live, drv`mapped, drv`nextHandle, drv`errorCode, drv`faults, drv`failures, handles
    ensures drv.Valid() && drv.errorCode == 0
    ensures old(drv.failures) <= drv.failures
    ensures code == if drv.failures == old(drv.failures) then old(drv.errorCode) else drv.failures[|old(drv.failures)|]
    ensures raised <==> code != 0
    ensures raised <==> !outcome.Mapped?
    ensures old(drv.errorCode) == 0 ==> !outcome.Leaked?
    ensures old(drv.errorCode) == 0 && (outcome.Mapped? || outcome.AccessFailed?) ==>
              Awake(drv, old(drv.live), old(drv.mapped), dMem, chunkSizes[..], handles[..])
    ensures old(drv.errorCode) == 0 && drv.reliable && (outcome.CreateFailed? || outcome.MapFailed?) ==>
              drv.live == old(drv.live) && drv.mapped == old(drv.mapped)
    ensures old(drv.errorCode) == 0 && raised && Unmapped(old(drv.mapped), dMem, Sum(chunkSizes[..])) ==> drv.faults > old(drv.faults)
    ensures drv.faults >= old(drv.faults)
    ensures old(drv.errorCode) != 0 ==> raised && drv.mapped == old(drv.mapped)
    ensures old(drv.errorCode) != 0 && handles.Length > 0 ==>
              && (outcome.Leaked? <==> drv.faults == old(drv.faults))
              && if outcome.Leaked? then OneMoreHandle(old(drv.live), drv.live, chunkSizes[0])
                 else drv.live == old(drv.live)
    ensures raised && drv.reliable ==>
              (drv.live == old(drv.live) && drv.mapped == old(drv.mapped) <==>
               outcome.CreateFailed? || outcome.MapFailed? || handles.Length == 0)
  {
    outcome := CreateAndMap(drv, dMem, handles, chunkSizes);
    raised, code := drv.errorCode != 0, drv.errorCode;
    drv.errorCode := 0;
  }

  /** python_unmap_and_release, of an allocation that is awake or asleep already: an error is
      raised to the caller and cleared. */
  method PythonUnmapAndRelease(drv: Driver, dMem: Address, handles: array<Handle>, chunkSizes: array<u64>, ghost awake: bool,
                               ghost live: map<Handle, int>, ghost mapped: map<int, Mapping>) returns (raised: bool, code: int)
    requires drv.Valid() && handles.Length == chunkSizes.Length && Positive(chunkSizes[..])
    requires if awake then Awake(drv, live, mapped, dMem, chunkSizes[..], handles[..])
             else Asleep(drv, live, mapped, dMem, chunkSizes[..], handles[..])
    modifies drv`live, drv`mapped, drv`errorCode, drv`faults, drv`failures
    ensures drv.Valid() && drv.errorCode == 0
    ensures old(drv.failures) <= drv.failures
    ensures code == if drv.failures == old(drv.failures) then old(drv.errorCode) else drv.failures[|old(drv.failures)|]
    ensures raised <==> code != 0
    ensures drv.reliable || !awake || (old(drv.errorCode) == 0 && !raised) ==>
              Asleep(drv, live, mapped, dMem, chunkSizes[..], handles[..])
    ensures drv.reliable || !awake ==> (raised <==> old(drv.errorCode) != 0 || (!awake && handles.Length > 0))
    ensures awake && old(drv.errorCode) == 0 && raised ==> drv.faults > old(drv.faults)
    ensures old(drv.errorCode) != 0 ==> raised
    ensures drv.faults >= old(drv.faults)
  {
    PutToSleep(drv, dMem, handles, chunkSizes, awake, live, mapped);
    raised, code := drv.errorCode != 0, drv.errorCode;
    drv.errorCode := 0;
  }

  /** Any number of sleep and wake-up rounds on one allocation: unless the driver is at fault, the
      reserved ranges and the chunk table stay, everything else in the driver stays, and the
      allocation is mapped at the same addresses again, with handles of its own. */
  method SleepAndWake(drv: Driver, dMem: Address, handles: array<Handle>, chunkSizes: array<u64>, rounds: nat,
                      ghost live: map<Handle, int>, ghost mapped: map<int, Mapping>) returns (completed: bool)
    requires drv.Valid() && drv.errorCode == 0 && handles.Length == chunkSizes.Length && Positive(chunkSizes[..])
    requires Awake(drv, live, mapped, dMem, chunkSizes[..], handles[..])
    modifies drv`live, drv`mapped, drv`nextHandle, drv`errorCode, drv`faults, drv`failures, handles
    ensures drv.Valid() && drv.errorCode == 0
    ensures completed ==> Awake(drv, live, mapped, dMem, chunkSizes[..], handles[..])
    ensures completed ==> drv.mapped.Keys == old(drv.mapped).Keys
    ensures !completed && Unmapped(mapped, dMem, Sum(chunkSizes[..])) ==> drv.faults > old(drv.faults)
  {
    completed := true;
    for r := 0 to rounds
      invariant drv.Valid() && drv.errorCode == 0 && drv.faults >= old(drv.faults)
      invariant Awake(drv, live, mapped, dMem, chunkSizes[..], handles[..])
    {
      var raised, code := PythonUnmapAndRelease(drv, dMem, handles, chunkSizes, true, live, mapped);
      if raised {
        return false;
      }
      ghost var outcome;
      raised, code, outcome := PythonCreateAndMap(drv, dMem, handles, chunkSizes);
      if raised {
        return false;
      }
    }
    MappingKeys(dMem, chunkSizes[..], handles[..], handles.Length);
    MappingKeys(dMem, chunkSizes[..], old(handles[..]), handles.Length);
  }
}
