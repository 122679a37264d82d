/**
 The driver as the allocator sees it (vllm/csrc/cumem_allocator.cpp): live memory handles,
 mappings and reserved address ranges, changed by operations that may fail at any time, and the
 global error code that CUDA_CHECK sets.

 `LiveOf` and `MappingsOf` say what a run of chunks adds to that state.
 */
module CumemDriver {
  import opened CumemChunks
  import opened Numbers

  type Handle = nat
  type Address = nat

  datatype Mapping = Mapping(size: int, handle: Handle)

  // ----- What a table of chunks stands for -----

  function AddressOf(d: Address, sizes: seq<int>, i: nat): int
    requires i <= |sizes|
  {
    d + Offset(sizes, i)
  }

  /** The handles of the first `k` chunks. */
  function LiveOf(sizes: seq<int>, handles: seq<Handle>, k: nat): map<Handle, int>
    requires k <= |sizes| && k <= |handles|
  {
    if k == 0 then map[] else LiveOf(sizes, handles, k - 1)[handles[k - 1] := sizes[k - 1]]
  }

  function HandleSet(handles: seq<Handle>, k: nat): set<Handle>
    requires k <= |handles|
  {
    set i | 0 <= i < k :: handles[i]
  }

  /** The mappings of the first `k` chunks, one after another from `d` on. */
  function MappingsOf(d: Address, sizes: seq<int>, handles: seq<Handle>, k: nat): map<int, Mapping>
    requires k <= |sizes| && k <= |handles|
  {
    if k == 0 then map[]
    else MappingsOf(d, sizes, handles, k - 1)[AddressOf(d, sizes, k - 1) := Mapping(sizes[k - 1], handles[k - 1])]
  }

  function AddressSet(d: Address, sizes: seq<int>, k: nat): set<int>
    requires k <= |sizes|
  {
    set i | 0 <= i < k :: AddressOf(d, sizes, i)
  }

  ghost predicate Positive(sizes: seq<int>) {
    forall i :: 0 <= i < |sizes| ==> sizes[i] > 0
  }

  ghost predicate DistinctHandles(handles: seq<Handle>, k: nat)
    requires k <= |handles|
  {
    forall i, j :: 0 <= i < j < k ==> handles[i] != handles[j]
  }

  lemma OffsetStep(sizes: seq<int>, i: nat)
    requires i < |sizes|
    ensures Offset(sizes, i + 1) == Offset(sizes, i) + sizes[i]
    ensures Offset(sizes, 0) == 0
  {
    assert sizes[..i + 1][..i] == sizes[..i];
  }

  lemma {:induction false} OffsetsGrow(sizes: seq<int>, i: nat, j: nat)
    requires Positive(sizes) && i <= j <= |sizes|
    ensures Offset(sizes, i) <= Offset(sizes, j)
    ensures i < j ==> Offset(sizes, i) + sizes[i] <= Offset(sizes, j)
    decreases j - i
  {
    if i < j {
      OffsetStep(sizes, i);
      OffsetsGrow(sizes, i + 1, j);
    }
  }

  lemma AddressesDiffer(d: Address, sizes: seq<int>, i: nat, j: nat)
    requires Positive(sizes) && i < j < |sizes|
    ensures AddressOf(d, sizes, i) + sizes[i] <= AddressOf(d, sizes, j)
    ensures AddressOf(d, sizes, i) != AddressOf(d, sizes, j)
  {
    OffsetsGrow(sizes, i, j);
  }

  ghost predicate MappingAt(maps: map<int, Mapping>, d: Address, sizes: seq<int>, handles: seq<Handle>, i: nat)
    requires i < |sizes| && i < |handles|
  {
    AddressOf(d, sizes, i) in maps && maps[AddressOf(d, sizes, i)] == Mapping(sizes[i], handles[i])
  }

  lemma {:induction false} MappingsAre(d: Address, sizes: seq<int>, handles: seq<Handle>, k: nat)
    requires k <= |sizes| && k <= |handles| && Positive(sizes)
    ensures forall i :: 0 <= i < k ==> MappingAt(MappingsOf(d, sizes, handles, k), d, sizes, handles, i)
    decreases k
  {
    if k > 0 {
      MappingsAre(d, sizes, handles, k - 1);
      forall i | 0 <= i < k - 1 ensures MappingAt(MappingsOf(d, sizes, handles, k), d, sizes, handles, i) {
        assert MappingAt(MappingsOf(d, sizes, handles, k - 1), d, sizes, handles, i);
        AddressesDiffer(d, sizes, i, k - 1);
      }
    }
  }

  lemma {:induction false} MappingKeys(d: Address, sizes: seq<int>, handles: seq<Handle>, k: nat)
    requires k <= |sizes| && k <= |handles|
    ensures MappingsOf(d, sizes, handles, k).Keys == AddressSet(d, sizes, k)
    decreases k
  {
    if k > 0 {
      MappingKeys(d, sizes, handles, k - 1);
      assert AddressSet(d, sizes, k) == AddressSet(d, sizes, k - 1) + {AddressOf(d, sizes, k - 1)};
    }
  }

  lemma {:induction false} LivesAre(sizes: seq<int>, handles: seq<Handle>, k: nat)
    requires k <= |sizes| && k <= |handles| && DistinctHandles(handles, k)
    ensures LiveOf(sizes, handles, k).Keys == HandleSet(handles, k)
    ensures forall i :: 0 <= i < k ==>
              handles[i] in LiveOf(sizes, handles, k) && LiveOf(sizes, handles, k)[handles[i]] == sizes[i]
    decreases k
  {
    if k > 0 {
      LivesAre(sizes, handles, k - 1);
      assert HandleSet(handles, k) == HandleSet(handles, k - 1) + {handles[k - 1]};
    }
  }

  /** The mappings of a table leave no gap and do not overlap: each address of the range lies in
      exactly one chunk. */
  lemma {:induction false} NoGapNoOverlap(d: Address, sizes: seq<int>, a: int) returns (k: nat)
    requires Positive(sizes) && d <= a < d + Sum(sizes)
    ensures k < |sizes| && AddressOf(d, sizes, k) <= a < AddressOf(d, sizes, k) + sizes[k]
    ensures forall j :: 0 <= j < |sizes| && AddressOf(d, sizes, j) <= a < AddressOf(d, sizes, j) + sizes[j] ==> j == k
  {
    k := 0;
    assert sizes[..|sizes|] == sizes;
    if sizes != [] { OffsetStep(sizes, 0); }
    while a >= AddressOf(d, sizes, k + 1)
      invariant k < |sizes| && AddressOf(d, sizes, k) <= a
      decreases |sizes| - k
    {
      k := k + 1;
    }
    OffsetStep(sizes, k);
    forall j | 0 <= j < |sizes| && j != k
      ensures !(AddressOf(d, sizes, j) <= a < AddressOf(d, sizes, j) + sizes[j])
    {
      OffsetStep(sizes, j);
      if j < k { OffsetsGrow(sizes, j + 1, k); } else { OffsetsGrow(sizes, k + 1, j); }
    }
  }

  // ----- The driver -----

  /** No mapping touches `[addr, addr + size)`. */
  ghost predicate Unmapped(mapped: map<int, Mapping>, addr: int, size: int) {
    forall a <- mapped :: a + mapped[a].size <= addr || addr + size <= a
  }

  class Driver {
    var live: map<Handle, int>
    var mapped: map<int, Mapping>
    var reserved: map<Address, int>
    var nextHandle: Handle
    var errorCode: int
    /** Undoing what was done works: unmapping a mapping, releasing a live handle, giving back
        an address range in which nothing is mapped. */
    const reliable: bool
    const granularity: u64
    /** How many calls failed although nothing was wrong with them. */
    ghost var faults: nat
    /** What the failing calls returned, in order. */
    ghost var failures: seq<int>

    ghost predicate Valid()
      reads this
    {
      && granularity > 0
      && 0 !in failures
      && (forall h <- live :: h < nextHandle)
      && forall a <- mapped :: mapped[a].size > 0
    }

    constructor (reliable: bool, granularity: u64)
      requires granularity > 0
      ensures Valid() && live == map[] && mapped == map[] && reserved == map[] && errorCode == 0
      ensures this.reliable == reliable && this.granularity == granularity && faults == 0 && failures == []
    {
      live, mapped, reserved, nextHandle, errorCode, faults, failures := map[], map[], map[], 0, 0, 0, [];
      this.reliable, this.granularity := reliable, granularity;
    }

    /** CUDA_CHECK: a failed call leaves its code behind, a successful one changes nothing. */
    method Check(status: int)
      modifies `errorCode
      ensures errorCode == if status != 0 then status else old(errorCode)
    {
      if status != 0 {
        errorCode := status;
      }
    }

    /** Some error code. */
    method Failure() returns (status: int)
      modifies `failures
      ensures status != 0 && failures == old(failures) + [status]
    {
      var code: int := *;
      status := if code == 0 then 1 else code;
      failures := failures + [status];
    }

    /** Whether a call that is in order succeeds. */
    method Attempt() returns (status: int)
      modifies `faults, `failures
      ensures faults == old(faults) + if status == 0 then 0 else 1
      ensures failures == old(failures) + if status == 0 then [] else [status]
    {
      status := *;
      if status != 0 { faults, failures := faults + 1, failures + [status]; }
    }

    method MemCreate(size: int) returns (status: int, h: Handle)
      requires Valid()
      modifies `live, `nextHandle, `faults, `failures
      ensures Valid()
      ensures status == 0 ==> h !in old(live) && live == old(live)[h := size]
      ensures status != 0 ==> live == old(live)
      ensures faults == old(faults) + if status == 0 then 0 else 1
      ensures failures == old(failures) + if status == 0 then [] else [status]
    {
      h := nextHandle;
      status := Attempt();
      if status == 0 {
        live, nextHandle := live[h := size], nextHandle + 1;
      }
    }

    /** In order when the handle is live and nothing is mapped in the range. */
    method MemMap(addr: int, size: int, h: Handle) returns (status: int)
      requires Valid() && size > 0
      modifies `mapped, `faults, `failures
      ensures Valid()
      ensures status == 0 ==> Unmapped(old(mapped), addr, size) && h in live && mapped == old(mapped)[addr := Mapping(size, h)]
      ensures status != 0 ==> mapped == old(mapped)
      ensures faults == old(faults) + if status != 0 && h in live && Unmapped(old(mapped), addr, size) then 1 else 0
      ensures failures == old(failures) + if status == 0 then [] else [status]
    {
      if h in live && forall a <- mapped :: a + mapped[a].size <= addr || addr + size <= a {
        status := Attempt();
        if status == 0 {
          mapped := mapped[addr := Mapping(size, h)];
        }
      } else {
        status := Failure();
      }
    }

    /** In order when there is such a mapping. */
    method MemUnmap(addr: int, size: int) returns (status: int)
      requires Valid()
      modifies `mapped, `faults, `failures
      ensures Valid()
      ensures status == 0 ==> addr in old(mapped) && old(mapped)[addr].size == size && mapped == old(mapped) - {addr}
      ensures status != 0 ==> mapped == old(mapped)
      ensures reliable && addr in old(mapped) && old(mapped)[addr].size == size ==> status == 0
      ensures faults == old(faults) + if status != 0 && addr in old(mapped) && old(mapped)[addr].size == size then 1 else 0
      ensures failures == old(failures) + if status == 0 then [] else [status]
    {
      if addr in mapped && mapped[addr].size == size {
        status := AttemptUndo();
        if status == 0 {
          mapped := mapped - {addr};
        }
      } else {
        status := Failure();
      }
    }

    /** The same for a call that undoes something. */
    method AttemptUndo() returns (status: int)
      modifies `faults, `failures
      ensures faults == old(faults) + if status == 0 then 0 else 1
      ensures failures == old(failures) + if status == 0 then [] else [status]
      ensures reliable ==> status == 0
    {
      status := 0;
      if !reliable {
        status := Attempt();
      }
    }

    /** In order when the handle is live. */
    method MemRelease(h: Handle) returns (status: int)
      requires Valid()
      modifies `live, `faults, `failures
      ensures Valid()
      ensures status == 0 ==> h in old(live) && live == old(live) - {h}
      ensures status != 0 ==> live == old(live)
      ensures reliable && h in old(live) ==> status == 0
      ensures faults == old(faults) + if status != 0 && h in old(live) then 1 else 0
      ensures failures == old(failures) + if status == 0 then [] else [status]
    {
      if h in live {
        status := AttemptUndo();
        if status == 0 {
          live := live - {h};
        }
      } else {
        status := Failure();
      }
    }

    method MemSetAccess() returns (status: int)
      modifies `faults, `failures
      ensures faults == old(faults) + if status == 0 then 0 else 1
      ensures failures == old(failures) + if status == 0 then [] else [status]
    {
      status := Attempt();
    }

    method GetGranularity() returns (status: int)
      modifies `faults, `failures
      ensures faults == old(faults) + if status == 0 then 0 else 1
      ensures failures == old(failures) + if status == 0 then [] else [status]
    {
      status := Attempt();
    }

    /** A range of its own; there is none of size zero. */
    method AddressReserve(size: int) returns (status: int, addr: Address)
      modifies `reserved, `faults, `failures
      ensures status == 0 ==> size > 0 && addr !in old(reserved) && Unmapped(mapped, addr, size) && reserved == old(reserved)[addr := size]
      ensures status != 0 ==> reserved == old(reserved)
      ensures faults == old(faults) + if status != 0 && size > 0 then 1 else 0
      ensures failures == old(failures) + if status == 0 then [] else [status]
    {
      addr := *;
      if size <= 0 {
        status := Failure();
      } else if addr !in reserved && forall a <- mapped :: a + mapped[a].size <= addr || addr + size <= a {
        status := Attempt();
        if status == 0 {
          reserved := reserved[addr := size];
        }
      } else {
        status := Failure();
        faults := faults + 1;
      }
    }

    /** Gives a range back: it must be the whole range, and nothing may be mapped in it. */
    method AddressFree(addr: Address, size: int) returns (status: int)
      modifies `reserved, `faults, `failures
      ensures status == 0 ==> addr in old(reserved) && old(reserved)[addr] == size && Unmapped(mapped, addr, size) && reserved == old(reserved) - {addr}
      ensures status != 0 ==> reserved == old(reserved)
      ensures reliable && addr in old(reserved) && old(reserved)[addr] == size && Unmapped(mapped, addr, size) ==> status == 0
      ensures faults >= old(faults)
      ensures failures == old(failures) + if status == 0 then [] else [status]
    {
      if addr in reserved && reserved[addr] == size && forall a <- mapped :: a + mapped[a].size <= addr || addr + size <= a {
        status := AttemptUndo();
        if status == 0 {
          reserved := reserved - {addr};
        }
      } else {
        status := Failure();
      }
    }
  }
}
