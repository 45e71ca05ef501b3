/** Choosing a memory type of the device, for staging copies and for allocations. */
module MemoryTypes {
  import opened Options

  datatype MemoryType = MemoryType(hostVisible: bool, hostCoherent: bool, hostCached: bool, deviceLocal: bool)

  /** The first allowed type (memoryTypeBits) that has the wanted properties. */
  predicate IsFirst(types: seq<MemoryType>, bits: set<nat>, want: MemoryType -> bool, r: Option<nat>) {
    match r
    case Some(i) =>
      && i < |types| && i in bits && want(types[i])
      && forall j :: 0 <= j < i && j in bits ==> !want(types[j])
    case None => forall j :: 0 <= j < |types| && j in bits ==> !want(types[j])
  }

  method FindFirst(types: seq<MemoryType>, bits: set<nat>, want: MemoryType -> bool) returns (r: Option<nat>)
    ensures IsFirst(types, bits, want, r)
  {
    var i := 0;
    while i < |types|
      invariant i <= |types|
      invariant forall j :: 0 <= j < i && j in bits ==> !want(types[j])
    {
      if i in bits && want(types[i]) { return Some(i); }
      i := i + 1;
    }
    return None;
  }

  const CachedSystem := (t: MemoryType) => t.hostVisible && t.hostCached && !t.deviceLocal
  const CoherentCachedSystem := (t: MemoryType) => t.hostVisible && t.hostCached && !t.deviceLocal && t.hostCoherent

  /** Some allowed type is host-visible, cached and not the device's own. */
  predicate OffersStaging(types: seq<MemoryType>, bits: set<nat>) {
    exists j :: 0 <= j < |types| && j in bits && types[j].hostVisible && types[j].hostCached && !types[j].deviceLocal
  }

  /** Staging memory: cached system memory, coherent if there is any. */
  method PickStaging(types: seq<MemoryType>, bits: set<nat>) returns (r: Option<nat>)
    ensures r.Some? ==> r.value < |types| && r.value in bits && CachedSystem(types[r.value])
    ensures r.Some? <==> OffersStaging(types, bits)
    ensures r.Some? && !types[r.value].hostCoherent ==>
              forall j :: 0 <= j < |types| && j in bits && CachedSystem(types[j]) ==> !types[j].hostCoherent
    ensures r.Some? ==>
              forall j :: 0 <= j < r.value && j in bits && CachedSystem(types[j]) ==>
                !types[j].hostCoherent && types[r.value].hostCoherent
  {
    r := FindFirst(types, bits, CoherentCachedSystem);
    if r.None? {
      r := FindFirst(types, bits, CachedSystem);
    }
  }
}
