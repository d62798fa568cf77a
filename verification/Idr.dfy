/** The allocator of resource ids: one bit for each id, lowest clear bit first. */
module Idr {
  import opened Gather

  const BITS := 0x8000          // CHAR_BIT * PAGE_SIZE
  const NO_ID := 0xFFFF_FFFF    // what RtlFindClearBitsAndSet returns when no bit is clear

  /** The lowest clear bit at or above from, or the number of bits. */
  function FirstClear(bits: seq<bool>, from: nat): (k: nat)
    requires from <= |bits|
    ensures from <= k <= |bits|
    ensures k < |bits| ==> !bits[k]
    ensures forall i :: from <= i < k ==> bits[i]
    decreases |bits| - from
  {
    if from == |bits| || !bits[from] then from else FirstClear(bits, from + 1)
  }

  function TakenId(bits: seq<bool>): nat {
    if FirstClear(bits, 0) < |bits| then FirstClear(bits, 0) else NO_ID
  }

  function Taken(bits: seq<bool>): (r: seq<bool>)
    ensures |r| == |bits|
  {
    var k := FirstClear(bits, 0);
    if k < |bits| then bits[k := true] else bits
  }

  function Put(bits: seq<bool>, id: nat): (r: seq<bool>)
    ensures |r| == |bits|
  {
    if id < |bits| then bits[id := false] else bits
  }

  function Reserved(start: nat): (bits: seq<bool>)
    ensures |bits| == BITS
  {
    seq(BITS, i => i < start)
  }

  class VioGpuIdr {
    var startIndex: nat
    var bitmap: array?<bool>

    ghost predicate Valid()
      reads this
    {
      bitmap != null ==> bitmap.Length == BITS
    }

    constructor ()
      ensures Valid() && bitmap == null
    {
      startIndex, bitmap := 0, null;
    }

    /** All ids below start are taken for good. */
    method Init(start: nat)
      requires start <= BITS
      modifies this
      ensures Valid() && fresh(bitmap) && bitmap != null && bitmap[..] == Reserved(start)
      ensures bitmap.Length == 0x8000 && forall k :: 0 <= k < 0x8000 ==> (bitmap[k] <==> k < start)
    {
      startIndex := start;
      bitmap := new bool[BITS](_ => false);
      for i := 0 to start
        invariant bitmap != null && fresh(bitmap) && bitmap.Length == BITS
        invariant forall k :: 0 <= k < BITS ==> bitmap[k] == (k < i)
      {
        bitmap[i] := true;
      }
    }

    /** The lowest free id becomes taken; 0 before Init and after Close. */
    method GetId() returns (id: nat)
      requires Valid()
      modifies bitmap
      ensures bitmap == null ==> id == 0
      ensures bitmap != null && id < 0x8000 ==>
        && old(bitmap != null && !bitmap[id] && forall i :: 0 <= i < id ==> bitmap[i])
        && bitmap[..] == old(bitmap[..])[id := true]
      ensures bitmap != null && id >= 0x8000 ==>
        id == 0xFFFF_FFFF && old(forall i :: 0 <= i < 0x8000 ==> bitmap[i]) && bitmap[..] == old(bitmap[..])
      ensures bitmap != null ==> id == TakenId(old(bitmap[..])) && bitmap[..] == Taken(old(bitmap[..]))
    {
      id := 0;
      if bitmap != null {
        var k := 0;
        while k < bitmap.Length && bitmap[k]
          invariant 0 <= k <= bitmap.Length
          invariant forall i :: 0 <= i < k ==> bitmap[i]
        {
          k := k + 1;
        }
        LowestIsFirst(bitmap[..], k);
        if k < bitmap.Length {
          bitmap[k] := true;
          id := k;
        } else {
          id := NO_ID;
        }
      }
    }

    /** The id is free again, whether or not it was taken; a number that names no bit of the map changes none. */
    method PutId(id: nat)
      requires Valid()
      modifies bitmap
      ensures bitmap != null ==> bitmap[..] == if id < 0x8000 then old(bitmap[..])[id := false] else old(bitmap[..])
      ensures bitmap != null ==> bitmap[..] == Put(old(bitmap[..]), id)
    {
      if bitmap != null {
        if id < bitmap.Length {
          bitmap[id] := false;
        }
      }
    }

    method Close()
      modifies this
      ensures Valid() && bitmap == null
    {
      bitmap := null;
      startIndex := 0;
    }
  }

  lemma LowestIsFirst(bits: seq<bool>, k: nat)
    requires k <= |bits| && (k < |bits| ==> !bits[k]) && forall i :: 0 <= i < k ==> bits[i]
    ensures FirstClear(bits, 0) == k
  {
    assert FirstClear(bits, 0) >= k;
  }

  // ------------------------------------------------------------- counting

  ghost function InUse(bits: seq<bool>): set<nat> {
    set i | 0 <= i < |bits| && bits[i]
  }

  lemma TakenAdds(bits: seq<bool>)
    requires FirstClear(bits, 0) < |bits|
    ensures InUse(Taken(bits)) == InUse(bits) + {TakenId(bits)} && TakenId(bits) !in InUse(bits)
    ensures |InUse(Taken(bits))| == |InUse(bits)| + 1
  {
    assert InUse(Taken(bits)) == InUse(bits) + {TakenId(bits)};
  }

  lemma PutRemoves(bits: seq<bool>, id: nat)
    requires id < |bits| && bits[id]
    ensures InUse(Put(bits, id)) == InUse(bits) - {id}
    ensures |InUse(Put(bits, id))| == |InUse(bits)| - 1
  {
    assert InUse(Put(bits, id)) == InUse(bits) - {id};
  }

  ghost function Below(n: nat): (s: set<nat>)
    ensures |s| == n && forall i: nat :: i in s <==> i < n
  {
    if n == 0 then {} else Below(n - 1) + {n - 1}
  }

  lemma ReservedCount(start: nat)
    requires start <= BITS
    ensures |InUse(Reserved(start))| == start
  {
    assert InUse(Reserved(start)) == Below(start);
  }

  lemma AllTaken(bits: seq<bool>)
    requires forall i :: 0 <= i < |bits| ==> bits[i]
    ensures |InUse(bits)| == |bits|
  {
    assert InUse(bits) == Below(|bits|);
  }

  /** An id is free exactly when fewer ids are in use than there are bits. */
  lemma ClearExactly(bits: seq<bool>)
    ensures FirstClear(bits, 0) < |bits| <==> |InUse(bits)| < |bits|
  {
    var k := FirstClear(bits, 0);
    if k < |bits| {
      assert InUse(bits) + {k} <= Below(|bits|);
      Subset(InUse(bits) + {k}, Below(|bits|));
    } else {
      AllTaken(bits);
    }
  }
}
