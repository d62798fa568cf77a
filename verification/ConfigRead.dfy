/**
 Reading several fields of the device configuration while the device may change
 it, with the generation counter that the modern transport offers.
 */
module ConfigRead {
  import opened Words

  const GENERATIONS := 0x100    // config_generation is one byte

  /** The device never takes a change back. */
  ghost predicate Monotone(changes: nat -> nat) {
    forall i: nat, j: nat :: i <= j ==> changes(i) <= changes(j)
  }

  ghost predicate Sized(contents: nat -> seq<u8>, size: nat) {
    forall k: nat :: |contents(k)| == size
  }

  /** The device as its accesses see it: access n finds the contents after changes(n) changes. */
  class ConfigDevice {
    const size: nat
    const contents: nat -> seq<u8>
    const changes: nat -> nat
    const start: nat
    const hasGeneration: bool
    var accesses: nat

    constructor (size: nat, contents: nat -> seq<u8>, changes: nat -> nat, start: nat, hasGeneration: bool)
      ensures this.size == size && this.contents == contents && this.changes == changes
      ensures this.start == start && this.hasGeneration == hasGeneration && accesses == 0
    {
      this.size, this.contents, this.changes := size, contents, changes;
      this.start, this.hasGeneration, accesses := start, hasGeneration, 0;
    }

    /** Fields that a read of len bytes is made of. */
    static function Fields(len: nat): nat {
      if len == 8 then 2 else if len in {1, 2, 4} then 1 else len
    }

    ghost predicate Valid() {
      Monotone(changes) && Sized(contents, size)
    }

    /** get_config_generation, or the constant 0 where the transport has none. */
    method Generation() returns (gen: nat)
      modifies this
      ensures hasGeneration ==> accesses == old(accesses) + 1 && gen == (start + changes(old(accesses))) % 0x100
      ensures !hasGeneration ==> accesses == old(accesses) && gen == 0
    {
      if hasGeneration {
        gen := (start + changes(accesses)) % GENERATIONS;
        accesses := accesses + 1;
      } else {
        gen := 0;
      }
    }

    /** One access of the device, which sees one moment. */
    method ReadField(offset: nat, bytes: nat) returns (field: seq<u8>)
      requires Valid() && offset + bytes <= size
      modifies this
      ensures accesses == old(accesses) + 1 && field == contents(changes(old(accesses)))[offset..offset + bytes]
    {
      field := contents(changes(accesses))[offset..offset + bytes];
      accesses := accesses + 1;
    }

    /** virtio_cread_many; first is the generation read before the pass that was accepted. */
    method CreadMany(offset: nat, count: nat, bytes: nat, ghost total: nat) returns (buf: seq<u8>, ghost first: nat)
      requires Valid() && offset + bytes * count <= size
      requires hasGeneration ==> forall n: nat :: changes(n) <= total
      modifies this
      ensures old(accesses) <= first
      ensures hasGeneration ==>
        accesses == first + count + 2 && (changes(first + count + 1) - changes(first)) % 0x100 == 0
      ensures hasGeneration ==> buf == Pass(contents, changes, first + 1, offset, count, bytes, size)
      ensures !hasGeneration ==> first == old(accesses) && accesses == first + count
      ensures !hasGeneration ==> buf == Pass(contents, changes, first, offset, count, bytes, size)
    {
      hide Pass, Sized, Monotone;
      first := accesses;
      var gen := Generation();
      while true
        invariant old(accesses) <= first
        invariant hasGeneration ==> accesses == first + 1 && gen == (start + changes(first)) % GENERATIONS
        invariant !hasGeneration ==> accesses == first == old(accesses) && gen == 0
        decreases if hasGeneration then total - changes(first) else 0
      {
        var previous := gen;
        ghost var from := accesses;
        buf := ReadPass(offset, count, bytes);
        ghost var next := accesses;
        gen := Generation();
        if hasGeneration {
          Later(changes, first, next);
          SameGeneration(start, changes(first), changes(next));
        }
        if gen == previous {
          return;
        }
        first := next;
      }
    }

    /** The inner loop: all fields once. */
    method ReadPass(offset: nat, count: nat, bytes: nat) returns (buf: seq<u8>)
      requires Valid() && offset + bytes * count <= size
      modifies this
      ensures accesses == old(accesses) + count
      ensures buf == Pass(contents, changes, old(accesses), offset, count, bytes, size)
    {
      hide Monotone;
      ghost var from := accesses;
      buf := [];
      for i := 0 to count
        invariant accesses == from + i
        invariant buf == Pass(contents, changes, from, offset, i, bytes, size)
      {
        FieldFits(bytes, i, count);
        assert |contents(changes(from + i))| == size;
        var field := ReadField(offset + bytes * i, bytes);
        buf := buf + field;
      }
    }

    /** virtio_get_config: a single access for the widths of a register, several fields otherwise. */
    method GetConfig(offset: nat, len: nat, ghost total: nat) returns (buf: seq<u8>, ghost at: nat)
      requires Valid() && offset + len <= size
      requires hasGeneration && len !in {1, 2, 4} ==> forall n: nat :: changes(n) <= total
      modifies this
      ensures len in {1, 2, 4} || (hasGeneration && Unhurried(changes, Fields(len))) ==>
        && old(accesses) <= at < accesses && |contents(changes(at))| == size
        && buf == contents(changes(at))[offset..offset + len]
      ensures old(accesses) <= at && (!hasGeneration ==> at == old(accesses))
      ensures len in {1, 2, 4} ==> accesses == at + 1 == old(accesses) + 1
      ensures hasGeneration && len !in {1, 2, 4} ==>
        at >= 1 && accesses >= 1 && (changes(accesses - 1) - changes(at - 1)) % 0x100 == 0
      ensures len == 8 ==>
        && accesses == at + 2 + (if hasGeneration then 1 else 0)
        && |contents(changes(at))| == |contents(changes(at + 1))| == size
        && buf == contents(changes(at))[offset..offset + 4] + contents(changes(at + 1))[offset + 4..offset + 8]
      ensures len !in {1, 2, 4, 8} ==>
        && accesses == at + len + (if hasGeneration then 1 else 0) && |buf| == len
        && forall i :: 0 <= i < len ==>
             |contents(changes(at + i))| == size && buf[i] == contents(changes(at + i))[offset + i]
    {
      hide Pass, Monotone, Unhurried;
      at := accesses;
      assert |contents(changes(at))| == size;
      if len == 1 || len == 2 || len == 4 {
        buf := ReadField(offset, len);
      } else {
        var count, bytes := Fields(len), if len == 8 then 4 else 1;
        ghost var first: nat;
        buf, first := CreadMany(offset, count, bytes, total);
        if hasGeneration {
          at := first + 1;
        }
        TwoFields(contents, changes, at, offset, count, bytes, size);
        SingleBytes(contents, changes, at, offset, count, bytes, size);
        if hasGeneration && Unhurried(changes, count) {
          assert |contents(changes(at))| == size;
          Hurry(changes, count, first);
          AcceptedIsUntorn(contents, changes, first, offset, count, bytes, size);
        }
      }
    }
  }

  lemma Later(changes: nat -> nat, i: nat, j: nat)
    requires Monotone(changes) && i <= j
    ensures changes(i) <= changes(j)
  {
  }

  lemma Hurry(changes: nat -> nat, count: nat, first: nat)
    requires Unhurried(changes, count)
    ensures changes(first + count + 1) - changes(first) < GENERATIONS
  {
  }

  /** The bytes that a pass starting with access n collects. */
  function Pass(contents: nat -> seq<u8>, changes: nat -> nat, n: nat, offset: nat, count: nat, bytes: nat,
                size: nat): seq<u8> {
    if count == 0 then []
    else
      var at := offset + bytes * (count - 1);
      var now := contents(changes(n + count - 1));
      var field := if at + bytes <= |now| then now[at..at + bytes] else [];
      Pass(contents, changes, n, offset, count - 1, bytes, size) + field
  }

  lemma FieldFits(bytes: nat, i: nat, count: nat)
    requires i < count
    ensures 0 <= bytes * i && bytes * i + bytes <= bytes * count
  {
    assert bytes * count == bytes * i + bytes * (count - i);
    assert bytes * (count - i) == bytes + bytes * (count - i - 1);
  }

  lemma SameGeneration(start: nat, a: nat, b: nat)
    requires a <= b
    ensures (start + a) % GENERATIONS == (start + b) % GENERATIONS <==> (b - a) % GENERATIONS == 0
  {
  }

  /** Fewer than 256 changes from one access to any access of the same pass, generation reads included. */
  ghost predicate Unhurried(changes: nat -> nat, count: nat) {
    forall n: nat, m: nat :: n <= m <= n + count + 1 ==> changes(m) - changes(n) < GENERATIONS
  }

  /** The bytes are those of one single moment. */
  ghost predicate OfOneMoment(contents: nat -> seq<u8>, buf: seq<u8>, offset: nat, size: nat) {
    exists k: nat :: offset + |buf| <= |contents(k)| <= size && buf == contents(k)[offset..offset + |buf|]
  }

  lemma Join(c: seq<u8>, from: nat, mid: nat, to: nat)
    requires from <= mid <= to <= |c|
    ensures c[from..mid] + c[mid..to] == c[from..to]
  {
  }

  /** Without a change between its first and its last field a pass collects the contents of that moment. */
  lemma {:induction false} StillPass(contents: nat -> seq<u8>, changes: nat -> nat, n: nat, offset: nat, count: nat,
                                     bytes: nat, size: nat, k: nat)
    requires Sized(contents, size) && offset + bytes * count <= size
    requires forall i: nat :: n <= i < n + count ==> changes(i) == k
    ensures Pass(contents, changes, n, offset, count, bytes, size) == contents(k)[offset..offset + bytes * count]
  {
    hide Pass;
    assert |contents(k)| == size;
    if count > 0 {
      FieldFits(bytes, count - 1, count);
      assert changes(n + count - 1) == k;
      StillPass(contents, changes, n, offset, count - 1, bytes, size, k);
      PassUnfolds(contents, changes, n, offset, count, bytes, size);
      Join(contents(k), offset, offset + bytes * (count - 1), offset + bytes * count);
    } else {
      EmptyPass(contents, changes, n, offset, bytes, size);
      assert bytes * count == 0;
    }
  }

  lemma PassUnfolds(contents: nat -> seq<u8>, changes: nat -> nat, n: nat, offset: nat, count: nat, bytes: nat,
                    size: nat)
    requires Sized(contents, size) && count > 0 && offset + bytes * count <= size
    ensures 0 <= bytes * (count - 1) <= bytes * count && |contents(changes(n + count - 1))| == size
    ensures Pass(contents, changes, n, offset, count, bytes, size)
         == Pass(contents, changes, n, offset, count - 1, bytes, size)
          + contents(changes(n + count - 1))[offset + bytes * (count - 1)..offset + bytes * count]
  {
    NextField(bytes, count);
    assert |contents(changes(n + count - 1))| == size;
  }

  lemma NextField(bytes: nat, count: nat)
    requires count > 0
    ensures bytes * count == bytes * (count - 1) + bytes && 0 <= bytes * (count - 1) <= bytes * count
  {
  }

  lemma EmptyPass(contents: nat -> seq<u8>, changes: nat -> nat, n: nat, offset: nat, bytes: nat, size: nat)
    ensures Pass(contents, changes, n, offset, 0, bytes, size) == []
  {
  }

  /** What two fields of four bytes are made of. */
  lemma TwoFields(contents: nat -> seq<u8>, changes: nat -> nat, n: nat, offset: nat, count: nat, bytes: nat, size: nat)
    requires Sized(contents, size) && offset + bytes * count <= size
    ensures count == 2 && bytes == 4 ==>
      && |contents(changes(n))| == |contents(changes(n + 1))| == size
      && Pass(contents, changes, n, offset, count, bytes, size)
         == contents(changes(n))[offset..offset + 4] + contents(changes(n + 1))[offset + 4..offset + 8]
  {
    hide Pass;
    if count == 2 && bytes == 4 {
      PassUnfolds(contents, changes, n, offset, 2, 4, size);
      PassUnfolds(contents, changes, n, offset, 1, 4, size);
      EmptyPass(contents, changes, n, offset, 4, size);
    }
  }

  /** What fields of one byte are made of. */
  lemma SingleBytes(contents: nat -> seq<u8>, changes: nat -> nat, n: nat, offset: nat, count: nat, bytes: nat,
                    size: nat)
    requires Sized(contents, size) && offset + bytes * count <= size
    ensures bytes == 1 ==> |Pass(contents, changes, n, offset, count, bytes, size)| == count
    ensures bytes == 1 ==> forall i :: 0 <= i < count ==>
      |contents(changes(n + i))| == size
      && Pass(contents, changes, n, offset, count, bytes, size)[i] == contents(changes(n + i))[offset + i]
  {
    hide Pass;
    PassLength(contents, changes, n, offset, count, bytes, size);
    if bytes == 1 {
      forall i | 0 <= i < count
        ensures |contents(changes(n + i))| == size
        ensures Pass(contents, changes, n, offset, count, bytes, size)[i] == contents(changes(n + i))[offset + i]
      {
        PassField(contents, changes, n, offset, count, bytes, size, i);
      }
    }
  }

  /** Equal generations around a pass, fewer than 256 changes in between: the buffer is the contents of one moment. */
  lemma AcceptedIsUntorn(contents: nat -> seq<u8>, changes: nat -> nat, first: nat, offset: nat, count: nat, bytes: nat,
                         size: nat)
    requires Monotone(changes) && Sized(contents, size) && offset + bytes * count <= size
    requires (changes(first + count + 1) - changes(first)) % GENERATIONS == 0
    requires changes(first + count + 1) - changes(first) < GENERATIONS
    ensures Pass(contents, changes, first + 1, offset, count, bytes, size)
         == contents(changes(first + 1))[offset..offset + bytes * count]
  {
    var a, b := changes(first), changes(first + count + 1);
    assert a <= b;
    assert a == b;
    forall i: nat | first + 1 <= i < first + 1 + count ensures changes(i) == changes(first + 1) {
      assert a <= changes(i) <= b && a <= changes(first + 1) <= b;
    }
    StillPass(contents, changes, first + 1, offset, count, bytes, size, changes(first + 1));
  }

  /** Whatever the contents, what a pass collects is of one moment. */
  ghost predicate AlwaysUntorn(changes: nat -> nat, n: nat, offset: nat, count: nat, bytes: nat, size: nat) {
    forall contents: nat -> seq<u8> :: Sized(contents, size) ==>
      OfOneMoment(contents, Pass(contents, changes, n, offset, count, bytes, size), offset, size)
  }

  /**
   Exactly when a pass is untorn for every history of contents: when nothing
   changed between its first and its last field. Equal generations guarantee
   that only below 256 changes.
   */
  lemma UntornExactly(changes: nat -> nat, n: nat, offset: nat, count: nat, bytes: nat, size: nat)
    requires Monotone(changes) && count >= 1 && bytes >= 1 && offset + bytes * count <= size
    ensures AlwaysUntorn(changes, n, offset, count, bytes, size) <==> changes(n) == changes(n + count - 1)
  {
    if changes(n) == changes(n + count - 1) {
      forall contents: nat -> seq<u8> | Sized(contents, size)
        ensures OfOneMoment(contents, Pass(contents, changes, n, offset, count, bytes, size), offset, size)
      {
        StillPass(contents, changes, n, offset, count, bytes, size, changes(n));
        assert |contents(changes(n))| == size;
      }
    } else {
      TornPass(changes, n, offset, count, bytes, size);
    }
  }

  /** All zeros up to a moment, all ones after it. */
  function Flip(at: nat, size: nat): nat -> seq<u8> {
    (k: nat) => seq(size, i => if k <= at then 0 else 1)
  }

  lemma TornPass(changes: nat -> nat, n: nat, offset: nat, count: nat, bytes: nat, size: nat)
    requires Monotone(changes) && count >= 1 && bytes >= 1 && offset + bytes * count <= size
    requires changes(n) != changes(n + count - 1)
    ensures !AlwaysUntorn(changes, n, offset, count, bytes, size)
  {
    hide Pass, Monotone, OfOneMoment, Flip, Sized;
    var contents := Flip(changes(n), size);
    var buf, last := Pass(contents, changes, n, offset, count, bytes, size), bytes * (count - 1);
    Later(changes, n, n + count - 1);
    FlipPass(changes(n), changes, n, offset, count, bytes, size, 0);
    FlipPass(changes(n), changes, n, offset, count, bytes, size, count - 1);
    assert bytes * 0 == 0;
    assert buf[last] == 1;
    NoOneMoment(changes(n), buf, offset, size, last);
  }

  lemma FlipPass(at: nat, changes: nat -> nat, n: nat, offset: nat, count: nat, bytes: nat, size: nat, i: nat)
    requires offset + bytes * count <= size && bytes >= 1 && i < count
    ensures Sized(Flip(at, size), size)
    ensures 0 <= bytes * i < |Pass(Flip(at, size), changes, n, offset, count, bytes, size)| == bytes * count
    ensures Pass(Flip(at, size), changes, n, offset, count, bytes, size)[bytes * i]
         == if changes(n + i) <= at then 0 else 1
  {
    hide Pass;
    FieldFits(bytes, i, count);
    PassField(Flip(at, size), changes, n, offset, count, bytes, size, i);
  }

  lemma NoOneMoment(at: nat, buf: seq<u8>, offset: nat, size: nat, last: nat)
    requires offset + |buf| <= size && last < |buf| && buf[0] == 0 && buf[last] == 1
    ensures !OfOneMoment(Flip(at, size), buf, offset, size)
  {
    var contents := Flip(at, size);
    forall k: nat ensures buf != contents(k)[offset..offset + |buf|] {
      var part := contents(k)[offset..offset + |buf|];
      assert part[0] == contents(k)[offset] && part[last] == contents(k)[offset + last];
    }
  }

  lemma {:induction false} PassLength(contents: nat -> seq<u8>, changes: nat -> nat, n: nat, offset: nat, count: nat,
                                      bytes: nat, size: nat)
    requires Sized(contents, size) && offset + bytes * count <= size
    ensures |Pass(contents, changes, n, offset, count, bytes, size)| == bytes * count
  {
    if count > 0 {
      FieldFits(bytes, count - 1, count);
      PassLength(contents, changes, n, offset, count - 1, bytes, size);
      assert |contents(changes(n + count - 1))| == size;
    }
  }

  /** First byte of field i. */
  lemma {:induction false} PassField(contents: nat -> seq<u8>, changes: nat -> nat, n: nat, offset: nat, count: nat,
                                     bytes: nat, size: nat, i: nat)
    requires Sized(contents, size) && offset + bytes * count <= size && bytes >= 1 && i < count
    ensures 0 <= bytes * i < |Pass(contents, changes, n, offset, count, bytes, size)| == bytes * count
    ensures |contents(changes(n + i))| == size
    ensures Pass(contents, changes, n, offset, count, bytes, size)[bytes * i]
         == contents(changes(n + i))[offset + bytes * i]
  {
    FieldFits(bytes, i, count);
    FieldFits(bytes, count - 1, count);
    PassLength(contents, changes, n, offset, count, bytes, size);
    PassLength(contents, changes, n, offset, count - 1, bytes, size);
    assert |contents(changes(n + count - 1))| == size;
    if i < count - 1 {
      FieldFits(bytes, i, count - 1);
      PassField(contents, changes, n, offset, count - 1, bytes, size, i);
    }
  }
}
