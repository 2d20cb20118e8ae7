/** The console page shared with the backend (struct xencons_interface) and the two copy
    loops that move bytes through it in chunks: RingCopyFromRead and RingCopyToWrite. */
module SharedRing {
  import opened Word32
  import opened Sequences

  type byte = x: int | 0 <= x < 256

  const IN_SIZE: nat := 1024
  const OUT_SIZE: nat := 2048

  /** A ring size usable with free-running 32-bit indices. */
  predicate RingSize(size: nat) {
    size > 0 && MODULUS % size == 0
  }

  // ----- Reference: one byte at a time, every index reduced separately -----

  /** The `n` bytes found at the slots `cons`, `cons + 1`, ... of `ring`. */
  function Peek(ring: seq<byte>, cons: u32, n: nat): (data: seq<byte>)
    requires ring != []
    ensures |data| == n
    decreases n
  {
    if n == 0 then [] else [ring[cons % |ring|]] + Peek(ring, Add(cons, 1), n - 1)
  }

  /** `ring` after storing `data` at the slots `prod`, `prod + 1`, ... */
  function Poke(ring: seq<byte>, prod: u32, data: seq<byte>): (ring': seq<byte>)
    requires ring != []
    ensures |ring'| == |ring|
    decreases |data|
  {
    if data == [] then ring
    else Poke(ring[prod % |ring| := data[0]], Add(prod, 1), data[1..])
  }

  /** Room left for the producer, as RingCopyToWrite computes it. */
  function Room(prod: u32, cons: u32, size: nat): u32 {
    Wrap(cons + size - prod)
  }

  /** Length of the next chunk: what is wanted, what is available, and what is left before
      the end of the array. */
  function Chunk(want: nat, available: nat, index: nat, size: nat): (n: nat)
    requires index < size
    ensures n <= want && n <= available && index + n <= size
    ensures want > 0 && available > 0 ==> n > 0
  {
    Min(Min(want, available), size - index)
  }

  /** A chunk that does not cross the end of the array is a contiguous slice. */
  lemma {:induction false} PeekChunk(ring: seq<byte>, cons: u32, m: nat, rest: nat)
    requires ring != [] && RingSize(|ring|) && cons % |ring| + m <= |ring|
    ensures var i := cons % |ring|;
            Peek(ring, cons, m + rest) == ring[i..i + m] + Peek(ring, Add(cons, m), rest)
    decreases m
  {
    var i, next, last := cons % |ring|, Add(cons, 1), Add(cons, m);
    if m == 0 {
      assert Add(cons, 0) == cons;
    } else {
      AddTwice(cons, 1, m - 1);
      if m > 1 {
        NextSlot(cons, |ring|);
        PeekChunk(ring, next, m - 1, rest);
      } else {
        assert ring[i + 1..i + 1] + Peek(ring, last, rest) == Peek(ring, last, rest);
      }
      PeekChunkStep(ring, cons, m, rest, i, next, last);
    }
  }

  lemma PeekChunkStep(ring: seq<byte>, cons: u32, m: nat, rest: nat, i: nat, next: u32, last: u32)
    requires ring != [] && m > 0 && i == cons % |ring| && i + m <= |ring| && next == Add(cons, 1)
    requires Peek(ring, next, m - 1 + rest) == ring[i + 1..i + m] + Peek(ring, last, rest)
    ensures Peek(ring, cons, m + rest) == ring[i..i + m] + Peek(ring, last, rest)
  {
    SliceFirst(ring, i, m);
    Assoc([ring[i]], ring[i + 1..i + m], Peek(ring, last, rest));
  }

  lemma SliceFirst(ring: seq<byte>, i: nat, m: nat)
    requires m > 0 && i + m <= |ring|
    ensures ring[i..i + m] == [ring[i]] + ring[i + 1..i + m]
  {
  }

  /** `ring` with `chunk` copied over its slots from `i` on. */
  function Splice(ring: seq<byte>, i: nat, chunk: seq<byte>): (ring': seq<byte>)
    requires i + |chunk| <= |ring|
    ensures |ring'| == |ring|
  {
    ring[..i] + chunk + ring[i + |chunk|..]
  }

  lemma {:induction false} PokeChunk(ring: seq<byte>, prod: u32, chunk: seq<byte>, rest: seq<byte>)
    requires ring != [] && RingSize(|ring|) && prod % |ring| + |chunk| <= |ring|
    ensures Poke(ring, prod, chunk + rest) == Poke(Splice(ring, prod % |ring|, chunk), Add(prod, |chunk|), rest)
    decreases |chunk|
  {
    var i, next, last := prod % |ring|, Add(prod, 1), Add(prod, |chunk|);
    if chunk == [] {
      SpliceStep(ring, i, chunk);
      assert chunk + rest == rest && last == prod;
    } else {
      var ring1, tail := ring[i := chunk[0]], chunk[1..];
      AddTwice(prod, 1, |tail|);
      if tail != [] {
        NextSlot(prod, |ring|);
        PokeChunk(ring1, next, tail, rest);
      } else {
        SpliceStep(ring1, i + 1, tail);
        assert tail + rest == rest;
      }
      PokeChunkStep(ring, prod, chunk, rest, i, next, last);
    }
  }

  lemma PokeChunkStep(ring: seq<byte>, prod: u32, chunk: seq<byte>, rest: seq<byte>, i: nat, next: u32, last: u32)
    requires ring != [] && chunk != [] && i == prod % |ring| && i + |chunk| <= |ring| && next == Add(prod, 1)
    requires var ring1, tail := ring[i := chunk[0]], chunk[1..];
             Poke(ring1, next, tail + rest) == Poke(Splice(ring1, i + 1, tail), last, rest)
    ensures Poke(ring, prod, chunk + rest) == Poke(Splice(ring, i, chunk), last, rest)
  {
    PokeFirst(ring, prod, chunk, rest);
    SpliceStep(ring, i, chunk);
  }

  lemma PokeFirst(ring: seq<byte>, prod: u32, a: seq<byte>, b: seq<byte>)
    requires ring != [] && a != []
    ensures Poke(ring, prod, a + b) == Poke(ring[prod % |ring| := a[0]], Add(prod, 1), a[1..] + b)
  {
    assert (a + b)[1..] == a[1..] + b;
  }

  lemma SpliceStep(ring: seq<byte>, i: nat, chunk: seq<byte>)
    requires i + |chunk| <= |ring|
    ensures chunk == [] ==> Splice(ring, i, chunk) == ring
    ensures chunk != [] ==> Splice(ring, i, chunk) == Splice(ring[i := chunk[0]], i + 1, chunk[1..])
    ensures |chunk| == 1 ==> Splice(ring, i, chunk) == ring[i := chunk[0]]
  {
  }

  /** Two consecutive reads are one longer read. */
  lemma {:induction false} PeekSplit(ring: seq<byte>, cons: u32, m: nat, rest: nat)
    requires ring != []
    ensures Peek(ring, cons, m + rest) == Peek(ring, cons, m) + Peek(ring, Add(cons, m), rest)
    decreases m
  {
    if m == 0 {
      assert Add(cons, 0) == cons;
    } else {
      PeekSplit(ring, Add(cons, 1), m - 1, rest);
      AddTwice(cons, 1, m - 1);
      var head := [ring[cons % |ring|]];
      assert Peek(ring, cons, m) == head + Peek(ring, Add(cons, 1), m - 1);
    }
  }

  /** Two consecutive stores are one longer store. */
  lemma {:induction false} PokeSplit(ring: seq<byte>, prod: u32, a: seq<byte>, b: seq<byte>)
    requires ring != []
    ensures Poke(ring, prod, a + b) == Poke(Poke(ring, prod, a), Add(prod, |a|), b)
    decreases |a|
  {
    if a == [] {
      assert a + b == b;
      WrapOfWord(prod);
    } else {
      var ring1, next, tail := ring[prod % |ring| := a[0]], Add(prod, 1), a[1..];
      PokeFirst(ring, prod, a, b);
      PokeSplit(ring1, next, tail, b);
      AddTwice(prod, 1, |tail|);
      assert Poke(ring, prod, a) == Poke(ring1, next, tail);
    }
  }

  lemma NextSlot(idx: u32, size: nat)
    requires RingSize(size) && idx % size + 1 < size
    ensures Add(idx, 1) % size == idx % size + 1
  {
    SlotOfWrapped(idx + 1, size);
    var q := idx / size;
    assert idx == q * size + idx % size;
    ModShift(idx % size + 1, q, size);
    assert idx + 1 == idx % size + 1 + q * size;
    assert (idx % size + 1) % size == idx % size + 1 by { SmallMod(idx % size + 1, size); }
  }

  lemma SmallMod(x: nat, size: nat)
    requires x < size
    ensures x % size == x
  {
  }

  lemma AddTwice(a: u32, m: int, n: int)
    ensures Add(Add(a, m), n) == Add(a, m + n)
  {
    AddOfWrapped(a + m, n);
  }

  // ----- The shared page and the copy loops -----

  /** RtlCopyMemory between two distinct arrays. */
  method CopyMemory(dst: array<byte>, at: nat, src: array<byte>, from: nat, n: nat)
    requires dst != src && at + n <= dst.Length && from + n <= src.Length
    modifies dst
    ensures dst[..] == old(dst[..])[..at] + src[..][from..from + n] + old(dst[..])[at + n..]
  {
    forall k | 0 <= k < n {
      dst[at + k] := src[from + k];
    }
  }

  /** The read loop after `offset` bytes: the caller's buffer holds that much of the answer. */
  ghost predicate ReadSoFar(now: seq<byte>, data0: seq<byte>, ring: seq<byte>, cons0: u32, offset: nat, n: nat) {
    && offset <= n <= |now| == |data0| && ring != []
    && now == now[..offset] + data0[offset..]
    && now[..offset] + Peek(ring, Add(cons0, offset), n - offset) == Peek(ring, cons0, n)
  }

  /** The same with the indices the loop works with. */
  ghost predicate Reading(now: seq<byte>, data0: seq<byte>, ring: seq<byte>, prod: u32, cons0: u32, cons: u32,
                          offset: nat, length: nat)
  {
    && offset <= length && cons == Add(cons0, offset) && Sub(prod, cons) == Sub(prod, cons0) - offset
    && ReadSoFar(now, data0, ring, cons0, offset, Min(length, Sub(prod, cons0)))
  }

  /** One iteration of the read loop: the part already copied grows by a chunk. */
  lemma ReadStep(before: seq<byte>, after: seq<byte>, data0: seq<byte>, ring: seq<byte>,
                 prod: u32, cons0: u32, cons: u32, offset: nat, length: nat, m: nat)
    requires Reading(before, data0, ring, prod, cons0, cons, offset, length)
    requires m <= length - offset && m <= Sub(prod, cons) && |ring| == IN_SIZE && cons % IN_SIZE + m <= IN_SIZE
    requires after == before[..offset] + ring[cons % IN_SIZE..cons % IN_SIZE + m] + before[offset + m..]
    ensures Reading(after, data0, ring, prod, cons0, Add(cons, m), offset + m, length)
  {
    AddTwice(cons0, offset, m);
    Advance(prod, cons, m);
    PeekChunk(ring, cons, m, Min(length, Sub(prod, cons0)) - offset - m);
    ReadGrows(before, after, data0, ring, cons0, cons, offset, m, Min(length, Sub(prod, cons0)));
  }

  lemma ReadGrows(before: seq<byte>, after: seq<byte>, data0: seq<byte>, ring: seq<byte>, cons0: u32, cons: u32,
                  offset: nat, m: nat, n: nat)
    requires ReadSoFar(before, data0, ring, cons0, offset, n) && offset + m <= n
    requires cons == Add(cons0, offset) && Add(cons, m) == Add(cons0, offset + m)
    requires |ring| == IN_SIZE && cons % IN_SIZE + m <= IN_SIZE
    requires after == before[..offset] + ring[cons % IN_SIZE..cons % IN_SIZE + m] + before[offset + m..]
    requires Peek(ring, cons, n - offset)
          == ring[cons % IN_SIZE..cons % IN_SIZE + m] + Peek(ring, Add(cons, m), n - offset - m)
    ensures ReadSoFar(after, data0, ring, cons0, offset + m, n)
  {
    var chunk := ring[cons % IN_SIZE..cons % IN_SIZE + m];
    assert after[..offset + m] == before[..offset] + chunk;
    Assoc(before[..offset], chunk, Peek(ring, Add(cons, m), n - offset - m));
    assert before[offset + m..] == data0[offset + m..];
  }

  lemma ReadStart(data0: seq<byte>, ring: seq<byte>, prod: u32, cons: u32, length: nat)
    requires length <= |data0| && ring != []
    ensures Reading(data0, data0, ring, prod, cons, cons, 0, length)
  {
    var n := Min(length, Sub(prod, cons));
    assert Add(cons, 0) == cons;
    NothingRead(data0, ring, cons, n);
  }

  lemma NothingRead(data0: seq<byte>, ring: seq<byte>, cons: u32, n: nat)
    requires n <= |data0| && ring != [] && Add(cons, 0) == cons
    ensures ReadSoFar(data0, data0, ring, cons, 0, n)
  {
    assert data0[..0] + data0[0..] == data0;
    assert data0[..0] + Peek(ring, cons, n) == Peek(ring, cons, n);
  }

  lemma ReadEnd(now: seq<byte>, data0: seq<byte>, ring: seq<byte>, prod: u32, cons0: u32, cons: u32,
                offset: nat, length: nat)
    requires Reading(now, data0, ring, prod, cons0, cons, offset, length)
    requires offset == length || Sub(prod, cons) == 0
    ensures offset == Min(length, Sub(prod, cons0)) && now == Peek(ring, cons0, offset) + data0[offset..]
  {
    assert now[..offset] + [] == now[..offset];
  }

  /** One iteration of the write loop: what is left to store shrinks by a chunk. */
  lemma WriteStep(ring: seq<byte>, ring': seq<byte>, prod: u32, data: seq<byte>, offset: nat, m: nat, n: nat)
    requires |ring| == OUT_SIZE && prod % OUT_SIZE + m <= OUT_SIZE
    requires offset + m <= n <= |data|
    requires ring' == Splice(ring, prod % OUT_SIZE, data[offset..offset + m])
    ensures Poke(ring', Add(prod, m), data[offset + m..n]) == Poke(ring, prod, data[offset..n])
  {
    assert data[offset..n] == data[offset..offset + m] + data[offset + m..n];
    PokeChunk(ring, prod, data[offset..offset + m], data[offset + m..n]);
  }

  class SharedPage {
    const input: array<byte>
    const output: array<byte>
    var inCons: u32
    var inProd: u32
    var outCons: u32
    var outProd: u32

    ghost predicate Valid() {
      input.Length == IN_SIZE && output.Length == OUT_SIZE && input != output
    }

    /** RingConnect hands the backend a zeroed page. */
    constructor ()
      ensures Valid() && fresh(input) && fresh(output)
      ensures inCons == inProd == outCons == outProd == 0
    {
      input := new byte[IN_SIZE](_ => 0);
      output := new byte[OUT_SIZE](_ => 0);
      inCons, inProd, outCons, outProd := 0, 0, 0, 0;
    }

    /** Moves min(length, in_prod - in_cons) bytes to the caller, for index values of any
        kind, consistent or not. */
    method CopyFromRead(data: array<byte>, length: u32) returns (read: u32)
      requires Valid() && length <= data.Length && data != input && data != output
      modifies data, this`inCons
      ensures read == Min(length, Sub(old(inProd), old(inCons)))
      ensures data[..] == Peek(input[..], old(inCons), read) + old(data[read..])
      ensures inCons == Add(old(inCons), read)
    {
      ghost var data0, ring := data[..], input[..];
      var cons: u32, prod: u32 := inCons, inProd;
      ghost var cons0: u32 := cons;
      var offset: u32, remaining: u32 := 0, length;
      ReadStart(data0, ring, prod, cons0, length);
      while remaining != 0
        invariant offset + remaining == length
        invariant Reading(data[..], data0, ring, prod, cons0, cons, offset, length)
        invariant input[..] == ring
        decreases remaining
      {
        var available := Sub(prod, cons);
        if available == 0 {
          break;
        }
        var index := cons % IN_SIZE;
        var m := Chunk(remaining, available, index, IN_SIZE);
        ghost var before := data[..];
        CopyMemory(data, offset, input, index, m);
        ReadStep(before, data[..], data0, ring, prod, cons0, cons, offset, length, m);
        offset := offset + m;
        remaining := remaining - m;
        cons := Add(cons, m);
      }
      ReadEnd(data[..], data0, ring, prod, cons0, cons, offset, length);
      inCons := cons;
      read := offset;
    }

    /** Moves min(length, out_cons + 2048 - out_prod) bytes into the ring, for index values
        of any kind: with inconsistent indices the later bytes overwrite the earlier ones
        exactly as a byte-at-a-time loop would. */
    method CopyToWrite(data: array<byte>, length: u32) returns (written: u32)
      requires Valid() && length <= data.Length && data != input && data != output
      modifies output, this`outProd
      ensures written == Min(length, Room(old(outProd), old(outCons), OUT_SIZE))
      ensures output[..] == Poke(old(output[..]), old(outProd), data[..written])
      ensures outProd == Add(old(outProd), written)
    {
      var prod := outProd;
      var cons := outCons;
      ghost var room := Room(prod, cons, OUT_SIZE);
      ghost var n: nat := Min(length, room);
      ghost var prod0, ring0 := prod, output[..];
      var offset: u32, remaining: u32 := 0, length;
      assert data[..][0..n] == data[..n];
      while remaining != 0
        invariant offset + remaining == length && offset <= n
        invariant prod == Add(prod0, offset)
        invariant Room(prod, cons, OUT_SIZE) == room - offset
        invariant Poke(output[..], prod, data[..][offset..n]) == Poke(ring0, prod0, data[..n])
        decreases remaining
      {
        var available := Room(prod, cons, OUT_SIZE);
        if available == 0 {
          break;
        }
        var index := prod % OUT_SIZE;
        var m := Chunk(remaining, available, index, OUT_SIZE);
        ghost var ring := output[..];
        CopyMemory(output, index, data, offset, m);
        WriteStep(ring, output[..], prod, data[..], offset, m, n);
        AddTwice(prod0, offset, m);
        AdvanceRoom(prod, cons, OUT_SIZE, m);
        offset := offset + m;
        remaining := remaining - m;
        prod := Add(prod, m);
      }
      assert data[..][n..n] == [];
      outProd := prod;
      written := offset;
    }
  }

  /** Consuming `m` of the available bytes leaves `m` fewer, whatever the indices are. */
  lemma Advance(prod: u32, cons: u32, m: nat)
    requires m <= Sub(prod, cons)
    ensures Sub(prod, Add(cons, m)) == Sub(prod, cons) - m
  {
    SubOfWrapped(prod, cons + m);
    var q, d := (prod - cons) / MODULUS, Sub(prod, cons) - m;
    assert prod - (cons + m) == d + q * MODULUS;
    WrapPeriodic(d, q);
    assert Wrap(prod) == prod && Wrap(d) == d;
  }

  lemma AdvanceRoom(prod: u32, cons: u32, size: nat, m: nat)
    requires m <= Room(prod, cons, size)
    ensures Room(Add(prod, m), cons, size) == Room(prod, cons, size) - m
  {
    var limit := Add(cons, size);
    RoomIsDistance(prod, cons, size);
    RoomIsDistance(Add(prod, m), cons, size);
    Advance(limit, prod, m);
  }

  lemma RoomIsDistance(prod: u32, cons: u32, size: nat)
    ensures Room(prod, cons, size) == Sub(Add(cons, size), prod)
  {
    SubOfWrapped(cons + size, prod);
    WrapOfWord(prod);
  }

  /** What is left to fetch after fetching `n` bytes. */
  lemma FetchStep(input: seq<byte>, cons: u32, prod: u32, n: nat)
    requires input != [] && n <= Sub(prod, cons)
    ensures var stream := Peek(input, cons, Sub(prod, cons));
            Peek(input, cons, n) == stream[..n]
            && Peek(input, Add(cons, n), Sub(prod, Add(cons, n))) == stream[n..]
  {
    Advance(prod, cons, n);
    PeekSplit(input, cons, n, Sub(prod, cons) - n);
  }
}
