/** Lists of strings packed into one block, each string ended by a NUL and the list by another:
    the registry's encoder and decoder, and the decoder for store directories. Characters are
    those that the ANSI and Unicode forms share. */
module MultiSz {

  import opened Sequences

  const NUL: char := '\0'

  // ----- The format -----

  function Encode(strings: seq<string>): (e: seq<char>)
    ensures |e| > 0
  {
    if strings == [] then [NUL] else strings[0] + [NUL] + Encode(strings[1..])
  }

  /** What the encoder adds up first: each string with its NUL, and one NUL more. */
  function Units(strings: seq<string>): nat {
    if strings == [] then 1 else |strings[0]| + 1 + Units(strings[1..])
  }

  lemma {:induction false} EncodeTakesUnits(strings: seq<string>)
    ensures |Encode(strings)| == Units(strings)
  {
    if strings != [] {
      EncodeTakesUnits(strings[1..]);
    }
  }

  /** The block ends in the zero character, and each string stands before one of its own. */
  lemma {:induction false} EncodedAt(strings: seq<string>, k: nat)
    requires k < |strings|
    ensures var e, at := Encode(strings), |Encode(strings[..k])| - 1;
            && at + |strings[k]| < |e| && e[at..at + |strings[k]|] == strings[k]
            && e[at + |strings[k]|] as int == 0 && e[|e| - 1] as int == 0
    decreases k
  {
    var e, later := Encode(strings), Encode(strings[1..]);
    assert e == strings[0] + [NUL] + later;
    LastIsNul(strings);
    if k > 0 {
      EncodedAt(strings[1..], k - 1);
      assert strings[..k][0] == strings[0] && strings[..k][1..] == strings[1..][..k - 1];
      var n, at := |strings[0]| + 1, |Encode(strings[1..][..k - 1])| - 1;
      assert e[n + at..n + at + |strings[k]|] == later[at..at + |strings[k]|];
    }
  }

  lemma {:induction false} LastIsNul(strings: seq<string>)
    ensures Encode(strings)[|Encode(strings)| - 1] as int == 0
  {
    if strings != [] {
      LastIsNul(strings[1..]);
    }
  }

  /** wcslen and strlen at `i`, were they to stop at the end of the block. */
  function Len(b: seq<char>, i: nat): (n: nat)
    requires i <= |b|
    ensures i + n <= |b| && (i + n < |b| ==> b[i + n] == NUL)
    decreases |b| - i
  {
    if i == |b| || b[i] == NUL then 0 else 1 + Len(b, i + 1)
  }

  predicate HasNul(b: seq<char>, i: nat) {
    i <= |b| && i + Len(b, i) < |b|
  }

  lemma {:induction false} LenIs(b: seq<char>, i: nat, n: nat)
    requires i + n < |b| && b[i + n] == NUL && forall k | i <= k < i + n :: b[k] != NUL
    ensures Len(b, i) == n
    decreases n
  {
    if n > 0 {
      LenIs(b, i + 1, n - 1);
    }
  }

  lemma {:induction false} NoNulBefore(b: seq<char>, i: nat)
    requires i <= |b|
    ensures forall k | i <= k < i + Len(b, i) :: b[k] != NUL
    decreases |b| - i
  {
    if i < |b| && b[i] != NUL {
      NoNulBefore(b, i + 1);
    }
  }

  /** An empty string ends the list. */
  ghost predicate Listed(b: seq<char>, i: nat)
    decreases |b| - i
  {
    HasNul(b, i) && (Len(b, i) == 0 || Listed(b, i + Len(b, i) + 1))
  }

  ghost function Strings(b: seq<char>, i: nat): seq<string>
    requires Listed(b, i)
    decreases |b| - i
  {
    var n := Len(b, i);
    if n == 0 then [] else [b[i..i + n]] + Strings(b, i + n + 1)
  }

  /** A string the format can carry. */
  predicate Fit(s: string) {
    s != [] && NUL !in s
  }

  predicate At(b: seq<char>, i: nat, e: seq<char>) {
    i + |e| <= |b| && b[i..i + |e|] == e
  }

  lemma AtSplit(b: seq<char>, i: nat, c: seq<char>, d: seq<char>)
    ensures At(b, i, c + d) <==> At(b, i, c) && At(b, i + |c|, d)
  {
    if At(b, i, c + d) {
      assert |c + d| == |c| + |d|;
      assert b[i..i + |c|] == b[i..i + |c + d|][..|c|] == c;
      assert b[i + |c|..i + |c| + |d|] == b[i..i + |c + d|][|c|..] == d;
    }
    if At(b, i, c) && At(b, i + |c|, d) {
      assert b[i..i + |c| + |d|] == b[i..i + |c|] + b[i + |c|..i + |c| + |d|];
    }
  }

  lemma {:induction false} DecodeEncode(b: seq<char>, i: nat, strings: seq<string>)
    requires At(b, i, Encode(strings)) && forall s | s in strings :: Fit(s)
    ensures Listed(b, i) && Strings(b, i) == strings
    decreases |strings|
  {
    if strings == [] {
      assert Encode(strings) == [NUL];
      assert b[i] == b[i..i + 1][0];
    } else {
      var s, later := strings[0], strings[1..];
      assert s in strings && Encode(strings) == s + [NUL] + Encode(later);
      AtSplit(b, i, s + [NUL], Encode(later));
      DecodeEncode(b, i + |s| + 1, later);
      DecodeCons(b, i, s, later);
    }
  }

  lemma DecodeCons(b: seq<char>, i: nat, s: string, later: seq<string>)
    requires At(b, i, s + [NUL]) && Fit(s) && Listed(b, i + |s| + 1) && Strings(b, i + |s| + 1) == later
    ensures Listed(b, i) && Strings(b, i) == [s] + later
  {
    AtSplit(b, i, s, [NUL]);
    StringAt(b, i, s);
  }

  lemma StringAt(b: seq<char>, i: nat, s: string)
    requires At(b, i, s) && At(b, i + |s|, [NUL]) && NUL !in s
    ensures Len(b, i) == |s| && b[i..i + |s|] == s && HasNul(b, i)
  {
    assert b[i + |s|] == b[i + |s|..i + |s| + 1][0];
    assert forall k | i <= k < i + |s| :: b[k] == s[k - i];
    LenIs(b, i, |s|);
  }

  lemma {:induction false} StringsFit(b: seq<char>, i: nat)
    requires Listed(b, i)
    ensures forall s | s in Strings(b, i) :: Fit(s)
    decreases |b| - i
  {
    var n := Len(b, i);
    if n != 0 {
      NoNulBefore(b, i);
      StringsFit(b, i + n + 1);
    }
  }

  /** Decoding gives back what was encoded exactly for lists of non-empty strings without NULs. */
  lemma RoundTripIff(strings: seq<string>)
    ensures (Listed(Encode(strings), 0) && Strings(Encode(strings), 0) == strings)
            <==> forall s | s in strings :: Fit(s)
  {
    if forall s | s in strings :: Fit(s) {
      DecodeEncode(Encode(strings), 0, strings);
    } else if Listed(Encode(strings), 0) {
      StringsFit(Encode(strings), 0);
    }
  }

  /** And encoding what was decoded gives back the block, up to the NUL that ended the list. */
  lemma {:induction false} EncodeDecode(b: seq<char>, i: nat)
    requires Listed(b, i)
    ensures At(b, i, Encode(Strings(b, i)))
    decreases |b| - i
  {
    var n := Len(b, i);
    if n != 0 {
      EncodeDecode(b, i + n + 1);
      EncodeCons(b, i, n, Strings(b, i + n + 1));
    }
  }

  lemma EncodeCons(b: seq<char>, i: nat, n: nat, later: seq<string>)
    requires i + n < |b| && b[i + n] == NUL && At(b, i + n + 1, Encode(later))
    ensures At(b, i, Encode([b[i..i + n]] + later))
  {
    var s := b[i..i + n];
    assert b[i + n..i + n + 1] == [NUL];
    AtSplit(b, i, s, [NUL]);
    AtSplit(b, i, s + [NUL], Encode(later));
    assert ([s] + later)[1..] == later;
  }

  // ----- The registry's encoder -----

  const MODULUS16 := 0x1_0000

  /** RtlAnsiStringToUnicodeString into caller's memory of `room` bytes at `at`. */
  method Convert(data: array<char>, at: nat, room: nat, s: string) returns (ok: bool)
    requires 2 * (|s| + 1) <= room ==> at + |s| + 1 <= data.Length
    modifies data
    ensures ok == (2 * (|s| + 1) <= room)
    ensures ok ==> data[..] == old(data[..at]) + s + [NUL] + old(data[at + |s| + 1..])
    ensures !ok ==> data[..] == old(data[..])
  {
    ok := 2 * (|s| + 1) <= room;
    if ok {
      forall k | 0 <= k < |s| {
        data[at + k] := s[k];
      }
      data[at + |s|] := NUL;
    }
  }

  /** The 16-bit count of bytes left for `strings` when `done` units are written. The 32-bit count
      it is cut from may itself wrap, to no further effect. */
  function Room(total: nat, done: nat): int {
    2 * total % MODULUS16 - 2 * done
  }

  /** RegistryAnsiToMultiSz, given memory. It succeeds exactly if the block fits sixteen bits of
      bytes; then its assertion always holds and it fills the block to the last unit. */
  method AnsiToMultiSz(strings: seq<string>) returns (data: array<char>, ok: bool)
    ensures ok <==> 2 * Units(strings) < MODULUS16
    ensures ok ==> data[..] == Encode(strings)
    ensures fresh(data) && data.Length == Units(strings)
  {
    var length := 1;
    for i := 0 to |strings|
      invariant length + Units(strings[i..]) == Units(strings) + 1
    {
      length := length + |strings[i]| + 1;
    }
    assert Units(strings[|strings|..]) == 1;
    data := new char[length](_ => NUL);
    var maximum := 2 * length % MODULUS16;
    var at := 0;
    EncodeTakesUnits(strings);
    for i := 0 to |strings|
      invariant 0 <= at <= data.Length && data.Length == Units(strings)
      invariant maximum == Room(Units(strings), at) >= 0
      invariant at + Units(strings[i..]) == Units(strings)
      invariant data[..at] + Encode(strings[i..]) == Encode(strings)
    {
      var s := strings[i];
      assert strings[i..][0] == s && strings[i..][1..] == strings[i + 1..];
      ghost var done := data[..at];
      RoomDecides(Units(strings), at, |s|, Units(strings[i + 1..]));
      ok := Convert(data, at, maximum, s);
      if !ok {
        return;
      }
      assert maximum >= 2 * (|s| + 1);
      maximum := maximum - 2 * (|s| + 1);
      at := at + |s| + 1;
      assert data[..at] == done + s + [NUL];
      EncodeStep(done, strings, i);
    }
    assert strings[|strings|..] == [];
    data[at] := NUL;
    ok := true;
    RoomAtEnd(Units(strings), at);
    assert data[..] == data[..at] + [NUL];
  }

  lemma EncodeStep(done: seq<char>, strings: seq<string>, i: nat)
    requires i < |strings|
    ensures done + strings[i] + [NUL] + Encode(strings[i + 1..]) == done + Encode(strings[i..])
  {
    var s, e := strings[i], Encode(strings[i + 1..]);
    assert strings[i..][0] == s && strings[i..][1..] == strings[i + 1..];
    assert done + s + [NUL] + e == done + (s + [NUL] + e);
  }

  /** A conversion finds too little room only if the sixteen bits did not hold the whole. */
  lemma RoomDecides(total: nat, done: nat, n: nat, later: nat)
    requires total == done + n + 1 + later && later > 0
    ensures 2 * total < MODULUS16 ==> 2 * (n + 1) <= Room(total, done)
    ensures 2 * (n + 1) <= Room(total, done) ==> done + n + 1 <= total
  {
  }

  /** And if every conversion found its room, they did. */
  lemma RoomAtEnd(total: nat, done: nat)
    requires total == done + 1 && Room(total, done) >= 0
    ensures 2 * total < MODULUS16
  {
  }

  // ----- The decoders -----

  method Wcslen(b: seq<char>, i: nat) returns (n: nat)
    requires HasNul(b, i)
    ensures n == Len(b, i)
  {
    n := 0;
    while b[i + n] != NUL
      invariant 0 <= n && i + n < |b| && n + Len(b, i + n) == Len(b, i)
      decreases |b| - i - n
    {
      n := n + 1;
    }
  }

  /** The first loop of RegistryMultiSzToAnsi. */
  method CountStrings(buffer: seq<char>) returns (count: nat)
    requires Listed(buffer, 0)
    ensures count == |Strings(buffer, 0)|
  {
    var index: nat := 0;
    count := 0;
    while true
      invariant 0 <= count && Listed(buffer, index)
      invariant count + |Strings(buffer, index)| == |Strings(buffer, 0)|
      decreases |buffer| - index
    {
      var length := Wcslen(buffer, index);
      if length == 0 {
        break;
      }
      index, count := index + length + 1, count + 1;
    }
  }

  /** A counted string: what its buffer reads as, and its two 16-bit counts. */
  datatype Ansi = Ansi(text: string, length: nat, maximum: nat)

  /** What fits a counted Unicode string; RtlInitUnicodeString cuts the rest off. */
  const LONGEST := 32766

  function Shorter(m: nat, n: nat): nat {
    if m < n then m else n
  }

  /** No block of zero bytes is ever allocated. */
  predicate Allocates(n: nat) {
    (n + 1) % MODULUS16 != 0
  }

  /** The assertion on the conversion: the buffer's 16-bit size holds what is converted and a NUL. */
  predicate Converts(n: nat) {
    Shorter(n, LONGEST) + 1 <= (n + 1) % MODULUS16
  }

  function Counted(s: string): Ansi {
    Ansi(s[..Shorter(|s|, LONGEST)], |s| % MODULUS16, (|s| + 1) % MODULUS16)
  }

  function AllCounted(strings: seq<string>): (ansi: seq<Ansi>)
    ensures |ansi| == |strings| && forall k | 0 <= k < |strings| :: ansi[k] == Counted(strings[k])
  {
    seq(|strings|, k requires 0 <= k < |strings| => Counted(strings[k]))
  }

  predicate AllConvert(strings: seq<string>) {
    forall k | 0 <= k < |strings| :: Converts(|strings[k]|)
  }

  predicate AllAllocate(strings: seq<string>) {
    forall k | 0 <= k < |strings| :: Allocates(|strings[k]|)
  }

  /** A string is handed on as it is exactly if a counted Unicode string can describe it. */
  lemma CountedIsExactIff(s: string)
    ensures Counted(s) == Ansi(s, |s|, |s| + 1) <==> |s| <= LONGEST
    ensures |s| <= LONGEST ==> Allocates(|s|) && Converts(|s|)
  {
    if |s| <= LONGEST {
      assert s[..|s|] == s;
    }
  }

  /** What is left to copy from `at` on. */
  ghost predicate Copying(rest: seq<string>, b: seq<char>, at: nat) {
    Listed(b, at) && Strings(b, at) == rest
  }

  lemma CopyStep(rest: seq<string>, b: seq<char>, at: nat)
    requires Copying(rest, b, at) && rest != []
    ensures var n := Len(b, at); rest[0] == b[at..at + n] && Copying(rest[1..], b, at + n + 1)
  {
  }

  /** RegistryMultiSzToAnsi. The first `grants` allocations succeed, those of no bytes excepted;
      `live` counts the blocks still allocated and `asserted` says that no assertion failed. */
  method MultiSzToAnsi(buffer: seq<char>, grants: nat)
    returns (array_: Option<seq<Ansi>>, live: int, asserted: bool)
    requires Listed(buffer, 0)
    ensures array_.Some? <==> |Strings(buffer, 0)| < grants && AllAllocate(Strings(buffer, 0))
    ensures array_.Some? ==> (asserted <==> AllConvert(Strings(buffer, 0))) && live == |Strings(buffer, 0)| + 1
    ensures array_.Some? && asserted ==> array_.value == AllCounted(Strings(buffer, 0))
    ensures array_.None? ==> live == 0
  {
    var count := CountStrings(buffer);
    ghost var all := Strings(buffer, 0);
    array_, live, asserted := CopyStrings(buffer, count, grants, all);
  }

  method CopyStrings(b: seq<char>, count: nat, grants: nat, ghost all: seq<string>)
    returns (array_: Option<seq<Ansi>>, live: int, asserted: bool)
    requires Copying(all, b, 0) && count == |all|
    ensures array_.Some? <==> count < grants && AllAllocate(all)
    ensures array_.Some? ==> (asserted <==> AllConvert(all)) && live == count + 1
    ensures array_.Some? && asserted ==> array_.value == AllCounted(all)
    ensures array_.None? ==> live == 0
  {
    live, asserted := 0, true;
    if live >= grants {
      return None, live, asserted;
    }
    live := live + 1;
    var ansi: seq<Ansi>, at: nat := [], 0;
    assert all[0..] == all;
    for i := 0 to count
      invariant live == i + 1 <= grants && Copying(all[i..], b, at)
      invariant AllAllocate(all[..i]) && (asserted <==> AllConvert(all[..i]))
      invariant asserted ==> ansi == AllCounted(all[..i])
    {
      CopyStep(all[i..], b, at);
      var length := Wcslen(b, at);
      var s := b[at..at + length];
      Split(all, i, s);
      CountedSnoc(all[..i], s);
      var maximum := (length + 1) % MODULUS16;
      if live >= grants || maximum == 0 {
        live := FreeAll(live, i);
        return None, live, asserted;
      }
      live := live + 1;
      var converted := Shorter(length, LONGEST);
      asserted := asserted && converted + 1 <= maximum;
      ansi := ansi + [Ansi(s[..converted], length % MODULUS16, maximum)];
      at := at + length + 1;
    }
    assert all[..count] == all;
    array_ := Some(ansi);
  }

  lemma CountedSnoc(done: seq<string>, s: string)
    ensures AllCounted(done + [s]) == AllCounted(done) + [Counted(s)]
    ensures AllConvert(done + [s]) <==> AllConvert(done) && Converts(|s|)
    ensures AllAllocate(done + [s]) <==> AllAllocate(done) && Allocates(|s|)
  {
    var more := done + [s];
    assert forall k | 0 <= k < |done| :: more[k] == done[k];
    assert more[|done|] == s;
  }

  /** The common way out: the strings allocated before `index`, then the array. */
  method FreeAll(live: int, index: nat) returns (live': int)
    ensures live' == live - index - 1
  {
    live' := live;
    var i := index - 1;
    while i >= 0
      invariant -1 <= i < index && live' == live - (index - 1 - i)
    {
      live' := live' - 1;
      i := i - 1;
    }
    live' := live' - 1;
  }

  // ----- The store directory's decoder -----

  function Upcase(c: char): char {
    if c < 'a' || c > 'z' then c else 'A' + (c - 'a')
  }

  /** The letters 'a' to 'z' become those 32 below, everything else stays. */
  lemma UpcaseByCode(c: char)
    ensures 97 <= c as int <= 122 ==> Upcase(c) as int == c as int - 32
    ensures !(97 <= c as int <= 122) ==> Upcase(c) == c
  {
  }

  function Upcased(s: seq<char>): (u: seq<char>)
    ensures |u| == |s| && forall k | 0 <= k < |s| :: u[k] == Upcase(s[k])
  {
    seq(|s|, k requires 0 <= k < |s| => Upcase(s[k]))
  }

  function AllUpcased(strings: seq<string>): (u: seq<string>)
    ensures |u| == |strings| && forall k | 0 <= k < |strings| :: u[k] == Upcased(strings[k])
  {
    seq(|strings|, k requires 0 <= k < |strings| => Upcased(strings[k]))
  }

  /** This decoder looks for two NULs in a row, not for an empty string. */
  ghost predicate Doubled(b: seq<char>, i: nat)
    decreases |b| - i
  {
    HasNul(b, i) &&
    var j := i + Len(b, i) + 1;
    j < |b| && (b[j] == NUL || Doubled(b, j))
  }

  ghost function Segments(b: seq<char>, i: nat): (segments: seq<string>)
    requires Doubled(b, i)
    ensures segments != []
    decreases |b| - i
  {
    var n := Len(b, i);
    [b[i..i + n]] + if b[i + n + 1] == NUL then [] else Segments(b, i + n + 1)
  }

  /** On a list of at least one string it means the same as the other decoder. */
  lemma {:induction false} SegmentsAreStrings(b: seq<char>, i: nat)
    requires Listed(b, i) && Strings(b, i) != []
    ensures Doubled(b, i) && Segments(b, i) == Strings(b, i)
    decreases |b| - i
  {
    var j := i + Len(b, i) + 1;
    assert Listed(b, j);
    if b[j] == NUL {
      LenIs(b, j, 0);
    } else {
      SegmentsAreStrings(b, j);
    }
  }

  /** On the encoding of the empty list it runs off the end; padded with one more NUL the list
      reads as one empty string. */
  lemma EmptyListMisread()
    ensures !Doubled(Encode([]), 0)
    ensures Doubled(Encode([]) + [NUL], 0) && Segments(Encode([]) + [NUL], 0) == [""]
  {
  }

  /** The characters before the second of the two NULs. */
  ghost function Reach(b: seq<char>, i: nat): (n: nat)
    requires Doubled(b, i)
    ensures i + n < |b|
    decreases |b| - i
  {
    var n := Len(b, i) + 1;
    if b[i + n] == NUL then n else n + Reach(b, i + n)
  }

  /** The block with its characters up to `end` in upper case. */
  ghost predicate UpcasedTo(b: seq<char>, c: seq<char>, end: nat) {
    |b| == |c| && forall k | 0 <= k < |b| :: c[k] == if k < end then Upcase(b[k]) else b[k]
  }

  lemma UpcaseNext(b: seq<char>, c: seq<char>, i: nat)
    requires UpcasedTo(b, c, i) && i < |b|
    ensures c[i] == b[i] && UpcasedTo(b, c[i := Upcase(b[i])], i + 1)
    ensures b[i] == NUL ==> UpcasedTo(b, c, i + 1)
  {
  }

  lemma UpcaseSlice(b: seq<char>, c: seq<char>, end: nat, i: nat, n: nat)
    requires UpcasedTo(b, c, end) && i + n <= end && i + n <= |b|
    ensures c[i..i + n] == Upcased(b[i..i + n])
  {
  }

  lemma {:induction false} UpcasingKeepsLen(b: seq<char>, c: seq<char>, end: nat, i: nat)
    requires UpcasedTo(b, c, end) && i <= |b|
    ensures Len(c, i) == Len(b, i)
    decreases |b| - i
  {
    if i < |b| {
      UpcasingKeepsLen(b, c, end, i + 1);
    }
  }

  lemma {:induction false} UpcasingKeepsShape(b: seq<char>, c: seq<char>, end: nat, i: nat)
    requires UpcasedTo(b, c, end) && Doubled(b, i) && i + Reach(b, i) == end
    ensures Doubled(c, i) && Segments(c, i) == AllUpcased(Segments(b, i))
    decreases |b| - i
  {
    var n := Len(b, i);
    UpcasingKeepsLen(b, c, end, i);
    UpcaseSlice(b, c, end, i, n);
    if b[i + n + 1] == NUL {
      assert Segments(c, i) == [c[i..i + n]];
    } else {
      UpcasingKeepsShape(b, c, end, i + n + 1);
      UpcaseJoin(b, c, i, n);
    }
  }

  lemma UpcaseJoin(b: seq<char>, c: seq<char>, i: nat, n: nat)
    requires Doubled(b, i) && n == Len(b, i) && b[i + n + 1] != NUL
    requires |c| == |b| && n == Len(c, i) && c[i..i + n] == Upcased(b[i..i + n])
    requires Doubled(c, i + n + 1) && Segments(c, i + n + 1) == AllUpcased(Segments(b, i + n + 1))
    requires c[i + n + 1] != NUL
    ensures Doubled(c, i) && Segments(c, i) == AllUpcased(Segments(b, i))
  {
    SegmentsCons(b, i, n);
    SegmentsCons(c, i, n);
    UpcasedCons(b[i..i + n], Segments(b, i + n + 1));
  }

  lemma SegmentsCons(b: seq<char>, i: nat, n: nat)
    requires i + n + 1 < |b| && n == Len(b, i) && b[i + n + 1] != NUL && Doubled(b, i + n + 1)
    ensures Doubled(b, i) && Segments(b, i) == [b[i..i + n]] + Segments(b, i + n + 1)
  {
  }

  lemma UpcasedCons(s: string, strings: seq<string>)
    ensures AllUpcased([s] + strings) == [Upcased(s)] + AllUpcased(strings)
  {
  }

  /** Both counts of such a string hold it. */
  predicate AllShort(strings: seq<string>) {
    forall k | 0 <= k < |strings| :: |strings[k]| + 1 < MODULUS16
  }

  /** __FdoMultiSzToUpcaseAnsi: turns the buffer to upper case in place, then copies the strings.
      `within` says that no copy went past the end of its block, whose size is cut to sixteen
      bits. */
  method MultiSzToUpcaseAnsi(buffer: array<char>, grants: nat)
    returns (array_: Option<seq<string>>, live: int, within: bool)
    requires Doubled(buffer[..], 0)
    modifies buffer
    ensures var all := old(Segments(buffer[..], 0));
            && (array_.Some? <==> |all| < grants && AllAllocate(all))
            && (array_.Some? ==> (within <==> AllShort(all)) && live == |all| + 1)
            && (array_.Some? && within ==> array_.value == AllUpcased(all))
            && (array_.None? ==> live == 0)
  {
    ghost var was := buffer[..];
    var count := UpcaseAndCount(buffer);
    UpcasingKeepsShape(was, buffer[..], Reach(was, 0), 0);
    ghost var all := Segments(buffer[..], 0);
    UpcasingKeepsSizes(Segments(was, 0));
    array_, live, within := CopySegments(buffer[..], count, grants, all);
  }

  lemma UpcasingKeepsSizes(strings: seq<string>)
    ensures AllAllocate(AllUpcased(strings)) <==> AllAllocate(strings)
    ensures AllShort(AllUpcased(strings)) <==> AllShort(strings)
  {
    var u := AllUpcased(strings);
    forall k | 0 <= k < |strings|
      ensures |u[k]| == |strings[k]|
    {
      assert u[k] == Upcased(strings[k]);
    }
  }

  method UpcaseAndCount(buffer: array<char>) returns (count: nat)
    requires Doubled(buffer[..], 0)
    modifies buffer
    ensures count == |old(Segments(buffer[..], 0))|
    ensures UpcasedTo(old(buffer[..]), buffer[..], old(Reach(buffer[..], 0)))
  {
    ghost var was := buffer[..];
    var index: nat := 0;
    ghost var start: nat := 0;
    count := 0;
    while true
      invariant 0 <= count && 0 <= index < buffer.Length && Counting(was, count, start, index)
      invariant UpcasedTo(was, buffer[..], index)
      decreases buffer.Length - index
    {
      CountStep(was, count, start, index);
      UpcaseNext(was, buffer[..], index);
      if buffer[index] == NUL {
        count := count + 1;
        index := index + 1;
        if buffer[index] == NUL {
          break;
        }
        start := index;
      } else {
        ghost var now := buffer[..];
        buffer[index] := Upcase(buffer[index]);
        assert buffer[..] == now[index := Upcase(was[index])];
        index := index + 1;
      }
    }
  }

  /** Strings counted so far; the one at hand began at `start`. */
  ghost predicate Counting(b: seq<char>, count: nat, start: nat, index: nat) {
    && start <= index < |b| && Doubled(b, 0) && Doubled(b, start)
    && index + Len(b, index) == start + Len(b, start)
    && count + |Segments(b, start)| == |Segments(b, 0)| && start + Reach(b, start) == Reach(b, 0)
  }

  lemma CountStep(b: seq<char>, count: nat, start: nat, index: nat)
    requires Counting(b, count, start, index)
    ensures index + 1 < |b|
    ensures b[index] != NUL ==> Counting(b, count, start, index + 1)
    ensures b[index] == NUL && b[index + 1] != NUL ==> Counting(b, count + 1, index + 1, index + 1)
    ensures b[index] == NUL && b[index + 1] == NUL ==> count + 1 == |Segments(b, 0)| && index + 1 == Reach(b, 0)
  {
  }

  /** What is left to copy from `at` on. */
  ghost predicate Splitting(rest: seq<string>, b: seq<char>, at: nat) {
    rest != [] ==> Doubled(b, at) && Segments(b, at) == rest
  }

  lemma SplitStep(rest: seq<string>, b: seq<char>, at: nat)
    requires Splitting(rest, b, at) && rest != []
    ensures var n := Len(b, at); rest[0] == b[at..at + n] && Splitting(rest[1..], b, at + n + 1)
  {
  }

  method CopySegments(b: seq<char>, count: nat, grants: nat, ghost all: seq<string>)
    returns (array_: Option<seq<string>>, live: int, within: bool)
    requires Splitting(all, b, 0) && count == |all|
    ensures array_.Some? <==> count < grants && AllAllocate(all)
    ensures array_.Some? ==> (within <==> AllShort(all)) && live == count + 1 && array_.value == all
    ensures array_.None? ==> live == 0
  {
    assert all[0..] == all;
    live, within := 0, true;
    if live >= grants {
      return None, live, within;
    }
    live := live + 1;
    var ansi: seq<string>, at: nat := [], 0;
    for i := 0 to count
      invariant |ansi| == i && live == i + 1 <= grants && ansi == all[..i] && Splitting(all[i..], b, at)
      invariant AllAllocate(ansi) && (within <==> AllShort(ansi))
    {
      SplitStep(all[i..], b, at);
      var length := Wcslen(b, at);
      var s := b[at..at + length];
      Split(all, i, s);
      var maximum := (length + 1) % MODULUS16;
      if live >= grants || maximum == 0 {
        live := FreeAll(live, i);
        return None, live, within;
      }
      live := live + 1;
      within := within && length <= maximum;
      ShortSnoc(ansi, s);
      ansi := ansi + [s];
      at := at + length + 1;
    }
    assert all[..count] == all;
    array_ := Some(ansi);
  }

  lemma Split(all: seq<string>, i: nat, s: string)
    requires i < |all| && all[i..][0] == s
    ensures all[i] == s && all[..i + 1] == all[..i] + [s] && all[i..][1..] == all[i + 1..]
  {
  }

  lemma ShortSnoc(done: seq<string>, s: string)
    ensures AllAllocate(done + [s]) <==> AllAllocate(done) && Allocates(|s|)
    ensures Allocates(|s|) ==>
              (AllShort(done + [s]) <==> AllShort(done) && |s| <= (|s| + 1) % MODULUS16)
  {
    var more := done + [s];
    assert forall k | 0 <= k < |done| :: more[k] == done[k];
    assert more[|done|] == s;
  }

  /** Encoded by the one, decoded by the other: a store directory of one name or more comes back
      as the same names in upper case. */
  lemma DirectoryRoundTrip(strings: seq<string>, rest: seq<char>)
    requires strings != [] && forall s | s in strings :: Fit(s)
    ensures var b := Encode(strings) + rest; Doubled(b, 0) && Segments(b, 0) == strings
  {
    DecodeEncode(Encode(strings) + rest, 0, strings);
    SegmentsAreStrings(Encode(strings) + rest, 0);
  }
}
