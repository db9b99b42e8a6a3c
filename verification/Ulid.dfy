/** The registry's identifiers: a 48-bit time and an 80-bit counter seeded at random, as 26
    characters of base 32 whose order is the order of creation. */
module Ulid {
  import opened Contract

  type byte = x: int | 0 <= x < 256
  type digit = x: int | 0 <= x < 32
  type Bytes = seq<byte>

  const CROCKFORD := "0123456789ABCDEFGHJKMNPQRSTVWXYZ"

  // ----- numbers and their renderings -----------------------------------------------------------

  function Value(b: Bytes): nat {
    if b == [] then 0 else 256 * Value(b[..|b| - 1]) + b[|b| - 1]
  }

  function Base32(d: seq<digit>): nat {
    if d == [] then 0 else 32 * Base32(d[..|d| - 1]) + d[|d| - 1]
  }

  function Pow256(n: nat): nat {
    if n == 0 then 1 else 256 * Pow256(n - 1)
  }

  lemma {:induction false} ValueBound(b: Bytes)
    ensures Value(b) < Pow256(|b|)
  {
    if b != [] {
      ValueBound(b[..|b| - 1]);
    }
  }

  lemma {:induction false} ValueConcat(a: Bytes, b: Bytes)
    ensures Value(a + b) == Value(a) * Pow256(|b|) + Value(b)
  {
    if b == [] {
      assert a + b == a;
    } else {
      var init := b[..|b| - 1];
      ValueConcat(a, init);
      assert (a + b)[..|a + b| - 1] == a + init;
      assert Value(a) * Pow256(|b|) == 256 * (Value(a) * Pow256(|init|));
    }
  }

  /** String order for strings of one length: the first difference decides. */
  predicate Before(s: string, t: string) {
    |s| == |t| && exists i :: 0 <= i < |s| && s[..i] == t[..i] && s[i] < t[i]
  }

  /** Renderings of one length are ordered like the numbers they render. */
  lemma {:induction false} OrderOfDigits(x: seq<digit>, y: seq<digit>)
    requires |x| == |y|
    ensures Base32(x) < Base32(y) <==> exists i :: 0 <= i < |x| && x[..i] == y[..i] && x[i] < y[i]
    ensures Base32(x) == Base32(y) <==> x == y
  {
    if x != [] {
      var n := |x| - 1;
      OrderOfDigits(x[..n], y[..n]);
      assert x == x[..n] + [x[n]] && y == y[..n] + [y[n]];
      if Base32(x[..n]) < Base32(y[..n]) {
        var i :| 0 <= i < n && x[..n][..i] == y[..n][..i] && x[..n][i] < y[..n][i];
        assert x[..i] == x[..n][..i] && y[..i] == y[..n][..i];
      } else if x[..n] != y[..n] {
        forall i | 0 <= i < |x| && x[..i] == y[..i] ensures x[i] >= y[i] {
          assert i < n ==> x[..n][..i] == x[..i] && y[..n][..i] == y[..i];
        }
      } else {
        forall i | 0 <= i < n ensures x[i] == y[i] {
          assert x[..n][i] == y[..n][i];
        }
        assert x[n] < y[n] ==> x[..n] == y[..n] && x[n] < y[n];
      }
    }
  }

  // ----- encoding -----------------------------------------------------------------------------------

  /** Five bytes as eight digits; a shift right is a division, a mask of low bits a remainder. */
  function Group(b: Bytes): (d: seq<digit>)
    requires |b| == 5
  {
    [b[0] / 8,
     b[0] % 8 * 4 + b[1] / 64,
     b[1] / 2 % 32,
     b[1] % 2 * 16 + b[2] / 16,
     b[2] % 16 * 2 + b[3] / 128,
     b[3] / 4 % 32,
     b[3] % 4 * 8 + b[4] / 32,
     b[4] % 32]
  }

  function Digits(b: Bytes): seq<digit>
    requires |b| == 16
  {
    [b[0] / 32, b[0] % 32] + Group(b[1..6]) + Group(b[6..11]) + Group(b[11..16])
  }

  function Rendered(d: seq<digit>): string {
    seq(|d|, i requires 0 <= i < |d| => CROCKFORD[d[i]])
  }

  function Encode(b: Bytes): string
    requires |b| == 16
  {
    Rendered(Digits(b))
  }

  const GROUP := 0x100_0000_0000   // 2 to the 40

  function FiveBytes(b: Bytes): nat
    requires |b| == 5
  {
    256 * (256 * (256 * (256 * b[0] as int + b[1] as int) + b[2] as int) + b[3] as int) + b[4] as int
  }

  function FourDigits(d: seq<digit>): nat
    requires |d| == 4
  {
    32 * (32 * (32 * d[0] as int + d[1] as int) + d[2] as int) + d[3] as int
  }

  function EightDigits(d: seq<digit>): nat
    requires |d| == 8
  {
    0x10_0000 * FourDigits(d[..4]) + FourDigits(d[4..])
  }

  lemma AppendByte(a: Bytes, x: byte)
    ensures Value(a + [x]) == 256 * Value(a) + x
  {}

  lemma AppendDigit(a: seq<digit>, x: digit)
    ensures Base32(a + [x]) == 32 * Base32(a) + x
  {}

  lemma AppendBytes(a: Bytes, b: Bytes)
    requires |b| == 5
    ensures Value(a + b) == GROUP * Value(a) + FiveBytes(b)
  {
    var a1, a2, a3, a4 := a + [b[0]], a + [b[0]] + [b[1]], a + [b[0]] + [b[1]] + [b[2]], a + [b[0]] + [b[1]] + [b[2]] + [b[3]];
    AppendByte(a, b[0]);
    AppendByte(a1, b[1]);
    AppendByte(a2, b[2]);
    AppendByte(a3, b[3]);
    AppendByte(a4, b[4]);
    assert a + b == a4 + [b[4]];
  }

  lemma AppendFour(a: seq<digit>, d: seq<digit>)
    requires |d| == 4
    ensures Base32(a + d) == 0x10_0000 * Base32(a) + FourDigits(d)
  {
    var a1, a2, a3 := a + [d[0]], a + [d[0]] + [d[1]], a + [d[0]] + [d[1]] + [d[2]];
    AppendDigit(a, d[0]);
    AppendDigit(a1, d[1]);
    AppendDigit(a2, d[2]);
    AppendDigit(a3, d[3]);
    assert a + d == a3 + [d[3]];
  }

  lemma AppendDigits(a: seq<digit>, d: seq<digit>)
    requires |d| == 8
    ensures Base32(a + d) == GROUP * Base32(a) + EightDigits(d)
  {
    AppendFour(a, d[..4]);
    AppendFour(a + d[..4], d[4..]);
    assert a + d == (a + d[..4]) + d[4..];
  }

  lemma GroupKeepsTheNumber(b: Bytes)
    requires |b| == 5
    ensures EightDigits(Group(b)) == FiveBytes(b)
  {
    assert b[0] == 8 * (b[0] / 8) + b[0] % 8;
    assert b[1] == 64 * (b[1] / 64) + 2 * (b[1] / 2 % 32) + b[1] % 2;
    assert b[2] == 16 * (b[2] / 16) + b[2] % 16;
    assert b[3] == 128 * (b[3] / 128) + 4 * (b[3] / 4 % 32) + b[3] % 4;
    assert b[4] == 32 * (b[4] / 32) + b[4] % 32;
  }

  /** The 26 characters are the base 32 rendering of the 128-bit number. */
  lemma {:induction false} EncodingIsBase32(b: Bytes)
    requires |b| == 16
    ensures |Digits(b)| == 26 && Base32(Digits(b)) == Value(b)
  {
    var head := [b[0] / 32, b[0] % 32];
    assert head == [] + [b[0] / 32] + [b[0] % 32];
    AppendDigit([], b[0] / 32);
    AppendDigit([b[0] / 32], b[0] % 32);
    assert [b[0] / 32] == [] + [b[0] / 32];
    AppendByte([], b[0]);
    assert b[..1] == [] + [b[0]];
    NextGroup(b[..1], head, b[1..6]);
    NextGroup(b[..1] + b[1..6], head + Group(b[1..6]), b[6..11]);
    NextGroup(b[..1] + b[1..6] + b[6..11], head + Group(b[1..6]) + Group(b[6..11]), b[11..16]);
    assert b == b[..1] + b[1..6] + b[6..11] + b[11..16];
  }

  lemma NextGroup(a: Bytes, d: seq<digit>, g: Bytes)
    requires |g| == 5 && Value(a) == Base32(d)
    ensures Value(a + g) == Base32(d + Group(g))
  {
    AppendBytes(a, g);
    AppendDigits(d, Group(g));
    GroupKeepsTheNumber(g);
  }

  lemma AlphabetIsOrdered(x: digit, y: digit)
    ensures CROCKFORD[x] < CROCKFORD[y] <==> x < y
    ensures CROCKFORD[x] == CROCKFORD[y] <==> x == y
    ensures Alnum(CROCKFORD[x])
  {
    CharacterOf(x);
    CharacterOf(y);
  }

  /** Ten digits, then the letters without I, L, O and U. */
  lemma CharacterOf(x: digit)
    ensures CROCKFORD[x] as int == x + (if x < 10 then 48 else if x < 18 then 55 else if x < 20 then 56
                                        else if x < 22 then 57 else if x < 27 then 58 else 59)
  {}

  lemma {:induction false} RenderingKeepsOrder(x: seq<digit>, y: seq<digit>)
    requires |x| == |y|
    ensures Before(Rendered(x), Rendered(y)) <==> exists i :: 0 <= i < |x| && x[..i] == y[..i] && x[i] < y[i]
    ensures Rendered(x) == Rendered(y) <==> x == y
  {
    var s, t := Rendered(x), Rendered(y);
    forall i | 0 <= i < |x|
      ensures s[i] < t[i] <==> x[i] < y[i]
      ensures s[i] == t[i] <==> x[i] == y[i]
    {
      AlphabetIsOrdered(x[i], y[i]);
    }
    forall i | 0 <= i <= |x| ensures s[..i] == t[..i] <==> x[..i] == y[..i] {
      if s[..i] == t[..i] {
        forall k | 0 <= k < i ensures x[k] == y[k] {
          assert s[..i][k] == s[k] && t[..i][k] == t[k];
        }
      }
      if x[..i] == y[..i] {
        forall k | 0 <= k < i ensures s[k] == t[k] {
          assert x[..i][k] == x[k] && y[..i][k] == y[k];
        }
      }
    }
    assert s[..|x|] == s && t[..|x|] == t && x[..|x|] == x && y[..|x|] == y;
  }

  /** Identifiers are ordered, and equal, exactly like the numbers they encode. */
  lemma {:induction false} EncodingKeepsOrder(a: Bytes, b: Bytes)
    requires |a| == 16 && |b| == 16
    ensures Before(Encode(a), Encode(b)) <==> Value(a) < Value(b)
    ensures Encode(a) == Encode(b) <==> Value(a) == Value(b)
  {
    EncodingIsBase32(a);
    EncodingIsBase32(b);
    OrderOfDigits(Digits(a), Digits(b));
    RenderingKeepsOrder(Digits(a), Digits(b));
  }

  lemma EncodedIsAnIdentifier(b: Bytes)
    requires |b| == 16
    ensures |Encode(b)| == 26 && IsIdentifier(Encode(b))
  {
    EncodingIsBase32(b);
    forall i | 0 <= i < 26 ensures Alnum(Encode(b)[i]) {
      AlphabetIsOrdered(Digits(b)[i], 0);
    }
  }

  // ----- generation -----------------------------------------------------------------------------------

  const MAX_MS := 0x1_0000_0000_0000   // 48 bits

  function TimeBytes(ms: nat): Bytes {
    [ms / 0x100_0000_0000 % 256, ms / 0x1_0000_0000 % 256, ms / 0x100_0000 % 256,
     ms / 0x1_0000 % 256, ms / 0x100 % 256, ms % 256]
  }

  /** Shifting by one byte more is dividing by 256 once more. */
  lemma Shifts(ms: nat)
    ensures ms / 0x100 == ms / 0x1_0000 * 256 + ms / 0x100 % 256
    ensures ms / 0x1_0000 == ms / 0x100_0000 * 256 + ms / 0x1_0000 % 256
    ensures ms / 0x100_0000 == ms / 0x1_0000_0000 * 256 + ms / 0x100_0000 % 256
    ensures ms / 0x1_0000_0000 == ms / 0x100_0000_0000 * 256 + ms / 0x1_0000_0000 % 256
  {}

  lemma SixBytes(t: Bytes)
    requires |t| == 6
    ensures Value(t) == GROUP * t[0] as int + FiveBytes(t[1..])
  {
    AppendByte([], t[0]);
    AppendBytes([t[0]], t[1..]);
    assert t == [t[0]] + t[1..] && [] + [t[0]] == [t[0]];
  }

  lemma TimeBytesKeepTheTime(ms: nat)
    requires ms < MAX_MS
    ensures |TimeBytes(ms)| == 6 && Value(TimeBytes(ms)) == ms
  {
    SixBytes(TimeBytes(ms));
    Shifts(ms);
  }

  predicate All(b: Bytes, x: byte) {
    forall i | 0 <= i < |b| :: b[i] == x
  }

  lemma {:induction false} ZerosAndOnes(zeros: Bytes, ones: Bytes)
    requires All(zeros, 0) && All(ones, 255)
    ensures Value(zeros) == 0 && Value(ones) + 1 == Pow256(|ones|)
    decreases |zeros| + |ones|
  {
    if zeros != [] {
      ZerosAndOnes(zeros[..|zeros| - 1], ones);
    } else if ones != [] {
      ZerosAndOnes(zeros, ones[..|ones| - 1]);
    }
  }

  /** A carry: all ones at the end become zeros, and the byte before them gains one. */
  lemma {:induction false} Carry(p: Bytes, x: byte, ones: Bytes, zeros: Bytes)
    requires x < 255 && All(ones, 255) && All(zeros, 0) && |ones| == |zeros|
    ensures Value(p + [x + 1] + zeros) == Value(p + [x] + ones) + 1
  {
    ZerosAndOnes(zeros, ones);
    ValueConcat(p + [x + 1], zeros);
    ValueConcat(p + [x], ones);
    AppendByte(p, x);
    AppendByte(p, x + 1);
    assert (256 * Value(p) + x + 1) * Pow256(|ones|) == (256 * Value(p) + x) * Pow256(|ones|) + Pow256(|ones|);
  }

  function Code(ms: nat, counter: Bytes): Bytes {
    TimeBytes(ms) + counter
  }

  /** A later time, or the same time and a larger counter, makes a larger number. */
  lemma {:induction false} CodesAreOrdered(m: nat, a: Bytes, n: nat, b: Bytes)
    requires |a| == 10 && |b| == 10 && m < MAX_MS && n < MAX_MS
    requires m < n || (m == n && Value(a) < Value(b))
    ensures Value(Code(m, a)) < Value(Code(n, b))
  {
    TimeBytesKeepTheTime(m);
    TimeBytesKeepTheTime(n);
    ValueConcat(TimeBytes(m), a);
    ValueConcat(TimeBytes(n), b);
    ValueBound(a);
    if m < n {
      assert m * Pow256(10) + Pow256(10) <= n * Pow256(10);
    }
  }

  class Generator {
    var lastMS: nat
    const last: array<byte>

    ghost predicate Valid()
      reads this
    {
      last.Length == 10 && lastMS < MAX_MS
    }

    /** The last identifier, as its bytes. */
    ghost function Last(): Bytes
      requires Valid()
      reads this, last
    {
      Code(lastMS, last[..])
    }

    constructor ()
      ensures Valid() && lastMS == 0 && fresh(last)
    {
      lastMS := 0;
      last := new byte[10](_ => 0);
    }

    /** Adds one to the counter; false when it was all ones. */
    method Increment() returns (ok: bool)
      requires Valid()
      modifies last
      ensures ok ==> Value(last[..]) == Value(old(last[..])) + 1
      ensures !ok <==> All(old(last[..]), 255)
    {
      ghost var before := last[..];
      var i := 9;
      while i >= 0
        invariant -1 <= i <= 9
        invariant forall k | 0 <= k <= i :: last[k] == before[k]
        invariant forall k | i < k < 10 :: last[k] == 0 && before[k] == 255
      {
        last[i] := (last[i] as int + 1) % 256;
        if last[i] != 0 {
          Carry(before[..i], before[i], before[i + 1..], last[i + 1..]);
          assert before == before[..i] + [before[i]] + before[i + 1..];
          assert last[..] == before[..i] + [before[i] + 1] + last[i + 1..];
          return true;
        }
        i := i - 1;
      }
      ok := false;
    }

    method Fill(random: Bytes)
      requires Valid() && |random| == 10
      modifies last
      ensures last[..] == random
    {
      forall i | 0 <= i < 10 {
        last[i] := random[i];
      }
    }

    /** Whatever the clock says, the new identifier is after the last one. */
    method NewIDAt(ms: nat, random: Bytes) returns (id: string)
      requires Valid() && |random| == 10 && ms < MAX_MS && lastMS + 1 < MAX_MS
      modifies this, last
      ensures Valid() && id == Encode(Last())
      ensures Value(old(Last())) < Value(Last())
      ensures old(lastMS) < ms ==> lastMS == ms && last[..] == random
      ensures ms <= old(lastMS) && !All(old(last[..]), 255) ==>
                lastMS == old(lastMS) && Value(last[..]) == Value(old(last[..])) + 1
      ensures ms <= old(lastMS) && All(old(last[..]), 255) ==> lastMS == old(lastMS) + 1 && last[..] == random
    {
      ghost var m, before := lastMS, last[..];
      if ms <= lastMS {
        var ok := Increment();
        if !ok {
          lastMS := lastMS + 1;
          Fill(random);
        }
      } else {
        lastMS := ms;
        Fill(random);
      }
      CodesAreOrdered(m, before, lastMS, last[..]);
      id := Encode(TimeBytes(lastMS) + last[..]);
    }

    /** Any sequence of calls with any clock readings yields identifiers in strictly
        increasing order. */
    method NewIDs(times: seq<nat>, randoms: seq<Bytes>) returns (ids: seq<string>)
      requires Valid() && lastMS + |times| < MAX_MS && |randoms| == |times|
      requires forall i | 0 <= i < |times| :: times[i] + |times| < MAX_MS && |randoms[i]| == 10
      modifies this, last
      ensures |ids| == |times|
      ensures forall i, j | 0 <= i < j < |ids| :: Before(ids[i], ids[j])
      ensures forall i | 0 <= i < |ids| :: |ids[i]| == 26 && IsIdentifier(ids[i])
    {
      ids := [];
      ghost var codes: seq<Bytes> := [];
      for n := 0 to |times|
        invariant Valid() && lastMS + |times| - n < MAX_MS && |ids| == |codes| == n
        invariant forall i | 0 <= i < n :: |codes[i]| == 16 && ids[i] == Encode(codes[i])
        invariant forall i | 0 <= i < n :: Value(codes[i]) <= Value(Last())
        invariant forall i, j | 0 <= i < j < n :: Value(codes[i]) < Value(codes[j])
      {
        var id := NewIDAt(times[n], randoms[n]);
        ids := ids + [id];
        codes := codes + [Last()];
      }
      forall i, j | 0 <= i < j < |ids| ensures Before(ids[i], ids[j]) {
        EncodingKeepsOrder(codes[i], codes[j]);
      }
      forall i | 0 <= i < |ids| ensures |ids[i]| == 26 && IsIdentifier(ids[i]) {
        EncodedIsAnIdentifier(codes[i]);
      }
    }
  }
}
