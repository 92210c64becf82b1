/** Bytes, and the variable length integers both codecs are built on. */
module Varints {

  type Byte = x: int | 0 <= x < 256
  type Octets = seq<Byte>

  const U32: nat := 0x1_0000_0000
  const U64: nat := 0x1_0000_0000_0000_0000

  datatype Error = EndOfInput | InvalidVarint | InvalidBuffSize | InvalidRemoteAncestorCount | NotEnoughBytes | WrongMessageType
                 | TooManyAdditionalIndices

  /** What a decoder returns: the value and the number of bytes it took. */
  datatype Decoded<+T> = Ok(value: T, count: nat) | Err(error: Error)

  /** Seven bits a byte, the lowest first; all bytes but the last have the high bit set. */
  function Uvarint(v: nat): (s: Octets)
    ensures s != []
  {
    if v < 128 then [v] else [v % 128 + 128] + Uvarint(v / 128)
  }

  /** Reads such an integer; `i` bytes were read before. More than 64 bits are refused. */
  function ParseUvarint(s: Octets, i: nat): (r: Decoded<nat>)
    ensures r.Ok? ==> 0 < r.count <= |s|
  {
    if s == [] then Err(EndOfInput)
    else if s[0] < 128 then
      if i > 9 || (i == 9 && s[0] > 1) then Err(InvalidVarint) else Ok(s[0], 1)
    else
      var r := ParseUvarint(s[1..], i + 1);
      if r.Err? then r else Ok(s[0] - 128 + 128 * r.value, r.count + 1)
  }

  /** The `i`-th byte holds the `i`-th seven bits, and there are no more bytes than needed. */
  lemma {:induction false} UvarintByPosition(v: nat, i: nat)
    requires i < |Uvarint(v)|
    ensures Pow128(i) > 0 && Uvarint(v)[i] == (v / Pow128(i)) % 128 + if i + 1 < |Uvarint(v)| then 128 else 0
    ensures i + 1 < |Uvarint(v)| ==> v >= Pow128(i + 1)
    ensures i + 1 == |Uvarint(v)| ==> v < Pow128(i + 1)
    decreases v
  {
    if v >= 128 && i > 0 {
      UvarintByPosition(v / 128, i - 1);
      DivideTwice(v, 128, Pow128(i - 1));
      Scaled(v, 128, Pow128(i));
    } else {
      assert Pow128(1) == 128 * Pow128(0);
    }
  }

  lemma DivideTwice(v: nat, a: nat, b: nat)
    requires a > 0 && b > 0
    ensures a * b > 0 && v / a / b == v / (a * b)
  {
    var q, s, t := v / a / b, v / a % b, v % a;
    assert v / a == b * q + s;
    calc {
      v;
      a * (v / a) + t;
      a * (b * q + s) + t;
      a * b * q + (a * s + t);
    }
    assert a * s + t < a * b by {
      assert s + 1 <= b;
      assert a * (s + 1) <= a * b;
    }
    assert a * b > 0;
    Quotient(v, a * b, q, a * s + t);
  }

  lemma Quotient(x: nat, d: nat, q: nat, r: nat)
    requires d > 0 && r < d && x == d * q + r
    ensures x / d == q
  {
    assert x == d * (x / d) + x % d;
    SameQuotient(d, x / d, x % d, q, r);
  }

  lemma SameQuotient(d: nat, p: nat, m: nat, q: nat, r: nat)
    requires d * p + m == d * q + r && m < d && r < d
    ensures p == q
  {
    if p > q { OneMoreTimes(d, q, p); } else if p < q { OneMoreTimes(d, p, q); }
  }

  lemma OneMoreTimes(d: nat, a: nat, b: nat)
    requires a < b
    ensures d * a + d <= d * b
  {
    assert d * b == d * a + d * (b - a);
    assert d * (b - a) == d * (b - a - 1) + d;
  }

  lemma Scaled(v: nat, a: nat, b: nat)
    requires a > 0
    ensures v / a >= b <==> v >= a * b
  {
    assert v == a * (v / a) + v % a;
    if v / a >= b { assert a * (v / a) >= a * b; } else { assert a * (v / a + 1) <= a * b; }
  }

  /** The numbers that fit when `i` bytes were read before. */
  function Room(i: nat): nat
    requires i <= 9
    decreases 9 - i
  {
    if i == 9 then 2 else 128 * Room(i + 1)
  }

  lemma RoomIsU64()
    ensures Room(0) == U64
  {
    assert Room(8) == 256;
    assert Room(7) == 32768;
    assert Room(6) == 4194304;
    assert Room(5) == 536870912;
    assert Room(4) == 68719476736;
    assert Room(3) == 8796093022208;
    assert Room(2) == 1125899906842624;
    assert Room(1) == 144115188075855872;
  }

  /** Reading back what was written, whatever follows it. */
  lemma {:induction false} UvarintBack(v: nat, rest: Octets, i: nat)
    requires i <= 9 && v < Room(i)
    ensures ParseUvarint(Uvarint(v) + rest, i) == Ok(v, |Uvarint(v)|)
    decreases v
  {
    var s := Uvarint(v) + rest;
    if v >= 128 {
      assert i < 9;
      UvarintBack(v / 128, rest, i + 1);
      assert s[1..] == Uvarint(v / 128) + rest;
    }
  }

  lemma UvarintRoundTrip(v: nat, rest: Octets)
    requires v < U64
    ensures ParseUvarint(Uvarint(v) + rest, 0) == Ok(v, |Uvarint(v)|)
  {
    RoomIsU64();
    UvarintBack(v, rest, 0);
  }

  /** The form of `v` with `k` zero bytes put after its highest one. */
  function Padded(v: nat, k: nat): (s: Octets)
    ensures |s| == |Uvarint(v)| + k
  {
    if k == 0 then Uvarint(v)
    else if v < 128 then [v + 128] + Padded(0, k - 1)
    else [v % 128 + 128] + Padded(v / 128, k)
  }

  lemma {:induction false} PaddedBack(v: nat, k: nat, rest: Octets, i: nat)
    requires if i <= 9 then v < Room(i) else v == 0
    ensures ParseUvarint(Padded(v, k) + rest, i) == if i + |Padded(v, k)| <= 10 then Ok(v, |Padded(v, k)|) else Err(InvalidVarint)
    decreases v, k
  {
    var s := Padded(v, k) + rest;
    if v >= 128 {
      assert i < 9;
      PaddedBack(v / 128, k, rest, i + 1);
      assert s[1..] == Padded(v / 128, k) + rest;
    } else if k > 0 {
      RoomPositive(i + 1);
      PaddedBack(0, k - 1, rest, i + 1);
      assert s[1..] == Padded(0, k - 1) + rest;
    }
  }

  lemma {:induction false} RoomPositive(i: nat)
    ensures i <= 9 ==> Room(i) > 0
    decreases 10 - i
  {
    if i < 9 { RoomPositive(i + 1); }
  }

  /** A longer form of a number is read as the number exactly when it has at most ten bytes, so what is read
      does not determine the bytes. */
  lemma LongFormIsRead(v: nat, k: nat, rest: Octets)
    requires v < U64
    ensures ParseUvarint(Padded(v, k) + rest, 0) == if |Uvarint(v)| + k <= 10 then Ok(v, |Uvarint(v)| + k) else Err(InvalidVarint)
  {
    RoomIsU64();
    PaddedBack(v, k, rest, 0);
  }

  // ----- A stream -----

  function Pow128(i: nat): nat { if i == 0 then 1 else 128 * Pow128(i - 1) }

  /** What was read so far, put below what is still to come. */
  function Below(x: nat, i: nat, r: Decoded<nat>): Decoded<nat> {
    if r.Err? then r else Ok(x + Pow128(i) * r.value, i + r.count)
  }

  lemma BelowStep(x: nat, i: nat, b: nat, r: Decoded<nat>)
    requires b >= 128
    ensures Below(x, i, if r.Err? then r else Ok(b - 128 + 128 * r.value, r.count + 1)) == Below(x + Pow128(i) * (b - 128), i + 1, r)
  {
    if r.Ok? {
      calc {
        Pow128(i) * (b - 128 + 128 * r.value);
        Pow128(i) * (b - 128) + Pow128(i) * (128 * r.value);
        Pow128(i) * (b - 128) + Pow128(i + 1) * r.value;
      }
    }
  }

  lemma BelowEnds(x: nat, i: nat, b: nat)
    ensures Below(x, i, Ok(b, 1)) == Ok(x + Pow128(i) * b, i + 1)
    ensures Pow128(i + 1) == 128 * Pow128(i)
    ensures forall e :: Below(x, i, Err(e)) == Err(e)
  {
  }

  lemma BelowStarts(r: Decoded<nat>)
    ensures Below(0, 0, r) == r && Pow128(0) == 1
  {
  }

  lemma ParseStep(s: Octets, i: nat)
    ensures s == [] ==> ParseUvarint(s, i) == Err(EndOfInput)
    ensures s != [] && s[0] < 128 ==> ParseUvarint(s, i) == if i > 9 || (i == 9 && s[0] > 1) then Err(InvalidVarint) else Ok(s[0], 1)
    ensures s != [] && s[0] >= 128 ==>
      var r := ParseUvarint(s[1..], i + 1);
      ParseUvarint(s, i) == if r.Err? then r else Ok(s[0] - 128 + 128 * r.value, r.count + 1)
  {
  }

  class Reader {
    const data: Octets
    var pos: nat

    ghost predicate Valid()
      reads this
    {
      pos <= |data|
    }

    constructor (bytes: Octets)
      ensures data == bytes && pos == 0 && Valid()
    {
      data, pos := bytes, 0;
    }

    ghost function Rest(): Octets
      reads this
      requires Valid()
    {
      data[pos..]
    }

    method ReadUvarint() returns (r: Decoded<nat>)
      requires Valid()
      modifies this`pos
      ensures Valid() && r == ParseUvarint(old(Rest()), 0)
      ensures r.Ok? ==> pos == old(pos) + r.count
    {
      hide ParseUvarint, Below, Pow128;
      ghost var rest := Rest();
      BelowStarts(ParseUvarint(rest, 0));
      var x: nat, i: nat, scale: nat := 0, 0, 1;
      while true
        invariant Valid() && pos == old(pos) + i && scale == Pow128(i)
        invariant ParseUvarint(rest, 0) == Below(x, i, ParseUvarint(Rest(), i))
        decreases |data| - pos
      {
        ParseStep(Rest(), i);
        BelowEnds(x, i, if pos < |data| then data[pos] else 0);
        if pos == |data| {
          return Err(EndOfInput);
        }
        var b: nat := data[pos];
        assert Rest()[0] == b && Rest()[1..] == data[pos + 1..];
        pos := pos + 1;
        if b < 128 {
          if i > 9 || (i == 9 && b > 1) {
            return Err(InvalidVarint);
          }
          return Ok(x + scale * b, i + 1);
        }
        BelowStep(x, i, b, ParseUvarint(Rest(), i + 1));
        x, scale, i := x + scale * (b - 128), 128 * scale, i + 1;
      }
    }

    method ReadBytes(n: nat) returns (r: Decoded<Octets>)
      requires Valid()
      modifies this`pos
      ensures Valid() && r == Take(old(Rest()), n)
      ensures r.Ok? ==> pos == old(pos) + n
    {
      if pos == |data| && n > 0 {
        return Err(EndOfInput);
      }
      if |data| - pos < n {
        pos := |data|;
        return Err(InvalidBuffSize);
      }
      r := Ok(data[pos..pos + n], n);
      assert data[pos..][..n] == data[pos..pos + n];
      pos := pos + n;
    }
  }

  function Take(s: Octets, n: nat): (r: Decoded<Octets>)
    ensures r.Ok? ==> r.count <= |s|
  {
    if s == [] && n > 0 then Err(EndOfInput) else if |s| < n then Err(InvalidBuffSize) else Ok(s[..n], n)
  }

  lemma TakeBack(s: Octets, rest: Octets)
    ensures Take(s + rest, |s|) == Ok(s, |s|)
  {
    assert (s + rest)[..|s|] == s;
  }
}
