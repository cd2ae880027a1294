/** Base-128 varints: the writer, the reader, and which byte strings the reader accepts. */
module Varint {
  import opened Common

  type byte = x: int | 0 <= x < 256

  const TWO_64: nat := 0x1_0000_0000_0000_0000

  datatype Parsed = Parsed(value: nat, rest: seq<byte>)

  datatype VarintError = Truncated | Overflow

  // ---------------------------------------------------------------------------------------------
  // Writing

  /** The shortest varint of n: seven bits a byte, least significant first. */
  function Encode(n: nat): (bytes: seq<byte>)
    ensures bytes != []
  {
    if n < 128 then [n] else [n % 128 + 128] + Encode(n / 128)
  }

  method WriteVarint(value: nat, out: seq<byte>) returns (out': seq<byte>)
    ensures out' == out + Encode(value)
  {
    var v := value;
    out' := out;
    while v >= 128
      invariant out' + Encode(v) == out + Encode(value)
    {
      out' := out' + [v % 128 + 128];
      v := v / 128;
    }
    out' := out' + [v];
  }

  // ---------------------------------------------------------------------------------------------
  // Reading

  /** 128 to the power i: the weight of byte i. */
  function Weight(i: nat): (w: nat)
    ensures w > 0
  {
    if i == 0 then 1 else 128 * Weight(i - 1)
  }

  /** What bytes k, k+1, ... of a varint contribute, scaled down by the weight of byte k. */
  function ParseFrom(data: seq<byte>, k: nat): Result<Parsed, VarintError>
    requires k <= 10
    decreases 10 - k
  {
    if k == 10 then Err(Overflow)
    else if data == [] then Err(Truncated)
    else if k == 9 && data[0] % 128 > 1 then Err(Overflow)
    else if data[0] < 128 then Ok(Parsed(data[0], data[1..]))
    else
      match ParseFrom(data[1..], k + 1)
      case Err(e) => Err(e)
      case Ok(p) => Ok(Parsed(data[0] % 128 + 128 * p.value, p.rest))
  }

  function Parse(data: seq<byte>): Result<Parsed, VarintError> {
    ParseFrom(data, 0)
  }

  /** usize::MAX >> 7 * i bounds the seven bits of byte i only at the tenth byte. */
  lemma ShiftedMax(i: nat)
    requires i < 10
    ensures (TWO_64 - 1) / Weight(i) >= 127 <==> i < 9
    ensures i == 9 ==> (TWO_64 - 1) / Weight(i) == 1
  {
    assert Weight(1) == 0x80;
    assert Weight(2) == 0x4000;
    assert Weight(3) == 0x20_0000;
    assert Weight(4) == 0x1000_0000;
    assert Weight(5) == 0x8_0000_0000;
    assert Weight(6) == 0x400_0000_0000;
    assert Weight(7) == 0x2_0000_0000_0000;
    assert Weight(8) == 0x100_0000_0000_0000;
    assert Weight(9) == 0x8000_0000_0000_0000;
  }

  /** The result of reading on, once the first i bytes have given value. */
  function Prefixed(value: nat, i: nat, tail: Result<Parsed, VarintError>): Result<Parsed, VarintError> {
    match tail
    case Err(e) => Err(e)
    case Ok(p) => Ok(Parsed(value + Weight(i) * p.value, p.rest))
  }

  // The low seven bits never meet bits that are already set, so the source's |= is an addition.
  method ReadVarint(data: seq<byte>) returns (r: Result<Parsed, VarintError>)
    ensures r == Parse(data)
  {
    hide ParseFrom, Weight, Prefixed;
    var value: nat, rest: seq<byte> := 0, data;
    PrefixedEdges(data);
    for i := 0 to 10
      invariant value < Weight(i)
      invariant Prefixed(value, i, ParseFrom(rest, i)) == Parse(data)
    {
      ParseFromEdges(rest, i, value);
      if rest == [] {
        return Err(Truncated);
      }
      var b := rest[0];
      assert rest == [b] + rest[1..];
      ShiftedMax(i);
      if b % 128 > (TWO_64 - 1) / Weight(i) {
        return Err(Overflow);
      }
      PrefixStep(value, i, b, rest[1..]);
      rest := rest[1..];
      value := value + b % 128 * Weight(i);
      if b < 128 {
        return Ok(Parsed(value, rest));
      }
    }
    ParseFromEdges(rest, 10, value);
    return Err(Overflow);
  }

  lemma PrefixedEdges(data: seq<byte>)
    ensures Prefixed(0, 0, ParseFrom(data, 0)) == Parse(data) && Weight(0) == 1
  {
  }

  lemma ParseFromEdges(rest: seq<byte>, i: nat, value: nat)
    requires i <= 10
    ensures i == 10 || (i == 9 && rest != [] && rest[0] % 128 > 1) ==>
      Prefixed(value, i, ParseFrom(rest, i)) == Err(Overflow)
    ensures i < 10 && rest == [] ==> Prefixed(value, i, ParseFrom(rest, i)) == Err(Truncated)
  {
  }

  lemma PrefixStep(value: nat, i: nat, b: byte, rest: seq<byte>)
    requires i < 10 && value < Weight(i) && (i == 9 ==> b % 128 <= 1)
    ensures value + b % 128 * Weight(i) < Weight(i + 1)
    ensures Prefixed(value, i, ParseFrom([b] + rest, i)) ==
            if b < 128 then Ok(Parsed(value + b % 128 * Weight(i), rest))
            else Prefixed(value + b % 128 * Weight(i), i + 1, ParseFrom(rest, i + 1))
  {
    var w, low := Weight(i), b % 128;
    assert Weight(i + 1) == 128 * w;
    ParseFromCons(b, rest, i);
    hide ParseFrom, Weight;
    var tail := ParseFrom(rest, i + 1);
    if tail.Ok? {
      Distribute(value, w, Weight(i + 1), low, tail.value.value);
    }
    Distribute(value, w, Weight(i + 1), low, 0);
  }

  lemma ParseFromCons(b: byte, rest: seq<byte>, i: nat)
    requires i < 10 && (i == 9 ==> b % 128 <= 1)
    ensures ParseFrom([b] + rest, i) ==
            if b < 128 then Ok(Parsed(b, rest))
            else match ParseFrom(rest, i + 1)
                 case Err(e) => Err(e)
                 case Ok(p) => Ok(Parsed(b % 128 + 128 * p.value, p.rest))
  {
    assert ([b] + rest)[1..] == rest;
  }

  lemma Distribute(value: nat, w: nat, next: nat, low: nat, tail: nat)
    requires value < w && low < 128 && next == 128 * w
    ensures value + low * w < next
    ensures value + w * (low + 128 * tail) == (value + low * w) + next * tail
    ensures value + w * low == value + low * w
  {
    GroupsFit(w, low);
    Factor(w, low, 128 * tail);
    Regroup(w, tail);
  }

  lemma GroupsFit(w: nat, low: nat)
    requires low < 128
    ensures low * w <= 127 * w
  {
  }

  lemma Factor(w: nat, a: nat, b: nat)
    ensures w * (a + b) == a * w + w * b && w * a == a * w
  {
  }

  lemma Regroup(w: nat, tail: nat)
    ensures w * (128 * tail) == (128 * w) * tail
  {
  }

  // ---------------------------------------------------------------------------------------------
  // Which byte strings are read, and as what

  /** The number a byte string stands for. */
  function Value(p: seq<byte>): nat {
    if p == [] then 0 else p[0] % 128 + 128 * Value(p[1..])
  }

  /** Every byte but the last has its continuation bit set. */
  predicate Terminated(p: seq<byte>) {
    p != [] && p[|p| - 1] < 128 && forall i :: 0 <= i < |p| - 1 ==> p[i] >= 128
  }

  /** A 64-bit varint, not necessarily the shortest. */
  predicate IsVarint(p: seq<byte>) {
    Terminated(p) && |p| <= 10 && Value(p) < TWO_64
  }

  /** 2 to the power 64 - 7k. */
  function Limit(k: nat): (limit: nat)
    requires k <= 9
    ensures limit > 0
    decreases 9 - k
  {
    if k == 9 then 2 else 128 * Limit(k + 1)
  }

  lemma LimitIsTwo64()
    ensures Limit(0) == TWO_64
  {
    assert Limit(7) == 0x8000;
    assert Limit(5) == 0x2000_0000;
    assert Limit(3) == 0x800_0000_0000;
    assert Limit(1) == 0x200_0000_0000_0000;
  }

  lemma {:induction false} AcceptedFrom(data: seq<byte>, k: nat) returns (p: seq<byte>)
    requires k <= 9 && ParseFrom(data, k).Ok?
    ensures Terminated(p) && |p| <= 10 - k && Value(p) < Limit(k)
    ensures data == p + ParseFrom(data, k).value.rest && Value(p) == ParseFrom(data, k).value.value
    decreases 9 - k
  {
    if data[0] < 128 {
      p := [data[0]];
      assert p[1..] == [];
      LimitAtLeast(k);
    } else {
      var tail := AcceptedFrom(data[1..], k + 1);
      p := [data[0]] + tail;
      assert p[1..] == tail;
      assert forall i :: 1 <= i < |p| ==> p[i] == tail[i - 1];
    }
  }

  lemma {:induction false} LimitAtLeast(k: nat)
    requires k <= 9
    ensures Limit(k) >= if k == 9 then 2 else 256
    decreases 9 - k
  {
    if k < 8 {
      LimitAtLeast(k + 1);
    }
  }

  lemma {:induction false} VarintAccepted(p: seq<byte>, rest: seq<byte>, k: nat)
    requires k <= 9 && Terminated(p) && |p| <= 10 - k && Value(p) < Limit(k)
    ensures ParseFrom(p + rest, k) == Ok(Parsed(Value(p), rest))
    decreases 9 - k
  {
    TailOfVarint(p, k);
    if |p| == 1 {
      assert p + rest == [p[0]] + rest;
    } else {
      assert p + rest == [p[0]] + (p[1..] + rest);
      VarintAccepted(p[1..], rest, k + 1);
    }
    hide *;
    ParseFromCons(p[0], if |p| == 1 then rest else p[1..] + rest, k);
  }

  /** The first byte of a varint and what is left of it. */
  lemma TailOfVarint(p: seq<byte>, k: nat)
    requires k <= 9 && Terminated(p) && |p| <= 10 - k && Value(p) < Limit(k)
    ensures |p| == 1 ==> p[0] < 128 && Value(p) == p[0]
    ensures |p| > 1 ==> k < 9 && p[0] >= 128 && Terminated(p[1..]) && Value(p[1..]) < Limit(k + 1)
    ensures |p| > 1 ==> Value(p) == p[0] % 128 + 128 * Value(p[1..])
    ensures k == 9 ==> p[0] % 128 <= 1
  {
    if |p| == 1 {
      assert p[1..] == [];
    }
  }

  /** The reader accepts exactly the byte strings that start with a 64-bit varint, and takes exactly that varint. */
  lemma AcceptsExactly(data: seq<byte>, value: nat, rest: seq<byte>)
    ensures Parse(data) == Ok(Parsed(value, rest)) <==>
            exists p :: IsVarint(p) && data == p + rest && Value(p) == value
  {
    LimitIsTwo64();
    if Parse(data) == Ok(Parsed(value, rest)) {
      var p := AcceptedFrom(data, 0);
      assert IsVarint(p);
    }
    if p :| IsVarint(p) && data == p + rest && Value(p) == value {
      VarintAccepted(p, rest, 0);
    }
  }

  /** The only truncation error: fewer than ten bytes, all asking for more. */
  lemma {:induction false} TruncatedExactly(data: seq<byte>, k: nat)
    requires k <= 9
    ensures ParseFrom(data, k) == Err(Truncated) <==> |data| < 10 - k && forall i :: 0 <= i < |data| ==> data[i] >= 128
    decreases 9 - k
  {
    if data != [] && data[0] >= 128 && k < 9 {
      TruncatedExactly(data[1..], k + 1);
      assert forall i :: 1 <= i < |data| ==> data[i] == data[1..][i - 1];
    }
  }

  // ---------------------------------------------------------------------------------------------
  // The writer against the reader

  lemma EncodeOne(n: nat)
    requires n < 128
    ensures Terminated(Encode(n)) && |Encode(n)| == 1 && Value(Encode(n)) == n
  {
    assert Encode(n)[1..] == [];
  }

  lemma EncodeMore(n: nat, k: nat)
    requires 128 <= n && k <= 9 && n < Limit(k)
    ensures Encode(n) == [n % 128 + 128] + Encode(n / 128)
    ensures k < 9 && n / 128 < Limit(k + 1)
  {
    LimitAtLeast(k);
  }

  lemma {:induction false} EncodeIsVarint(n: nat, k: nat)
    requires k <= 9 && n < Limit(k)
    ensures Terminated(Encode(n)) && |Encode(n)| <= 10 - k && Value(Encode(n)) == n
    decreases 9 - k
  {
    hide *;
    if n < 128 {
      EncodeOne(n);
    } else {
      EncodeMore(n, k);
      EncodeIsVarint(n / 128, k + 1);
      ContinueVarint(n % 128 + 128, Encode(n / 128));
    }
  }

  lemma ContinueVarint(b: byte, tail: seq<byte>)
    requires b >= 128 && Terminated(tail)
    ensures Terminated([b] + tail) && Value([b] + tail) == b % 128 + 128 * Value(tail)
  {
    assert ([b] + tail)[1..] == tail;
  }

  /** Writing then reading gives the number back and leaves what follows. */
  lemma RoundTrip(n: nat, rest: seq<byte>)
    requires n < TWO_64
    ensures Parse(Encode(n) + rest) == Ok(Parsed(n, rest)) && |Encode(n)| <= 10
  {
    LimitIsTwo64();
    EncodeIsVarint(n, 0);
    VarintAccepted(Encode(n), rest, 0);
  }

  /** No byte string read as n is shorter than the one written for n, and no other one is as short. */
  lemma {:induction false} EncodeIsShortest(p: seq<byte>)
    requires Terminated(p)
    ensures |Encode(Value(p))| <= |p|
    ensures |Encode(Value(p))| == |p| ==> p == Encode(Value(p))
  {
    if |p| == 1 {
      assert p[1..] == [];
    } else {
      EncodeIsShortest(p[1..]);
      assert Value(p) / 128 == Value(p[1..]) && Value(p) % 128 == p[0] % 128;
      assert p == [p[0]] + p[1..];
    }
  }

  /** Bytes after the varint do not change how it is read. */
  lemma {:induction false} ParseExtends(data: seq<byte>, k: nat, more: seq<byte>)
    requires k <= 10 && ParseFrom(data, k).Ok?
    ensures var p := ParseFrom(data, k).value; ParseFrom(data + more, k) == Ok(Parsed(p.value, p.rest + more))
    decreases 10 - k
  {
    assert (data + more)[1..] == data[1..] + more;
    if data[0] >= 128 {
      ParseExtends(data[1..], k + 1, more);
    }
  }
}
