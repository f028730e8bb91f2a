/** Bytes, big-endian fields and failure-compatible results shared by the whole model. */
module Wire {

  type byte = b: int | 0 <= b < 256 witness 0
  type uint16 = n: int | 0 <= n < 0x1_0000 witness 0
  type uint32 = n: int | 0 <= n < 0x1_0000_0000 witness 0
  type Bytes = seq<byte>

  const HEADER_SIZE := 12
  const CLASS_IN: uint16 := 1
  const TYPE_A: uint16 := 1
  const TYPE_AAAA: uint16 := 28
  const TYPE_OPT: uint16 := 41

  datatype Option<+T> = None | Some(value: T) {
    function GetOr(default: T): T {
      match this
      case Some(v) => v
      case None => default
    }
  }

  datatype Result<+T, +E> = Ok(value: T) | Err(error: E) {
    predicate IsFailure() {
      Err?
    }

    function PropagateFailure<U>(): Result<U, E>
      requires Err?
    {
      Err(error)
    }

    function Extract(): T
      requires Ok?
    {
      value
    }
  }

  /** An IP address is its octets in network order: 4 of them or 16 of them. */
  datatype Ip = V4(octets4: Bytes) | V6(octets6: Bytes) {
    predicate Valid() {
      match this
      case V4(o) => |o| == 4
      case V6(o) => |o| == 16
    }

    function Octets(): Bytes {
      match this
      case V4(o) => o
      case V6(o) => o
    }
  }

  type IpAddr = a: Ip | a.Valid() witness V4([0, 0, 0, 0])

  function Be16(n: uint16): (b: Bytes)
    ensures |b| == 2
  {
    [n / 256, n % 256]
  }

  function Be32(n: uint32): (b: Bytes)
    ensures |b| == 4
  {
    Be16(n / 0x1_0000) + Be16(n % 0x1_0000)
  }

  function U16(p: Bytes, o: nat): uint16
    requires o + 2 <= |p|
  {
    p[o] as int * 256 + p[o + 1] as int
  }

  function U32(p: Bytes, o: nat): uint32
    requires o + 4 <= |p|
  {
    U16(p, o) * 0x1_0000 + U16(p, o + 2)
  }

  /** A 16-bit field overwritten in place. */
  function Put16(p: Bytes, o: nat, n: uint16): (r: Bytes)
    requires o + 2 <= |p|
    ensures |r| == |p|
  {
    p[o := n / 256][o + 1 := n % 256]
  }

  lemma {:induction false} ConcatAssoc<T>(a: seq<T>, b: seq<T>, c: seq<T>)
    ensures a + (b + c) == a + b + c
  {
  }

  /** Two sequences with the same suffix from `o` share every later slice. */
  lemma {:induction false} SuffixSlices<T>(p: seq<T>, q: seq<T>, o: nat, m: nat)
    requires |p| == |q| && o <= m <= |p| && p[o..] == q[o..]
    ensures q[..m] == q[..o] + p[o..m] && p[m..] == q[m..] && p[o..m] == q[o..m]
  {
    assert p[m..] == p[o..][m - o..];
    assert q[m..] == q[o..][m - o..];
    assert p[o..m] == p[o..][..m - o];
    assert q[o..m] == q[o..][..m - o];
  }

  /** `part` stands in `p` at offset `o`. */
  ghost predicate At(p: Bytes, o: nat, part: Bytes) {
    o + |part| <= |p| && p[o..o + |part|] == part
  }

  lemma {:induction false} AtParts(p: Bytes, o: nat, a: Bytes, b: Bytes)
    ensures At(p, o, a + b) <==> At(p, o, a) && At(p, o + |a|, b)
  {
    if At(p, o, a + b) {
      assert p[o..o + |a|] == (a + b)[..|a|];
      assert p[o + |a|..o + |a| + |b|] == (a + b)[|a|..];
    }
    if At(p, o, a) && At(p, o + |a|, b) {
      assert p[o..o + |a + b|] == p[o..o + |a|] + p[o + |a|..o + |a| + |b|];
    }
  }

  lemma {:induction false} AtByte(p: Bytes, o: nat, b: byte)
    ensures At(p, o, [b]) <==> o < |p| && p[o] == b
  {
    if o < |p| {
      assert p[o..o + 1] == [p[o]];
    }
  }

  lemma {:induction false} AtSlice(p: Bytes, o: nat, part: Bytes)
    ensures At(p, o, part) <==> o + |part| <= |p| && p[o..o + |part|] == part
  {
  }

  lemma {:induction false} AtWhole(p: Bytes, part: Bytes)
    requires |part| == |p|
    ensures At(p, 0, part) <==> p == part
  {
    assert p[0..|p|] == p;
  }

  lemma {:induction false} Be16RoundTrip(p: Bytes, o: nat, n: uint16)
    requires At(p, o, Be16(n))
    ensures U16(p, o) == n
  {
    assert p[o..o + 2][0] == p[o] && p[o..o + 2][1] == p[o + 1];
  }

  lemma {:induction false} Be32RoundTrip(p: Bytes, o: nat, n: uint32)
    requires At(p, o, Be32(n))
    ensures U32(p, o) == n
  {
    AtParts(p, o, Be16(n / 0x1_0000), Be16(n % 0x1_0000));
    Be16RoundTrip(p, o, n / 0x1_0000);
    Be16RoundTrip(p, o + 2, n % 0x1_0000);
  }

  lemma {:induction false} U16RoundTrip(p: Bytes, o: nat)
    requires o + 2 <= |p|
    ensures At(p, o, Be16(U16(p, o)))
  {
    assert p[o..o + 2] == [p[o], p[o + 1]];
  }

  lemma {:induction false} Halves(high: uint16, low: uint16)
    ensures (high * 0x1_0000 + low) / 0x1_0000 == high && (high * 0x1_0000 + low) % 0x1_0000 == low
  {
  }

  lemma {:induction false} U32RoundTrip(p: Bytes, o: nat)
    requires o + 4 <= |p|
    ensures At(p, o, Be32(U32(p, o)))
  {
    hide At, Be16, U16;
    Halves(U16(p, o), U16(p, o + 2));
    U16RoundTrip(p, o);
    U16RoundTrip(p, o + 2);
    AtParts(p, o, Be16(U16(p, o)), Be16(U16(p, o + 2)));
  }

  lemma {:induction false} Put16RoundTrip(p: Bytes, o: nat, n: uint16)
    requires o + 2 <= |p|
    ensures U16(Put16(p, o, n), o) == n
    ensures Put16(p, o, n)[..o] == p[..o] && Put16(p, o, n)[o + 2..] == p[o + 2..]
  {
  }

  /** The bit masks the source tests on a length byte are comparisons on its value. */
  lemma {:induction false} LengthByteMasks(b: bv8)
    ensures b & 0xC0 == 0xC0 <==> b >= 0xC0
    ensures b & 0xC0 == 0 <==> b < 0x40
    ensures b >= 0xC0 ==> b & 0x3F == b - 0xC0
  {
  }

  /** A record's place: owner name at `start`, fixed part at `body`, data from body + 10 to `end`. */
  datatype Span = Span(start: nat, body: nat, end: nat) {
    ghost predicate In(p: Bytes) {
      start < body && body + 10 <= end <= |p|
    }
  }
}
