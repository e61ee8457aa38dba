/** The image-payload codec of src/shared/attachments.ts, against the encoding of
    section 4 of RFC 4648.  Strings are JavaScript strings of the base64 alphabet; bytes and
    six-bit groups are integers, so a shift left by six followed by an `or` with a six-bit
    group is a multiplication by 64 and an addition. */
module Base64 {
  type byte = x: int | 0 <= x < 256
  type sextet = x: int | 0 <= x < 64

  // ---------- The reference encoding ----------

  /** Table 1 of RFC 4648, section 4. */
  function Letter(n: sextet): (c: char)
    ensures Sextet(c) == n
  {
    if n < 26 then 'A' + n as char
    else if n < 52 then 'a' + (n - 26) as char
    else if n < 62 then '0' + (n - 52) as char
    else if n == 62 then '+' else '/'
  }

  /** The position of a character in the alphabet, -1 when it has none. */
  function Sextet(c: char): (n: int)
    ensures -1 <= n < 64
  {
    if 'A' <= c <= 'Z' then c as int - 'A' as int
    else if 'a' <= c <= 'z' then c as int - 'a' as int + 26
    else if '0' <= c <= '9' then c as int - '0' as int + 52
    else if c == '+' then 62
    else if c == '/' then 63
    else -1
  }

  lemma AlphabetIsABijection(c: char, n: sextet)
    ensures Sextet(Letter(n)) == n
    ensures Sextet(c) >= 0 ==> Letter(Sextet(c)) == c
    ensures Sextet('=') == -1
  {}

  lemma EqualsSignIsNoLetter()
    ensures Sextet('=') == -1
  {}

  function Quad(x: byte, y: byte, z: byte): (q: string)
    ensures |q| == 4 && Sextet(q[0]) == x / 4 && Sextet(q[1]) == x % 4 * 16 + y / 16
    ensures Sextet(q[2]) == y % 16 * 4 + z / 64 && Sextet(q[3]) == z % 64
  {
    [Letter(x / 4), Letter(x % 4 * 16 + y / 16), Letter(y % 16 * 4 + z / 64), Letter(z % 64)]
  }

  /** Three bytes make four letters; a last group of one or two bytes is padded with zero bits
      and then with equals signs. */
  function Encode(b: seq<byte>): (e: string)
    ensures |e| == Groups(|b|) * 4
  {
    if |b| == 0 then ""
    else if |b| == 1 then Quad(b[0], 0, 0)[..2] + "=="
    else if |b| == 2 then Quad(b[0], b[1], 0)[..3] + "="
    else Quad(b[0], b[1], b[2]) + Encode(b[3..])
  }

  function Groups(n: nat): nat { (n + 2) / 3 }

  // ---------- The source's test, length formula and prefix decoder ----------

  function IndexOf(s: string, c: char): (k: int)
    ensures -1 <= k < |s|
    ensures k >= 0 ==> s[k] == c && c !in s[..k]
    ensures k < 0 ==> c !in s
  {
    if s == "" then -1
    else if s[0] == c then 0
    else var k := IndexOf(s[1..], c); if k < 0 then -1 else k + 1
  }

  /** The pattern ^[A-Za-z0-9+/]*={0,2}$ */
  ghost predicate MatchesBody(value: string) {
    exists k :: 0 <= k <= |value| && |value| - 2 <= k && BodyEndsAt(value, k)
  }

  predicate BodyEndsAt(value: string, k: int)
    requires 0 <= k <= |value|
  {
    (forall i :: 0 <= i < k ==> Sextet(value[i]) >= 0) && (forall i :: k <= i < |value| ==> value[i] == '=')
  }

  function Padding(value: string): (p: int)
    ensures 0 <= p <= 2 && p <= |value|
  {
    if |value| >= 2 && value[|value| - 2] == value[|value| - 1] == '=' then 2
    else if |value| >= 1 && value[|value| - 1] == '=' then 1
    else 0
  }

  ghost predicate IsCanonicalBase64(value: string) {
    if |value| == 0 || |value| % 4 != 0 || !MatchesBody(value) then false else
    var firstPadding := IndexOf(value, '=');
    if firstPadding >= 0 && firstPadding < |value| - 2 then false else
    var padding := Padding(value);
    if padding == 2 then
      var n := Sextet(value[|value| - 3]); n >= 0 && n % 16 == 0
    else if padding == 1 then
      var n := Sextet(value[|value| - 2]); n >= 0 && n % 4 == 0
    else true
  }

  function DecodedBase64Bytes(value: string): int {
    |value| / 4 * 3 - Padding(value)
  }

  /** What the shift register still pushes from position `i` on: `bits` holds `bitCount`
      unread bits, `room` more bytes are wanted.  None is the source's early `return []`. */
  function Drain(value: string, i: nat, bits: nat, bitCount: nat, room: nat): (r: Bytes)
    requires i <= |value| && bitCount in {0, 2, 4, 6}
    decreases |value| - i
  {
    if i == |value| || value[i] == '=' || room == 0 then Bytes([])
    else if Sextet(value[i]) < 0 then Malformed
    else
      var bits' := bits * 64 + Sextet(value[i]);
      if bitCount == 0 then Drain(value, i + 1, bits', 6, room)
      else
        var left := bitCount - 2;
        Drain(value, i + 1, bits' % Power2(left), left, room - 1).Prepend(bits' / Power2(left) % 256)
  }

  datatype Bytes = Malformed | Bytes(b: seq<int>) {
    function Prepend(x: int): Bytes {
      if Malformed? then Malformed else Bytes([x] + b)
    }

    /** The whole result once `front` has been pushed already. */
    function After(front: seq<int>): seq<int> {
      if Malformed? then [] else front + b
    }

    lemma PrependAfter(x: int, front: seq<int>)
      ensures Prepend(x).After(front) == After(front + [x])
    {
      if Bytes? {
        assert front + ([x] + b) == front + [x] + b;
      }
    }
  }

  function Power2(n: nat): (p: nat)
    requires n in {0, 2, 4, 6}
    ensures p > 0
  {
    if n == 0 then 1 else if n == 2 then 4 else if n == 4 then 16 else 64
  }

  function DecodePrefix(value: string, maximumBytes: nat): seq<int> {
    Drain(value, 0, 0, 0, maximumBytes).After([])
  }

  /** The loop over mutable `bits`, `bitCount` and `result`. */
  method DecodeBase64Prefix(value: string, maximumBytes: nat) returns (result: seq<int>)
    ensures result == DecodePrefix(value, maximumBytes)
  {
    hide Letter, Sextet;
    result := [];
    var bits: nat, bitCount: nat := 0, 0;
    var i := 0;
    while i < |value|
      invariant 0 <= i <= |value| && |result| <= maximumBytes && bitCount in {0, 2, 4, 6}
      invariant DecodePrefix(value, maximumBytes) ==
                Drain(value, i, bits, bitCount, maximumBytes - |result|).After(result)
    {
      if value[i] == '=' || |result| >= maximumBytes { return; }
      var n := Sextet(value[i]);
      if n < 0 { return []; }
      bits := bits * 64 + n;
      bitCount := bitCount + 6;
      i := i + 1;
      if bitCount < 8 { continue; }
      bitCount := bitCount - 8;
      var b := bits / Power2(bitCount) % 256;
      Drain(value, i, bits % Power2(bitCount), bitCount, maximumBytes - |result| - 1).PrependAfter(b, result);
      result := result + [b];
      bits := bits % Power2(bitCount);
    }
  }

  // ---------- The test accepts exactly the encodings of non-empty byte strings ----------

  /** `value` is groups of four whose last `pad` characters are padding over zero bits. */
  ghost predicate Shaped(value: string, pad: int) {
    && 0 <= pad <= 2 && |value| % 4 == 0 && |value| > 0
    && BodyEndsAt(value, |value| - pad)
    && (pad == 2 ==> Sextet(value[|value| - 3]) % 16 == 0)
    && (pad == 1 ==> Sextet(value[|value| - 2]) % 4 == 0)
  }

  function PadOf(n: nat): int { if n % 3 == 0 then 0 else 3 - n % 3 }

  lemma PaddingIsForced(value: string, pad: int)
    requires Shaped(value, pad)
    ensures pad == Padding(value)
  {
    EqualsSignIsNoLetter();
    hide Letter, Sextet;
    var n := |value|;
    if pad == 0 {
      assert Sextet(value[n - 1]) >= 0;
    } else if pad == 1 {
      assert Sextet(value[n - 2]) >= 0;
      assert value[n - 1] == '=';
    } else {
      assert value[n - 2] == '=' && value[n - 1] == '=';
    }
  }

  lemma CanonicalMeansShaped(value: string)
    ensures IsCanonicalBase64(value) <==> Shaped(value, Padding(value))
  {
    if IsCanonicalBase64(value) {
      var k :| 0 <= k <= |value| && |value| - 2 <= k && BodyEndsAt(value, k);
      assert BodyEndsAt(value, |value| - Padding(value));
    }
    if Shaped(value, Padding(value)) {
      assert BodyEndsAt(value, |value| - Padding(value));
    }
  }

  lemma OneGroupIsShaped(b: seq<byte>)
    requires 0 < |b| <= 3
    ensures Shaped(Encode(b), PadOf(|b|))
  {
    hide Letter, Sextet, Quad;
    var e := Encode(b);
    assert PadOf(|b|) == 3 - |b|;
    if |b| == 1 {
      assert Sextet(e[0]) == b[0] / 4 && Sextet(e[1]) == b[0] % 4 * 16;
    } else if |b| == 2 {
      assert Sextet(e[0]) == b[0] / 4 && Sextet(e[2]) == b[1] % 16 * 4;
    } else {
      assert e == Quad(b[0], b[1], b[2]);
    }
  }

  lemma GroupInFront(q: string, rest: string, pad: int)
    requires |q| == 4 && (forall i :: 0 <= i < 4 ==> Sextet(q[i]) >= 0) && Shaped(rest, pad)
    ensures Shaped(q + rest, pad)
  {
    hide Sextet;
    var e := q + rest;
    assert |rest| >= 4;
    assert forall i :: 4 <= i < |e| ==> e[i] == rest[i - 4];
  }

  lemma PadRepeats(n: nat)
    requires n >= 3
    ensures PadOf(n) == PadOf(n - 3)
  {}

  lemma {:induction false} EncodingIsShaped(b: seq<byte>)
    requires b != []
    ensures Shaped(Encode(b), PadOf(|b|))
  {
    if |b| <= 3 {
      OneGroupIsShaped(b);
    } else {
      EncodingIsShaped(b[3..]);
      PadRepeats(|b|);
      hide Letter, Sextet, Quad, PadOf, Shaped;
      GroupInFront(Quad(b[0], b[1], b[2]), Encode(b[3..]), PadOf(|b|));
    }
  }

  /** The inverse of Encode on shaped strings. */
  ghost function Decode(value: string, pad: int): seq<byte>
    requires Shaped(value, pad)
  {
    var a, b := Sextet(value[0]), Sextet(value[1]);
    if |value| == 4 && pad == 2 then [a * 4 + b / 16] else
    var c := Sextet(value[2]);
    if |value| == 4 && pad == 1 then [a * 4 + b / 16, b % 16 * 16 + c / 4] else
    [a * 4 + b / 16, b % 16 * 16 + c / 4, c % 4 * 64 + Sextet(value[3])]
    + if |value| == 4 then [] else assert Shaped(value[4..], pad); Decode(value[4..], pad)
  }

  lemma LettersByValue(s: string, t: string)
    requires |s| == |t| && forall i :: 0 <= i < |s| ==> Sextet(s[i]) == Sextet(t[i]) >= 0
    ensures s == t
  {
    forall i | 0 <= i < |s| ensures s[i] == t[i] {
      AlphabetIsABijection(s[i], 0);
      AlphabetIsABijection(t[i], 0);
    }
  }

  /** The six-bit groups a, b, c, d and the bytes they spell determine each other. */
  lemma Regroup(a: sextet, b: sextet, c: sextet, d: sextet)
    ensures var x, y, z := a * 4 + b / 16, b % 16 * 16 + c / 4, c % 4 * 64 + d;
            && 0 <= x < 256 && 0 <= y < 256 && 0 <= z < 256
            && x / 4 == a && x % 4 * 16 + y / 16 == b && y % 16 * 4 + z / 64 == c && z % 64 == d
  {}

  lemma LastGroup(value: string, pad: int)
    requires Shaped(value, pad) && |value| == 4
    ensures Decode(value, pad) != [] && Encode(Decode(value, pad)) == value
  {
    hide Letter, Sextet, Quad;
    var d := Decode(value, pad);
    Regroup(Sextet(value[0]), Sextet(value[1]),
            if pad < 2 then Sextet(value[2]) else 0, if pad < 1 then Sextet(value[3]) else 0);
    if pad == 2 {
      LettersByValue(value[..2], Quad(d[0], 0, 0)[..2]);
    } else if pad == 1 {
      LettersByValue(value[..3], Quad(d[0], d[1], 0)[..3]);
    } else {
      LettersByValue(value, Quad(d[0], d[1], d[2]));
      assert Encode(d) == Quad(d[0], d[1], d[2]) + Encode(d[3..]);
    }
    assert value == value[..4 - pad] + value[4 - pad..];
  }

  lemma {:induction false} ShapedIsAnEncoding(value: string, pad: int)
    requires Shaped(value, pad)
    ensures Decode(value, pad) != [] && Encode(Decode(value, pad)) == value
  {
    hide Letter, Sextet, Quad;
    if |value| == 4 {
      LastGroup(value, pad);
    } else {
      assert Shaped(value[4..], pad);
      ShapedIsAnEncoding(value[4..], pad);
      var d := Decode(value, pad);
      assert d[3..] == Decode(value[4..], pad);
      FirstGroup(value, pad);
      assert value == value[..4] + value[4..];
    }
  }

  lemma FirstGroup(value: string, pad: int)
    requires Shaped(value, pad) && |value| > 4
    ensures var d := Decode(value, pad);
            |d| >= 3 && value[..4] == Quad(d[0], d[1], d[2])
  {
    hide Letter, Sextet, Quad, Encode;
    assert Shaped(value[4..], pad);
    var d := Decode(value, pad);
    Regroup(Sextet(value[0]), Sextet(value[1]), Sextet(value[2]), Sextet(value[3]));
    LettersByValue(value[..4], Quad(d[0], d[1], d[2]));
  }

  lemma CanonicalIffEncoding(value: string)
    ensures IsCanonicalBase64(value) <==> exists b: seq<byte> :: b != [] && Encode(b) == value
  {
    CanonicalMeansShaped(value);
    if IsCanonicalBase64(value) {
      ShapedIsAnEncoding(value, Padding(value));
      assert Encode(Decode(value, Padding(value))) == value;
    }
    forall b: seq<byte> | b != [] && Encode(b) == value ensures IsCanonicalBase64(value) {
      EncodingIsShaped(b);
    }
  }

  lemma GroupArithmetic(n: nat)
    ensures Groups(n) * 4 / 4 * 3 - PadOf(n) == n
  {}

  lemma LengthFormula(b: seq<byte>)
    requires b != []
    ensures DecodedBase64Bytes(Encode(b)) == |b|
  {
    EncodingIsShaped(b);
    PaddingIsForced(Encode(b), PadOf(|b|));
    hide Letter, Sextet, Quad, Encode, Shaped, Padding;
    GroupArithmetic(|b|);
  }

  // ---------- The shift register recovers the first bytes ----------

  function Take(b: seq<byte>, n: nat): seq<byte> { if n < |b| then b[..n] else b }

  lemma {:induction false} DrainReadsGroups(value: string, i: nat, b: seq<byte>, room: nat)
    requires i <= |value| && value[i..] == Encode(b)
    ensures Drain(value, i, 0, 0, room) == Bytes(Take(b, room))
    decreases |b|
  {
    hide Letter, Sextet, Quad;
    if b != [] && room > 0 {
      var e := Encode(b);
      assert forall k :: 0 <= k < |e| ==> value[i + k] == e[k];
      if |b| >= 3 {
        assert value[i + 4..] == Encode(b[3..]) by {
          assert value[i + 4..] == value[i..][4..];
        }
        DrainReadsGroups(value, i + 4, b[3..], if room >= 3 then room - 3 else 0);
      }
      GroupSextets(b);
      DrainOneGroup(value, i, b, room);
    }
  }

  function At(b: seq<byte>, k: nat): byte { if k < |b| then b[k] else 0 }

  /** The four characters of the first group, as six-bit values. */
  ghost predicate StartsGroup(e: string, x: byte, y: byte, z: byte, n: int) {
    && |e| >= 4
    && Sextet(e[0]) == x / 4
    && Sextet(e[1]) == x % 4 * 16 + y / 16
    && (if n > 1 then Sextet(e[2]) == y % 16 * 4 + z / 64 else e[2] == '=')
    && (if n > 2 then Sextet(e[3]) == z % 64 else e[3] == '=')
  }

  lemma GroupSextets(b: seq<byte>)
    requires b != []
    ensures StartsGroup(Encode(b), b[0], At(b, 1), At(b, 2), |b|)
  {
    hide Letter, Sextet, Quad;
  }

  lemma DrainStops(value: string, i: nat, bits: nat, bitCount: nat, room: nat)
    requires i < |value| && bitCount in {0, 2, 4, 6} && (value[i] == '=' || room == 0)
    ensures Drain(value, i, bits, bitCount, room) == Bytes([])
  {}

  lemma DrainOneGroup(value: string, i: nat, b: seq<byte>, room: nat)
    requires b != [] && room > 0 && i + 4 <= |value|
    requires StartsGroup(value[i..], b[0], At(b, 1), At(b, 2), |b|)
    requires |b| >= 3 && room >= 3 ==> Drain(value, i + 4, 0, 0, room - 3) == Bytes(Take(b[3..], room - 3))
    ensures Drain(value, i, 0, 0, room) == Bytes(Take(b, room))
  {
    hide Letter, Sextet, Quad, Encode, Drain;
    var x, y, z := b[0], At(b, 1), At(b, 2);
    DrainTwo(value, i, x, y, room);
    if |b| == 1 || room == 1 {
      DrainStops(value, i + 2, y / 16, 4, room - 1);
      assert Take(b, room) == [x];
    } else {
      DrainThird(value, i + 2, y, z, room - 1);
      if |b| == 2 || room == 2 {
        DrainStops(value, i + 3, z / 64, 2, room - 2);
        assert Take(b, room) == [x, y];
      } else {
        DrainFourth(value, i + 3, z, room - 2);
        assert Take(b, room) == [x, y, z] + Take(b[3..], room - 3);
      }
    }
  }

  lemma DrainTwo(value: string, i: nat, x: byte, y: byte, room: nat)
    requires i + 2 <= |value| && room > 0
    requires Sextet(value[i]) == x / 4 && Sextet(value[i + 1]) == x % 4 * 16 + y / 16
    ensures Drain(value, i, 0, 0, room) == Drain(value, i + 2, y / 16, 4, room - 1).Prepend(x)
  {
    EqualsSignIsNoLetter();
    hide Letter, Sextet;
    var bits := x as int / 4 * 64 + (x as int % 4 * 16 + y / 16);
    assert bits / 16 % 256 == x && bits % 16 == y / 16;
    assert Drain(value, i, 0, 0, room) == Drain(value, i + 1, x / 4, 6, room);
  }

  lemma DrainThird(value: string, i: nat, y: byte, z: byte, room: nat)
    requires i < |value| && room > 0 && Sextet(value[i]) == y % 16 * 4 + z / 64
    ensures Drain(value, i, y / 16, 4, room) == Drain(value, i + 1, z / 64, 2, room - 1).Prepend(y)
  {
    EqualsSignIsNoLetter();
    hide Letter, Sextet;
    var bits := y as int / 16 * 64 + (y as int % 16 * 4 + z / 64);
    assert bits / 4 % 256 == y && bits % 4 == z / 64;
  }

  lemma DrainFourth(value: string, i: nat, z: byte, room: nat)
    requires i < |value| && room > 0 && Sextet(value[i]) == z % 64
    ensures Drain(value, i, z / 64, 2, room) == Drain(value, i + 1, 0, 0, room - 1).Prepend(z)
  {
    EqualsSignIsNoLetter();
    hide Letter, Sextet;
    var bits := z as int / 64 * 64 + z % 64;
    assert bits / 1 % 256 == z && bits % 1 == 0;
  }

  lemma PrefixDecoderReadsBack(b: seq<byte>, n: nat)
    ensures DecodePrefix(Encode(b), n) == Take(b, n)
  {
    assert Encode(b)[0..] == Encode(b);
    hide Letter, Sextet, Quad, Encode, Drain;
    DrainReadsGroups(Encode(b), 0, b, n);
  }
}
