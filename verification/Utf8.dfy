/**
 * Well-formed UTF-8 as sections 3 and 4 of RFC 3629 define it. Everything is said about
 * positions in one byte sequence: which of them are reached by whole characters.
 */
module Utf8 {
  type Byte = bv8

  predicate IsTail(b: Byte) {
    0x80 <= b <= 0xBF
  }

  predicate StartsThree(b0: Byte, b1: Byte) {
    || (b0 == 0xE0 && 0xA0 <= b1 <= 0xBF)
    || (0xE1 <= b0 <= 0xEC && IsTail(b1))
    || (b0 == 0xED && 0x80 <= b1 <= 0x9F)
    || (0xEE <= b0 <= 0xEF && IsTail(b1))
  }

  predicate StartsFour(b0: Byte, b1: Byte) {
    || (b0 == 0xF0 && 0x90 <= b1 <= 0xBF)
    || (0xF1 <= b0 <= 0xF3 && IsTail(b1))
    || (b0 == 0xF4 && 0x80 <= b1 <= 0x8F)
  }

  /** The length of the character at a position, or 0 when there is none. */
  function CharLength(s: seq<Byte>, i: nat): (n: nat)
    requires i <= |s|
    ensures n <= 4 && i + n <= |s|
  {
    var left := |s| - i;
    if left == 0 then 0
    else if s[i] <= 0x7F then 1
    else if 0xC2 <= s[i] <= 0xDF then (if left >= 2 && IsTail(s[i + 1]) then 2 else 0)
    else if left >= 3 && StartsThree(s[i], s[i + 1]) && IsTail(s[i + 2]) then 3
    else if left >= 4 && StartsFour(s[i], s[i + 1]) && IsTail(s[i + 2]) && IsTail(s[i + 3]) then 4
    else 0
  }

  /** Whole characters lead from position `i` to position `k`. */
  predicate Reaches(s: seq<Byte>, i: nat, k: nat)
    requires i <= |s|
    decreases |s| - i
  {
    i == k || (0 < CharLength(s, i) <= k - i && Reaches(s, i + CharLength(s, i), k))
  }

  predicate WellFormed(s: seq<Byte>) {
    Reaches(s, 0, |s|)
  }

  /** A position where a character starts, or the end of the last one. */
  predicate Boundary(s: seq<Byte>, k: nat) {
    Reaches(s, 0, k)
  }

  /** The last position up to `n` that whole characters reach from `i`. */
  function LastReached(s: seq<Byte>, i: nat, n: nat): (k: nat)
    requires i <= |s| && i <= n
    ensures i <= k <= n && k <= |s|
    decreases |s| - i
  {
    if 0 < CharLength(s, i) <= n - i then LastReached(s, i + CharLength(s, i), n) else i
  }

  /** Every character from position `i` on takes at most `n` bytes. */
  predicate CharsFit(s: seq<Byte>, i: nat, n: nat)
    requires i <= |s|
    decreases |s| - i
  {
    CharLength(s, i) > 0 ==> CharLength(s, i) <= n && CharsFit(s, i + CharLength(s, i), n)
  }

  lemma {:induction false} ReachedIsWithin(s: seq<Byte>, i: nat, k: nat)
    requires i <= |s| && Reaches(s, i, k)
    ensures i <= k <= |s|
    decreases |s| - i
  {
    if i != k {
      ReachedIsWithin(s, i + CharLength(s, i), k);
    }
  }

  lemma {:induction false} LastReachedIsReached(s: seq<Byte>, i: nat, n: nat)
    requires i <= |s| && i <= n
    ensures Reaches(s, i, LastReached(s, i, n))
    decreases |s| - i
  {
    if 0 < CharLength(s, i) <= n - i {
      LastReachedIsReached(s, i + CharLength(s, i), n);
    }
  }

  lemma {:induction false} LastReachedIsLargest(s: seq<Byte>, i: nat, n: nat, k: nat)
    requires i <= |s| && i <= n && k <= n && Reaches(s, i, k)
    ensures k <= LastReached(s, i, n)
    decreases |s| - i
  {
    if i != k {
      LastReachedIsLargest(s, i + CharLength(s, i), n, k);
    }
  }

  lemma {:induction false} ReachesCompose(s: seq<Byte>, i: nat, j: nat, k: nat)
    requires i <= |s| && Reaches(s, i, j) && j <= |s| && Reaches(s, j, k)
    ensures Reaches(s, i, k)
    decreases |s| - i
  {
    if i != j {
      ReachesCompose(s, i + CharLength(s, i), j, k);
      ReachedIsWithin(s, i + CharLength(s, i), k);
    }
  }

  lemma {:induction false} ReachesSplits(s: seq<Byte>, i: nat, j: nat, k: nat)
    requires i <= |s| && Reaches(s, i, j) && Reaches(s, i, k) && j <= k
    ensures j <= |s| && Reaches(s, j, k)
    decreases |s| - i
  {
    if i != j {
      ReachesSplits(s, i + CharLength(s, i), j, k);
    }
  }

  /** Reading a slice on its own finds the characters that lie wholly inside it. */
  lemma CharLengthInSlice(s: seq<Byte>, a: nat, b: nat, i: nat)
    requires a <= b <= |s| && a + i <= b
    ensures CharLength(s[a..b], i) == if a + i + CharLength(s, a + i) <= b then CharLength(s, a + i) else 0
  {
  }

  lemma {:induction false} SliceReaches(s: seq<Byte>, a: nat, b: nat, i: nat, k: nat)
    requires a <= b <= |s| && a + i <= b && a + k <= b
    ensures Reaches(s[a..b], i, k) == Reaches(s, a + i, a + k)
    decreases b - i
  {
    CharLengthInSlice(s, a, b, i);
    var c := CharLength(s, a + i);
    if i != k && 0 < c <= k - i {
      SliceReaches(s, a, b, i + c, k);
    }
  }

  /** A slice is valid text exactly when whole characters lead from its start to its end. */
  lemma SliceWellFormed(s: seq<Byte>, a: nat, b: nat)
    requires a <= b <= |s|
    ensures WellFormed(s[a..b]) == Reaches(s, a, b)
  {
    SliceReaches(s, a, b, 0, b - a);
  }

  // --- Characters are encodings of scalar values -------------------------------------------------------

  /** The numbers that have an encoding: all up to 10FFFF but the surrogates. */
  predicate IsScalar(u: nat) {
    u <= 0x10FFFF && !(0xD800 <= u <= 0xDFFF)
  }

  /** The encoding of a number: its bits in groups of six, behind a leading byte that tells their number. */
  function Encoding(u: nat): (bytes: seq<nat>)
    ensures 1 <= |bytes| <= 4
  {
    if u < 0x80 then [u]
    else if u < 0x800 then [0xC0 + u / 64, 0x80 + u % 64]
    else if u < 0x10000 then [0xE0 + u / 4096, 0x80 + u / 64 % 64, 0x80 + u % 64]
    else [0xF0 + u / 262144, 0x80 + u / 4096 % 64, 0x80 + u / 64 % 64, 0x80 + u % 64]
  }

  /** A scalar value is encoded at a position. */
  predicate EncodedAt(s: seq<Byte>, i: nat, u: nat) {
    && IsScalar(u) && i + |Encoding(u)| <= |s|
    && forall k | 0 <= k < |Encoding(u)| :: s[i + k] as nat == Encoding(u)[k]
  }

  lemma TailAsNumber(b: Byte)
    ensures IsTail(b) <==> 0x80 <= b as nat <= 0xBF
  {
  }

  lemma LeadAsNumber(b: Byte)
    ensures b <= 0x7F <==> b as nat <= 0x7F
    ensures 0xC2 <= b <= 0xDF <==> 0xC2 <= b as nat <= 0xDF
  {
  }

  /** Three bytes start a character when they encode no surrogate, and nothing that two bytes can. */
  lemma ThreeAsNumbers(b0: Byte, b1: Byte)
    ensures StartsThree(b0, b1) <==>
      && 0xE0 <= b0 as nat <= 0xEF && 0x80 <= b1 as nat <= 0xBF
      && (b0 as nat == 0xE0 ==> b1 as nat >= 0xA0) && (b0 as nat == 0xED ==> b1 as nat <= 0x9F)
  {
  }

  lemma FourAsNumbers(b0: Byte, b1: Byte)
    ensures StartsFour(b0, b1) <==>
      && 0xF0 <= b0 as nat <= 0xF4 && 0x80 <= b1 as nat <= 0xBF
      && (b0 as nat == 0xF0 ==> b1 as nat >= 0x90) && (b0 as nat == 0xF4 ==> b1 as nat <= 0x8F)
  {
  }

  /** The number that the bytes of a character stand for. */
  function Decoded(s: seq<Byte>, i: nat): nat
    requires i <= |s| && CharLength(s, i) > 0
  {
    var b0 := s[i] as nat;
    match CharLength(s, i)
    case 1 => b0
    case 2 => LeadAsNumber(s[i]); TailAsNumber(s[i + 1]); (b0 - 0xC0) * 64 + (s[i + 1] as nat - 0x80)
    case 3 =>
      ThreeAsNumbers(s[i], s[i + 1]); TailAsNumber(s[i + 2]);
      (b0 - 0xE0) * 4096 + (s[i + 1] as nat - 0x80) * 64 + (s[i + 2] as nat - 0x80)
    case _ =>
      FourAsNumbers(s[i], s[i + 1]); TailAsNumber(s[i + 2]); TailAsNumber(s[i + 3]);
      (b0 - 0xF0) * 262144 + (s[i + 1] as nat - 0x80) * 4096 + (s[i + 2] as nat - 0x80) * 64 + (s[i + 3] as nat - 0x80)
  }

  lemma TwoGroups(a: nat, b: nat, u: nat)
    requires b < 64 && u == a * 64 + b
    ensures u / 64 == a && u % 64 == b
  {
  }

  lemma ThreeGroups(a: nat, b: nat, c: nat, u: nat)
    requires b < 64 && c < 64 && u == a * 4096 + b * 64 + c
    ensures u / 4096 == a && u / 64 % 64 == b && u % 64 == c
  {
  }

  lemma FourGroups(a: nat, b: nat, c: nat, d: nat, u: nat)
    requires b < 64 && c < 64 && d < 64 && u == a * 262144 + b * 4096 + c * 64 + d
    ensures u / 262144 == a && u / 4096 % 64 == b && u / 64 % 64 == c && u % 64 == d
  {
  }

  lemma TwoBytesAreEncoding(a: nat, b: nat, u: nat)
    requires 0xC2 <= a <= 0xDF && 0x80 <= b <= 0xBF && u == (a - 0xC0) * 64 + (b - 0x80)
    ensures IsScalar(u) && Encoding(u) == [a, b]
  {
    TwoGroups(a - 0xC0, b - 0x80, u);
  }

  lemma ThreeBytesAreEncoding(a: nat, b: nat, c: nat, u: nat)
    requires 0xE0 <= a <= 0xEF && 0x80 <= b <= 0xBF && 0x80 <= c <= 0xBF
    requires (a == 0xE0 ==> b >= 0xA0) && (a == 0xED ==> b <= 0x9F)
    requires u == (a - 0xE0) * 4096 + (b - 0x80) * 64 + (c - 0x80)
    ensures IsScalar(u) && Encoding(u) == [a, b, c]
  {
    ThreeGroups(a - 0xE0, b - 0x80, c - 0x80, u);
  }

  lemma FourBytesAreEncoding(a: nat, b: nat, c: nat, d: nat, u: nat)
    requires 0xF0 <= a <= 0xF4 && 0x80 <= b <= 0xBF && 0x80 <= c <= 0xBF && 0x80 <= d <= 0xBF
    requires (a == 0xF0 ==> b >= 0x90) && (a == 0xF4 ==> b <= 0x8F)
    requires u == (a - 0xF0) * 262144 + (b - 0x80) * 4096 + (c - 0x80) * 64 + (d - 0x80)
    ensures IsScalar(u) && Encoding(u) == [a, b, c, d]
  {
    FourGroups(a - 0xF0, b - 0x80, c - 0x80, d - 0x80, u);
  }

  lemma LongCharIsEncoding(s: seq<Byte>, i: nat)
    requires i <= |s| && CharLength(s, i) > 2
    ensures EncodedAt(s, i, Decoded(s, i)) && |Encoding(Decoded(s, i))| == CharLength(s, i)
  {
    var u := Decoded(s, i);
    if CharLength(s, i) == 3 {
      ThreeAsNumbers(s[i], s[i + 1]);
      TailAsNumber(s[i + 2]);
      ThreeBytesAreEncoding(s[i] as nat, s[i + 1] as nat, s[i + 2] as nat, u);
    } else {
      FourAsNumbers(s[i], s[i + 1]);
      TailAsNumber(s[i + 2]);
      TailAsNumber(s[i + 3]);
      FourBytesAreEncoding(s[i] as nat, s[i + 1] as nat, s[i + 2] as nat, s[i + 3] as nat, u);
    }
  }

  /** Every character is the encoding of a scalar value. */
  lemma CharIsEncoding(s: seq<Byte>, i: nat)
    requires i <= |s| && CharLength(s, i) > 0
    ensures EncodedAt(s, i, Decoded(s, i)) && |Encoding(Decoded(s, i))| == CharLength(s, i)
  {
    if CharLength(s, i) > 2 {
      LongCharIsEncoding(s, i);
    } else {
      LeadAsNumber(s[i]);
      if CharLength(s, i) == 2 {
        TailAsNumber(s[i + 1]);
        TwoBytesAreEncoding(s[i] as nat, s[i + 1] as nat, Decoded(s, i));
      }
    }
  }

  lemma EncodingIsThreeBytes(u: nat, a: nat, b: nat, c: nat)
    requires IsScalar(u) && Encoding(u) == [a, b, c]
    ensures 0xE0 <= a <= 0xEF && 0x80 <= b <= 0xBF && 0x80 <= c <= 0xBF
    ensures (a == 0xE0 ==> b >= 0xA0) && (a == 0xED ==> b <= 0x9F)
    ensures u == (a - 0xE0) * 4096 + (b - 0x80) * 64 + (c - 0x80)
  {
    assert a == 0xE0 + u / 4096 && b == 0x80 + u / 64 % 64 && c == 0x80 + u % 64;
  }

  lemma EncodingIsFourBytes(u: nat, a: nat, b: nat, c: nat, d: nat)
    requires IsScalar(u) && Encoding(u) == [a, b, c, d]
    ensures 0xF0 <= a <= 0xF4 && 0x80 <= b <= 0xBF && 0x80 <= c <= 0xBF && 0x80 <= d <= 0xBF
    ensures (a == 0xF0 ==> b >= 0x90) && (a == 0xF4 ==> b <= 0x8F)
    ensures u == (a - 0xF0) * 262144 + (b - 0x80) * 4096 + (c - 0x80) * 64 + (d - 0x80)
  {
    assert a == 0xF0 + u / 262144 && b == 0x80 + u / 4096 % 64 && c == 0x80 + u / 64 % 64 && d == 0x80 + u % 64;
  }

  /** Every scalar value's encoding is a character, and it decodes to that value. */
  lemma EncodingIsChar(s: seq<Byte>, i: nat, u: nat)
    requires EncodedAt(s, i, u)
    ensures CharLength(s, i) == |Encoding(u)| && Decoded(s, i) == u
  {
    var e := Encoding(u);
    assert s[i + 0] as nat == e[0];
    LeadAsNumber(s[i]);
    if |e| == 2 {
      assert s[i + 1] as nat == e[1];
      TailAsNumber(s[i + 1]);
    } else if |e| == 3 {
      assert s[i + 1] as nat == e[1] && s[i + 2] as nat == e[2];
      EncodingIsThreeBytes(u, e[0], e[1], e[2]);
      TailAsNumber(s[i + 2]);
      ThreeAsNumbers(s[i], s[i + 1]);
    } else if |e| == 4 {
      assert s[i + 1] as nat == e[1] && s[i + 2] as nat == e[2] && s[i + 3] as nat == e[3];
      EncodingIsFourBytes(u, e[0], e[1], e[2], e[3]);
      TailAsNumber(s[i + 2]);
      TailAsNumber(s[i + 3]);
      ThreeAsNumbers(s[i], s[i + 1]);
      FourAsNumbers(s[i], s[i + 1]);
    }
  }

  /** From a position on, the bytes are the encodings of these values. */
  predicate EncodesFrom(s: seq<Byte>, i: nat, us: seq<nat>)
    decreases |us|
  {
    if us == [] then i == |s|
    else EncodedAt(s, i, us[0]) && EncodesFrom(s, i + |Encoding(us[0])|, us[1..])
  }

  lemma {:induction false} EncodesValidText(s: seq<Byte>, i: nat, us: seq<nat>)
    requires i <= |s| && EncodesFrom(s, i, us)
    ensures Reaches(s, i, |s|)
    decreases |us|
  {
    if us != [] {
      EncodingIsChar(s, i, us[0]);
      EncodesValidText(s, i + CharLength(s, i), us[1..]);
    }
  }

  lemma {:induction false} ValidTextDecodes(s: seq<Byte>, i: nat) returns (us: seq<nat>)
    requires i <= |s| && Reaches(s, i, |s|)
    ensures EncodesFrom(s, i, us)
    decreases |s| - i
  {
    if i == |s| {
      us := [];
    } else {
      CharIsEncoding(s, i);
      var rest := ValidTextDecodes(s, i + CharLength(s, i));
      us := [Decoded(s, i)] + rest;
    }
  }

  lemma {:induction false} DecodingIsUnique(s: seq<Byte>, i: nat, us: seq<nat>, vs: seq<nat>)
    requires EncodesFrom(s, i, us) && EncodesFrom(s, i, vs)
    ensures us == vs
    decreases |us|
  {
    if us != [] && vs != [] {
      EncodingIsChar(s, i, us[0]);
      EncodingIsChar(s, i, vs[0]);
      DecodingIsUnique(s, i + |Encoding(us[0])|, us[1..], vs[1..]);
    }
  }

  predicate Encodes(us: seq<nat>, s: seq<Byte>) {
    EncodesFrom(s, 0, us)
  }

  /** A byte sequence is well-formed exactly if it encodes some scalar values, and then only those. */
  lemma WellFormedIsEncoded(s: seq<Byte>)
    ensures WellFormed(s) <==> exists us: seq<nat> :: Encodes(us, s)
    ensures forall us: seq<nat>, vs: seq<nat> :: Encodes(us, s) && Encodes(vs, s) ==> us == vs
  {
    if WellFormed(s) {
      var us := ValidTextDecodes(s, 0);
      assert Encodes(us, s);
    }
    if us: seq<nat> :| Encodes(us, s) {
      EncodesValidText(s, 0, us);
    }
    forall us: seq<nat>, vs: seq<nat> | Encodes(us, s) && Encodes(vs, s) ensures us == vs {
      DecodingIsUnique(s, 0, us, vs);
    }
  }
}
