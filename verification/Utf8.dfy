/**
 The UTF-8 checks of the text layer against sections 3 and 4 of RFC 3629.

 The reference is the encoder: a code point has one encoding, a text is well formed when it is the
 concatenation of the encodings of some code points. The three hand-written validators, the control
 scan and the non-continuation-byte counters are loops over bytes, as in the source; masks and shifts
 on bytes are written as the comparisons and remainders they compute.
 */
module Utf8 {
  import opened Foundation

  // ---------------------------------------------------------------- the reference encoder

  /** A code point that UTF-8 may encode: up to U+10FFFF, without the surrogates. */
  predicate IsScalar(c: int) {
    0 <= c <= 0x10FFFF && !(0xD800 <= c <= 0xDFFF)
  }

  type Scalar = c: int | 0 <= c <= 0x10FFFF && !(0xD800 <= c <= 0xDFFF)

  /** A continuation byte with the six low bits of n. */
  function Tail(n: nat): (b: Byte)
    ensures IsContinuation(b) && Low6(b) == n % 64
  {
    0x80 + n % 64
  }

  predicate IsContinuation(b: Byte) {
    0x80 <= b < 0xC0
  }

  /** `b & 0x3F`. */
  function Low6(b: Byte): int {
    b % 64
  }

  /** The table of section 3 of RFC 3629. */
  function Encode(c: Scalar): (s: Bytes)
    ensures 1 <= |s| <= 4
  {
    if c < 0x80 then [c]
    else if c < 0x800 then [0xC0 + c / 64, Tail(c)]
    else if c < 0x10000 then [0xE0 + c / 4096, Tail(c / 64), Tail(c)]
    else [0xF0 + c / 262144, Tail(c / 4096), Tail(c / 64), Tail(c)]
  }

  function EncodeAll(cs: seq<Scalar>): Bytes {
    if cs == [] then [] else Encode(cs[0]) + EncodeAll(cs[1..])
  }

  ghost predicate WellFormed(s: Bytes) {
    exists cs: seq<Scalar> :: EncodeAll(cs) == s
  }

  /** No code point is encoded at the start of s. */
  ghost predicate Stuck(s: Bytes) {
    forall c: Scalar :: !(Encode(c) <= s)
  }

  lemma {:induction false} EncodeAllAppend(cs: seq<Scalar>, ds: seq<Scalar>)
    ensures EncodeAll(cs + ds) == EncodeAll(cs) + EncodeAll(ds)
  {
    hide Encode;
    if cs == [] {
      assert cs + ds == ds;
    } else {
      EncodeAllAppend(cs[1..], ds);
      assert (cs + ds)[1..] == cs[1..] + ds;
      assert (cs + ds)[0] == cs[0];
    }
  }

  lemma {:induction false} EncodeAllSnoc(cs: seq<Scalar>, c: Scalar)
    ensures EncodeAll(cs + [c]) == EncodeAll(cs) + Encode(c)
  {
    EncodeAllAppend(cs, [c]);
    assert EncodeAll([c]) == Encode(c) + EncodeAll([]);
  }

  // ---------------------------------------------------------------- reading one code point

  /** The payload of `lead` extended by the six low bits of each further byte of s[..n]. */
  function Accumulate(payload: int, s: Bytes, n: nat): int
    requires 1 <= n <= |s|
  {
    if n == 1 then payload else Accumulate(payload, s, n - 1) * 64 + Low6(s[n - 1])
  }

  /** What the bytes of an encoding of c look like. */
  lemma {:induction false} LeadOfEncoding(c: Scalar)
    ensures |Encode(c)| == 1 <==> c < 0x80
    ensures |Encode(c)| == 1 ==> Encode(c)[0] < 0x80
    ensures |Encode(c)| == 2 ==> 0xC2 <= Encode(c)[0] < 0xE0
    ensures |Encode(c)| == 3 ==> 0xE0 <= Encode(c)[0] < 0xF0
    ensures |Encode(c)| == 4 ==> 0xF0 <= Encode(c)[0] <= 0xF4
    ensures Continues(Encode(c), |Encode(c)|)
  {
    if c >= 0x10000 {
      assert 0 <= c / 262144 <= 4;
    } else if c >= 0x800 {
      assert 0 <= c / 4096 < 16;
    } else if c >= 0x80 {
      assert 2 <= c / 64 < 32;
    }
  }

  /** The bits of the lead byte that belong to the code point. */
  function Payload(lead: Byte, width: nat): int {
    if width == 1 then lead
    else if width == 2 then lead % 32
    else if width == 3 then lead % 16
    else lead % 8
  }

  /** The width that a lead byte announces; 0 for a byte that starts no encoding. */
  function Width(lead: Byte): (w: nat)
    ensures w <= 4
  {
    if lead < 0x80 then 1
    else if 0xC0 <= lead < 0xE0 then 2
    else if 0xE0 <= lead < 0xF0 then 3
    else if 0xF0 <= lead < 0xF8 then 4
    else 0
  }

  predicate Overlong(width: nat, codepoint: int) {
    || (width == 2 && codepoint < 0x80)
    || (width == 3 && codepoint < 0x800)
    || (width == 4 && codepoint < 0x10000)
  }

  /** The first n bytes after the lead byte are continuation bytes. */
  predicate Continues(s: Bytes, n: nat)
    requires n <= |s|
  {
    forall i :: 1 <= i < n ==> IsContinuation(s[i])
  }

  lemma {:induction false} TwoBytes(s: Bytes, payload: int)
    requires |s| >= 2
    ensures Accumulate(payload, s, 2) == payload * 64 + Low6(s[1])
  {
  }

  lemma {:induction false} ThreeBytes(s: Bytes, payload: int)
    requires |s| >= 3
    ensures Accumulate(payload, s, 3) == payload * 4096 + Low6(s[1]) * 64 + Low6(s[2])
  {
    TwoBytes(s, payload);
  }

  lemma {:induction false} FourBytes(s: Bytes, payload: int)
    requires |s| >= 4
    ensures Accumulate(payload, s, 4) == payload * 262144 + Low6(s[1]) * 4096 + Low6(s[2]) * 64 + Low6(s[3])
  {
    ThreeBytes(s, payload);
  }

  /** Accumulating the bytes of an encoding gives back the code point. */
  lemma {:induction false} AccumulateEncoding(c: Scalar, s: Bytes)
    requires Encode(c) <= s
    ensures Width(s[0]) == |Encode(c)|
    ensures Continues(s, |Encode(c)|)
    ensures Accumulate(Payload(s[0], |Encode(c)|), s, |Encode(c)|) == c
    ensures !Overlong(|Encode(c)|, c)
  {
    var e := Encode(c);
    LeadOfEncoding(c);
    assert forall i :: 0 <= i < |e| ==> s[i] == e[i];
    assert Accumulate(Payload(s[0], |e|), s, |e|) == c by {
      hide Continues, Overlong;
      if |e| == 2 {
        TwoBytes(s, Payload(s[0], 2));
      } else if |e| == 3 {
        AccumulateThree(c, s);
      } else if |e| == 4 {
        AccumulateFour(c, s);
      }
    }
  }

  lemma {:induction false} AccumulateThree(c: Scalar, s: Bytes)
    requires 0x800 <= c < 0x10000 && |s| >= 3
    requires s[0] == 0xE0 + c / 4096 && s[1] == Tail(c / 64) && s[2] == Tail(c)
    ensures Accumulate(Payload(s[0], 3), s, 3) == c
  {
    ThreeBytes(s, c / 4096);
    assert Payload(s[0], 3) == c / 4096;
    SplitThree(c);
  }

  lemma {:induction false} AccumulateFour(c: Scalar, s: Bytes)
    requires 0x10000 <= c && |s| >= 4
    requires s[0] == 0xF0 + c / 262144 && s[1] == Tail(c / 4096) && s[2] == Tail(c / 64) && s[3] == Tail(c)
    ensures Accumulate(Payload(s[0], 4), s, 4) == c
  {
    FourBytes(s, c / 262144);
    assert Payload(s[0], 4) == c / 262144;
    SplitFour(c);
  }

  lemma {:induction false} SplitThree(c: nat)
    ensures c == c / 4096 * 4096 + c / 64 % 64 * 64 + c % 64
  {
  }

  lemma {:induction false} SplitFour(c: nat)
    ensures c == c / 262144 * 262144 + c / 4096 % 64 * 4096 + c / 64 % 64 * 64 + c % 64
  {
    SplitThree(c / 64);
    assert c / 64 / 4096 == c / 262144 && c / 64 / 64 == c / 4096;
  }

  /** Conversely, bytes that read as a scalar value of the right width are its encoding. */
  lemma {:induction false} EncodingOfAccumulated(s: Bytes, w: nat, c: int)
    requires 1 <= w <= |s|
    requires Width(s[0]) == w
    requires Continues(s, w)
    requires c == Accumulate(Payload(s[0], w), s, w)
    requires !Overlong(w, c) && IsScalar(c)
    ensures Encode(c) == s[..w]
  {
    if w == 2 {
      ReadTwo(s, c);
    } else if w == 3 {
      ReadThree(s, c);
    } else if w == 4 {
      ReadFour(s, c);
    }
  }

  lemma {:induction false} ReadTwo(s: Bytes, c: int)
    requires |s| >= 2 && Width(s[0]) == 2 && IsContinuation(s[1])
    requires c == Accumulate(Payload(s[0], 2), s, 2)
    requires !Overlong(2, c) && IsScalar(c)
    ensures Encode(c) == s[..2]
  {
    var p := s[0] - 0xC0;
    TwoBytes(s, Payload(s[0], 2));
    assert Payload(s[0], 2) == p;
    var low := s[1] - 0x80;
    assert Low6(s[1]) == low;
    assert c < 0x800 && c / 64 == p && c % 64 == low;
    assert Tail(c) == s[1];
  }

  lemma {:induction false} ReadThree(s: Bytes, c: int)
    requires |s| >= 3 && Width(s[0]) == 3 && Continues(s, 3)
    requires c == Accumulate(Payload(s[0], 3), s, 3)
    requires !Overlong(3, c) && IsScalar(c)
    ensures Encode(c) == s[..3]
  {
    ThreeBytes(s, Payload(s[0], 3));
    JoinThree(c, s[0] - 0xE0, s[1] - 0x80, s[2] - 0x80);
    assert Tail(c) == s[2] && Tail(c / 64) == s[1];
  }

  lemma {:induction false} ReadFour(s: Bytes, c: int)
    requires |s| >= 4 && Width(s[0]) == 4 && Continues(s, 4)
    requires c == Accumulate(Payload(s[0], 4), s, 4)
    requires !Overlong(4, c) && IsScalar(c)
    ensures Encode(c) == s[..4]
  {
    FourBytes(s, Payload(s[0], 4));
    JoinFour(c, s[0] - 0xF0, s[1] - 0x80, s[2] - 0x80, s[3] - 0x80);
    assert Tail(c) == s[3] && Tail(c / 64) == s[2] && Tail(c / 4096) == s[1];
  }

  lemma {:induction false} JoinThree(c: int, p: int, x: int, y: int)
    requires 0 <= x < 64 && 0 <= y < 64 && 0 <= p < 16
    requires c == p * 4096 + x * 64 + y
    ensures c < 0x10000 && c / 4096 == p && c / 64 % 64 == x && c % 64 == y
  {
    assert c / 64 == p * 64 + x;
  }

  lemma {:induction false} JoinFour(c: int, p: int, x: int, y: int, z: int)
    requires 0 <= x < 64 && 0 <= y < 64 && 0 <= z < 64 && 0 <= p
    requires c == p * 262144 + x * 4096 + y * 64 + z
    ensures c / 262144 == p && c / 4096 % 64 == x && c / 64 % 64 == y && c % 64 == z
  {
    var upper := p * 4096 + x * 64 + y;
    assert c == upper * 64 + z && c / 64 == upper && c % 64 == z;
    JoinUpper(upper, p, x, y);
    assert c / 4096 == upper / 64 && c / 262144 == upper / 4096;
  }

  lemma {:induction false} JoinUpper(c: int, p: int, x: int, y: int)
    requires 0 <= x < 64 && 0 <= y < 64 && 0 <= p
    requires c == p * 4096 + x * 64 + y
    ensures c / 4096 == p && c / 64 % 64 == x && c % 64 == y
  {
    assert c / 64 == p * 64 + x;
  }

  /** A scalar value encoded at the start of s is the only one. */
  lemma {:induction false} EncodingIsPrefixFree(c: Scalar, d: Scalar, s: Bytes)
    requires Encode(c) <= s && Encode(d) <= s
    ensures c == d
  {
    AccumulateEncoding(c, s);
    AccumulateEncoding(d, s);
  }

  /** What makes a position unreadable. */
  lemma {:induction false} StuckAt(s: Bytes)
    requires |s| > 0
    requires
      var w := Width(s[0]);
      || w == 0
      || w > |s|
      || !Continues(s, w)
      || Overlong(w, Accumulate(Payload(s[0], w), s, w))
      || !IsScalar(Accumulate(Payload(s[0], w), s, w))
    ensures Stuck(s)
  {
    forall c: Scalar ensures !(Encode(c) <= s) {
      if Encode(c) <= s { AccumulateEncoding(c, s); }
    }
  }

  /** The lead bytes that no encoding starts with, among them the two-byte overlong leads. */
  lemma {:induction false} StuckLead(s: Bytes)
    requires |s| > 0
    requires 0x80 <= s[0] < 0xC2 || 0xF4 < s[0]
    ensures Stuck(s)
  {
    forall c: Scalar ensures !(Encode(c) <= s) {
      LeadOfEncoding(c);
    }
  }

  // ---------------------------------------------------------------- verdicts

  datatype Status = Valid | Invalid | TooManyCodepoints | UnsafeControl

  ghost predicate AllSafe(cs: seq<Scalar>, unsafe: int -> bool) {
    forall i :: 0 <= i < |cs| ==> !unsafe(cs[i])
  }

  /** `cs` is what a validator has read when it stops with `status`. */
  ghost predicate Explains(s: Bytes, max: nat, unsafe: int -> bool, status: Status, cs: seq<Scalar>) {
    && EncodeAll(cs) <= s
    && match status
       case Valid => EncodeAll(cs) == s && |cs| <= max && AllSafe(cs, unsafe)
       case Invalid =>
         |cs| <= max && AllSafe(cs, unsafe) && EncodeAll(cs) != s && Stuck(s[|EncodeAll(cs)|..])
       case TooManyCodepoints => |cs| == max + 1 && AllSafe(cs, unsafe)
       case UnsafeControl =>
         && 0 < |cs| <= max + 1
         && unsafe(cs[|cs| - 1])
         && AllSafe(cs[..|cs| - 1], unsafe)
  }

  ghost predicate Verdict(s: Bytes, max: nat, unsafe: int -> bool, status: Status) {
    exists cs: seq<Scalar> :: Explains(s, max, unsafe, status, cs)
  }

  lemma {:induction false} ReadingsAreComparable(cs: seq<Scalar>, ds: seq<Scalar>, s: Bytes)
    requires EncodeAll(cs) <= s && EncodeAll(ds) <= s
    requires |cs| <= |ds|
    ensures cs <= ds
    ensures |EncodeAll(cs)| <= |EncodeAll(ds)|
    ensures |cs| < |ds| ==> Encode(ds[|cs|]) <= s[|EncodeAll(cs)|..]
  {
    hide Encode;
    if cs == [] {
      if ds != [] { assert Encode(ds[0]) <= EncodeAll(ds) <= s; }
    } else {
      assert Encode(cs[0]) <= EncodeAll(cs) && Encode(ds[0]) <= EncodeAll(ds);
      EncodingIsPrefixFree(cs[0], ds[0], s);
      var n := |Encode(cs[0])|;
      var rest := s[n..];
      assert EncodeAll(cs)[n..] == EncodeAll(cs[1..]) && EncodeAll(ds)[n..] == EncodeAll(ds[1..]);
      ReadingsAreComparable(cs[1..], ds[1..], rest);
      assert cs == [cs[0]] + cs[1..] && ds == [ds[0]] + ds[1..];
      if |cs| < |ds| {
        assert s[|EncodeAll(cs)|..] == rest[|EncodeAll(cs[1..])|..];
      }
    }
  }

  /** A longer reading cannot start from a place where another one is stuck or has ended. */
  lemma {:induction false} NothingFollows(cs: seq<Scalar>, ds: seq<Scalar>, s: Bytes)
    requires EncodeAll(cs) <= s && EncodeAll(ds) <= s
    requires EncodeAll(cs) == s || Stuck(s[|EncodeAll(cs)|..])
    ensures ds <= cs
  {
    if |cs| < |ds| {
      ReadingsAreComparable(cs, ds, s);
    } else {
      ReadingsAreComparable(ds, cs, s);
    }
  }

  /** Every input has at most one verdict, so the contracts below fix the result of each validator. */
  lemma {:induction false} VerdictIsUnique(s: Bytes, max: nat, unsafe: int -> bool, a: Status, b: Status)
    requires Verdict(s, max, unsafe, a) && Verdict(s, max, unsafe, b)
    ensures a == b
  {
    var cs: seq<Scalar> :| Explains(s, max, unsafe, a, cs);
    var ds: seq<Scalar> :| Explains(s, max, unsafe, b, ds);
    if |cs| <= |ds| {
      VerdictsAgree(s, max, unsafe, a, b, cs, ds);
    } else {
      VerdictsAgree(s, max, unsafe, b, a, ds, cs);
    }
  }

  lemma {:induction false} VerdictsAgree(s: Bytes, max: nat, unsafe: int -> bool, a: Status, b: Status,
      cs: seq<Scalar>, ds: seq<Scalar>)
    requires Explains(s, max, unsafe, a, cs) && Explains(s, max, unsafe, b, ds)
    requires |cs| <= |ds|
    ensures a == b
  {
    ReadingsAreComparable(cs, ds, s);
    if a == Valid || a == Invalid {
      NothingFollows(cs, ds, s);
      assert cs == ds;
    }
    if a == UnsafeControl {
      var last := |cs| - 1;
      assert cs[last] == ds[last] && unsafe(ds[last]);
    }
  }

  ghost predicate WellFormedWithin(s: Bytes, max: nat, unsafe: int -> bool) {
    exists cs: seq<Scalar> :: EncodeAll(cs) == s && |cs| <= max && AllSafe(cs, unsafe)
  }

  /** What a verdict says of a text that is the encoding of ds. */
  lemma {:induction false} VerdictOfEncoding(s: Bytes, max: nat, unsafe: int -> bool, status: Status, cs: seq<Scalar>,
      ds: seq<Scalar>)
    requires Explains(s, max, unsafe, status, cs) && EncodeAll(ds) == s
    ensures status != Invalid && (status == Valid <==> |ds| <= max && AllSafe(ds, unsafe))
  {
    NothingFollows(ds, cs, s);
    if status == Valid || status == Invalid {
      NothingFollows(cs, ds, s);
      assert cs == ds;
    } else if status == UnsafeControl {
      assert cs[|cs| - 1] == ds[|cs| - 1];
    }
  }

  /**
   A text is valid exactly when it is well formed within the limit and without unsafe controls. When neither
   limit nor controls can matter, it is valid exactly when it is well formed and invalid exactly when it is not.
   */
  lemma {:induction false} VerdictMeansWellFormed(s: Bytes, max: nat, unsafe: int -> bool, status: Status)
    requires Verdict(s, max, unsafe, status)
    ensures status == Valid <==> WellFormedWithin(s, max, unsafe)
    ensures WellFormedWithin(s, max, unsafe) ==> WellFormed(s)
    ensures status == Invalid ==> !WellFormed(s)
    ensures |s| <= max && (forall c :: !unsafe(c)) ==> status == if WellFormed(s) then Valid else Invalid
  {
    var cs: seq<Scalar> :| Explains(s, max, unsafe, status, cs);
    EncodingsAreLonger(cs);
    hide EncodeAll;
    if WellFormedWithin(s, max, unsafe) {
      var ds: seq<Scalar> :| EncodeAll(ds) == s && |ds| <= max && AllSafe(ds, unsafe);
      VerdictOfEncoding(s, max, unsafe, status, cs, ds);
    }
    if WellFormed(s) {
      var ds: seq<Scalar> :| EncodeAll(ds) == s;
      EncodingsAreLonger(ds);
      VerdictOfEncoding(s, max, unsafe, status, cs, ds);
    }
  }

  lemma {:induction false} EncodingsAreLonger(cs: seq<Scalar>)
    ensures |cs| <= |EncodeAll(cs)|
  {
    hide Encode;
    if cs != [] {
      EncodingsAreLonger(cs[1..]);
    }
  }

  /** One more code point read. */
  lemma {:induction false} ReadOne(s: Bytes, cs: seq<Scalar>, index: nat, w: nat, c: Scalar)
    requires index + w <= |s|
    requires EncodeAll(cs) == s[..index] && Encode(c) == s[index..][..w]
    ensures EncodeAll(cs + [c]) == s[..index + w]
  {
    EncodeAllSnoc(cs, c);
    assert s[..index + w] == s[..index] + s[index..][..w];
  }

  lemma {:induction false} StopInvalid(s: Bytes, max: nat, unsafe: int -> bool, cs: seq<Scalar>, index: nat)
    requires index < |s| && EncodeAll(cs) == s[..index] && Stuck(s[index..])
    requires |cs| <= max && AllSafe(cs, unsafe)
    ensures Verdict(s, max, unsafe, Invalid)
  {
    hide Encode, EncodeAll, Stuck;
    assert Explains(s, max, unsafe, Invalid, cs);
  }

  lemma {:induction false} StopUnsafe(s: Bytes, max: nat, unsafe: int -> bool, cs: seq<Scalar>, c: Scalar)
    requires EncodeAll(cs + [c]) <= s
    requires |cs| <= max && AllSafe(cs, unsafe) && unsafe(c)
    ensures Verdict(s, max, unsafe, UnsafeControl)
  {
    hide Encode, EncodeAll, Stuck;
    var ds := cs + [c];
    assert ds[..|ds| - 1] == cs;
    assert Explains(s, max, unsafe, UnsafeControl, ds);
  }

  lemma {:induction false} StopTooMany(s: Bytes, max: nat, unsafe: int -> bool, cs: seq<Scalar>)
    requires EncodeAll(cs) <= s && |cs| == max + 1 && AllSafe(cs, unsafe)
    ensures Verdict(s, max, unsafe, TooManyCodepoints)
  {
    assert Explains(s, max, unsafe, TooManyCodepoints, cs);
  }

  lemma {:induction false} StopValid(s: Bytes, max: nat, unsafe: int -> bool, cs: seq<Scalar>)
    requires EncodeAll(cs) == s[..|s|] && |cs| <= max && AllSafe(cs, unsafe)
    ensures Verdict(s, max, unsafe, Valid)
  {
    assert s[..|s|] == s;
    assert Explains(s, max, unsafe, Valid, cs);
  }

  /** One more continuation byte read. */
  lemma {:induction false} ReadContinuation(here: Bytes, payload: int, n: nat)
    requires 1 <= n < |here| && Continues(here, n) && IsContinuation(here[n])
    ensures Continues(here, n + 1)
    ensures Accumulate(payload, here, n + 1) == Accumulate(payload, here, n) * 64 + Low6(here[n])
  {
  }

  /** A missing continuation byte. */
  lemma {:induction false} BrokenRead(here: Bytes, n: nat)
    requires 1 <= n < |here| && n < Width(here[0]) <= |here| && !IsContinuation(here[n])
    ensures Stuck(here)
  {
    StuckAt(here);
  }

  /** One more code point read, from the bytes the validator has accumulated. */
  lemma {:induction false} ReadScalar(s: Bytes, cs: seq<Scalar>, index: nat, w: nat, c: int)
    requires index < |s| && 1 <= w <= |s| - index && EncodeAll(cs) == s[..index]
    requires Width(s[index]) == w && Continues(s[index..], w)
    requires c == Accumulate(Payload(s[index], w), s[index..], w)
    requires !Overlong(w, c) && c <= 0x10FFFF && !(0xD800 <= c <= 0xDFFF)
    ensures IsScalar(c)
    ensures EncodeAll(cs + [c]) == s[..index + w]
  {
    hide Encode, EncodeAll, Accumulate, Overlong;
    AccumulateIsNonnegative(Payload(s[index], w), s[index..], w);
    EncodingOfAccumulated(s[index..], w, c);
    ReadOne(s, cs, index, w, c);
  }

  // ---------------------------------------------------------------- the validators

  /** Desktop-entry documents and values; the lead ranges already exclude two-byte overlong forms. */
  method ValidateUtf8(value: Bytes, maximumCodepoints: nat) returns (status: Status)
    ensures Verdict(value, maximumCodepoints, c => false, status)
  {
    assert EncodeAll([]) == [];
    hide Encode, EncodeAll, Accumulate, Continues, Verdict, TextVerdict, Stuck;
    ghost var unsafe := (c: int) => false;
    var codepoints := 0;
    var index := 0;
    ghost var cs: seq<Scalar> := [];
    while index < |value|
      invariant index <= |value| && codepoints == |cs| <= maximumCodepoints
      invariant EncodeAll(cs) == value[..index]
    {
      var lead := value[index];
      var width, codepoint: int := 0, 0;
      ghost var here := value[index..];
      if lead <= 0x7F {
        width, codepoint := 1, lead;
      } else if 0xC2 <= lead <= 0xDF {
        width, codepoint := 2, lead % 32;
      } else if 0xE0 <= lead <= 0xEF {
        width, codepoint := 3, lead % 16;
      } else if 0xF0 <= lead <= 0xF4 {
        width, codepoint := 4, lead % 8;
      } else {
        StuckLead(here);
        StopInvalid(value, maximumCodepoints, unsafe, cs, index);
        return Invalid;
      }
      if index + width > |value| {
        StuckAt(here);
        StopInvalid(value, maximumCodepoints, unsafe, cs, index);
        return Invalid;
      }
      var continuation := 1;
      while continuation < width
        invariant 1 <= continuation <= width
        invariant Continues(here, continuation)
        invariant codepoint == Accumulate(Payload(lead, width), here, continuation)
      {
        var byte := value[index + continuation];
        if !IsContinuation(byte) {
          BrokenRead(here, continuation);
          StopInvalid(value, maximumCodepoints, unsafe, cs, index);
          return Invalid;
        }
        ReadContinuation(here, Payload(lead, width), continuation);
        codepoint := codepoint * 64 + Low6(byte);
        continuation := continuation + 1;
      }
      if (width == 3 && codepoint < 0x800) || (width == 4 && codepoint < 0x10000) ||
         0xD800 <= codepoint <= 0xDFFF || codepoint > 0x10FFFF {
        StuckAt(here);
        StopInvalid(value, maximumCodepoints, unsafe, cs, index);
        return Invalid;
      }
      TwoBytesAreNotOverlong(here, width, codepoint);
      ReadScalar(value, cs, index, width, codepoint);
      cs := cs + [codepoint];
      codepoints := codepoints + 1;
      if codepoints > maximumCodepoints {
        StopTooMany(value, maximumCodepoints, unsafe, cs);
        return TooManyCodepoints;
      }
      index := index + width;
    }
    StopValid(value, maximumCodepoints, unsafe, cs);
    return Valid;
  }

  /** Why the first validator needs no explicit two-byte overlong check. */
  lemma {:induction false} TwoBytesAreNotOverlong(s: Bytes, width: nat, codepoint: int)
    requires 1 <= width <= |s|
    requires codepoint == Accumulate(Payload(s[0], width), s, width)
    requires width == 1 ==> s[0] < 0x80
    requires width == 2 ==> 0xC2 <= s[0] <= 0xDF
    ensures width == 2 ==> codepoint >= 0x80
    ensures codepoint >= 0
  {
    AccumulateIsNonnegative(Payload(s[0], width), s, width);
    if width == 2 {
      assert Accumulate(Payload(s[0], width), s, 2) == Payload(s[0], width) * 64 + Low6(s[1]);
    }
  }

  lemma {:induction false} AccumulateIsNonnegative(payload: int, s: Bytes, n: nat)
    requires 1 <= n <= |s| && payload >= 0
    ensures Accumulate(payload, s, n) >= 0
  {
    if n > 1 {
      AccumulateIsNonnegative(payload, s, n - 1);
    }
  }

  predicate IsAsciiWhitespace(b: int) {
    b == 0x20 || b == 0x09 || b == 0x0A || b == 0x0D || b == 0x0C || b == 0x0B
  }

  /** Controls that a search query may not hold. */
  predicate UnsafeInQuery(c: int) {
    c == 0 || (!IsAsciiWhitespace(c) && c < 0x20) || 0x7F <= c <= 0x9F
  }

  /** Controls that notification text may not hold. */
  predicate UnsafeInText(c: int, allowBodyWhitespace: bool) {
    var allowed := allowBodyWhitespace && (c == 0x09 || c == 0x0A);
    c == 0 || (c < 0x20 && !allowed) || 0x7F <= c <= 0x9F
  }

  function TextControls(allowBodyWhitespace: bool): int -> bool {
    c => UnsafeInText(c, allowBodyWhitespace)
  }

  /** Search queries: mask-based lead classes, and the whitespace exemption looks at the lead byte. */
  method ValidateQueryUtf8(value: Bytes, maximumCodepoints: nat) returns (status: Status)
    ensures Verdict(value, maximumCodepoints, UnsafeInQuery, status)
  {
    assert EncodeAll([]) == [];
    hide Encode, EncodeAll, Accumulate, Continues, Verdict, TextVerdict, Stuck;
    var codepoints := 0;
    var offset := 0;
    ghost var cs: seq<Scalar> := [];
    while offset < |value|
      invariant offset <= |value| && codepoints == |cs| <= maximumCodepoints
      invariant EncodeAll(cs) == value[..offset]
      invariant AllSafe(cs, UnsafeInQuery)
    {
      var lead := value[offset];
      var width, codepoint: int := 0, 0;
      ghost var here := value[offset..];
      if lead <= 0x7F {
        width, codepoint := 1, lead;
      } else if 0xC0 <= lead < 0xE0 {
        width, codepoint := 2, lead % 32;
      } else if 0xE0 <= lead < 0xF0 {
        width, codepoint := 3, lead % 16;
      } else if 0xF0 <= lead < 0xF8 {
        width, codepoint := 4, lead % 8;
      } else {
        StuckAt(here);
        StopInvalid(value, maximumCodepoints, UnsafeInQuery, cs, offset);
        return Invalid;
      }
      if offset + width > |value| {
        StuckAt(here);
        StopInvalid(value, maximumCodepoints, UnsafeInQuery, cs, offset);
        return Invalid;
      }
      var continuation := 1;
      while continuation < width
        invariant 1 <= continuation <= width
        invariant Continues(here, continuation)
        invariant codepoint == Accumulate(Payload(lead, width), here, continuation)
      {
        var byte := value[offset + continuation];
        if !IsContinuation(byte) {
          BrokenRead(here, continuation);
          StopInvalid(value, maximumCodepoints, UnsafeInQuery, cs, offset);
          return Invalid;
        }
        ReadContinuation(here, Payload(lead, width), continuation);
        codepoint := codepoint * 64 + Low6(byte);
        continuation := continuation + 1;
      }
      if Overlong(width, codepoint) || 0xD800 <= codepoint <= 0xDFFF || codepoint > 0x10FFFF {
        StuckAt(here);
        StopInvalid(value, maximumCodepoints, UnsafeInQuery, cs, offset);
        return Invalid;
      }
      ReadScalar(value, cs, offset, width, codepoint);
      if codepoint == 0 || (!IsAsciiWhitespace(lead) && codepoint < 0x20) || 0x7F <= codepoint <= 0x9F {
        StopUnsafe(value, maximumCodepoints, UnsafeInQuery, cs, codepoint);
        return UnsafeControl;
      }
      cs := cs + [codepoint];
      codepoints := codepoints + 1;
      if codepoints > maximumCodepoints {
        StopTooMany(value, maximumCodepoints, UnsafeInQuery, cs);
        return TooManyCodepoints;
      }
      offset := offset + width;
    }
    StopValid(value, maximumCodepoints, UnsafeInQuery, cs);
    return Valid;
  }

  datatype TextStatus = TextValid | TextInvalidUtf8 | TextUnsafeControl | TextTooLarge

  /** What notification text checking reports, in terms of the verdict on text within the byte limit. */
  ghost predicate TextVerdict(text: Bytes, maximumBytes: nat, maximumCodepoints: nat, allow: bool, status: TextStatus) {
    var unsafe := TextControls(allow);
    if |text| > maximumBytes then status == TextTooLarge
    else match status
      case TextValid => Verdict(text, maximumCodepoints, unsafe, Valid)
      case TextInvalidUtf8 => Verdict(text, maximumCodepoints, unsafe, Invalid)
      case TextTooLarge => Verdict(text, maximumCodepoints, unsafe, TooManyCodepoints)
      case TextUnsafeControl => Verdict(text, maximumCodepoints, unsafe, UnsafeControl)
  }

  /** Notification text: a byte limit first, then the same reading with its own control set. */
  method ValidateText(text: Bytes, maximumBytes: nat, maximumCodepoints: nat, allowBodyWhitespace: bool)
      returns (status: TextStatus)
    ensures TextVerdict(text, maximumBytes, maximumCodepoints, allowBodyWhitespace, status)
  {
    if |text| > maximumBytes {
      return TextTooLarge;
    }
    assert EncodeAll([]) == [];
    hide Encode, EncodeAll, Accumulate, Continues, Verdict, TextVerdict, Stuck;
    ghost var unsafe := TextControls(allowBodyWhitespace);
    var codepoints := 0;
    var offset := 0;
    ghost var cs: seq<Scalar> := [];
    while offset < |text|
      invariant offset <= |text| && codepoints == |cs| <= maximumCodepoints
      invariant EncodeAll(cs) == text[..offset]
      invariant AllSafe(cs, unsafe)
    {
      var lead := text[offset];
      var width, codepoint: int := 0, 0;
      ghost var here := text[offset..];
      if lead <= 0x7F {
        width, codepoint := 1, lead;
      } else if 0xC0 <= lead < 0xE0 {
        width, codepoint := 2, lead % 32;
      } else if 0xE0 <= lead < 0xF0 {
        width, codepoint := 3, lead % 16;
      } else if 0xF0 <= lead < 0xF8 {
        width, codepoint := 4, lead % 8;
      } else {
        StuckAt(here);
        StopInvalid(text, maximumCodepoints, unsafe, cs, offset);
        return TextInvalidUtf8;
      }
      if width > |text| - offset {
        StuckAt(here);
        StopInvalid(text, maximumCodepoints, unsafe, cs, offset);
        return TextInvalidUtf8;
      }
      var index := 1;
      while index < width
        invariant 1 <= index <= width
        invariant Continues(here, index)
        invariant codepoint == Accumulate(Payload(lead, width), here, index)
      {
        var byte := text[offset + index];
        if !IsContinuation(byte) {
          BrokenRead(here, index);
          StopInvalid(text, maximumCodepoints, unsafe, cs, offset);
          return TextInvalidUtf8;
        }
        ReadContinuation(here, Payload(lead, width), index);
        codepoint := codepoint * 64 + Low6(byte);
        index := index + 1;
      }
      if Overlong(width, codepoint) || 0xD800 <= codepoint <= 0xDFFF || codepoint > 0x10FFFF {
        StuckAt(here);
        StopInvalid(text, maximumCodepoints, unsafe, cs, offset);
        return TextInvalidUtf8;
      }
      ReadScalar(text, cs, offset, width, codepoint);
      var allowedWhitespace := allowBodyWhitespace && (codepoint == 0x09 || codepoint == 0x0A);
      if codepoint == 0 || (codepoint < 0x20 && !allowedWhitespace) || 0x7F <= codepoint <= 0x9F {
        StopUnsafe(text, maximumCodepoints, unsafe, cs, codepoint);
        return TextUnsafeControl;
      }
      cs := cs + [codepoint];
      codepoints := codepoints + 1;
      if codepoints > maximumCodepoints {
        StopTooMany(text, maximumCodepoints, unsafe, cs);
        return TextTooLarge;
      }
      offset := offset + width;
    }
    StopValid(text, maximumCodepoints, unsafe, cs);
    return TextValid;
  }

  // ---------------------------------------------------------------- counting and scanning

  /** The non-continuation bytes of s, as the theme and configuration parsers count them. */
  function CodePointCount(s: Bytes): nat {
    if s == [] then 0 else (if IsContinuation(s[0]) then 0 else 1) + CodePointCount(s[1..])
  }

  lemma {:induction false} CodePointCountAppend(s: Bytes, t: Bytes)
    ensures CodePointCount(s + t) == CodePointCount(s) + CodePointCount(t)
  {
    if s == [] {
      assert s + t == t;
    } else {
      assert (s + t)[1..] == s[1..] + t;
      CodePointCountAppend(s[1..], t);
    }
  }

  /** A cut next to an ASCII byte falls between two code points. */
  lemma {:induction false} AsciiIsABoundary(cs: seq<Scalar>, i: nat)
    requires i < |EncodeAll(cs)| && EncodeAll(cs)[i] < 0x80
    ensures exists k :: 0 <= k < |cs| && cs[k] == EncodeAll(cs)[i] && EncodeAll(cs[..k]) == EncodeAll(cs)[..i]
  {
    hide Encode;
    var s := EncodeAll(cs);
    var e := Encode(cs[0]);
    LeadOfEncoding(cs[0]);
    assert s == e + EncodeAll(cs[1..]);
    if i == 0 {
      OneByteEncoding(cs[0]);
      assert cs[..0] == [];
    } else {
      assert i >= |e|;
      AsciiIsABoundary(cs[1..], i - |e|);
      var k :| 0 <= k < |cs| - 1 && cs[1..][k] == s[i] && EncodeAll(cs[1..][..k]) == EncodeAll(cs[1..])[..i - |e|];
      assert cs[..k + 1][1..] == cs[1..][..k];
      assert EncodeAll(cs[..k + 1]) == e + EncodeAll(cs[1..][..k]) == s[..i];
    }
  }

  lemma {:induction false} OneByteEncoding(c: Scalar)
    requires c < 0x80 || Encode(c)[0] < 0x80
    ensures Encode(c) == [c]
  {
    LeadOfEncoding(c);
  }

  lemma {:induction false} SplitAtAscii(cs: seq<Scalar>, k: nat)
    requires k < |cs| && cs[k] < 0x80
    ensures EncodeAll(cs) == EncodeAll(cs[..k]) + EncodeAll(cs[k..])
    ensures EncodeAll(cs[k..]) == [cs[k]] + EncodeAll(cs[k + 1..])
  {
    OneByteEncoding(cs[k]);
    hide Encode;
    assert cs == cs[..k] + cs[k..];
    EncodeAllAppend(cs[..k], cs[k..]);
    assert cs[k..][1..] == cs[k + 1..];
  }

  /** Cutting well-formed text at an ASCII byte leaves well-formed text on both sides. */
  lemma {:induction false} WellFormedAroundAscii(s: Bytes, i: nat)
    requires WellFormed(s) && i < |s| && s[i] < 0x80
    ensures WellFormed(s[..i]) && WellFormed(s[i..]) && WellFormed(s[i + 1..])
  {
    var cs: seq<Scalar> :| EncodeAll(cs) == s;
    AsciiIsABoundary(cs, i);
    hide Encode, EncodeAll;
    var k :| 0 <= k < |cs| && cs[k] == s[i] && EncodeAll(cs[..k]) == s[..i];
    SplitAtAscii(cs, k);
    assert EncodeAll(cs[k..]) == s[i..];
    assert EncodeAll(cs[k + 1..]) == s[i..][1..] == s[i + 1..];
  }

  lemma {:induction false} WellFormedAppend(s: Bytes, t: Bytes)
    requires WellFormed(s) && WellFormed(t)
    ensures WellFormed(s + t)
  {
    var cs: seq<Scalar> :| EncodeAll(cs) == s;
    var ds: seq<Scalar> :| EncodeAll(ds) == t;
    EncodeAllAppend(cs, ds);
  }

  lemma {:induction false} WellFormedAscii(b: Byte)
    requires b < 0x80
    ensures WellFormed([b])
  {
    assert EncodeAll([b]) == [b] + EncodeAll([]);
  }

  lemma {:induction false} CountOneEncoding(c: Scalar)
    ensures CodePointCount(Encode(c)) == 1
  {
    var e := Encode(c);
    LeadOfEncoding(c);
    var tail := e[1..];
    assert forall i :: 0 <= i < |tail| ==> IsContinuation(tail[i]);
    OnlyContinuations(tail);
  }

  lemma {:induction false} OnlyContinuations(s: Bytes)
    requires forall i :: 0 <= i < |s| ==> IsContinuation(s[i])
    ensures CodePointCount(s) == 0
  {
    if s != [] {
      OnlyContinuations(s[1..]);
    }
  }

  /** On well-formed text the counters return the number of code points. */
  lemma {:induction false} CodePointCountIsExact(cs: seq<Scalar>)
    ensures CodePointCount(EncodeAll(cs)) == |cs|
  {
    if cs != [] {
      CodePointCountIsExact(cs[1..]);
      CodePointCountAppend(Encode(cs[0]), EncodeAll(cs[1..]));
      CountOneEncoding(cs[0]);
    }
  }

  predicate IsControl(c: int) {
    c < 0x20 || 0x7F <= c <= 0x9F
  }

  /** The text holds a control code point. */
  ghost predicate HasControl(s: Bytes) {
    exists cs: seq<Scalar> :: EncodeAll(cs) == s && HoldsControl(cs)
  }

  ghost predicate HoldsControl(cs: seq<Scalar>) {
    exists i :: 0 <= i < |cs| && IsControl(cs[i])
  }

  /** A text has one reading. */
  lemma {:induction false} ReadingIsUnique(cs: seq<Scalar>, ds: seq<Scalar>)
    requires EncodeAll(cs) == EncodeAll(ds)
    ensures cs == ds
  {
    NothingFollows(cs, ds, EncodeAll(cs));
    NothingFollows(ds, cs, EncodeAll(cs));
  }

  /**
   The control scan behind Exec, TryExec and Path. It trusts the lead byte for the width, so it stays
   inside the text only because its callers pass well-formed text.
   */
  method HasUnsafeControl(value: Bytes) returns (found: bool)
    requires WellFormed(value)
    ensures found <==> HasControl(value)
  {
    ghost var cs: seq<Scalar> :| EncodeAll(cs) == value;
    found := ScanForControl(value, cs);
    if !found && HasControl(value) {
      ghost var ds: seq<Scalar> :| EncodeAll(ds) == value && HoldsControl(ds);
      ReadingIsUnique(cs, ds);
    }
  }

  method ScanForControl(value: Bytes, ghost cs: seq<Scalar>) returns (found: bool)
    requires EncodeAll(cs) == value
    ensures found <==> HoldsControl(cs)
  {
    hide Encode;
    var index := 0;
    ghost var read := 0;
    assert cs[read..] == cs;
    while index < |value|
      invariant index <= |value| && read <= |cs|
      invariant value[index..] == EncodeAll(cs[read..])
      invariant forall i :: 0 <= i < read ==> !IsControl(cs[i])
      decreases |value| - index
    {
      ghost var here := value[index..];
      ghost var c := cs[read];
      assert Encode(c) <= here;
      AccumulateEncoding(c, here);
      LeadOfEncoding(c);
      var lead := value[index];
      var width, codepoint := 1, lead as int;
      if 0xC2 <= lead <= 0xDF {
        width, codepoint := 2, lead % 32;
      } else if 0xE0 <= lead <= 0xEF {
        width, codepoint := 3, lead % 16;
      } else if lead >= 0xF0 {
        width, codepoint := 4, lead % 8;
      }
      var continuation := 1;
      while continuation < width
        invariant 1 <= continuation <= width
        invariant codepoint == Accumulate(Payload(lead, width), here, continuation)
      {
        codepoint := codepoint * 64 + Low6(value[index + continuation]);
        continuation := continuation + 1;
      }
      if codepoint < 0x20 || 0x7F <= codepoint <= 0x9F {
        assert IsControl(cs[read]);
        return true;
      }
      assert cs[read..][1..] == cs[read + 1..];
      assert here[width..] == EncodeAll(cs[read + 1..]);
      assert value[index + width..] == here[width..];
      index := index + width;
      read := read + 1;
    }
    return false;
  }
}
