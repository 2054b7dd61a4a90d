/** Secrets in base32 (app/services/totp.py): encoding with the padding stripped, and the
    forgiving decoder that restores it. The encoding is that of section 6 of RFC 4648. */
module Base32 {
  import opened Text

  // ------------------------------------------------------------ positional digits

  function Pow(base: nat, n: nat): nat {
    if n == 0 then 1 else Pow(base, n - 1) * base
  }

  /** The number that big-endian digits denote. */
  function FromDigits(ds: seq<nat>, base: nat): nat {
    if ds == [] then 0 else Add(FromDigits(ds[..|ds| - 1], base), base, ds[|ds| - 1])
  }

  function Add(n: nat, base: nat, digit: nat): nat { n * base + digit }

  /** Quotient and remainder, by repeated subtraction: division by a variable is costly here. */
  function Quot(n: nat, base: nat): nat
    requires base > 0
  {
    if n < base then 0 else 1 + Quot(n - base, base)
  }

  function Rem(n: nat, base: nat): (r: nat)
    requires base > 0
    ensures r < base
  {
    if n < base then n else Rem(n - base, base)
  }

  function ToDigits(n: nat, base: nat, len: nat): (ds: seq<nat>)
    requires base > 0
    ensures |ds| == len && forall i :: 0 <= i < len ==> ds[i] < base
    decreases len, n
  {
    if len == 0 then [] else ToDigits(Quot(n, base), base, len - 1) + [Rem(n, base)]
  }

  ghost predicate DigitsBelow(ds: seq<nat>, base: nat) {
    forall i :: 0 <= i < |ds| ==> ds[i] < base
  }

  function Zeros(n: nat): (z: seq<nat>)
    ensures |z| == n
  {
    seq(n, _ => 0)
  }

  lemma {:induction false} DivRem(n: nat, base: nat)
    requires base > 0
    ensures Add(Quot(n, base), base, Rem(n, base)) == n
  {
    if n >= base {
      DivRem(n - base, base);
      var q := Quot(n - base, base);
      assert (1 + q) * base == base + q * base;
    }
  }

  lemma AtLeast(d: int, base: nat)
    requires d >= 1
    ensures d * base >= base
  {
  }

  lemma Unique(q: int, r: int, x: int, y: int, base: nat)
    requires 0 <= r < base && 0 <= y < base && q * base + r == x * base + y
    ensures q == x && r == y
  {
    if q > x {
      AtLeast(q - x, base);
    } else if x > q {
      AtLeast(x - q, base);
    }
  }

  lemma DivMod(q: nat, r: nat, base: nat)
    requires r < base
    ensures Quot(Add(q, base, r), base) == q && Rem(Add(q, base, r), base) == r
  {
    var n := Add(q, base, r);
    DivRem(n, base);
    Unique(q, r, Quot(n, base), Rem(n, base), base);
  }

  lemma {:induction false} ToFromDigits(ds: seq<nat>, base: nat)
    requires base > 0 && DigitsBelow(ds, base)
    ensures ToDigits(FromDigits(ds, base), base, |ds|) == ds
  {
    if ds != [] {
      var front, last := ds[..|ds| - 1], ds[|ds| - 1];
      ToFromDigits(front, base);
      DivMod(FromDigits(front, base), last, base);
    }
  }

  lemma QuotBound(n: nat, base: nat, bound: nat)
    requires base > 0 && n < bound * base
    ensures Quot(n, base) < bound
  {
    DivRem(n, base);
  }

  lemma {:induction false} FromToDigits(n: nat, base: nat, len: nat)
    requires base > 0 && n < Pow(base, len)
    ensures FromDigits(ToDigits(n, base, len), base) == n
    decreases len
  {
    if len > 0 {
      QuotBound(n, base, Pow(base, len - 1));
      FromToDigits(Quot(n, base), base, len - 1);
      DivRem(n, base);
      assert ToDigits(n, base, len)[..len - 1] == ToDigits(Quot(n, base), base, len - 1);
    }
  }

  lemma AddBound(n: nat, base: nat, digit: nat, bound: nat)
    requires n < bound && digit < base
    ensures Add(n, base, digit) < bound * base
  {
    AtLeast(bound - n, base);
    assert (bound - n) * base == bound * base - n * base;
  }

  lemma {:induction false} FromDigitsBound(ds: seq<nat>, base: nat)
    requires base > 0 && DigitsBelow(ds, base)
    ensures FromDigits(ds, base) < Pow(base, |ds|)
  {
    if ds != [] {
      FromDigitsBound(ds[..|ds| - 1], base);
      AddBound(FromDigits(ds[..|ds| - 1], base), base, ds[|ds| - 1], Pow(base, |ds| - 1));
    }
  }

  lemma Regroup3(a: nat, b: nat, c: nat)
    ensures a * (b * c) == a * b * c
  {
  }

  /** Multiplying by a power of the base appends zeros. */
  lemma {:induction false} ToDigitsShift(m: nat, base: nat, len: nat, zeros: nat)
    requires base > 0
    ensures ToDigits(m * Pow(base, zeros), base, len + zeros) == ToDigits(m, base, len) + Zeros(zeros)
  {
    if zeros > 0 {
      ToDigitsShift(m, base, len, zeros - 1);
      var n := m * Pow(base, zeros - 1);
      Regroup3(m, Pow(base, zeros - 1), base);
      assert m * Pow(base, zeros) == Add(n, base, 0);
      DivMod(n, 0, base);
      assert Zeros(zeros) == Zeros(zeros - 1) + [0];
    }
  }

  lemma {:induction false} FromDigitsShift(ds: seq<nat>, base: nat, zeros: nat)
    ensures FromDigits(ds + Zeros(zeros), base) == FromDigits(ds, base) * Pow(base, zeros)
  {
    if zeros == 0 {
      assert ds + Zeros(0) == ds;
    } else {
      FromDigitsShift(ds, base, zeros - 1);
      assert (ds + Zeros(zeros))[..|ds| + zeros - 1] == ds + Zeros(zeros - 1);
      Regroup3(FromDigits(ds, base), Pow(base, zeros - 1), base);
    }
  }

  // ------------------------------------------------------------ alphabet

  type Bytes = seq<nat>

  ghost predicate IsBytes(bs: Bytes) {
    DigitsBelow(bs, 256)
  }

  predicate InAlphabet(c: char) {
    'A' <= c <= 'Z' || '2' <= c <= '7'
  }

  function AlphaChar(v: nat): (c: char)
    requires v < 32
    ensures InAlphabet(c)
  {
    if v < 26 then 'A' + v as char else '2' + (v - 26) as char
  }

  function AlphaValue(c: char): (v: nat)
    requires InAlphabet(c)
    ensures v < 32
  {
    if c >= 'A' then (c - 'A') as nat else (c - '2') as nat + 26
  }

  ghost predicate AllAlphabet(s: string) {
    forall i :: 0 <= i < |s| ==> InAlphabet(s[i])
  }

  function Spell(ds: seq<nat>): (s: string)
    requires forall i :: 0 <= i < |ds| ==> ds[i] < 32
    ensures |s| == |ds| && AllAlphabet(s)
  {
    seq(|ds|, i requires 0 <= i < |ds| => AlphaChar(ds[i]))
  }

  function Values(s: string): (ds: seq<nat>)
    requires forall i :: 0 <= i < |s| ==> InAlphabet(s[i])
    ensures |ds| == |s| && forall i :: 0 <= i < |ds| ==> ds[i] < 32
  {
    seq(|s|, i requires 0 <= i < |s| => AlphaValue(s[i]))
  }

  lemma ValuesOfSpell(ds: seq<nat>)
    requires forall i :: 0 <= i < |ds| ==> ds[i] < 32
    ensures Values(Spell(ds)) == ds
  {
  }

  // ------------------------------------------------------------ encoding

  const Pad := '='

  predicate IsPad(c: char) { c == Pad }

  function Pads(n: nat): (s: string)
    ensures |s| == n && forall i :: 0 <= i < n ==> s[i] == Pad
  {
    seq(n, _ => Pad)
  }

  /** How many characters carry the bits of a final group of one to four bytes. */
  function KeptChars(bytes: nat): (k: nat)
    requires 1 <= bytes <= 4
  {
    if bytes == 1 then 2 else if bytes == 2 then 4 else if bytes == 3 then 5 else 7
  }

  /** Eight characters for the bytes of one group, filled up with zero bytes. */
  function Quantum(bs: Bytes): (s: string)
    requires |bs| <= 5
    ensures |s| == 8 && AllAlphabet(s)
  {
    Spell(ToDigits(FromDigits(bs + Zeros(5 - |bs|), 256), 32, 8))
  }

  /** `base64.b32encode` */
  function Encode(bs: Bytes): string {
    if bs == [] then ""
    else if |bs| < 5 then Quantum(bs)[..KeptChars(|bs|)] + Pads(8 - KeptChars(|bs|))
    else Quantum(bs[..5]) + Encode(bs[5..])
  }

  /** `generate_secret`, for given random bytes: the encoding without its padding. */
  function Secret(bs: Bytes): string {
    RStrip(IsPad, Encode(bs))
  }

  // ------------------------------------------------------------ decoding

  /** One group of eight characters, or a shorter last one completed by `pads` pad characters. */
  function DecodeGroup(s: string, pads: nat): Option<Bytes> {
    if forall i :: 0 <= i < |s| ==> InAlphabet(s[i]) then
      Some(ToDigits(FromDigits(Values(s), 32) * Pow(32, pads), 256, 5))
    else None
  }

  /** All groups; of a padded last one only the whole bytes are kept. */
  function DecodeGroups(s: string, pads: nat): Option<Bytes> {
    if s == "" then Some([])
    else if |s| < 8 then
      var last := DecodeGroup(s, pads);
      var leftover := (43 - 5 * pads) / 8;
      if last.Some? && 0 <= leftover <= 5 then Some(last.value[..leftover]) else None
    else
      var first, rest := DecodeGroup(s[..8], 0), DecodeGroups(s[8..], pads);
      if first.Some? && rest.Some? then Some(first.value + rest.value) else None
  }

  /** `base64.b32decode(s, casefold=True)`; None stands for `binascii.Error`. */
  function B32Decode(s: string): Option<Bytes> {
    var body := RStrip(IsPad, Upper(s));
    var pads := |s| - |body|;
    if |s| % 8 != 0 || pads !in {0, 1, 3, 4, 6} then None else DecodeGroups(body, pads)
  }

  /** `secret.strip().replace(" ", "").upper()` */
  function Canonical(secret: string): string {
    Upper(Without(Strip(secret), ' '))
  }

  /** `_b32decode` */
  function Decode(secret: string): Option<Bytes> {
    var s := Canonical(secret);
    B32Decode(s + Pads(-|s| % 8))
  }

  // ------------------------------------------------------------ round trip

  /** The encoding up to its padding. */
  ghost function Body(bs: Bytes): (s: string)
    ensures AllAlphabet(s)
  {
    if bs == [] then ""
    else if |bs| < 5 then Quantum(bs)[..KeptChars(|bs|)]
    else Quantum(bs[..5]) + Body(bs[5..])
  }

  ghost function PadCount(bs: Bytes): nat {
    var tail := |bs| % 5;
    if tail == 0 then 0 else 8 - KeptChars(tail)
  }

  lemma SamePadding(bs: Bytes)
    requires |bs| >= 5
    ensures PadCount(bs) == PadCount(bs[5..])
  {
    assert |bs| % 5 == |bs[5..]| % 5;
  }

  lemma Assoc3(a: string, b: string, c: string)
    ensures a + (b + c) == (a + b) + c
  {
  }

  lemma {:induction false} EncodeIsPaddedBody(bs: Bytes)
    ensures Encode(bs) == Body(bs) + Pads(PadCount(bs))
  {
    if bs == [] {
      assert Pads(0) == "";
    } else if |bs| >= 5 {
      var tail := bs[5..];
      EncodeIsPaddedBody(tail);
      SamePadding(bs);
      Assoc3(Quantum(bs[..5]), Body(tail), Pads(PadCount(tail)));
    }
  }

  lemma {:induction false} BodyLength(bs: Bytes)
    ensures (|Body(bs)| + PadCount(bs)) % 8 == 0
  {
    if |bs| >= 5 {
      BodyLength(bs[5..]);
      SamePadding(bs);
    }
  }

  lemma {:induction false} StripPads(s: string, n: nat)
    requires AllAlphabet(s)
    ensures RStrip(IsPad, s + Pads(n)) == s
  {
    if n == 0 {
      assert s + Pads(0) == s;
    } else {
      assert (s + Pads(n))[..|s| + n - 1] == s + Pads(n - 1);
      StripPads(s, n - 1);
    }
  }

  lemma SecretIsBody(bs: Bytes)
    ensures Secret(bs) == Body(bs)
  {
    EncodeIsPaddedBody(bs);
    StripPads(Body(bs), PadCount(bs));
  }

  lemma Powers()
    ensures Pow(256, 0) == 1 && Pow(256, 1) == 0x100 && Pow(256, 2) == 0x1_0000
    ensures Pow(256, 3) == 0x100_0000 && Pow(256, 4) == 0x1_0000_0000 && Pow(256, 5) == 0x100_0000_0000
  {
    assert Pow(256, 0) == 1;
    assert Pow(256, 1) == Pow(256, 0) * 256;
    assert Pow(256, 2) == Pow(256, 1) * 256;
    assert Pow(256, 3) == Pow(256, 2) * 256;
    assert Pow(256, 4) == Pow(256, 3) * 256;
    assert Pow(256, 5) == Pow(256, 4) * 256;
  }

  lemma Powers32()
    ensures Pow(32, 0) == 1 && Pow(32, 1) == 0x20 && Pow(32, 2) == 0x400 && Pow(32, 3) == 0x8000
    ensures Pow(32, 4) == 0x10_0000 && Pow(32, 5) == 0x200_0000 && Pow(32, 6) == 0x4000_0000
    ensures Pow(32, 7) == 0x8_0000_0000 && Pow(32, 8) == 0x100_0000_0000
  {
    assert Pow(32, 0) == 1;
    assert Pow(32, 1) == Pow(32, 0) * 32;
    assert Pow(32, 2) == Pow(32, 1) * 32;
    assert Pow(32, 3) == Pow(32, 2) * 32;
    assert Pow(32, 4) == Pow(32, 3) * 32;
    assert Pow(32, 5) == Pow(32, 4) * 32;
    assert Pow(32, 6) == Pow(32, 5) * 32;
    assert Pow(32, 7) == Pow(32, 6) * 32;
    assert Pow(32, 8) == Pow(32, 7) * 32;
  }

  lemma FullGroupRoundTrip(bs: Bytes)
    requires |bs| == 5 && IsBytes(bs)
    ensures DecodeGroup(Quantum(bs), 0) == Some(bs)
  {
    var n := FromDigits(bs, 256);
    assert bs + Zeros(0) == bs;
    FromDigitsBound(bs, 256);
    Powers();
    Powers32();
    FromToDigits(n, 32, 8);
    SpelledGroup(ToDigits(n, 32, 8), 0);
    ToFromDigits(bs, 256);
  }

  /** The factor by which a short group's bits are shifted to fill its last character. */
  ghost function Slack(bytes: nat): nat
    requires 1 <= bytes <= 4
  {
    if bytes == 1 then 4 else if bytes == 2 then 16 else if bytes == 3 then 2 else 8
  }

  lemma SlackFits(bytes: nat)
    requires 1 <= bytes <= 4
    ensures Pow(256, 5 - bytes) == Slack(bytes) * Pow(32, 8 - KeptChars(bytes))
    ensures Pow(256, bytes) * Slack(bytes) == Pow(32, KeptChars(bytes))
    ensures (43 - 5 * (8 - KeptChars(bytes))) / 8 == bytes
  {
    Powers();
    Powers32();
  }

  lemma Below(x: nat, bound: nat, factor: nat)
    requires x < bound && factor > 0
    ensures x * factor < bound * factor
  {
    AtLeast(bound - x, factor);
    assert (bound - x) * factor == bound * factor - x * factor;
  }

  lemma SpelledGroup(ds: seq<nat>, pads: nat)
    requires DigitsBelow(ds, 32)
    ensures DecodeGroup(Spell(ds), pads) == Some(ToDigits(FromDigits(ds, 32) * Pow(32, pads), 256, 5))
  {
    ValuesOfSpell(ds);
  }

  lemma ShortGroupRoundTrip(bs: Bytes)
    requires 1 <= |bs| <= 4 && IsBytes(bs)
    ensures var k := KeptChars(|bs|);
            DecodeGroups(Quantum(bs)[..k], 8 - k) == Some(bs)
  {
    hide Pow, ToDigits, FromDigits, DecodeGroup, Values;
    var l, k := |bs|, KeptChars(|bs|);
    var x, slack := FromDigits(bs, 256), Slack(l);
    var m, n := x * slack, FromDigits(bs + Zeros(5 - l), 256);
    SlackFits(l);
    FromDigitsShift(bs, 256, 5 - l);
    Regroup3(x, slack, Pow(32, 8 - k));
    assert n == m * Pow(32, 8 - k);
    FromDigitsBound(bs, 256);
    Below(x, Pow(256, l), slack);
    ToDigitsShift(m, 32, k, 8 - k);
    var kept := ToDigits(m, 32, k);
    assert Quantum(bs)[..k] == Spell(kept) by {
      assert ToDigits(n, 32, 8) == kept + Zeros(8 - k);
    }
    FromToDigits(m, 32, k);
    ToDigitsShift(x, 256, l, 5 - l);
    ToFromDigits(bs, 256);
    SpelledGroup(kept, 8 - k);
    assert (bs + Zeros(5 - l))[..l] == bs;
  }

  lemma GroupFirst(group: string, rest: string, pads: nat)
    requires |group| == 8
    ensures DecodeGroups(group + rest, pads) ==
            var first, more := DecodeGroup(group, 0), DecodeGroups(rest, pads);
            if first.Some? && more.Some? then Some(first.value + more.value) else None
  {
    assert (group + rest)[..8] == group && (group + rest)[8..] == rest;
  }

  lemma {:induction false} BodyRoundTrip(bs: Bytes)
    requires IsBytes(bs)
    ensures DecodeGroups(Body(bs), PadCount(bs)) == Some(bs)
  {
    hide Quantum, DecodeGroup;
    if bs == [] {
    } else if |bs| < 5 {
      ShortGroupRoundTrip(bs);
    } else {
      var head, tail := bs[..5], bs[5..];
      BodyRoundTrip(tail);
      FullGroupRoundTrip(head);
      SamePadding(bs);
      GroupFirst(Quantum(head), Body(tail), PadCount(bs));
      assert bs == head + tail;
    }
  }

  lemma PaddingIsRestored(bs: Bytes)
    ensures -|Body(bs)| % 8 == PadCount(bs)
  {
    BodyLength(bs);
    Complement(|Body(bs)|, PadCount(bs));
  }

  lemma Complement(n: int, m: nat)
    requires m < 8 && (n + m) % 8 == 0
    ensures -n % 8 == m
  {
  }

  /** However a secret is spaced and cased, it decodes to the bytes it was made from. */
  lemma SecretRoundTrip(bs: Bytes, typed: string)
    requires IsBytes(bs)
    requires Upper(Without(typed, ' ')) == Secret(bs)
    ensures Decode(typed) == Some(bs)
  {
    hide Decode, B32Decode, Canonical, Secret, Upper, Without, Pads, Body;
    SecretIsBody(bs);
    CanonicalIgnoresSpaces(typed);
    PaddingIsRestored(bs);
    DecodePads(typed, Body(bs), PadCount(bs));
    PaddedBodyDecodes(bs);
  }

  lemma DecodePads(typed: string, s: string, pads: nat)
    requires Canonical(typed) == s && -|s| % 8 == pads
    ensures Decode(typed) == B32Decode(s + Pads(pads))
  {
  }

  lemma PaddedBodyDecodes(bs: Bytes)
    requires IsBytes(bs)
    ensures B32Decode(Body(bs) + Pads(PadCount(bs))) == Some(bs)
  {
    hide RStrip, Upper, Pads, Body, DecodeGroups;
    UpperIsUnchanged(Body(bs) + Pads(PadCount(bs)));
    StripPads(Body(bs), PadCount(bs));
    BodyLength(bs);
    BodyRoundTrip(bs);
  }

  lemma UpperIsUnchanged(s: string)
    requires forall i :: 0 <= i < |s| ==> InAlphabet(s[i]) || s[i] == Pad
    ensures Upper(s) == s
  {
  }

  /** In particular exactly as it was generated: dropping the padding loses nothing. */
  lemma UnpaddedSecretDecodes(bs: Bytes)
    requires IsBytes(bs)
    ensures Decode(Secret(bs)) == Some(bs)
  {
    SecretIsBody(bs);
    WithoutNothing(Secret(bs), ' ');
    UpperIsUnchanged(Secret(bs));
    SecretRoundTrip(bs, Secret(bs));
  }

  // ------------------------------------------------------------ spaces and case

  lemma {:induction false} CharacterSurvives(s: string, i: nat)
    requires i < |s| && s[i] != ' '
    ensures s[i] in Without(s, ' ')
  {
    if i > 0 {
      CharacterSurvives(s[1..], i - 1);
    }
  }

  lemma {:induction false} LStripOnlySpaces(s: string)
    requires forall i :: 0 <= i < |s| ==> s[i] == ' ' || !IsSpace(s[i])
    ensures Without(LStrip(IsSpace, s), ' ') == Without(s, ' ')
  {
    if s != "" && IsSpace(s[0]) {
      LStripOnlySpaces(s[1..]);
    }
  }

  lemma OneSpace()
    ensures Without(" ", ' ') == ""
  {
    assert " "[1..] == "";
  }

  lemma TrailingSpace(front: string)
    ensures Without(front + " ", ' ') == Without(front, ' ')
  {
    WithoutAppend(front, " ", ' ');
    OneSpace();
    assert Without(front, ' ') + "" == Without(front, ' ');
  }

  lemma {:induction false} RStripOnlySpaces(s: string)
    requires forall i :: 0 <= i < |s| ==> s[i] == ' ' || !IsSpace(s[i])
    ensures Without(RStrip(IsSpace, s), ' ') == Without(s, ' ')
  {
    hide Without, IsSpace;
    if s != "" && IsSpace(s[|s| - 1]) {
      var front := s[..|s| - 1];
      RStripOnlySpaces(front);
      TrailingSpace(front);
      assert s == front + " ";
    }
  }

  /** Trimming and space removal leave just the letters, upper-cased. */
  lemma CanonicalIgnoresSpaces(typed: string)
    requires AllAlphabet(Upper(Without(typed, ' ')))
    ensures Canonical(typed) == Upper(Without(typed, ' '))
  {
    var kept := Without(typed, ' ');
    forall i | 0 <= i < |typed| && typed[i] != ' '
      ensures !IsSpace(typed[i])
    {
      CharacterSurvives(typed, i);
      var j :| 0 <= j < |kept| && kept[j] == typed[i];
      assert InAlphabet(Upper(kept)[j]);
    }
    LStripOnlySpaces(typed);
    LStripSuffix(IsSpace, typed);
    RStripOnlySpaces(LStrip(IsSpace, typed));
  }

  lemma {:induction false} GroupsDecodeExactly(s: string, pads: nat)
    requires pads <= 6
    ensures DecodeGroups(s, pads).Some? <==> AllAlphabet(s)
    decreases |s|
  {
    hide FromDigits, ToDigits, Values;
    if |s| >= 8 {
      GroupsDecodeExactly(s[8..], pads);
      assert forall i :: 0 <= i < 8 ==> s[..8][i] == s[i];
      assert forall i :: 0 <= i < |s| - 8 ==> s[8..][i] == s[i + 8];
      assert forall i :: 8 <= i < |s| ==> s[i] == s[8..][i - 8];
    }
  }

  /** Which secrets decode: without spaces, in upper case and filled up with "=" to a multiple of
      eight, they are letters of the alphabet up to their final "=", of which there are none,
      one, three, four or six. */
  lemma DecodesExactly(secret: string)
    ensures var padded := Canonical(secret) + Pads(-|Canonical(secret)| % 8);
            var body := RStrip(IsPad, Upper(padded));
            Decode(secret).Some? <==> AllAlphabet(body) && |padded| - |body| in {0, 1, 3, 4, 6}
  {
    hide Canonical, Upper, RStrip, DecodeGroups;
    var s := Canonical(secret);
    var padded := s + Pads(-|s| % 8);
    FillsUp(|s|);
    RStripPrefix(IsPad, Upper(padded));
    var body := RStrip(IsPad, Upper(padded));
    if |padded| - |body| in {0, 1, 3, 4, 6} {
      GroupsDecodeExactly(body, |padded| - |body|);
    }
  }

  lemma FillsUp(n: int)
    ensures (n + -n % 8) % 8 == 0
  {
  }

  // ------------------------------------------------------------ test vectors

  /** The digits of a group are settled by its number. */
  lemma QuantumIs(bs: Bytes, ds: seq<nat>)
    requires |bs| == 5 && |ds| == 8 && DigitsBelow(ds, 32)
    requires FromDigits(bs, 256) == FromDigits(ds, 32)
    ensures Quantum(bs) == Spell(ds)
  {
    hide FromDigits, ToDigits, Spell;
    assert bs + Zeros(0) == bs;
    ToFromDigits(ds, 32);
  }

  lemma OneMoreDigit(ds: seq<nat>, d: nat, base: nat)
    ensures FromDigits(ds + [d], base) == Add(FromDigits(ds, base), base, d)
  {
    assert (ds + [d])[..|ds|] == ds;
  }

  lemma Number5(a: nat, b: nat, c: nat, d: nat, e: nat)
    ensures FromDigits([a, b, c, d, e], 256) == (((a * 256 + b) * 256 + c) * 256 + d) * 256 + e
  {
    OneMoreDigit([], a, 256);
    OneMoreDigit([a], b, 256);
    OneMoreDigit([a, b], c, 256);
    OneMoreDigit([a, b, c], d, 256);
    OneMoreDigit([a, b, c, d], e, 256);
    assert [] + [a] == [a] && [a] + [b] == [a, b] && [a, b] + [c] == [a, b, c];
    assert [a, b, c] + [d] == [a, b, c, d] && [a, b, c, d] + [e] == [a, b, c, d, e];
  }

  lemma Number8(a: nat, b: nat, c: nat, d: nat, e: nat, f: nat, g: nat, h: nat)
    ensures FromDigits([a, b, c, d, e, f, g, h], 32)
         == ((((((a * 32 + b) * 32 + c) * 32 + d) * 32 + e) * 32 + f) * 32 + g) * 32 + h
  {
    OneMoreDigit([], a, 32);
    OneMoreDigit([a], b, 32);
    OneMoreDigit([a, b], c, 32);
    OneMoreDigit([a, b, c], d, 32);
    OneMoreDigit([a, b, c, d], e, 32);
    OneMoreDigit([a, b, c, d, e], f, 32);
    OneMoreDigit([a, b, c, d, e, f], g, 32);
    OneMoreDigit([a, b, c, d, e, f, g], h, 32);
    assert [] + [a] == [a] && [a] + [b] == [a, b] && [a, b] + [c] == [a, b, c];
    assert [a, b, c] + [d] == [a, b, c, d] && [a, b, c, d] + [e] == [a, b, c, d, e];
    assert [a, b, c, d, e] + [f] == [a, b, c, d, e, f] && [a, b, c, d, e, f] + [g] == [a, b, c, d, e, f, g];
    assert [a, b, c, d, e, f, g] + [h] == [a, b, c, d, e, f, g, h];
  }

  /** A final group of `fooba`'s first letters, filled up with zero bytes. */
  lemma ShortVector(bs: Bytes, padded: Bytes, ds: seq<nat>, text: string)
    requires 0 < |bs| < 5 && |padded| == 5 && padded == bs + Zeros(5 - |bs|)
    requires |ds| == 8 && DigitsBelow(ds, 32) && FromDigits(padded, 256) == FromDigits(ds, 32)
    requires |text| == 8
    requires forall i :: 0 <= i < 8 ==> text[i] == if i < KeptChars(|bs|) then AlphaChar(ds[i]) else '='
    ensures Encode(bs) == text
  {
    hide FromDigits, ToDigits;
    ToFromDigits(ds, 32);
    assert Quantum(bs) == Spell(ds);
  }

  /** The test vectors in section 10 of RFC 4648: so the alphabet, the order of the bits and the
      padding are the standard's. */
  lemma TestVectors()
    ensures Encode([]) == ""
    ensures Encode([102]) == "MY======"
    ensures Encode([102, 111]) == "MZXQ===="
    ensures Encode([102, 111, 111]) == "MZXW6==="
    ensures Encode([102, 111, 111, 98]) == "MZXW6YQ="
    ensures Encode([102, 111, 111, 98, 97]) == "MZXW6YTB"
  {
    hide Encode;
    OneAndTwoBytes();
    ThreeAndFourBytes();
    WholeVectors();
  }

  lemma OneAndTwoBytes()
    ensures Encode([102]) == "MY======"
    ensures Encode([102, 111]) == "MZXQ===="
  {
    hide FromDigits, Encode;
    Number5(102, 0, 0, 0, 0);
    Number8(12, 24, 0, 0, 0, 0, 0, 0);
    ShortVector([102], [102, 0, 0, 0, 0], [12, 24, 0, 0, 0, 0, 0, 0], "MY======");
    Number5(102, 111, 0, 0, 0);
    Number8(12, 25, 23, 16, 0, 0, 0, 0);
    ShortVector([102, 111], [102, 111, 0, 0, 0], [12, 25, 23, 16, 0, 0, 0, 0], "MZXQ====");
  }

  lemma ThreeAndFourBytes()
    ensures Encode([102, 111, 111]) == "MZXW6==="
    ensures Encode([102, 111, 111, 98]) == "MZXW6YQ="
  {
    hide FromDigits, Encode;
    Number5(102, 111, 111, 0, 0);
    Number8(12, 25, 23, 22, 30, 0, 0, 0);
    ShortVector([102, 111, 111], [102, 111, 111, 0, 0], [12, 25, 23, 22, 30, 0, 0, 0], "MZXW6===");
    Number5(102, 111, 111, 98, 0);
    Number8(12, 25, 23, 22, 30, 24, 16, 0);
    ShortVector([102, 111, 111, 98], [102, 111, 111, 98, 0], [12, 25, 23, 22, 30, 24, 16, 0], "MZXW6YQ=");
  }

  lemma WholeVectors()
    ensures Encode([]) == ""
    ensures Encode([102, 111, 111, 98, 97]) == "MZXW6YTB"
  {
    hide FromDigits, Quantum;
    var bs, ds := [102, 111, 111, 98, 97], [12, 25, 23, 22, 30, 24, 19, 1];
    Number5(102, 111, 111, 98, 97);
    Number8(12, 25, 23, 22, 30, 24, 19, 1);
    QuantumIs(bs, ds);
    assert bs[..5] == bs && bs[5..] == [];
    assert Spell(ds) == "MZXW6YTB";
  }
}
