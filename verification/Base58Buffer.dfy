/** The digit buffers of the Base58 conversions, updated in place (src/base58.cpp). */
module Base58Buffer {
  import opened Options
  import opened Powers
  import opened Digits
  import opened Base58

  /** The number in the `i` lowest digits, one digit more. */
  lemma LowDigit(base: nat, s: seq<nat>, i: nat)
    requires i < |s|
    ensures Num(base, s[|s| - i - 1..]) == s[|s| - i - 1] * Pow(base, i) + Num(base, s[|s| - i..])
  {
    var d := s[|s| - i - 1];
    assert s[|s| - i - 1..] == [d] + s[|s| - i..];
    NumSplit(base, [d], s[|s| - i..]);
    NumSnoc(base, [], d);
    assert [] + [d] == [d];
  }

  /** Above the lowest `i` digits there are only zeros. */
  ghost predicate ZeroAbove(s: seq<nat>, i: nat)
    requires i <= |s|
  {
    forall k :: 0 <= k < |s| - i ==> s[k] == 0
  }

  lemma LowIsAll(base: nat, s: seq<nat>, i: nat)
    requires i <= |s| && ZeroAbove(s, i)
    ensures Num(base, s) == Num(base, s[|s| - i..])
  {
    var k := |s| - i;
    NumZeros(base, s[..k]);
    NumSplit(base, s[..k], s[k..]);
    assert s == s[..k] + s[k..];
    assert 0 * Pow(base, |s[k..]|) == 0;
  }

  /** One digit of the conversion: what is written and what is carried. */
  lemma CarryStep(base: nat, mult: nat, x: nat, y: nat, carry: nat, d: nat, p: nat, ch: nat)
    requires base > 0 && x + carry * p == mult * y + ch
    ensures var c := carry + mult * d; ((c % base) * p + x) + (c / base) * (base * p) == mult * (d * p + y) + ch
  {
    var c := carry + mult * d;
    var q, r := c / base, c % base;
    assert c == q * base + r;
    Distribute(q, base, r, p);
    Distribute(mult, d, carry, p);
    assert mult * (d * p + y) == mult * (d * p) + mult * y;
  }

  /**
   * `b = b * mult + ch`, from the lowest digit up, as far as there are digits in use or a carry.  When
   * the result fits the buffer nothing is left to carry, and the digits in use are counted again.
   */
  method MulAdd(b: array<nat>, base: nat, mult: nat, ch: nat, length: nat) returns (newLength: nat)
    requires base >= 2 && AreDigits(base, b[..]) && length <= b.Length && ZeroAbove(b[..], length)
    requires Product(ch, mult, Num(base, b[..])) < Pow(base, b.Length)
    modifies b
    ensures AreDigits(base, b[..]) && newLength <= b.Length && ZeroAbove(b[..], newLength)
    ensures Num(base, b[..]) == Product(ch, mult, Num(base, old(b[..])))
  {
    hide Num, Pow, Carried, Product, LowPart, HighPart;
    ghost var was := b[..];
    var carry: nat, i: nat := ch, 0;
    Started(base, mult, was, ch);
    while (carry != 0 || i < length) && i < b.Length
      invariant 0 <= i <= b.Length && AreDigits(base, b[..]) && Carried(base, mult, was, b[..], i, carry, ch)
      decreases b.Length - i
    {
      ghost var before := b[..];
      var c: nat := Product(carry, mult, b[b.Length - 1 - i]);
      b[b.Length - 1 - i] := LowPart(c, base);
      StepDone(base, mult, was, before, b[..], i, carry, ch, c);
      carry := HighPart(c, base);
      i := i + 1;
    }
    Finished(base, mult, was, b[..], i, carry, ch, length);
    assert carry == 0;
    newLength := i;
  }

  function Product(carry: nat, mult: nat, d: nat): nat {
    carry + mult * d
  }

  function LowPart(c: nat, base: nat): nat
    requires base > 0
  {
    c % base
  }

  function HighPart(c: nat, base: nat): nat
    requires base > 0
  {
    c / base
  }

  /** The lowest `i` digits are converted, with a carry; the others are as they were. */
  ghost predicate Carried(base: nat, mult: nat, was: seq<nat>, now: seq<nat>, i: nat, carry: nat, ch: nat) {
    && |was| == |now| && i <= |was| && now[..|was| - i] == was[..|was| - i]
    && Num(base, now[|was| - i..]) + carry * Pow(base, i) == mult * Num(base, was[|was| - i..]) + ch
  }

  lemma Started(base: nat, mult: nat, was: seq<nat>, ch: nat)
    ensures Carried(base, mult, was, was, 0, ch, ch)
  {
    assert mult * 0 == 0;
  }

  lemma Start(base: nat, s: seq<nat>)
    ensures Num(base, s[|s|..]) == 0
  {
  }

  lemma StepDone(base: nat, mult: nat, was: seq<nat>, before: seq<nat>, now: seq<nat>, i: nat, carry: nat, ch: nat, c: nat)
    requires base >= 2 && i < |was| && AreDigits(base, before) && Carried(base, mult, was, before, i, carry, ch)
    requires c == Product(carry, mult, before[|was| - 1 - i]) && now == before[|was| - 1 - i := LowPart(c, base)]
    ensures AreDigits(base, now) && Carried(base, mult, was, now, i + 1, HighPart(c, base), ch)
  {
    hide Num;
    var n := |was|;
    assert was[n - 1 - i] == was[..n - i][n - 1 - i] == before[..n - i][n - 1 - i];
    assert now[..n - (i + 1)] == before[..n - i][..n - (i + 1)] == was[..n - i][..n - (i + 1)];
    assert now[n - i..] == before[n - i..];
    LowDigit(base, now, i);
    LowDigit(base, was, i);
    CarryStep(base, mult, Num(base, before[n - i..]), Num(base, was[n - i..]), carry, was[n - 1 - i], Pow(base, i), ch);
  }

  lemma Finished(base: nat, mult: nat, was: seq<nat>, now: seq<nat>, i: nat, carry: nat, ch: nat, length: nat)
    requires base >= 2 && length <= |was| && ZeroAbove(was, length) && AreDigits(base, now)
    requires Carried(base, mult, was, now, i, carry, ch) && (i == |was| || (carry == 0 && i >= length))
    requires Product(ch, mult, Num(base, was)) < Pow(base, |was|)
    ensures |was| == |now| && i <= |now| && carry == 0 && ZeroAbove(now, i) && Num(base, now) == Product(ch, mult, Num(base, was))
  {
    assert i <= |was| == |now|;
    hide Num, Pow, Carried, Product, ZeroAbove;
    if i == |was| {
      FinishedAll(base, mult, was, now, carry, ch);
    } else {
      FinishedEarly(base, mult, was, now, i, ch, length);
    }
  }

  lemma FinishedAll(base: nat, mult: nat, was: seq<nat>, now: seq<nat>, carry: nat, ch: nat)
    requires Carried(base, mult, was, now, |was|, carry, ch) && Product(ch, mult, Num(base, was)) < Pow(base, |was|)
    ensures |now| == |was| && carry == 0 && ZeroAbove(now, |was|) && Num(base, now) == Product(ch, mult, Num(base, was))
  {
    hide Num, Pow;
    assert now[0..] == now && was[0..] == was;
    NoCarry(Num(base, now), carry, Pow(base, |was|), Product(ch, mult, Num(base, was)));
  }

  lemma FinishedEarly(base: nat, mult: nat, was: seq<nat>, now: seq<nat>, i: nat, ch: nat, length: nat)
    requires length <= i <= |was| && ZeroAbove(was, length) && Carried(base, mult, was, now, i, 0, ch)
    ensures |now| == |was| && ZeroAbove(now, i) && Num(base, now) == Product(ch, mult, Num(base, was))
  {
    hide Num, Pow;
    var n := |was|;
    forall k | 0 <= k < n - i ensures was[k] == 0 && now[k] == 0 {
      assert now[k] == now[..n - i][k] == was[..n - i][k];
    }
    LowIsAll(base, was, i);
    LowIsAll(base, now, i);
  }

  lemma NoCarry(x: nat, carry: nat, m: nat, total: nat)
    requires x + carry * m == total < m
    ensures carry == 0
  {
    if carry > 0 {
      MulMono(1, carry, m);
      assert false;
    }
  }

  // ----- The sizes suffice

  /** `size * 138 / 100 + 1` digits of base 58 hold any `size` bytes. */
  lemma EncodeSize(n: nat)
    ensures Pow(256, n) <= Pow(58, n * 138 / 100 + 1)
  {
    assert Pow(256, 8) == 0x1_0000_0000_0000_0000;
    assert Pow(58, 4) == 11316496;
    PowSum(58, 4, 4);
    PowSum(58, 8, 3);
    assert Pow(58, 3) == 195112;
    hide Pow;
    DigitsSuffice(256, 58, 11, 8, n, n * 138 / 100 + 1);
  }

  /** `size * 733 / 1000 + 1` bytes hold any `size` digits of base 58. */
  lemma DecodeSize(n: nat)
    ensures Pow(58, n) <= Pow(256, n * 733 / 1000 + 1)
  {
    Fits58();
    hide Pow;
    DigitsSuffice(58, 256, 52, 71, n, n * 733 / 1000 + 1);
  }

  lemma Times(b: nat, i: nat, j: nat, x: nat, y: nat)
    requires Pow(b, i) == x && Pow(b, j) == y
    ensures Pow(b, i + j) == x * y
  {
    PowSum(b, i, j);
  }

  /** 58^71 is just below 256^52. */
  lemma Fits58()
    ensures Pow(58, 71) <= Pow(256, 52)
  {
    assert Pow(58, 4) == 11316496 && Pow(58, 3) == 195112;
    assert Pow(256, 4) == 0x1_0000_0000;
    hide Pow;
    Times(58, 4, 3, 11316496, 195112);
    Times(58, 4, 4, 11316496, 11316496);
    Times(58, 8, 8, 128_063081718016, 128_063081718016);
    Times(58, 16, 16, 16400_152899115243_850138976256, 16400_152899115243_850138976256);
    var x := 268965015_114358137726_910587140455_987105619365_599731777536;
    Times(58, 32, 32, x, x);
    Times(58, 64, 7, x * x, 2_207984167552);
    Times(256, 4, 4, 0x1_0000_0000, 0x1_0000_0000);
    Times(256, 8, 8, 0x1_0000_0000_0000_0000, 0x1_0000_0000_0000_0000);
    var y := 0x1_0000_0000_0000_0000_0000_0000_0000_0000;
    Times(256, 16, 16, y, y);
    Times(256, 32, 16, y * y, y);
    Times(256, 48, 4, y * y * y, 0x1_0000_0000);
  }

  // ----- The conversions

  /** The digits without their leading zeros, where the first ones are known to be zero. */
  method Strip(b: seq<nat>, base: nat, length: nat) returns (ds: seq<nat>)
    requires base >= 2 && AreDigits(base, b) && length <= |b| && ZeroAbove(b, length)
    ensures ds == Canonical(base, Num(base, b))
  {
    var it := |b| - length;
    while it < |b| && b[it] == 0
      invariant |b| - length <= it <= |b| && forall k :: 0 <= k < it ==> b[k] == 0
    {
      it := it + 1;
    }
    ds := b[it..];
    LowIsAll(base, b, |b| - it);
    CanonicalUnique(base, ds);
  }

  /** Reads digits of base `from` into a buffer of base `to`. */
  method Convert(src: seq<nat>, from: nat, to: nat, size: nat) returns (ds: seq<nat>)
    requires from >= 2 && to >= 2 && AreDigits(from, src) && Pow(from, |src|) <= Pow(to, size)
    ensures ds == Canonical(to, Num(from, src))
  {
    hide Num, Pow;
    var b := new nat[size](_ => 0);
    var length: nat, p := 0, 0;
    NumZeros(to, b[..]);
    Start(from, src);
    assert src[|src|..] == src[..0];
    while p < |src|
      invariant 0 <= p <= |src| && AreDigits(to, b[..]) && length <= b.Length == size && ZeroAbove(b[..], length)
      invariant Num(to, b[..]) == Num(from, src[..p])
    {
      assert src[..p + 1] == src[..p] + [src[p]];
      NumSnoc(from, src[..p], src[p]);
      NumBound(from, src[..p + 1]);
      PowMono(from, p + 1, |src|);
      length := MulAdd(b, to, from, src[p], length);
      p := p + 1;
    }
    assert src[..p] == src;
    ds := Strip(b[..], to, length);
  }

  method EncodeBase58(v: seq<nat>) returns (s: string)
    requires AreDigits(256, v)
    ensures s == Encoded(v)
  {
    hide Num, Pow, Canonical;
    var zeroes := 0;
    while zeroes < |v| && v[zeroes] == 0
      invariant zeroes <= |v| && forall k :: 0 <= k < zeroes ==> v[k] == 0
    {
      zeroes := zeroes + 1;
    }
    assert zeroes == Zeros(v);
    var rest := v[zeroes..];
    EncodeSize(|rest|);
    var ds := Convert(rest, 256, 58, |rest| * 138 / 100 + 1);
    RebaseInverse(256, 58, v);
    CanonicalIs(58, Num(256, rest));
    s := Chars(seq(zeroes, _ => 0) + ds);
  }

  // ----- Decoding

  method SkipSpaces(s: string, from: nat) returns (p: nat)
    requires from <= |s|
    ensures from <= p <= |s| && s[p..] == DropSpaces(s[from..])
  {
    p := from;
    while p < |s| && IsSpace(s[p])
      invariant from <= p <= |s| && DropSpaces(s[p..]) == DropSpaces(s[from..])
    {
      assert s[p..][1..] == s[p + 1..];
      p := p + 1;
    }
  }

  lemma WordStep(t: string, p: nat)
    requires p < |t| && !IsSpace(t[p]) && Word(t) == t[..p] + Word(t[p..])
    ensures Word(t) == t[..p + 1] + Word(t[p + 1..])
  {
    hide IsSpace;
    assert t[p..][0] == t[p] && t[p..][1..] == t[p + 1..];
    assert Word(t[p..]) == [t[p]] + Word(t[p + 1..]);
    assert t[..p] + ([t[p]] + Word(t[p + 1..])) == t[..p + 1] + Word(t[p + 1..]);
  }

  /** Counts the leading ones of a word. */
  method CountOnes(t: string) returns (z: nat)
    ensures z <= |t| && (forall i :: 0 <= i < z ==> t[i] == '1') && (z < |t| ==> t[z] != '1')
    ensures Word(t) == t[..z] + Word(t[z..])
  {
    z := 0;
    assert t[0..] == t;
    while z < |t| && t[z] == '1'
      invariant z <= |t| && (forall i :: 0 <= i < z ==> t[i] == '1') && Word(t) == t[..z] + Word(t[z..])
    {
      WordStep(t, z);
      z := z + 1;
    }
  }

  /** The digits of a word behind its leading ones, converted to bytes as they are read. */
  method ReadDigits(t: string, z: nat) returns (r: Option<seq<nat>>, p: nat)
    requires z <= |t| && Word(t) == t[..z] + Word(t[z..])
    ensures z <= p <= |t| && (r.Some? ==> Word(t) == t[..p] && InAlphabet(t[z..p]) && r.value == Canonical(256, Num(58, DigitsOf(t[z..p]))))
    ensures r.None? ==> !InAlphabet(Word(t))
  {
    hide Num, Pow, Canonical, DigitOf, IsSpace, Word;
    var size := (|t| - z) * 733 / 1000 + 1;
    DecodeSize(|t| - z);
    var b := new nat[size](_ => 0);
    var length: nat := 0;
    p := z;
    NumZeros(256, b[..]);
    assert t[z..z] == [];
    Start(58, DigitsOf(t[z..z]));
    while p < |t| && !IsSpace(t[p])
      invariant z <= p <= |t| && Word(t) == t[..p] + Word(t[p..]) && InAlphabet(t[z..p])
      invariant AreDigits(256, b[..]) && length <= b.Length == size && ZeroAbove(b[..], length)
      invariant Num(256, b[..]) == Num(58, DigitsOf(t[z..p]))
    {
      WordStep(t, p);
      var d := DigitOf(t[p]);
      if d.None? {
        assert Word(t)[p] == t[p];
        return None, p;
      }
      NextDigit(t, z, p, d.value);
      NumBound(58, DigitsOf(t[z..p + 1]));
      PowMono(58, p + 1 - z, |t| - z);
      length := MulAdd(b, 256, 58, d.value, length);
      p := p + 1;
    }
    WordEnds(t[p..]);
    assert t[..p] + [] == t[..p];
    var ds := Strip(b[..], 256, length);
    r := Some(ds);
  }

  lemma WordEnds(t: string)
    requires t == [] || IsSpace(t[0])
    ensures Word(t) == []
  {
  }

  lemma NextDigit(t: string, z: nat, p: nat, d: nat)
    requires z <= p < |t| && InAlphabet(t[z..p]) && DigitOf(t[p]) == Some(d)
    ensures InAlphabet(t[z..p + 1]) && DigitsOf(t[z..p + 1]) == DigitsOf(t[z..p]) + [d]
    ensures Num(58, DigitsOf(t[z..p + 1])) == 58 * Num(58, DigitsOf(t[z..p])) + d
  {
    hide Num, DigitOf;
    assert t[z..p + 1] == t[z..p] + [t[p]];
    NumSnoc(58, DigitsOf(t[z..p]), d);
  }

  method DecodeBase58(s: string) returns (r: Option<seq<nat>>)
    ensures r == Decoded(s)
  {
    hide Num, Pow, Canonical, DigitOf, IsSpace, Word, DropSpaces;
    var start := SkipSpaces(s, 0);
    assert s[0..] == s;
    var t := s[start..];
    var zeroes := CountOnes(t);
    var ds, p := ReadDigits(t, zeroes);
    if ds.None? {
      return None;
    }
    var end := SkipSpaces(t, p);
    if end != |t| {
      return None;
    }
    WholeWord(t, zeroes, p);
    r := Some(seq(zeroes, _ => 0) + ds.value);
  }

  /** Leading ones are leading zero digits. */
  lemma WholeWord(t: string, z: nat, p: nat)
    requires z <= p <= |t| && (forall i :: 0 <= i < z ==> t[i] == '1') && (z < |t| ==> t[z] != '1') && InAlphabet(t[z..p])
    ensures InAlphabet(t[..p]) && Zeros(DigitsOf(t[..p])) == z && DigitsOf(t[..p])[z..] == DigitsOf(t[z..p])
  {
    assert forall i :: z <= i < p ==> t[i] == t[z..p][i - z];
    forall i | 0 <= i < p ensures DigitOf(t[..p][i]).Some? {
      if i >= z {
        assert t[..p][i] == t[z..p][i - z];
      }
    }
    var ds := DigitsOf(t[..p]);
    assert forall i :: 0 <= i < z ==> ds[i] == 0;
    assert z < p ==> ds[z] != 0;
    assert ds[z..] == DigitsOf(t[z..p]);
  }

  // ----- With a checksum

  function EncodedCheck(hash4: seq<nat> -> seq<nat>, v: seq<nat>): string
    requires AreDigits(256, v) && AreDigits(256, hash4(v))
  {
    Encoded(v + hash4(v))
  }

  function DecodedCheck(hash4: seq<nat> -> seq<nat>, s: string): Option<seq<nat>> {
    match Decoded(s)
    case None => None
    case Some(v) =>
      if |v| < 4 || hash4(v[..|v| - 4]) != v[|v| - 4..] then None else Some(v[..|v| - 4])
  }

  /** Checked decoding accepts exactly the texts of a payload followed by its checksum. */
  lemma CheckedIff(hash4: seq<nat> -> seq<nat>, s: string, v: seq<nat>)
    requires |hash4(v)| == 4
    ensures DecodedCheck(hash4, s) == Some(v) <==> Decoded(s) == Some(v + hash4(v))
  {
    hide Decoded;
    var w := v + hash4(v);
    assert w[..|w| - 4] == v && w[|w| - 4..] == hash4(v);
    match Decoded(s)
    case None =>
    case Some(u) =>
      if |u| >= 4 {
        assert u == u[..|u| - 4] + u[|u| - 4..];
      }
  }

  /** Checked decoding inverts checked encoding. */
  lemma CheckRoundTrip(hash4: seq<nat> -> seq<nat>, v: seq<nat>)
    requires AreDigits(256, v) && AreDigits(256, hash4(v)) && |hash4(v)| == 4
    ensures DecodedCheck(hash4, EncodedCheck(hash4, v)) == Some(v)
  {
    hide Decoded, Encoded;
    DecodeEncoded(v + hash4(v));
    CheckedIff(hash4, EncodedCheck(hash4, v), v);
  }
}
