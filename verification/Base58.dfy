/** Base58 text for byte strings (src/base58.cpp). */
module Base58 {
  import opened Options
  import opened Digits

  // ----- The alphabet

  /** The character of a digit: runs of the ASCII order without 0, I, O and l. */
  function CharOf(d: nat): char
    requires d < 58
  {
    if d < 9 then '1' + d as char else if d < 17 then 'A' + (d - 9) as char else if d < 22 then 'J' + (d - 17) as char
    else if d < 33 then 'P' + (d - 22) as char else if d < 44 then 'a' + (d - 33) as char else 'm' + (d - 44) as char
  }

  /** The digit of a character, if it is in the alphabet. */
  function DigitOf(c: char): (d: Option<nat>)
    ensures d.Some? ==> d.value < 58 && CharOf(d.value) == c
  {
    if '1' <= c <= '9' then Some((c - '1') as nat) else if 'A' <= c <= 'H' then Some((c - 'A') as nat + 9)
    else if 'J' <= c <= 'N' then Some((c - 'J') as nat + 17) else if 'P' <= c <= 'Z' then Some((c - 'P') as nat + 22)
    else if 'a' <= c <= 'k' then Some((c - 'a') as nat + 33) else if 'm' <= c <= 'z' then Some((c - 'm') as nat + 44)
    else None
  }

  lemma DigitOfChar(d: nat)
    requires d < 58
    ensures DigitOf(CharOf(d)) == Some(d)
  {
  }

  function Chars(ds: seq<nat>): (s: string)
    requires AreDigits(58, ds)
    ensures |s| == |ds| && forall i :: 0 <= i < |s| ==> s[i] == CharOf(ds[i])
  {
    seq(|ds|, i requires 0 <= i < |ds| => CharOf(ds[i]))
  }

  predicate InAlphabet(s: string) {
    forall i :: 0 <= i < |s| ==> DigitOf(s[i]).Some?
  }

  function DigitsOf(s: string): (ds: seq<nat>)
    requires InAlphabet(s)
    ensures |ds| == |s| && AreDigits(58, ds) && forall i :: 0 <= i < |s| ==> DigitOf(s[i]) == Some(ds[i])
  {
    seq(|s|, i requires 0 <= i < |s| => DigitOf(s[i]).value)
  }

  lemma DigitsOfChars(ds: seq<nat>)
    requires AreDigits(58, ds)
    ensures InAlphabet(Chars(ds)) && DigitsOf(Chars(ds)) == ds
  {
    hide DigitOf, CharOf;
    forall i | 0 <= i < |ds| ensures DigitOf(Chars(ds)[i]) == Some(ds[i]) {
      DigitOfChar(ds[i]);
    }
  }

  lemma CharsOfDigits(s: string)
    requires InAlphabet(s)
    ensures Chars(DigitsOf(s)) == s
  {
    hide CharOf;
  }

  // ----- What the text means

  /** How many zeros a digit string starts with. */
  function Zeros(ds: seq<nat>): (z: nat)
    ensures z <= |ds| && (forall i :: 0 <= i < z ==> ds[i] == 0) && (z < |ds| ==> ds[z] != 0)
  {
    if ds == [] || ds[0] != 0 then 0 else 1 + Zeros(ds[1..])
  }

  /** The digits of base `b` with as many leading zeros as there were, and the same number behind them. */
  function Rebase(a: nat, b: nat, ds: seq<nat>): seq<nat>
    requires b >= 2
  {
    var z := Zeros(ds);
    seq(z, _ => 0) + Canonical(b, Num(a, ds[z..]))
  }

  /** Going to the other base and back loses nothing. */
  lemma RebaseInverse(a: nat, b: nat, ds: seq<nat>)
    requires a >= 2 && b >= 2 && AreDigits(a, ds)
    ensures AreDigits(b, Rebase(a, b, ds)) && Rebase(b, a, Rebase(a, b, ds)) == ds
  {
    var z := Zeros(ds);
    var n := Num(a, ds[z..]);
    var c := Canonical(b, n);
    CanonicalIs(b, n);
    var r := Rebase(a, b, ds);
    assert r == seq(z, _ => 0) + c;
    ZerosOf(z, c);
    assert r[z..] == c;
    CanonicalUnique(a, ds[z..]);
    assert seq(z, _ => 0) == ds[..z];
  }

  lemma {:induction false} ZerosOf(z: nat, c: seq<nat>)
    requires c != [] ==> c[0] != 0
    ensures Zeros(seq(z, _ => 0) + c) == z
  {
    var s := seq(z, _ => 0) + c;
    assert forall i :: 0 <= i < z ==> s[i] == 0;
    assert z < |s| ==> s[z] != 0;
  }

  function Encoded(v: seq<nat>): string
    requires AreDigits(256, v)
  {
    RebaseInverse(256, 58, v);
    Chars(Rebase(256, 58, v))
  }

  predicate IsSpace(c: char) {
    c == ' ' || '\t' <= c <= '\r'
  }

  /** The text without leading white space. */
  function DropSpaces(s: string): (t: string)
    ensures t != [] ==> !IsSpace(t[0])
  {
    if s != [] && IsSpace(s[0]) then DropSpaces(s[1..]) else s
  }

  /** The text up to white space. */
  function Word(s: string): (w: string)
    ensures w <= s && forall i :: 0 <= i < |w| ==> !IsSpace(w[i])
  {
    if s != [] && !IsSpace(s[0]) then [s[0]] + Word(s[1..]) else []
  }

  /** The bytes a text stands for: one word of the alphabet, white space around it allowed. */
  function Decoded(s: string): Option<seq<nat>> {
    var t := DropSpaces(s);
    var w := Word(t);
    if InAlphabet(w) && DropSpaces(t[|w|..]) == [] then Some(Rebase(58, 256, DigitsOf(w))) else None
  }

  lemma {:induction false} WordOf(s: string)
    requires forall i :: 0 <= i < |s| ==> !IsSpace(s[i])
    ensures DropSpaces(s) == s && Word(s) == s
  {
    if s != [] {
      WordOf(s[1..]);
    }
  }

  lemma NoSpaces(s: string)
    requires InAlphabet(s)
    ensures forall i :: 0 <= i < |s| ==> !IsSpace(s[i])
  {
  }

  /** A string of the alphabet decodes to its digits in base 256. */
  lemma DecodedWord(s: string)
    requires InAlphabet(s)
    ensures Decoded(s) == Some(Rebase(58, 256, DigitsOf(s)))
  {
    NoSpaces(s);
    hide DigitOf, IsSpace;
    WordOf(s);
    assert s[|s|..] == [];
  }

  /** Decoding inverts encoding on all byte strings. */
  lemma DecodeEncoded(v: seq<nat>)
    requires AreDigits(256, v)
    ensures Decoded(Encoded(v)) == Some(v)
  {
    RebaseInverse(256, 58, v);
    hide Rebase, DigitOf, CharOf, Decoded;
    var ds := Rebase(256, 58, v);
    DigitsOfChars(ds);
    DecodedWord(Chars(ds));
  }

  /** Encoding inverts decoding on all strings of the alphabet. */
  lemma EncodeDecoded(s: string)
    requires InAlphabet(s)
    ensures Decoded(s).Some? && AreDigits(256, Decoded(s).value) && Encoded(Decoded(s).value) == s
  {
    hide Rebase, DigitOf, CharOf, Decoded;
    DecodedWord(s);
    RebaseInverse(58, 256, DigitsOf(s));
    CharsOfDigits(s);
  }
}
