/** Fingerprints as hexadecimal text (tofu.rs `hex32`, `unhex32`). Text is one byte a character. */
module HexText {
  import opened Machine
  import opened Wrappers

  type Digest = b: Bytes | |b| == 32 witness seq(32, _ => 0)

  ghost predicate LowerHex(c: char) { '0' <= c <= '9' || 'a' <= c <= 'f' }

  /** `c` is the hexadecimal digit of `n`, in either case. */
  ghost predicate IsDigit(c: char, n: nat) {
    n < 16 && (c == "0123456789abcdef"[n] || c == "0123456789ABCDEF"[n])
  }

  /** Two characters that read as `b`: two digits, or a plus sign and the last digit of a small number. */
  ghost predicate IsPair(c: char, d: char, b: byte) {
    IsDigit(d, b % 16) && (IsDigit(c, b / 16) || (c == '+' && b / 16 == 0))
  }

  /** Pair by pair, the text reads as the bytes. */
  ghost predicate Reads(s: string, bs: Bytes) {
    |s| == 2 * |bs| && forall i :: 0 <= i < |bs| ==> IsPair(s[2 * i], s[2 * i + 1], bs[i])
  }

  /** A hexadecimal digit, in lower case. */
  function DigitChar(n: nat): char
    requires n < 16
  {
    if n < 10 then ('0' as int + n) as char else ('a' as int + (n - 10)) as char
  }

  function HexDigits(b: byte): string { [DigitChar(b / 16), DigitChar(b % 16)] }

  function HexOf(bs: Bytes): (s: string)
    ensures |s| == 2 * |bs|
  {
    if bs == [] then [] else HexDigits(bs[0]) + HexOf(bs[1..])
  }

  /** `hex32` */
  function Hex32(fp: Digest): string { HexOf(fp) }

  function DigitValue(c: char): (r: Option<nat>)
    ensures r.Some? ==> r.value < 16
    ensures r.Some? ==> (DigitChar(r.value) == c <==> LowerHex(c))
    ensures LowerHex(c) ==> r.Some?
  {
    if '0' <= c <= '9' then Some(c as int - '0' as int)
    else if 'a' <= c <= 'f' then Some(c as int - 'a' as int + 10)
    else if 'A' <= c <= 'F' then Some(c as int - 'A' as int + 10)
    else None
  }

  /** `u8::from_str_radix` of two characters: either case, and a leading plus sign is allowed. */
  function PairValue(c: char, d: char): (r: Option<byte>)
  {
    var lo := DigitValue(d);
    if lo.None? then None
    else if c == '+' then Some(lo.value)
    else
      var hi := DigitValue(c);
      if hi.None? then None else Some(16 * hi.value + lo.value)
  }

  function ParsedPairs(s: string): Option<Bytes>
    requires |s| % 2 == 0
  {
    if s == [] then Some([])
    else
      var first, rest := PairValue(s[0], s[1]), ParsedPairs(s[2..]);
      if first.Some? && rest.Some? then Some([first.value] + rest.value) else None
  }

  function Parsed(s: string): Option<Bytes> { if |s| != 64 then None else ParsedPairs(s) }

  lemma {:induction false} ParsedJoin(s: string, c: char, d: char)
    requires |s| % 2 == 0
    ensures ParsedPairs(s + [c, d]) == if ParsedPairs(s).Some? && PairValue(c, d).Some?
                                       then Some(ParsedPairs(s).value + [PairValue(c, d).value]) else None
  {
    if s == [] {
      var t := s + [c, d];
      assert t == [c, d] && t[2..] == [] && ParsedPairs(t[2..]) == ParsedPairs(s) == Some([]);
      if PairValue(c, d).Some? {
        var v := PairValue(c, d).value;
        assert [v] + ParsedPairs(s).value == ParsedPairs(s).value + [v];
      }
    } else {
      var t := s + [c, d];
      assert t[2..] == s[2..] + [c, d] && t[0] == s[0] && t[1] == s[1];
      ParsedJoin(s[2..], c, d);
      hide PairValue;
      if ParsedPairs(s).Some? && PairValue(c, d).Some? {
        var first, rest, last := PairValue(s[0], s[1]).value, ParsedPairs(s[2..]).value, PairValue(c, d).value;
        assert ParsedPairs(t) == Some([first] + (rest + [last]));
        assert [first] + (rest + [last]) == ([first] + rest) + [last];
      }
    }
  }

  lemma {:induction false} ParsedLength(s: string)
    requires |s| % 2 == 0
    ensures ParsedPairs(s).Some? ==> 2 * |ParsedPairs(s).value| == |s|
  {
    if s != [] { ParsedLength(s[2..]); }
  }

  /** A bad pair anywhere spoils the whole. */
  lemma {:induction false} BadPair(s: string, i: nat)
    requires |s| % 2 == 0 && 2 * i + 1 < |s| && PairValue(s[2 * i], s[2 * i + 1]).None?
    ensures ParsedPairs(s).None?
  {
    if i > 0 {
      assert s[2..][2 * (i - 1)] == s[2 * i] && s[2..][2 * (i - 1) + 1] == s[2 * i + 1];
      BadPair(s[2..], i - 1);
    }
  }

  lemma DigitExact(c: char, n: nat)
    ensures IsDigit(c, n) <==> DigitValue(c) == Some(n)
    ensures n < 16 ==> DigitChar(n) == "0123456789abcdef"[n]
  {
  }

  lemma PairExact(c: char, d: char, b: byte)
    ensures IsPair(c, d, b) <==> PairValue(c, d) == Some(b)
  {
    assert DigitValue('+') == None;
    hide DigitValue, IsDigit, DigitChar;
    DigitExact(d, b % 16);
    DigitExact(c, b / 16);
    var hi, lo, h, l := DigitValue(c), DigitValue(d), b / 16, b % 16;
    assert b == 16 * h + l;
    if hi.Some? && lo.Some? { assert 16 * hi.value + lo.value == 16 * h + l <==> hi.value == h && lo.value == l; }
  }

  /** Parsing finds the bytes that the text reads as; text that does not parse reads as none. */
  lemma {:induction false} ParsedReads(s: string)
    requires |s| % 2 == 0
    ensures forall bs :: Reads(s, bs) <==> ParsedPairs(s) == Some(bs)
  {
    hide PairValue, IsPair;
    if s != [] {
      var rest := s[2..];
      ParsedReads(rest);
      var first := PairValue(s[0], s[1]);
      forall bs ensures Reads(s, bs) <==> ParsedPairs(s) == Some(bs) {
        if bs != [] {
          ReadsApart(s, bs);
          PairExact(s[0], s[1], bs[0]);
          assert bs == [bs[0]] + bs[1..];
          assert Reads(rest, bs[1..]) <==> ParsedPairs(rest) == Some(bs[1..]);
        }
      }
    }
  }

  lemma ReadsApart(s: string, bs: Bytes)
    requires |s| >= 2 && bs != []
    ensures Reads(s, bs) <==> IsPair(s[0], s[1], bs[0]) && Reads(s[2..], bs[1..])
  {
    hide IsPair;
    var t, cs := s[2..], bs[1..];
    if |s| == 2 * |bs| {
      assert forall i :: 0 <= i < |cs| ==> t[2 * i] == s[2 * (i + 1)] && t[2 * i + 1] == s[2 * (i + 1) + 1];
      assert forall i :: 0 < i < |bs| ==> bs[i] == cs[i - 1];
    }
  }

  lemma ParsedExact(s: string, fp: Digest)
    ensures Reads(s, fp) <==> Parsed(s) == Some(fp)
  {
    if |s| == 64 { ParsedReads(s); }
  }

  /** `unhex32`: the 32 bytes that the text reads as, if there are any. */
  method Unhex32(s: string) returns (r: Option<Digest>)
    ensures r == Parsed(s)
    ensures forall fp: Digest :: Reads(s, fp) <==> r == Some(fp)
  {
    forall fp: Digest ensures Reads(s, fp) <==> Parsed(s) == Some(fp) { ParsedExact(s, fp); }
    hide Reads, PairValue;
    if |s| != 64 { return None; }
    var out: Bytes := [];
    for i := 0 to 32
      invariant |out| == i && ParsedPairs(s[..2 * i]) == Some(out)
    {
      var b := PairValue(s[2 * i], s[2 * i + 1]);
      if b.None? {
        BadPair(s, i);
        return None;
      }
      assert s[..2 * (i + 1)] == s[..2 * i] + [s[2 * i], s[2 * i + 1]];
      ParsedJoin(s[..2 * i], s[2 * i], s[2 * i + 1]);
      out := out + [b.value];
    }
    assert s[..64] == s;
    return Some(out);
  }

  lemma {:induction false} HexParsesBack(bs: Bytes)
    ensures ParsedPairs(HexOf(bs)) == Some(bs)
  {
    if bs != [] {
      var s := HexOf(bs);
      assert s[0] == DigitChar(bs[0] / 16) && s[1] == DigitChar(bs[0] % 16) && s[2..] == HexOf(bs[1..]);
      BytePrints(bs[0]);
      HexParsesBack(bs[1..]);
      hide *;
      assert [bs[0]] + bs[1..] == bs;
    }
  }

  lemma HexReads(bs: Bytes)
    ensures Reads(HexOf(bs), bs)
  {
    HexParsesBack(bs);
    ParsedReads(HexOf(bs));
  }

  lemma BytePrints(b: byte)
    ensures PairValue(DigitChar(b / 16), DigitChar(b % 16)) == Some(b)
  {
    assert b == 16 * (b / 16) + b % 16;
  }

  lemma PairPrints(c: char, d: char)
    requires PairValue(c, d).Some?
    ensures HexDigits(PairValue(c, d).value) == [c, d] <==> LowerHex(c) && LowerHex(d)
  {
    hide DigitValue;
    var lo := DigitValue(d).value;
    if c != '+' {
      var hi := DigitValue(c).value;
      DivUnique(16 * hi + lo, 16, hi, lo);
      PairOf(16 * hi + lo, hi, lo);
    } else {
      DivUnique(lo, 16, 0, lo);
      PairOf(lo, 0, lo);
    }
  }

  lemma PairOf(b: byte, hi: nat, lo: nat)
    requires b / 16 == hi && b % 16 == lo
    ensures HexDigits(b) == [DigitChar(hi), DigitChar(lo)]
  {
  }

  /** What was parsed prints back exactly when it was lower-case digits throughout; other spellings collapse. */
  lemma {:induction false} ParsedPrintsBack(s: string)
    requires |s| % 2 == 0 && ParsedPairs(s).Some?
    ensures HexOf(ParsedPairs(s).value) == s <==> forall i :: 0 <= i < |s| ==> LowerHex(s[i])
  {
    if s != [] {
      var rest := s[2..];
      ParsedPrintsBack(rest);
      PairPrints(s[0], s[1]);
      var bs := ParsedPairs(s).value;
      assert bs[0] == PairValue(s[0], s[1]).value && bs[1..] == ParsedPairs(rest).value;
      assert s == [s[0], s[1]] + rest;
      var t := HexOf(bs);
      assert t == HexDigits(bs[0]) + HexOf(bs[1..]) && t[..2] == HexDigits(bs[0]) && t[2..] == HexOf(bs[1..]);
      assert t == s <==> t[..2] == s[..2] && t[2..] == rest;
      assert s[..2] == [s[0], s[1]];
      assert (forall i :: 0 <= i < |s| ==> LowerHex(s[i]))
             <==> LowerHex(s[0]) && LowerHex(s[1]) && forall i :: 0 <= i < |rest| ==> LowerHex(rest[i]) by {
        if LowerHex(s[0]) && LowerHex(s[1]) && (forall i :: 0 <= i < |rest| ==> LowerHex(rest[i])) {
          forall i | 0 <= i < |s| ensures LowerHex(s[i]) { if i >= 2 { assert rest[i - 2] == s[i]; } }
        }
      }
    }
  }

  /** Fingerprints survive the trip through text, and text the trip through fingerprints if it is canonical. */
  lemma HexRoundTrips(fp: Digest, s: string)
    ensures Parsed(Hex32(fp)) == Some(fp)
    ensures Parsed(s) == Some(fp) ==> (Hex32(fp) == s <==> forall i :: 0 <= i < |s| ==> LowerHex(s[i]))
  {
    HexParsesBack(fp);
    if Parsed(s) == Some(fp) { ParsedPrintsBack(s); }
  }

  /** A plus sign in place of a leading zero is read as the same fingerprint. */
  lemma PlusIsRead(fp: Digest)
    requires fp[0] < 16
    ensures var s := Hex32(fp)[0 := '+']; Parsed(s) == Some(fp) && s != Hex32(fp)
  {
    var t := HexOf(fp);
    var s := t[0 := '+'];
    HexParsesBack(fp);
    HexParsesBack(fp[1..]);
    BytePrints(fp[0]);
    assert t[0] == DigitChar(0) && t[1] == DigitChar(fp[0] % 16) && t[2..] == HexOf(fp[1..]);
    assert s[0] == '+' && s[1] == t[1] && s[2..] == t[2..];
    assert PairValue('+', t[1]) == Some(fp[0]);
    assert [fp[0]] + fp[1..] == fp;
  }
}
