/**
 The text of an identifier, byte by byte. An identifier is a 128-bit number. Its canonical
 text is 32 lower-case hexadecimal digits in hyphenated groups; the parser the service calls
 also takes upper-case digits, a `urn:uuid:` prefix in any case, the digits without hyphens,
 and the hyphenated form between any two characters, meant for braces and never looked at.
 */
module IdText {
  import opened Seqs

  predicate IsHexDigit(c: char) {
    '0' <= c <= '9' || 'a' <= c <= 'f' || 'A' <= c <= 'F'
  }

  predicate AllHex(s: string) {
    forall c | c in s :: IsHexDigit(c)
  }

  function HexDigit(d: nat): (c: char)
    requires d < 16
    ensures IsHexDigit(c) && HexValue(c) == d
  {
    if d < 10 then ('0' as int + d) as char else ('a' as int + d - 10) as char
  }

  function HexValue(c: char): (d: nat)
    requires IsHexDigit(c)
    ensures d < 16
  {
    if c <= '9' then c as int - '0' as int
    else if c <= 'F' then c as int - 'A' as int + 10
    else c as int - 'a' as int + 10
  }

  function Pow16(k: nat): (r: nat)
    ensures k < r
  {
    if k == 0 then 1 else 16 * Pow16(k - 1)
  }

  type Uuid = n: nat | n < Pow16(32)

  function Hex(n: nat, k: nat): (s: string)
    requires n < Pow16(k)
    ensures |s| == k && AllHex(s)
  {
    if k == 0 then "" else Hex(n / 16, k - 1) + [HexDigit(n % 16)]
  }

  function HexNumber(s: string): (n: nat)
    requires AllHex(s)
    ensures n < Pow16(|s|)
  {
    if s == "" then 0 else 16 * HexNumber(s[..|s| - 1]) + HexValue(s[|s| - 1])
  }

  lemma {:induction false} NumberOfHex(n: nat, k: nat)
    requires n < Pow16(k)
    ensures HexNumber(Hex(n, k)) == n
  {
    if k > 0 {
      NumberOfHex(n / 16, k - 1);
      assert Hex(n, k)[..k - 1] == Hex(n / 16, k - 1);
    }
  }

  // ── Printing ──────────────────────────────────────────────

  function Hyphenate(h: string): (s: string)
    requires |h| == 32
    ensures |s| == 36
  {
    h[..8] + "-" + h[8..12] + "-" + h[12..16] + "-" + h[16..20] + "-" + h[20..]
  }

  function Canonical(id: Uuid): (s: string)
    ensures |s| == 36
  {
    Hyphenate(Hex(id, 32))
  }

  // ── Parsing ───────────────────────────────────────────────

  function Bare(h: string): Option<nat>
    requires |h| == 32
  {
    if AllHex(h) then Some(HexNumber(h)) else None
  }

  function Digits(s: string): (h: string)
    requires |s| == 36
    ensures |h| == 32
  {
    s[..8] + s[9..13] + s[14..18] + s[19..23] + s[24..]
  }

  function Hyphenated(s: string): Option<nat>
    requires |s| == 36
  {
    if s[8] == '-' && s[13] == '-' && s[18] == '-' && s[23] == '-' then Bare(Digits(s)) else None
  }

  function Lower(c: char): char {
    if 'A' <= c <= 'Z' then (c as int + 32) as char else c
  }

  const URN := "urn:uuid:"

  predicate IsUrn(s: string) {
    |s| == |URN| && forall i | 0 <= i < |s| :: Lower(s[i]) == URN[i]
  }

  function Parse(text: string): Option<nat> {
    if |text| == 36 then Hyphenated(text)
    else if |text| == 45 then (if IsUrn(text[..9]) then Hyphenated(text[9..]) else None)
    else if |text| == 38 then Hyphenated(text[1..37])
    else if |text| == 32 then Bare(text)
    else None
  }

  // ── What parses to what ───────────────────────────────────

  lemma DigitsOfHyphenate(h: string)
    requires |h| == 32
    ensures Digits(Hyphenate(h)) == h
    ensures var s := Hyphenate(h); s[8] == '-' && s[13] == '-' && s[18] == '-' && s[23] == '-'
  {
    var s := Hyphenate(h);
    assert s[..8] == h[..8];
    assert s[9..13] == h[8..12];
    assert s[14..18] == h[12..16];
    assert s[19..23] == h[16..20];
    assert s[24..] == h[20..];
    hide Hyphenate;
  }

  lemma HyphenatedBack(id: Uuid)
    ensures Hyphenated(Canonical(id)) == Some(id)
  {
    NumberOfHex(id, 32);
    DigitsOfHyphenate(Hex(id, 32));
    hide Hex, HexNumber, Hyphenate, Digits;
  }

  /**
   Every identifier parses from its canonical text, from its digits alone, after `urn:uuid:`, and
   between any two characters.
   */
  lemma ParseOfSpellings(id: Uuid, before: char, after: char)
    ensures Parse(Canonical(id)) == Some(id)
    ensures Parse(Hex(id, 32)) == Some(id)
    ensures Parse(URN + Canonical(id)) == Some(id)
    ensures Parse([before] + Canonical(id) + [after]) == Some(id)
  {
    HyphenatedBack(id);
    NumberOfHex(id, 32);
    hide Hex, HexNumber, AllHex, Canonical, Hyphenated;
    var c := Canonical(id);
    assert IsUrn(URN);
    assert (URN + c)[..9] == URN && (URN + c)[9..] == c;
    assert ([before] + c + [after])[1..37] == c;
  }

  lemma CanonicalInjective(a: Uuid, b: Uuid)
    requires Canonical(a) == Canonical(b)
    ensures a == b
  {
    HyphenatedBack(a);
    HyphenatedBack(b);
  }

  function Lowered(s: string): (t: string)
    ensures |t| == |s|
  {
    seq(|s|, i requires 0 <= i < |s| => Lower(s[i]))
  }

  lemma {:induction false} HexOfNumber(s: string)
    requires AllHex(s)
    ensures Hex(HexNumber(s), |s|) == Lowered(s)
  {
    if s != "" {
      var init, last := s[..|s| - 1], s[|s| - 1];
      HexOfNumber(init);
      assert last in s;
      assert HexNumber(s) / 16 == HexNumber(init) && HexNumber(s) % 16 == HexValue(last);
      assert HexDigit(HexValue(last)) == Lower(last);
      assert Lowered(s) == Lowered(init) + [Lower(last)];
    }
  }

  lemma LoweredHex(h: string)
    requires AllHex(Lowered(h))
    ensures AllHex(h)
  {
    forall i | 0 <= i < |h| ensures IsHexDigit(h[i]) {
      assert Lowered(h)[i] in Lowered(h);
    }
  }

  lemma BareReads(h: string, id: Uuid)
    requires |h| == 32
    ensures Bare(h) == Some(id) <==> Lowered(h) == Hex(id, 32)
  {
    NumberOfHex(id, 32);
    if AllHex(h) {
      HexOfNumber(h);
      NumberOfHex(HexNumber(h), 32);
    } else if Lowered(h) == Hex(id, 32) {
      LoweredHex(h);
    }
  }

  lemma HyphenatedReads(s: string, id: Uuid)
    requires |s| == 36
    ensures Hyphenated(s) == Some(id) <==> Lowered(s) == Canonical(id)
  {
    var h := Digits(s);
    BareReads(h, id);
    DigitsOfHyphenate(Hex(id, 32));
    hide Hex, Bare, AllHex;
    assert Digits(Lowered(s)) == Lowered(h);
    assert forall i | 0 <= i < 36 :: Lowered(s)[i] == '-' <==> s[i] == '-';
    if s[8] == '-' && s[13] == '-' && s[18] == '-' && s[23] == '-' {
      HyphenateOfDigits(Lowered(s));
    }
  }

  lemma HyphenateOfDigits(s: string)
    requires |s| == 36 && s[8] == '-' && s[13] == '-' && s[18] == '-' && s[23] == '-'
    ensures Hyphenate(Digits(s)) == s
  {
    var h := Digits(s);
    assert h[..8] == s[..8] && h[8..12] == s[9..13] && h[12..16] == s[14..18];
    assert h[16..20] == s[19..23] && h[20..] == s[24..];
    hide Digits;
    assert s == s[..8] + [s[8]] + s[9..13] + [s[13]] + s[14..18] + [s[18]] + s[19..23] + [s[23]] + s[24..];
  }

  /** Every spelling the parser takes, and there is no other. */
  lemma SpellingsOf(text: string, id: Uuid)
    ensures Parse(text) == Some(id) <==>
      || (|text| == 36 && Lowered(text) == Canonical(id))
      || (|text| == 45 && Lowered(text[..9]) == URN && Lowered(text[9..]) == Canonical(id))
      || (|text| == 38 && Lowered(text[1..37]) == Canonical(id))
      || (|text| == 32 && Lowered(text) == Hex(id, 32))
  {
    hide Hyphenated, Canonical, Bare, Hex;
    if |text| == 36 {
      HyphenatedReads(text, id);
    } else if |text| == 45 {
      HyphenatedReads(text[9..], id);
      assert IsUrn(text[..9]) <==> Lowered(text[..9]) == URN;
    } else if |text| == 38 {
      HyphenatedReads(text[1..37], id);
    } else if |text| == 32 {
      BareReads(text, id);
    }
  }

  // ── The characters of a spelling ──────────────────────────

  predicate HexOrHyphen(c: char) {
    IsHexDigit(c) || c == '-'
  }

  lemma HyphenatedChars(s: string)
    requires |s| == 36 && Hyphenated(s).Some?
    ensures forall c | c in s :: HexOrHyphen(c)
    ensures IsHexDigit(s[0])
    ensures IsHexDigit(s[35])
  {
    var h := Digits(s);
    forall i | 0 <= i < 36 ensures HexOrHyphen(s[i]) && (i == 0 || i == 35 ==> IsHexDigit(s[i])) {
      if i < 8 {
        assert s[i] == h[i];
      } else if 8 < i < 13 {
        assert s[i] == h[i - 1];
      } else if 13 < i < 18 {
        assert s[i] == h[i - 2];
      } else if 18 < i < 23 {
        assert s[i] == h[i - 3];
      } else if 23 < i {
        assert s[i] == h[i - 4];
      }
    }
  }

  lemma CanonicalChars(id: Uuid)
    ensures forall c | c in Canonical(id) :: HexOrHyphen(c)
  {
    HyphenatedBack(id);
    HyphenatedChars(Canonical(id));
  }
}
