/**
 Base64 as sections 4 and 5 of RFC 4648 define it, in the three dialects the service
 uses: padded, unpadded, and unpadded with the URL-safe alphabet. Decoding is as lenient
 as the library behind the source: line breaks are skipped wherever they stand, and the
 unused low bits of the last character may be anything.
 */
module Base64 {
  import opened Seqs

  type byte = b: int | 0 <= b < 256
  type sextet = i: int | 0 <= i < 64

  datatype Dialect = Dialect(url: bool, padded: bool)

  const STD := Dialect(false, true)
  const RAW_STD := Dialect(false, false)
  const RAW_URL := Dialect(true, false)

  function Symbol(d: Dialect, i: sextet): (c: char)
    ensures Index(d, c) == Some(i)
    ensures c != '=' && c != '\r' && c != '\n' && c != '$' && c != ':'
  {
    if i < 26 then ('A' as int + i) as char
    else if i < 52 then ('a' as int + i - 26) as char
    else if i < 62 then ('0' as int + i - 52) as char
    else if i == 62 then (if d.url then '-' else '+')
    else (if d.url then '_' else '/')
  }

  function Index(d: Dialect, c: char): Option<sextet> {
    if 'A' <= c <= 'Z' then Some(c as int - 'A' as int)
    else if 'a' <= c <= 'z' then Some(c as int - 'a' as int + 26)
    else if '0' <= c <= '9' then Some(c as int - '0' as int + 52)
    else if c == (if d.url then '-' else '+') then Some(62)
    else if c == (if d.url then '_' else '/') then Some(63)
    else None
  }

  /**
   The alphabets of tables 1 and 2 of RFC 4648: letters, small letters and digits, each run in
   order, and the last two symbols by dialect.
   */
  lemma Alphabets(i: sextet)
    ensures forall d: Dialect ::
      && Symbol(d, 0) == 'A' && Symbol(d, 25) == 'Z' && Symbol(d, 26) == 'a' && Symbol(d, 51) == 'z'
      && Symbol(d, 52) == '0' && Symbol(d, 61) == '9'
      && (i < 61 && i != 25 && i != 51 ==> Symbol(d, i + 1) as int == Symbol(d, i) as int + 1)
    ensures Symbol(STD, 62) == Symbol(RAW_STD, 62) == '+' && Symbol(RAW_URL, 62) == '-'
    ensures Symbol(STD, 63) == Symbol(RAW_STD, 63) == '/' && Symbol(RAW_URL, 63) == '_'
    ensures STD.padded && !RAW_STD.padded && !RAW_URL.padded
  {
  }

  /** Two of the test vectors of section 10 of RFC 4648, and one that tells the dialects apart. */
  lemma Vectors()
    ensures Encode(STD, [102]) == "Zg==" && Encode(STD, [102, 111]) == "Zm8=" && Encode(RAW_STD, [102]) == "Zg"
    ensures Encode(STD, [102, 111, 111]) == Encode(RAW_URL, [102, 111, 111]) == "Zm9v"
    ensures Encode(STD, [251, 255, 191]) == "+/+/" && Encode(RAW_URL, [251, 255, 191]) == "-_-_"
  {
    assert Padding(STD, 2) == "==" && Padding(STD, 1) == "=";
    assert [102, 111, 111][3..] == [] && [251, 255, 191][3..] == [];
  }

  function Padding(d: Dialect, n: nat): string {
    if !d.padded then "" else seq(n, _ => '=')
  }

  function Encode(d: Dialect, b: seq<byte>): (s: string)
    ensures forall c | c in s :: c == '=' || Index(d, c).Some?
    ensures forall c | c in s :: c != '\r' && c != '\n' && c != '$'
    ensures !d.padded ==> '=' !in s
  {
    if |b| == 0 then ""
    else if |b| == 1 then
      [Symbol(d, b[0] / 4), Symbol(d, b[0] % 4 * 16)] + Padding(d, 2)
    else if |b| == 2 then
      [Symbol(d, b[0] / 4), Symbol(d, b[0] % 4 * 16 + b[1] / 16), Symbol(d, b[1] % 16 * 4)] + Padding(d, 1)
    else
      [Symbol(d, b[0] / 4), Symbol(d, b[0] % 4 * 16 + b[1] / 16),
       Symbol(d, b[1] % 16 * 4 + b[2] / 64), Symbol(d, b[2] % 64)] + Encode(d, b[3..])
  }

  predicate IsLineBreak(c: char) {
    c == '\r' || c == '\n'
  }

  function Decode(d: Dialect, s: string): Option<seq<byte>> {
    DecodeQuanta(d, Filter(c => !IsLineBreak(c), s))
  }

  function First(i: sextet, j: sextet): byte { i * 4 + j / 16 }
  function Second(j: sextet, k: sextet): byte { j % 16 * 16 + k / 4 }
  function Third(k: sextet, l: sextet): byte { k % 4 * 64 + l }

  /** Decodes text without line breaks, four characters at a time. */
  function DecodeQuanta(d: Dialect, s: string): Option<seq<byte>> {
    if s == "" then Some([])
    else if |s| == 1 then None
    else
      var i, j := Index(d, s[0]), Index(d, s[1]);
      if i.None? || j.None? then None
      else if s[2..] == Padding(d, 2) then Some([First(i.value, j.value)])
      else if |s| == 2 then None
      else
        var k := Index(d, s[2]);
        if k.None? then None
        else if s[3..] == Padding(d, 1) then Some([First(i.value, j.value), Second(j.value, k.value)])
        else if |s| == 3 then None
        else
          var l := Index(d, s[3]);
          if l.None? then None
          else
            var rest := DecodeQuanta(d, s[4..]);
            if rest.None? then None
            else Some([First(i.value, j.value), Second(j.value, k.value), Third(k.value, l.value)] + rest.value)
  }

  /** Three bytes cut into four sextets and put together again. */
  lemma Regroup(a: byte, b: byte, c: byte)
    ensures First(a / 4, a % 4 * 16 + b / 16) == a
    ensures Second(a % 4 * 16 + b / 16, b % 16 * 4 + c / 64) == b
    ensures Third(b % 16 * 4 + c / 64, c % 64) == c
  {
  }

  lemma RegroupShort(a: byte, b: byte)
    ensures First(a / 4, a % 4 * 16) == a
    ensures First(a / 4, a % 4 * 16 + b / 16) == a && Second(a % 4 * 16 + b / 16, b % 16 * 4) == b
  {
  }

  lemma ShortQuanta(d: Dialect, b: seq<byte>)
    requires 0 < |b| < 3
    ensures DecodeQuanta(d, Encode(d, b)) == Some(b)
  {
    var s := Encode(d, b);
    RegroupShort(b[0], b[|b| - 1]);
    hide First, Second, Third;
    if |b| == 1 {
      assert s[2..] == Padding(d, 2);
      assert b == [b[0]];
    } else {
      assert s[3..] == Padding(d, 1);
      NotPadding(d, s);
      assert b == [b[0], b[1]];
    }
  }

  lemma {:induction false} QuantaRoundTrip(d: Dialect, b: seq<byte>)
    ensures DecodeQuanta(d, Encode(d, b)) == Some(b)
    decreases |b|, 1
  {
    if |b| > 2 {
      LongQuanta(d, b);
    } else if b != [] {
      ShortQuanta(d, b);
    }
  }

  lemma NotPadding(d: Dialect, s: string)
    requires |s| > 2 && s[2] != '='
    ensures s[2..] != Padding(d, 2)
    ensures |s| > 3 && s[3] != '=' ==> s[3..] != Padding(d, 1)
  {
    assert s[2..][0] == s[2];
    assert |s| > 3 ==> s[3..][0] == s[3];
  }

  lemma {:induction false} LongQuanta(d: Dialect, b: seq<byte>)
    requires |b| > 2
    ensures DecodeQuanta(d, Encode(d, b)) == Some(b)
    decreases |b|, 0
  {
    var s, tail := Encode(d, b), Encode(d, b[3..]);
    Regroup(b[0], b[1], b[2]);
    hide First, Second, Third;
    NotPadding(d, s);
    assert s[4..] == tail;
    QuantaRoundTrip(d, b[3..]);
    assert b == [b[0], b[1], b[2]] + b[3..];
  }

  /** Decoding undoes encoding, in every dialect. */
  lemma RoundTrip(d: Dialect, b: seq<byte>)
    ensures Decode(d, Encode(d, b)) == Some(b)
  {
    FilterAll(c => !IsLineBreak(c), Encode(d, b));
    QuantaRoundTrip(d, b);
  }

  // ── What decodes, exactly ─────────────────────────────────

  /** The text is the encoding of `b`, up to the unused low bits of its last symbol. */
  predicate Denotes(d: Dialect, s: string, b: seq<byte>)
    decreases |b|
  {
    if |b| >= 3 then |s| >= 4 && s[..4] == Encode(d, b[..3]) && Denotes(d, s[4..], b[3..])
    else if b == [] then s == ""
    else
      var e := Encode(d, b);
      && |s| == |e| && s[..|b|] == e[..|b|] && s[|b| + 1..] == e[|b| + 1..]
      && Index(d, s[|b|]).Some?
      && Kept(|b|, Index(d, s[|b|]).value) == Kept(|b|, Index(d, e[|b|]).value)
  }

  /** The bits of a last symbol that count: two after one byte, four after two. */
  function Kept(n: nat, i: sextet): nat {
    if n == 1 then i / 16 else i / 4
  }

  lemma SymbolOfIndex(d: Dialect, c: char)
    requires Index(d, c).Some?
    ensures Symbol(d, Index(d, c).value) == c
  {
  }

  lemma OneByte(d: Dialect, s: string, b: byte)
    ensures Denotes(d, s, [b]) <==>
      |s| >= 2 && s[2..] == Padding(d, 2) && s[0] == Symbol(d, b / 4)
      && Index(d, s[1]).Some? && Index(d, s[1]).value / 16 == b % 4
  {
    var e := Encode(d, [b]);
    assert e[2..] == Padding(d, 2) && e[..1] == [Symbol(d, b / 4)];
    if |s| >= 2 {
      assert s[..1] == [s[0]];
    }
  }

  lemma TwoBytes(d: Dialect, s: string, a: byte, b: byte)
    ensures Denotes(d, s, [a, b]) <==>
      |s| >= 3 && s[3..] == Padding(d, 1) && s[0] == Symbol(d, a / 4) && s[1] == Symbol(d, a % 4 * 16 + b / 16)
      && Index(d, s[2]).Some? && Index(d, s[2]).value / 4 == b % 16
  {
    var e := Encode(d, [a, b]);
    assert e[3..] == Padding(d, 1) && e[..2] == [Symbol(d, a / 4), Symbol(d, a % 4 * 16 + b / 16)];
    if |s| >= 3 {
      assert s[..2] == [s[0], s[1]];
    }
  }

  lemma FourSymbols(d: Dialect, s: string, a: byte, b: byte, c: byte)
    requires |s| >= 4
    ensures s[..4] == Encode(d, [a, b, c]) <==>
      s[0] == Symbol(d, a / 4) && s[1] == Symbol(d, a % 4 * 16 + b / 16)
      && s[2] == Symbol(d, b % 16 * 4 + c / 64) && s[3] == Symbol(d, c % 64)
  {
    assert [a, b, c][3..] == [];
    assert s[..4] == [s[0], s[1], s[2], s[3]];
  }

  lemma ShortDenotes(d: Dialect, s: string, b: seq<byte>)
    requires Denotes(d, s, b) && 0 < |b| < 3
    ensures DecodeQuanta(d, s) == Some(b)
  {
    hide Denotes, Encode;
    if |b| == 2 {
      assert b == [b[0], b[1]];
      TwoBytes(d, s, b[0], b[1]);
      NotPadding(d, s);
    } else {
      assert b == [b[0]];
      OneByte(d, s, b[0]);
    }
  }

  lemma FullQuantum(d: Dialect, s: string, i: sextet, j: sextet, k: sextet, l: sextet)
    requires |s| >= 4 && Index(d, s[0]) == Some(i) && Index(d, s[1]) == Some(j)
    requires Index(d, s[2]) == Some(k) && Index(d, s[3]) == Some(l) && s[2] != '=' && s[3] != '='
    requires DecodeQuanta(d, s[4..]).Some?
    ensures DecodeQuanta(d, s) == Some([First(i, j), Second(j, k), Third(k, l)] + DecodeQuanta(d, s[4..]).value)
  {
    hide First, Second, Third, Encode, Symbol, Index;
    NotPadding(d, s);
  }

  lemma QuantumDecodes(d: Dialect, s: string, a: byte, b: byte, c: byte)
    requires |s| >= 4 && s[..4] == Encode(d, [a, b, c]) && DecodeQuanta(d, s[4..]).Some?
    ensures DecodeQuanta(d, s) == Some([a, b, c] + DecodeQuanta(d, s[4..]).value)
  {
    hide First, Second, Third, Encode, Symbol, Index, DecodeQuanta;
    FourSymbols(d, s, a, b, c);
    Regroup(a, b, c);
    SymbolsAreNotPadding(d, b % 16 * 4 + c / 64);
    SymbolsAreNotPadding(d, c % 64);
    FullQuantum(d, s, a / 4, a % 4 * 16 + b / 16, b % 16 * 4 + c / 64, c % 64);
  }

  lemma SymbolsAreNotPadding(d: Dialect, i: sextet)
    ensures Symbol(d, i) != '='
  {
  }

  lemma {:induction false} DenotesDecodes(d: Dialect, s: string, b: seq<byte>)
    requires Denotes(d, s, b)
    ensures DecodeQuanta(d, s) == Some(b)
    decreases |b|
  {
    hide DecodeQuanta, Encode;
    if |b| >= 3 {
      assert b[..3] == [b[0], b[1], b[2]] && b == [b[0], b[1], b[2]] + b[3..];
      DenotesDecodes(d, s[4..], b[3..]);
      QuantumDecodes(d, s, b[0], b[1], b[2]);
    } else if b != [] {
      ShortDenotes(d, s, b);
    } else {
      NothingDecodes(d);
    }
  }

  lemma NothingDecodes(d: Dialect)
    ensures DecodeQuanta(d, "") == Some([])
  {
  }

  lemma Rejoin(i: sextet, j: sextet, k: sextet, l: sextet)
    ensures var a, b, c := First(i, j), Second(j, k), Third(k, l);
      a / 4 == i && a % 4 == j / 16 && a % 4 * 16 + b / 16 == j && b % 16 == k / 4 && b % 16 * 4 + c / 64 == k
      && c % 64 == l
  {
  }

  lemma {:induction false} DecodedDenotes(d: Dialect, s: string)
    requires DecodeQuanta(d, s).Some?
    ensures Denotes(d, s, DecodeQuanta(d, s).value)
    decreases |s|
  {
    hide Symbol, Index, First, Second, Third, Encode, Denotes;
    if s == "" {
      DenotesNothing(d);
    } else {
      var i, j := Index(d, s[0]).value, Index(d, s[1]).value;
      SymbolOfIndex(d, s[0]);
      SymbolOfIndex(d, s[1]);
      if s[2..] == Padding(d, 2) {
        Rejoin(i, j, 0, 0);
        OneByte(d, s, First(i, j));
      } else {
        var k := Index(d, s[2]).value;
        SymbolOfIndex(d, s[2]);
        if s[3..] == Padding(d, 1) {
          Rejoin(i, j, k, 0);
          TwoBytes(d, s, First(i, j), Second(j, k));
        } else {
          var l := Index(d, s[3]).value;
          SymbolOfIndex(d, s[3]);
          Rejoin(i, j, k, l);
          FourSymbols(d, s, First(i, j), Second(j, k), Third(k, l));
          DecodedDenotes(d, s[4..]);
          DenotesLonger(d, s, First(i, j), Second(j, k), Third(k, l), DecodeQuanta(d, s[4..]).value);
        }
      }
    }
  }

  lemma DenotesNothing(d: Dialect)
    ensures Denotes(d, "", [])
  {
  }

  lemma DenotesLonger(d: Dialect, s: string, x: byte, y: byte, z: byte, rest: seq<byte>)
    requires |s| >= 4 && s[..4] == Encode(d, [x, y, z]) && Denotes(d, s[4..], rest)
    ensures Denotes(d, s, [x, y, z] + rest)
  {
    hide Encode;
    var b := [x, y, z] + rest;
    assert b[..3] == [x, y, z] && b[3..] == rest;
  }

  /**
   A text decodes to `b` exactly if, but for line breaks and the unused bits of its last symbol, it
   is the encoding of `b`.
   */
  lemma DecodeMeans(d: Dialect, s: string, b: seq<byte>)
    ensures Decode(d, s) == Some(b) <==> Denotes(d, Filter(c => c != '\r' && c != '\n', s), b)
  {
    hide Denotes, DecodeQuanta;
    var t := Filter(c => !IsLineBreak(c), s);
    FilterCongruent(c => !IsLineBreak(c), c => c != '\r' && c != '\n', s);
    if Denotes(d, t, b) {
      DenotesDecodes(d, t, b);
    }
    if DecodeQuanta(d, t).Some? {
      DecodedDenotes(d, t);
    }
  }

  lemma EncodeInjective(d: Dialect, a: seq<byte>, b: seq<byte>)
    requires Encode(d, a) == Encode(d, b)
    ensures a == b
  {
    RoundTrip(d, a);
    RoundTrip(d, b);
  }
}
