/**
 The Argon2id password hash in its PHC text form: `$argon2id$v=19$m=..,t=..,p=..$salt$key`.
 The key derivation itself is a parameter; `None` stands for its panic on parameters it
 does not accept.
 */
module Phc {
  import opened Seqs
  import opened Decimal
  import Base64

  type bytes = seq<Base64.byte>

  const VERSION := 19
  const MEMORY := 19456
  const TIME := 2
  const THREADS := 1
  const KEY_LENGTH := 32

  datatype Argon2 = Argon2(idKey: (bytes, bytes, nat, nat, nat, nat) -> Option<bytes>) {
    /** Whenever at least one pass, one lane and one byte are asked for, a key of that length comes out. */
    ghost predicate Sound() {
      forall plain, salt, time: nat, memory: nat, threads: nat, length: nat
        | time > 0 && threads > 0 && length > 0 ::
        var key := idKey(plain, salt, time, memory, threads, length);
        key.Some? && |key.value| == length
    }
  }

  datatype Verdict = Accept | Reject | Panic

  // ── Printing ──────────────────────────────────────────────

  /** The fields of the text form; it starts with the separator, so the first one is empty. */
  function Fields(memory: nat, time: nat, threads: nat, salt: bytes, key: bytes): seq<string> {
    ["", "argon2id", "v=" + Print(VERSION), Parameters(memory, time, threads),
     Base64.Encode(Base64.RAW_STD, salt), Base64.Encode(Base64.RAW_STD, key)]
  }

  function Join(fields: seq<string>): string
    requires fields != []
  {
    if |fields| == 1 then fields[0] else fields[0] + "$" + Join(fields[1..])
  }

  function Render(memory: nat, time: nat, threads: nat, salt: bytes, key: bytes): string {
    Join(Fields(memory, time, threads, salt, key))
  }

  function Parameters(memory: nat, time: nat, threads: nat): string {
    "m=" + (Print(memory) + (",t=" + (Print(time) + (",p=" + Print(threads)))))
  }

  function Hash(argon: Argon2, plain: bytes, salt: bytes): Option<string> {
    var key := argon.idKey(plain, salt, TIME, MEMORY, THREADS, KEY_LENGTH);
    if key.None? then None else Some(Render(MEMORY, TIME, THREADS, salt, key.value))
  }

  lemma DefaultsPrinted()
    ensures Print(VERSION) == "19" && Print(MEMORY) == "19456" && Print(TIME) == "2" && Print(THREADS) == "1"
  {
    assert Print(1) == "1" && Print(19) == "19" && Print(194) == "194";
    assert Print(1945) == "1945" && Print(19456) == "19456";
  }

  // ── Parsing ───────────────────────────────────────────────

  function Split(s: string): (parts: seq<string>)
    ensures parts != []
  {
    if s == "" then [""]
    else
      var rest := Split(s[1..]);
      if s[0] == '$' then [""] + rest else [[s[0]] + rest[0]] + rest[1..]
  }

  predicate IsBlank(c: char) {
    var u := c as int;
    || (0x09 <= u <= 0x0d && c != '\n') || u == 0x20 || u == 0x85 || u == 0xa0 || u == 0x1680
    || 0x2000 <= u <= 0x200a || 0x2028 <= u <= 0x2029 || u == 0x202f || u == 0x205f || u == 0x3000
  }

  function SkipBlanks(s: string): string {
    if s != "" && IsBlank(s[0]) then SkipBlanks(s[1..]) else s
  }

  /** Matches literal text of a scan format, then one `%d` into an unsigned number below `bound`. */
  function ScanUint(s: string, literal: string, bound: nat): Option<(nat, string)> {
    if !(literal <= s) then None
    else
      var number := Scan(SkipBlanks(s[|literal|..]));
      if number.Some? && number.value.0 < bound then number else None
  }

  /** A `%d` into a signed number: the same, after an optional sign. */
  function ScanInt(s: string, literal: string): Option<int> {
    if !(literal <= s) then None
    else
      var t := SkipBlanks(s[|literal|..]);
      var signed := t != "" && (t[0] == '+' || t[0] == '-');
      var number := Scan(if signed then t[1..] else t);
      if number.None? then None
      else
        var v: int := if signed && t[0] == '-' then 0 - number.value.0 else number.value.0;
        if -0x8000_0000_0000_0000 <= v < 0x8000_0000_0000_0000 then Some(v) else None
  }

  function ScanParameters(s: string): Option<(nat, nat, nat)> {
    var memory := ScanUint(s, "m=", 0x1_0000_0000);
    if memory.None? then None
    else
      var time := ScanUint(memory.value.1, ",t=", 0x1_0000_0000);
      if time.None? then None
      else
        var threads := ScanUint(time.value.1, ",p=", 0x100);
        if threads.None? then None
        else Some((memory.value.0, time.value.0, threads.value.0))
  }

  function Verify(argon: Argon2, encoded: string, plain: bytes): Verdict {
    VerifyFields(argon, Split(encoded), plain)
  }

  function VerifyFields(argon: Argon2, fields: seq<string>, plain: bytes): Verdict {
    if |fields| != 6 || fields[1] != "argon2id" then Reject
    else if ScanInt(fields[2], "v=") != Some(VERSION) then Reject
    else
      var parameters := ScanParameters(fields[3]);
      var salt, want := Base64.Decode(Base64.RAW_STD, fields[4]), Base64.Decode(Base64.RAW_STD, fields[5]);
      if parameters.None? || salt.None? || want.None? then Reject
      else
        var (memory, time, threads) := parameters.value;
        var got := argon.idKey(plain, salt.value, time, memory, threads, |want.value|);
        if got.None? then Panic
        else if got.value == want.value then Accept
        else Reject
  }

  // ── What the parser takes, exactly ────────────────────────

  predicate Blanks(s: string) {
    forall c | c in s :: IsBlank(c)
  }

  /** The blanks a scan skips: those of the source's library, without the line feed. */
  lemma BlanksAre(c: char)
    ensures IsBlank(c) <==> c in {'\t', '\r', ' ', '\U{0B}', '\U{0C}', '\U{85}', '\U{A0}', '\U{1680}',
      '\U{2000}', '\U{2001}', '\U{2002}', '\U{2003}', '\U{2004}', '\U{2005}', '\U{2006}', '\U{2007}',
      '\U{2008}', '\U{2009}', '\U{200A}', '\U{2028}', '\U{2029}', '\U{202F}', '\U{205F}', '\U{3000}'}
  {
  }

  lemma {:induction false} SkipsBlanks(s: string) returns (k: nat)
    ensures k <= |s| && Blanks(s[..k]) && SkipBlanks(s) == s[k..] && (k < |s| ==> !IsBlank(s[k]))
  {
    if s != "" && IsBlank(s[0]) {
      k := SkipsBlanks(s[1..]);
      assert s[..k + 1] == [s[0]] + s[1..][..k] && s[1..][k..] == s[k + 1..];
      k := k + 1;
    } else {
      k := 0;
    }
  }

  lemma {:induction false} SkipsAll(blanks: string, rest: string)
    requires Blanks(blanks) && (rest == "" || !IsBlank(rest[0]))
    ensures SkipBlanks(blanks + rest) == rest
  {
    if blanks == "" {
      assert blanks + rest == rest;
    } else {
      assert (blanks + rest)[1..] == blanks[1..] + rest && blanks[0] in blanks;
      SkipsAll(blanks[1..], rest);
    }
  }

  /** A run of digits that does not go on in `rest`. */
  predicate Number(digits: string, rest: string) {
    digits != "" && (forall c | c in digits :: IsDigit(c)) && (rest == "" || !IsDigit(rest[0]))
  }

  predicate Field(s: string, literal: string, blanks: string, digits: string, rest: string) {
    s == literal + (blanks + (digits + rest)) && Blanks(blanks) && Number(digits, rest)
  }

  lemma ScanOfNumber(digits: string, rest: string)
    requires Number(digits, rest)
    ensures Scan(digits + rest) == Some((Value(digits), rest))
  {
    hide Value;
    RunOfDigits(digits, rest);
    assert (digits + rest)[..|digits|] == digits && (digits + rest)[|digits|..] == rest;
  }

  lemma SkipsToNumber(blanks: string, digits: string, rest: string)
    requires Blanks(blanks) && Number(digits, rest)
    ensures SkipBlanks(blanks + (digits + rest)) == digits + rest
  {
    assert (digits + rest)[0] == digits[0] && digits[0] in digits;
    SkipsAll(blanks, digits + rest);
  }

  lemma ScanUintReads(s: string, literal: string, bound: nat, blanks: string, digits: string, rest: string)
    requires Field(s, literal, blanks, digits, rest)
    ensures ScanUint(s, literal, bound) == if Value(digits) < bound then Some((Value(digits), rest)) else None
  {
    hide Scan, SkipBlanks, Value, Number, Blanks;
    assert s[|literal|..] == blanks + (digits + rest);
    SkipsToNumber(blanks, digits, rest);
    ScanOfNumber(digits, rest);
  }

  lemma ScanUintTakes(s: string, literal: string, bound: nat) returns (blanks: string, digits: string)
    requires ScanUint(s, literal, bound).Some?
    ensures Field(s, literal, blanks, digits, ScanUint(s, literal, bound).value.1)
  {
    hide SkipBlanks, Value;
    var t := s[|literal|..];
    var k := SkipsBlanks(t);
    var m := DigitRun(t[k..]);
    blanks, digits := t[..k], t[k..][..m];
    assert t == t[..k] + t[k..] && t[k..] == digits + t[k..][m..];
  }

  /** An unsigned field is its literal, blanks if any, and digits of a number in range; what follows is left over. */
  lemma ScanUintMeans(s: string, literal: string, bound: nat, n: nat, rest: string)
    ensures ScanUint(s, literal, bound) == Some((n, rest)) <==>
      exists blanks, digits :: Field(s, literal, blanks, digits, rest) && Value(digits) == n && n < bound
  {
    hide ScanUint, Value, Blanks;
    if ScanUint(s, literal, bound) == Some((n, rest)) {
      var blanks, digits := ScanUintTakes(s, literal, bound);
      ScanUintReads(s, literal, bound, blanks, digits, rest);
    }
    forall blanks, digits | Field(s, literal, blanks, digits, rest)
      ensures ScanUint(s, literal, bound) == if Value(digits) < bound then Some((Value(digits), rest)) else None
    {
      ScanUintReads(s, literal, bound, blanks, digits, rest);
    }
  }

  /** What a signed field reads: its literal, blanks if any, a sign if any, digits, and anything after. */
  lemma ScanIntReads(literal: string, blanks: string, sign: string, digits: string, rest: string)
    requires Blanks(blanks) && sign in {"", "+", "-"} && Number(digits, rest)
    ensures var v: int := if sign == "-" then 0 - Value(digits) else Value(digits);
      ScanInt(literal + (blanks + (sign + (digits + rest))), literal)
      == if -0x8000_0000_0000_0000 <= v < 0x8000_0000_0000_0000 then Some(v) else None
  {
    hide Scan, SkipBlanks, Value;
    var s, t := literal + (blanks + (sign + (digits + rest))), sign + (digits + rest);
    assert s[|literal|..] == blanks + t;
    assert (digits + rest)[0] == digits[0] && digits[0] in digits;
    assert sign == "" ==> t == digits + rest;
    assert sign != "" ==> t[0] == sign[0] && t[1..] == digits + rest;
    SkipsAll(blanks, t);
    ScanOfNumber(digits, rest);
  }

  /** The key stored in the last fields is the one derived from the password under the stored parameters and salt. */
  predicate Derives(argon: Argon2, parameters: Option<(nat, nat, nat)>, salt: Option<bytes>, key: Option<bytes>,
                    plain: bytes) {
    && parameters.Some? && salt.Some? && key.Some?
    && var (memory, time, threads) := parameters.value;
       argon.idKey(plain, salt.value, time, memory, threads, |key.value|) == key
  }

  /** A stored hash verifies exactly if its fields are of the known form and the key is the one derived under them. */
  lemma VerifyMeans(argon: Argon2, fields: seq<string>, plain: bytes)
    requires fields != [] && forall f | f in fields :: '$' !in f
    ensures Verify(argon, Join(fields), plain) == Accept <==>
      && |fields| == 6 && fields[1] == "argon2id" && ScanInt(fields[2], "v=") == Some(19)
      && Derives(argon, ScanParameters(fields[3]), Base64.Decode(Base64.RAW_STD, fields[4]),
                 Base64.Decode(Base64.RAW_STD, fields[5]), plain)
  {
    hide ScanInt, ScanParameters, Base64.Decode, Split, Join;
    SplitOfJoin(fields);
  }

  // ── The parser reads back what the printer wrote ──────────

  lemma {:induction false} SplitPiece(piece: string, rest: string)
    requires '$' !in piece
    ensures Split(piece + "$" + rest) == [piece] + Split(rest)
  {
    var s := piece + "$" + rest;
    if piece == "" {
      assert s[0] == '$' && s[1..] == rest;
    } else {
      SplitPiece(piece[1..], rest);
      assert s[0] == piece[0] && s[1..] == piece[1..] + "$" + rest;
      assert piece == [piece[0]] + piece[1..];
    }
  }

  lemma {:induction false} SplitLast(piece: string)
    requires '$' !in piece
    ensures Split(piece) == [piece]
  {
    if piece != "" {
      SplitLast(piece[1..]);
      assert piece[0] in piece;
      assert piece == [piece[0]] + piece[1..];
    }
  }

  lemma {:induction false} SplitOfJoin(fields: seq<string>)
    requires fields != []
    requires forall f | f in fields :: '$' !in f
    ensures Split(Join(fields)) == fields
  {
    if |fields| == 1 {
      SplitLast(fields[0]);
    } else {
      SplitOfJoin(fields[1..]);
      SplitPiece(fields[0], Join(fields[1..]));
    }
  }

  lemma {:induction false} JoinOfSplit(s: string)
    ensures Join(Split(s)) == s && forall f | f in Split(s) :: '$' !in f
  {
    if s != "" {
      JoinOfSplit(s[1..]);
      var rest := Split(s[1..]);
      if s[0] == '$' {
        assert ([""] + rest)[1..] == rest;
      } else {
        assert ([[s[0]] + rest[0]] + rest[1..])[1..] == rest[1..];
        forall f | f in Split(s) ensures '$' !in f {
          assert rest[0] in rest;
        }
      }
    }
  }

  lemma SplitOfRender(memory: nat, time: nat, threads: nat, salt: bytes, key: bytes)
    ensures Split(Render(memory, time, threads, salt, key)) == Fields(memory, time, threads, salt, key)
  {
    var fields := Fields(memory, time, threads, salt, key);
    forall f | f in fields ensures '$' !in f {
      assert f == fields[0] || f == fields[1] || f == fields[2] || f == fields[3] || f == fields[4] || f == fields[5];
    }
    SplitOfJoin(fields);
  }

  lemma ScanUintOfPrint(literal: string, n: nat, rest: string, bound: nat)
    requires n < bound
    requires rest == "" || !IsDigit(rest[0])
    ensures ScanUint(literal + (Print(n) + rest), literal, bound) == Some((n, rest))
  {
    ScanOfPrint(n, rest);
    var s := literal + (Print(n) + rest);
    assert s[|literal|..] == Print(n) + rest;
    assert (Print(n) + rest)[0] == Print(n)[0] && Print(n)[0] in Print(n);
  }

  lemma ScanOfParameters(memory: nat, time: nat, threads: nat)
    requires memory < 0x1_0000_0000 && time < 0x1_0000_0000 && threads < 0x100
    ensures ScanParameters(Parameters(memory, time, threads)) == Some((memory, time, threads))
  {
    var r2 := ",p=" + (Print(threads) + "");
    var r1 := ",t=" + (Print(time) + r2);
    assert Print(threads) + "" == Print(threads);
    ScanUintOfPrint("m=", memory, r1, 0x1_0000_0000);
    ScanUintOfPrint(",t=", time, r2, 0x1_0000_0000);
    ScanUintOfPrint(",p=", threads, "", 0x100);
  }

  lemma ScanOfVersion(version: nat)
    ensures ScanInt("v=" + Print(version), "v=") == if version < 0x8000_0000_0000_0000 then Some(version) else None
  {
    ScanOfPrint(version, "");
    var p := Print(version);
    assert p + "" == p && p[0] in p;
    hide Print, Scan, Value, IsBlank, SkipBlanks;
    assert ("v=" + p)[2..] == p;
    SignedDigits(p, version);
  }

  lemma SignedDigits(p: string, version: nat)
    requires p != "" && IsDigit(p[0]) && Scan(p) == Some((version, ""))
    ensures ScanInt("v=" + p, "v=") == if version < 0x8000_0000_0000_0000 then Some(version) else None
  {
    hide Scan;
    assert ("v=" + p)[2..] == p;
    assert SkipBlanks(p) == p;
  }

  /**
   The parameters travel with the hash: whatever 32-bit memory and time and 8-bit
   parallelism a stored hash was printed with, verification derives the key under exactly
   those, and accepts exactly when it is the stored key.
   */
  lemma VerifyOfRender(argon: Argon2, memory: nat, time: nat, threads: nat, salt: bytes, key: bytes, plain: bytes)
    requires memory < 0x1_0000_0000 && time < 0x1_0000_0000 && threads < 0x100
    ensures Verify(argon, Render(memory, time, threads, salt, key), plain)
         == match argon.idKey(plain, salt, time, memory, threads, |key|)
            case None => Panic
            case Some(got) => if got == key then Accept else Reject
  {
    hide Print, Base64.Encode, Base64.Decode, Split, Join, Render, Parameters, ScanInt, ScanParameters;
    SplitOfRender(memory, time, threads, salt, key);
    ScanOfParameters(memory, time, threads);
    ScanOfVersion(VERSION);
    Base64.RoundTrip(Base64.RAW_STD, salt);
    Base64.RoundTrip(Base64.RAW_STD, key);
  }

  /** A password verifies against a stored hash exactly when both passwords derive the same key. */
  lemma VerifyOfHash(argon: Argon2, p: bytes, q: bytes, salt: bytes)
    requires argon.Sound()
    ensures Hash(argon, p, salt).Some?
    ensures Verify(argon, Hash(argon, p, salt).value, q) != Panic
    ensures Verify(argon, Hash(argon, p, salt).value, q) == Accept <==>
      argon.idKey(q, salt, TIME, MEMORY, THREADS, KEY_LENGTH) == argon.idKey(p, salt, TIME, MEMORY, THREADS, KEY_LENGTH)
  {
    var key := argon.idKey(p, salt, TIME, MEMORY, THREADS, KEY_LENGTH);
    VerifyOfRender(argon, MEMORY, TIME, THREADS, salt, key.value, q);
    assert argon.idKey(q, salt, TIME, MEMORY, THREADS, KEY_LENGTH).Some?;
  }

  lemma DefaultParameters()
    ensures Parameters(MEMORY, TIME, THREADS) == "m=19456,t=2,p=1" && "v=" + Print(VERSION) == "v=19"
  {
    DefaultsPrinted();
    assert ",p=" + "1" == ",p=1";
    assert "2" + ",p=1" == "2,p=1";
    assert ",t=" + "2,p=1" == ",t=2,p=1";
    assert "19456" + ",t=2,p=1" == "19456,t=2,p=1";
    assert "m=" + "19456,t=2,p=1" == "m=19456,t=2,p=1";
    assert "v=" + "19" == "v=19";
  }

  /** The fields of a newly stored hash. */
  lemma StoredForm(argon: Argon2, plain: bytes, salt: bytes)
    requires argon.Sound()
    ensures var key := argon.idKey(plain, salt, 2, 19456, 1, 32);
      && key.Some? && |key.value| == 32 && Hash(argon, plain, salt).Some?
      && Split(Hash(argon, plain, salt).value)
         == ["", "argon2id", "v=19", "m=19456,t=2,p=1",
             Base64.Encode(Base64.RAW_STD, salt), Base64.Encode(Base64.RAW_STD, key.value)]
  {
    var key := argon.idKey(plain, salt, 2, 19456, 1, 32).value;
    DefaultParameters();
    SplitOfRender(MEMORY, TIME, THREADS, salt, key);
    hide Print, Base64.Encode, Split, Join, Render, Parameters;
  }

  /** Another number of fields, another algorithm or another version is rejected, whatever the password. */
  lemma OtherFormsRejected(argon: Argon2, fields: seq<string>, version: nat, plain: bytes)
    requires fields != [] && forall f | f in fields :: '$' !in f
    requires |fields| != 6 || fields[1] != "argon2id" || (version != VERSION && fields[2] == "v=" + Print(version))
    ensures Verify(argon, Join(fields), plain) == Reject
  {
    SplitOfJoin(fields);
    ScanOfVersion(version);
  }
}
