/**
 The at-rest envelope of TOTP secrets: `enc:v1:` followed by padded base64 of the nonce and
 the ciphertext. Text without the tag is read as plaintext written before a key was set.
 The cipher and the digest are parameters. A string here is the byte string of the source:
 each character stands for one byte.
 */
module TotpSecret {
  import opened Seqs
  import opened Base64

  type bytes = seq<byte>
  type ByteString = s: string | forall c | c in s :: c as int < 256

  const PREFIX := "enc:v1:"
  const NONCE_SIZE := 12

  datatype Aead = Aead(seal: (bytes, bytes, bytes) -> bytes, open: (bytes, bytes, bytes) -> Option<bytes>) {
    /** Opening undoes sealing under the same key and nonce. */
    ghost predicate Correct() {
      forall key, nonce, plain :: open(key, nonce, seal(key, nonce, plain)) == Some(plain)
    }
  }

  datatype Encryptor = Passthrough | Keyed(key: bytes)

  datatype Opened = Plain(text: string) | KeyMissing | Malformed | TooShort | Unauthentic

  function DeriveKey(sha256: string -> bytes, key: string): bytes {
    var b := Decode(STD, key);
    if b.Some? && |b.value| == 32 then b.value else sha256(key)
  }

  function New(sha256: string -> bytes, key: string): Encryptor {
    if key == "" then Passthrough else Keyed(DeriveKey(sha256, key))
  }

  function ToBytes(s: ByteString): (b: bytes)
    ensures |b| == |s|
  {
    seq(|s|, i requires 0 <= i < |s| => assert s[i] in s; s[i] as int)
  }

  function FromBytes(b: bytes): ByteString {
    seq(|b|, i requires 0 <= i < |b| => b[i] as char)
  }

  function Encrypt(aead: Aead, e: Encryptor, plain: ByteString, nonce: bytes): string {
    match e
    case Passthrough => plain
    case Keyed(key) => PREFIX + Encode(STD, nonce + aead.seal(key, nonce, ToBytes(plain)))
  }

  function Decrypt(aead: Aead, e: Encryptor, stored: string): Opened {
    if !(PREFIX <= stored) then Plain(stored)
    else if e.Passthrough? then KeyMissing
    else
      var raw := Decode(STD, stored[|PREFIX|..]);
      if raw.None? then Malformed
      else if |raw.value| < NONCE_SIZE then TooShort
      else
        var plain := aead.open(e.key, raw.value[..NONCE_SIZE], raw.value[NONCE_SIZE..]);
        if plain.None? then Unauthentic else Plain(FromBytes(plain.value))
  }

  // ── One secret ────────────────────────────────────────────

  lemma TextRoundTrip(s: ByteString)
    ensures FromBytes(ToBytes(s)) == s
  {
    forall i | 0 <= i < |s| ensures FromBytes(ToBytes(s))[i] == s[i] {
      assert ToBytes(s)[i] == s[i] as int;
    }
  }

  /**
   Without a key text nothing is encrypted; with one, the cipher always gets a 32-byte key, and a
   key given as base64 of 32 bytes is used as it is.
   */
  lemma DerivedKey(sha256: string -> bytes, key: string, raw: bytes)
    requires forall s :: |sha256(s)| == 32
    requires |raw| == 32
    ensures |DeriveKey(sha256, key)| == 32
    ensures New(sha256, key).Passthrough? <==> key == ""
    ensures New(sha256, Encode(STD, raw)) == Keyed(raw)
  {
    RoundTrip(STD, raw);
  }

  lemma OpenKeyed(aead: Aead, key: bytes, plain: ByteString, nonce: bytes)
    requires aead.Correct() && |nonce| == NONCE_SIZE
    ensures Decrypt(aead, Keyed(key), Encrypt(aead, Keyed(key), plain, nonce)) == Plain(plain)
  {
    var sealed := nonce + aead.seal(key, nonce, ToBytes(plain));
    var stored := Encrypt(aead, Keyed(key), plain, nonce);
    assert stored[|PREFIX|..] == Encode(STD, sealed);
    RoundTrip(STD, sealed);
    assert sealed[..NONCE_SIZE] == nonce && sealed[NONCE_SIZE..] == aead.seal(key, nonce, ToBytes(plain));
    TextRoundTrip(plain);
  }

  /** A secret reads back under the encryptor that wrote it exactly when a key was set or it does not look tagged. */
  lemma EnvelopeRoundTrip(aead: Aead, e: Encryptor, plain: ByteString, nonce: bytes)
    requires aead.Correct() && |nonce| == NONCE_SIZE
    ensures Decrypt(aead, e, Encrypt(aead, e, plain, nonce)) == Plain(plain) <==> e.Keyed? || !(PREFIX <= plain)
  {
    if e.Keyed? {
      OpenKeyed(aead, e.key, plain, nonce);
    }
  }

  /**
   What stored text reads back as, whatever it is: without the tag itself; with it an error
   unless a key is set, the rest is base64 of at least a nonce, and the cipher opens it.
   */
  lemma ReadsBack(aead: Aead, e: Encryptor, text: string, plain: string)
    ensures !("enc:v1:" <= text) ==> Decrypt(aead, e, text) == Plain(text)
    ensures Decrypt(aead, e, "enc:v1:" + text) == Plain(plain) <==>
      e.Keyed? && Decode(STD, text).Some? && var raw := Decode(STD, text).value;
      12 <= |raw| && aead.open(e.key, raw[..12], raw[12..]).Some?
      && plain == FromBytes(aead.open(e.key, raw[..12], raw[12..]).value)
    ensures Decrypt(aead, e, "enc:v1:" + text) == KeyMissing <==> e.Passthrough?
    ensures Decrypt(aead, e, "enc:v1:" + text) == Malformed <==> e.Keyed? && Decode(STD, text) == None
    ensures Decrypt(aead, e, "enc:v1:" + text) == TooShort <==>
      e.Keyed? && Decode(STD, text).Some? && |Decode(STD, text).value| < 12
  {
    assert ("enc:v1:" + text)[7..] == text;
  }

  /** Any key text that is not base64 of 32 bytes is hashed. */
  lemma OtherKeysHashed(sha256: string -> bytes, key: string)
    requires key != "" && (Decode(STD, key).None? || |Decode(STD, key).value| != 32)
    ensures New(sha256, key) == Keyed(sha256(key))
  {
  }

  /** Encrypted text is never readable without a key: the reader gets an error, not the text. */
  lemma KeyIsNeeded(aead: Aead, key: bytes, plain: ByteString, nonce: bytes)
    ensures Decrypt(aead, Passthrough, Encrypt(aead, Keyed(key), plain, nonce)) == KeyMissing
  {
    assert PREFIX <= Encrypt(aead, Keyed(key), plain, nonce);
  }

  // ── Every history of the store ────────────────────────────

  datatype Event =
    | Enroll(user: nat, plain: ByteString, nonce: bytes)
    | Restart(key: Encryptor)

  datatype Store = Store(encryptor: Encryptor, secrets: map<nat, string>)

  /** A restart may bring a key to a service that ran without one; it never takes a key away or changes it. */
  predicate Legal(s: Store, e: Event) {
    match e
    case Enroll(_, _, nonce) => |nonce| == NONCE_SIZE
    case Restart(to) => s.encryptor.Keyed? ==> to == s.encryptor
  }

  function Apply(aead: Aead, s: Store, e: Event): Store {
    match e
    case Enroll(user, plain, nonce) => s.(secrets := s.secrets[user := Encrypt(aead, s.encryptor, plain, nonce)])
    case Restart(to) => s.(encryptor := to)
  }

  function Run(aead: Aead, events: seq<Event>): Store {
    if events == [] then Store(Passthrough, map[])
    else Apply(aead, Run(aead, events[..|events| - 1]), events[|events| - 1])
  }

  predicate LegalRun(aead: Aead, events: seq<Event>) {
    events != [] ==>
      && LegalRun(aead, events[..|events| - 1])
      && Legal(Run(aead, events[..|events| - 1]), events[|events| - 1])
  }

  function LastEnrolled(events: seq<Event>, user: nat): Option<ByteString> {
    if events == [] then None
    else
      var last := events[|events| - 1];
      if last.Enroll? && last.user == user then Some(last.plain)
      else LastEnrolled(events[..|events| - 1], user)
  }

  /**
   Whenever encryption was switched on, every secret last enrolled before or after still
   decrypts to what was enrolled, with no migration, unless its plaintext looks tagged.
   */
  lemma {:induction false} SecretsSurvive(aead: Aead, events: seq<Event>, user: nat)
    requires aead.Correct() && LegalRun(aead, events)
    requires LastEnrolled(events, user).Some?
    requires !(PREFIX <= LastEnrolled(events, user).value)
    ensures var s := Run(aead, events);
      && user in s.secrets
      && Decrypt(aead, s.encryptor, s.secrets[user]) == Plain(LastEnrolled(events, user).value)
  {
    var before, last := events[..|events| - 1], events[|events| - 1];
    if last.Enroll? && last.user == user {
      EnvelopeRoundTrip(aead, Run(aead, before).encryptor, last.plain, last.nonce);
    } else {
      SecretsSurvive(aead, before, user);
    }
  }
}
