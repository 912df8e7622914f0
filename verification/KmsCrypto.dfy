/**
 * Encryption through a key's primary version and decryption through the version a ciphertext names.
 *
 * AES-256-GCM is a pair of functions of which only this is asked: opening what was sealed under the same
 * key, iv and associated data gives the plaintext back, and a tag has 16 bytes.
 */
module KmsCrypto {
  import opened Options
  import opened Text
  import opened Bytes
  import opened KmsVersions
  import opened KmsSafety

  datatype Result<+T> = Ok(value: T) | Err(error: KmsError)

  const FORMAT: Byte := 1
  const IV_LENGTH := 12
  const TAG_LENGTH := 16
  const HEADER_LENGTH := 5

  datatype Sealed = Sealed(text: ByteString, tag: ByteString)

  /** An authenticated cipher over key, iv, associated data and text. */
  datatype Aead = Aead(
    seal: (ByteString, ByteString, ByteString, ByteString) -> Sealed,
    open: (ByteString, ByteString, ByteString, Sealed) -> Option<ByteString>)

  ghost predicate Sound(aead: Aead) {
    forall key, iv, aad, text ::
      |aead.seal(key, iv, aad, text).tag| == TAG_LENGTH
      && aead.open(key, iv, aad, aead.seal(key, iv, aad, text)) == Some(text)
  }

  // ── Engine ──

  /** Associated data is set only when there is some. */
  function AadBytes(aad: Option<ByteString>): ByteString {
    if aad.Some? then aad.value else []
  }

  /** `[0x01][versionId uint32 BE][iv][tag][ciphertext]`. */
  function Envelope(versionId: int, iv: ByteString, sealed: Sealed): ByteString {
    [FORMAT] + WriteUint32BE(ToUint32(versionId)) + iv + sealed.tag + sealed.text
  }

  function SecretBytes(m: Material): Option<ByteString> {
    if m.Secret? && m.bytes != [] then Some(m.bytes) else None
  }

  function SymmetricEncrypt(aead: Aead, m: Material, versionId: int, text: ByteString, aad: Option<ByteString>,
    iv: ByteString): Result<ByteString>
  {
    var key := SecretBytes(m);
    if key.None? then Err(InvalidArgument)
    else Ok(Envelope(versionId, iv, aead.seal(key.value, iv, AadBytes(aad), text)))
  }

  function ReadEnvelopeVersionId(envelope: ByteString): Result<nat> {
    if |envelope| < HEADER_LENGTH + IV_LENGTH + TAG_LENGTH || envelope[0] != FORMAT then Err(InvalidArgument)
    else Ok(ReadUint32BE(envelope[1..HEADER_LENGTH]))
  }

  function SymmetricDecrypt(
    aead: Aead, m: Material, envelope: ByteString, aad: Option<ByteString>): Result<ByteString> {
    if |envelope| < HEADER_LENGTH + IV_LENGTH + TAG_LENGTH || envelope[0] != FORMAT || SecretBytes(m).None?
    then Err(InvalidArgument)
    else
      var iv := envelope[HEADER_LENGTH..HEADER_LENGTH + IV_LENGTH];
      var tag := envelope[HEADER_LENGTH + IV_LENGTH..HEADER_LENGTH + IV_LENGTH + TAG_LENGTH];
      var text := envelope[HEADER_LENGTH + IV_LENGTH + TAG_LENGTH..];
      var plain := aead.open(SecretBytes(m).value, iv, AadBytes(aad), Sealed(text, tag));
      if plain.None? then Err(InvalidArgument) else Ok(plain.value)
  }

  /** The envelope as it is written, header byte by header byte. */
  method WriteEnvelope(versionId: int, iv: ByteString, sealed: Sealed) returns (envelope: ByteString)
    ensures envelope == Envelope(versionId, iv, sealed)
  {
    var header := new Byte[HEADER_LENGTH](_ => 0);
    header[0] := FORMAT;
    var rest := ToUint32(versionId);
    for i := 0 to 4
      invariant header[0] == FORMAT
      invariant rest == ToUint32(versionId) / Pow256(i)
      invariant forall j :: 4 - i < j <= 4 ==> header[j] == WriteUint32BE(ToUint32(versionId))[j - 1]
    {
      header[4 - i] := rest % 256;
      DigitAt(ToUint32(versionId), i);
      rest := rest / 256;
    }
    assert header[..] == [FORMAT] + WriteUint32BE(ToUint32(versionId));
    envelope := header[..] + iv + sealed.tag + sealed.text;
  }

  function Pow256(i: nat): nat
    requires i <= 4
  {
    [1, 0x100, 0x1_0000, 0x100_0000, 0x1_0000_0000][i]
  }

  lemma DigitAt(u: nat, i: nat)
    requires u < TWO_TO_32 && i < 4
    ensures WriteUint32BE(u)[3 - i] == u / Pow256(i) % 256
    ensures u / Pow256(i) / 256 == u / Pow256(i + 1)
  {
    assert u / 0x100_0000 % 256 == u / 0x100_0000;
    assert u / 0x1_0000 == u / 0x100 / 256 && u / 0x100_0000 == u / 0x1_0000 / 256;
    assert u / 0x1_0000_0000 == u / 0x100_0000 / 256;
  }

  // ── What the envelope keeps ──

  lemma EnvelopeParts(versionId: int, iv: ByteString, sealed: Sealed)
    requires |iv| == IV_LENGTH && |sealed.tag| == TAG_LENGTH
    ensures var e := Envelope(versionId, iv, sealed);
            && |e| == HEADER_LENGTH + IV_LENGTH + TAG_LENGTH + |sealed.text|
            && e[0] == FORMAT
            && e[1..HEADER_LENGTH] == WriteUint32BE(ToUint32(versionId))
            && e[HEADER_LENGTH..HEADER_LENGTH + IV_LENGTH] == iv
            && e[HEADER_LENGTH + IV_LENGTH..HEADER_LENGTH + IV_LENGTH + TAG_LENGTH] == sealed.tag
            && e[HEADER_LENGTH + IV_LENGTH + TAG_LENGTH..] == sealed.text
  {
    hide WriteUint32BE, ToUint32;
  }

  /** The header gives a version id back exactly when it fits into 32 bits; otherwise it gives another one. */
  lemma VersionIdSurvives(versionId: nat, iv: ByteString, sealed: Sealed)
    requires |iv| == IV_LENGTH && |sealed.tag| == TAG_LENGTH
    ensures ReadEnvelopeVersionId(Envelope(versionId, iv, sealed)) == Ok(versionId % TWO_TO_32)
    ensures ReadEnvelopeVersionId(Envelope(versionId, iv, sealed)) == Ok(versionId) <==> versionId < TWO_TO_32
  {
    hide Envelope, WriteUint32BE, ReadUint32BE;
    EnvelopeParts(versionId, iv, sealed);
    ReadUndoesWrite(ToUint32(versionId));
  }

  lemma DecryptUndoesEncrypt(aead: Aead, m: Material, versionId: nat, text: ByteString, aad: Option<ByteString>,
    iv: ByteString)
    requires Sound(aead) && |iv| == IV_LENGTH
    ensures var e := SymmetricEncrypt(aead, m, versionId, text, aad, iv);
            e.Ok? ==> SymmetricDecrypt(aead, m, e.value, aad) == Ok(text)
  {
    hide Envelope;
    if SecretBytes(m).Some? {
      EnvelopeParts(versionId, iv, aead.seal(SecretBytes(m).value, iv, AadBytes(aad), text));
    }
  }

  /** Associated data that is empty and associated data that is absent are the same. */
  lemma EmptyAadIsAbsent(aead: Aead, m: Material, envelope: ByteString)
    ensures SymmetricDecrypt(aead, m, envelope, Some([])) == SymmetricDecrypt(aead, m, envelope, None)
  {}

  // ── Service ──

  function DigitPrefix(s: string): string {
    if s != [] && IsDigit(s[0]) then [s[0]] + DigitPrefix(s[1..]) else []
  }

  lemma {:induction false} DigitPrefixOfDigits(s: string)
    requires forall i :: 0 <= i < |s| ==> IsDigit(s[i])
    ensures DigitPrefix(s) == s
  {
    if s != [] {
      DigitPrefixOfDigits(s[1..]);
      assert s == [s[0]] + s[1..];
    }
  }

  lemma {:induction false} DigitPrefixIsDigits(s: string)
    ensures DigitPrefix(s) != [] ==> AllDigits(DigitPrefix(s))
  {
    if s != [] && IsDigit(s[0]) {
      DigitPrefixIsDigits(s[1..]);
    }
  }

  /** `Number.parseInt(s, 10)`, with 0 in place of NaN: the header stores either as zero. */
  function ParseInt(s: string): int {
    var t := TrimStart(s);
    var negative := t != [] && t[0] == '-';
    var digits := DigitPrefix(if t != [] && (t[0] == '-' || t[0] == '+') then t[1..] else t);
    if digits == [] then 0
    else
      DigitPrefixIsDigits(if t != [] && (t[0] == '-' || t[0] == '+') then t[1..] else t);
      if negative then 0 - ToNat(digits) else ToNat(digits)
  }

  lemma ParseIntOfNumber(n: nat)
    ensures ParseInt(FromNat(n)) == n
  {
    var s := FromNat(n);
    assert IsDigit(s[0]);
    assert TrimStart(s) == s;
    DigitPrefixOfDigits(s);
    ToNatFromNat(n);
  }

  datatype Encrypted = Encrypted(ciphertext: ByteString, versionName: string)

  datatype Decrypted = Decrypted(plaintext: ByteString, usedPrimary: bool)

  function Encrypt(
    s: Kms, aead: Aead, k: string, text: ByteString, aad: Option<ByteString>, iv: ByteString): Result<Encrypted> {
    if k !in s.keys then Err(NotFound)
    else if s.keys[k].purpose != EncryptDecrypt then Err(InvalidArgument)
    else if s.keys[k].primary.None? || s.keys[k].primary.value == "" then Err(FailedPrecondition)
    else
      var id := s.keys[k].primary.value;
      var name := VersionName(k, id);
      if name !in s.versions || s.versions[name].state != ENABLED then Err(FailedPrecondition)
      else
        var c := SymmetricEncrypt(aead, s.versions[name].material, ParseInt(id), text, aad, iv);
        if c.Ok? then Ok(Encrypted(c.value, name)) else Err(c.error)
  }

  function Decrypt(s: Kms, aead: Aead, k: string, ciphertext: ByteString, aad: Option<ByteString>): Result<Decrypted> {
    if k !in s.keys then Err(NotFound)
    else if s.keys[k].purpose != EncryptDecrypt then Err(InvalidArgument)
    else
      var id := ReadEnvelopeVersionId(ciphertext);
      if id.Err? then Err(id.error)
      else
        var name := VersionName(k, FromNat(id.value));
        if name !in s.versions then Err(InvalidArgument)
        else if s.versions[name].state != ENABLED then Err(FailedPrecondition)
        else
          var p := SymmetricDecrypt(aead, s.versions[name].material, ciphertext, aad);
          if p.Ok? then Ok(Decrypted(p.value, s.keys[k].primary == Some(FromNat(id.value)))) else Err(p.error)
  }

  /** The id the primary of a key has, if any. */
  function PrimaryId(s: Kms, k: string): string {
    if k in s.keys && s.keys[k].primary.Some? then s.keys[k].primary.value else ""
  }

  /**
   * What a successful encryption leaves behind: a version, which is the key's own exactly when the
   * primary's id has no slash, and then an envelope that names it.
   */
  lemma EncryptNames(
    actions: seq<Action>, aead: Aead, k: string, text: ByteString, aad: Option<ByteString>, iv: ByteString)
    requires Possible(EMPTY, actions)
    requires Encrypt(Run(EMPTY, actions), aead, k, text, aad, iv).Ok?
    ensures var s := Run(EMPTY, actions);
            var out := Encrypt(s, aead, k, text, aad, iv).value;
            && out.versionName in s.versions
            && (s.versions[out.versionName].key == k <==> '/' !in PrimaryId(s, k))
            && ('/' !in PrimaryId(s, k) ==>
                  && out.versionName == VersionName(k, FromNat(s.versions[out.versionName].number))
                  && SymmetricEncrypt(aead, s.versions[out.versionName].material, s.versions[out.versionName].number,
                    text, aad, iv)
                     == Ok(out.ciphertext))
  {
    hide Run, Possible, SymmetricEncrypt, VersionName, FromNat, ParseInt;
    var s := Run(EMPTY, actions);
    PrimaryNamesVersion(actions, k);
    ParseIntOfNumber(s.versions[VersionName(k, s.keys[k].primary.value)].number);
  }

  /**
   * A ciphertext of a version of the key's own outlives every rotation, primary switch and destroy and
   * restore cycle: it decrypts to its plaintext exactly while its version is enabled, and it is told from
   * one under the current primary. Other keys may be named as they like.
   */
  lemma CiphertextSurvives(before: seq<Action>, after: seq<Action>, aead: Aead, k: string, text: ByteString,
    aad: Option<ByteString>, iv: ByteString)
    requires Sound(aead) && |iv| == IV_LENGTH
    requires Possible(EMPTY, before) && Possible(Run(EMPTY, before), after)
    requires Encrypt(Run(EMPTY, before), aead, k, text, aad, iv).Ok? && '/' !in PrimaryId(Run(EMPTY, before), k)
    ensures var s := Run(EMPTY, before);
            var t := Run(s, after);
            var out := Encrypt(s, aead, k, text, aad, iv).value;
            && out.versionName in s.versions && out.versionName in t.versions && k in t.keys
            && var n := s.versions[out.versionName].number;
               n < TWO_TO_32 ==>
                 Decrypt(t, aead, k, out.ciphertext, aad) ==
                   if t.versions[out.versionName].state == ENABLED
                   then Ok(Decrypted(text, t.keys[k].primary == Some(FromNat(n))))
                   else Err(FailedPrecondition)
  {
    hide Run, Possible, FromNat, VersionName;
    EncryptNames(before, aead, k, text, aad, iv);
    var s := Run(EMPTY, before);
    RunGrows(s, after);
    Survives(s, Run(s, after), aead, k, text, aad, iv, Encrypt(s, aead, k, text, aad, iv).value);
  }

  lemma Survives(
    s: Kms, t: Kms, aead: Aead, k: string, text: ByteString, aad: Option<ByteString>, iv: ByteString, out: Encrypted)
    requires Sound(aead) && |iv| == IV_LENGTH && Grows(s, t)
    requires k in s.keys && s.keys[k].purpose == EncryptDecrypt && out.versionName in s.versions
    requires out.versionName == VersionName(k, FromNat(s.versions[out.versionName].number))
    requires var row := s.versions[out.versionName];
             SymmetricEncrypt(aead, row.material, row.number, text, aad, iv) == Ok(out.ciphertext)
    ensures out.versionName in t.versions && k in t.keys
    ensures var n := s.versions[out.versionName].number;
            n < TWO_TO_32 ==>
              Decrypt(t, aead, k, out.ciphertext, aad) ==
                if t.versions[out.versionName].state == ENABLED
                then Ok(Decrypted(text, t.keys[k].primary == Some(FromNat(n))))
                else Err(FailedPrecondition)
  {
    hide SymmetricDecrypt, FromNat, VersionName, Envelope, ReadEnvelopeVersionId;
    var row := s.versions[out.versionName];
    DecryptUndoesEncrypt(aead, row.material, row.number, text, aad, iv);
    var sealed := aead.seal(SecretBytes(row.material).value, iv, AadBytes(aad), text);
    VersionIdSurvives(row.number, iv, sealed);
  }

  /**
   * Past 32 bits the header names another version. A multiple of 2^32 names none, so what was encrypted
   * under a version of that number decrypts in no later state.
   */
  lemma WrappedIdIsLost(before: seq<Action>, after: seq<Action>, aead: Aead, k: string, text: ByteString,
    aad: Option<ByteString>, iv: ByteString)
    requires Sound(aead) && |iv| == IV_LENGTH
    requires Possible(EMPTY, before) && Possible(Run(EMPTY, before), after)
    requires Encrypt(Run(EMPTY, before), aead, k, text, aad, iv).Ok? && '/' !in PrimaryId(Run(EMPTY, before), k)
    ensures var s := Run(EMPTY, before);
            var out := Encrypt(s, aead, k, text, aad, iv).value;
            && out.versionName in s.versions
            && (s.versions[out.versionName].number % TWO_TO_32 == 0 ==>
                  Decrypt(Run(s, after), aead, k, out.ciphertext, aad) == Err(InvalidArgument))
  {
    hide Run, Possible, VersionName, FromNat, Envelope, ReadEnvelopeVersionId, Highest;
    var s := Run(EMPTY, before);
    EncryptNames(before, aead, k, text, aad, iv);
    var row := s.versions[Encrypt(s, aead, k, text, aad, iv).value.versionName];
    RunOn(EMPTY, before, after);
    InvAlways(before + after);
    RunGrows(s, after);
    NoVersionZero(Run(s, after), k);
    VersionIdSurvives(row.number, iv, aead.seal(SecretBytes(row.material).value, iv, AadBytes(aad), text));
  }

  lemma NoVersionZero(s: Kms, k: string)
    requires Inv(s)
    ensures VersionName(k, FromNat(0)) !in s.versions
  {
    hide Inv;
    VersionsHold(s);
    if VersionName(k, FromNat(0)) in s.versions {
      var row := s.versions[VersionName(k, FromNat(0))];
      VersionOfNumber(k, 0, row.key, row.number);
    }
  }

  /**
   * Every way an encryption can be turned down. A primary of the key's own always seals; one that went
   * astray seals exactly when the version it names has a secret.
   */
  lemma EncryptSucceeds(
    actions: seq<Action>, aead: Aead, k: string, text: ByteString, aad: Option<ByteString>, iv: ByteString)
    requires Possible(EMPTY, actions)
    ensures var s := Run(EMPTY, actions);
            Encrypt(s, aead, k, text, aad, iv).Ok? <==>
              && k in s.keys && s.keys[k].purpose == EncryptDecrypt && s.keys[k].primary.Some?
              && VersionName(k, s.keys[k].primary.value) in s.versions
              && s.versions[VersionName(k, s.keys[k].primary.value)].state == ENABLED
              && ('/' !in s.keys[k].primary.value
                  || SecretBytes(s.versions[VersionName(k, s.keys[k].primary.value)].material).Some?)
  {
    hide Run, Possible, VersionName, FromNat, ParseInt, Inv;
    var s := Run(EMPTY, actions);
    InvAlways(actions);
    if k in s.keys && s.keys[k].primary.Some? {
      KeyHolds(s, k);
      PrimaryNamesVersion(actions, k);
      if '/' !in s.keys[k].primary.value { HasSecret(s, k, VersionName(k, s.keys[k].primary.value)); }
    }
  }

  lemma HasSecret(s: Kms, k: string, n: string)
    requires Inv(s) && n in s.versions && s.versions[n].key == k && k in s.keys && s.keys[k].purpose == EncryptDecrypt
    ensures SecretBytes(s.versions[n].material).Some?
  {
    hide Inv, VersionName, FromNat;
    VersionsHold(s);
    assert RowOk(s.keys, n, s.versions[n]);
  }
}
