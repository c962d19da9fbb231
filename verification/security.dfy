/** The secrets vault: how the encryption key is read from configuration, how the
    answers to ownership questions are sealed before they are stored, and how they
    are read back. AES-256-GCM itself is a parameter (`Cipher`): a pair of
    functions assumed, where a property needs it, to invert each other. The
    UTF-8 coding of the plaintext is folded into that pair, and the base64
    transport of iv, tag and ciphertext inside the stored JSON is left out. */
module Vault {
  import opened Wrappers
  import opened Text

  type Byte = b: int | 0 <= b < 256
  type Bytes = seq<Byte>

  /** A 12-byte initialisation vector (`IV_LENGTH`), drawn at random per secret. */
  type Iv = b: Bytes | |b| == 12 witness [0, 0, 0, 0, 0, 0, 0, 0, 0, 0, 0, 0]

  const KeyLength: nat := 32

  /** An authenticated cipher: `seal` returns ciphertext and tag, `open` returns the
      plaintext or `None` when authentication fails or the inputs are unusable. */
  datatype Cipher = Cipher(seal: (Bytes, Iv, string) -> Sealed, open: (Bytes, Bytes, Bytes, Bytes) -> Option<string>)

  datatype Sealed = Sealed(data: Bytes, tag: Bytes)

  /** Opening what was sealed with a 32-byte key gives the plaintext back. */
  ghost predicate RoundTrips(c: Cipher) {
    forall key: Bytes, iv: Iv, m: string {:trigger c.seal(key, iv, m)} | |key| == KeyLength ::
      c.open(key, iv, c.seal(key, iv, m).tag, c.seal(key, iv, m).data) == Some(m)
  }

  // ---- reading the key -------------------------------------------------------

  predicate IsHexDigit(c: char) {
    ('0' <= c <= '9') || ('a' <= c <= 'f') || ('A' <= c <= 'F')
  }

  function HexValue(c: char): (v: nat)
    requires IsHexDigit(c)
    ensures v < 16
  {
    if '0' <= c <= '9' then c as int - '0' as int
    else if 'a' <= c <= 'f' then c as int - 'a' as int + 10
    else c as int - 'A' as int + 10
  }

  /** `/^[0-9a-f]{64}$/i`. */
  predicate IsHexKey(s: string) {
    |s| == 64 && forall i | 0 <= i < |s| :: IsHexDigit(s[i])
  }

  /** `Buffer.from(s, 'hex')` on an even-length string of hex digits. */
  function HexDecode(s: string): (b: Bytes)
    requires |s| % 2 == 0 && forall i | 0 <= i < |s| :: IsHexDigit(s[i])
    ensures |b| == |s| / 2
    decreases |s|
  {
    if |s| == 0 then [] else [HexValue(s[0]) * 16 + HexValue(s[1])] + HexDecode(s[2..])
  }

  /** The length JavaScript reports for a string: UTF-16 code units. */
  function Utf16Length(s: string): (n: nat)
    ensures n >= |s|
    decreases |s|
  {
    if |s| == 0 then 0 else (if s[0] as int > 0xFFFF then 2 else 1) + Utf16Length(s[1..])
  }

  /** The UTF-8 encoding of one code point. */
  function Utf8Char(c: char): (b: Bytes)
    ensures 1 <= |b| <= 4
    ensures |b| == 1 <==> c as int < 0x80
  {
    var n := c as int;
    if n < 0x80 then [n]
    else if n < 0x800 then [0xC0 + n / 64, 0x80 + n % 64]
    else if n < 0x10000 then [0xE0 + n / 4096, 0x80 + (n / 64) % 64, 0x80 + n % 64]
    else [0xF0 + n / 262144, 0x80 + (n / 4096) % 64, 0x80 + (n / 64) % 64, 0x80 + n % 64]
  }

  predicate IsAscii(s: string) {
    forall i | 0 <= i < |s| :: s[i] as int < 0x80
  }

  /** `Buffer.from(s, 'utf8')`. */
  function Utf8(s: string): (b: Bytes)
    ensures |b| >= Utf16Length(s)
    ensures |b| == Utf16Length(s) <==> IsAscii(s)
    decreases |s|
  {
    if |s| == 0 then []
    else
      var rest := Utf8(s[1..]);
      assert IsAscii(s) <==> s[0] as int < 0x80 && IsAscii(s[1..]);
      Utf8Char(s[0]) + rest
  }

  /** The value of a base64 character (standard or URL-safe alphabet). */
  function Sextet(c: char): Option<nat> {
    if 'A' <= c <= 'Z' then Some(c as int - 'A' as int)
    else if 'a' <= c <= 'z' then Some(c as int - 'a' as int + 26)
    else if '0' <= c <= '9' then Some(c as int - '0' as int + 52)
    else if c == '+' || c == '-' then Some(62)
    else if c == '/' || c == '_' then Some(63)
    else None
  }

  /** Node's lenient base64 reading: characters outside the alphabet are skipped
      and the first `=` ends the input. */
  function Sextets(s: string): (v: seq<nat>)
    ensures forall i | 0 <= i < |v| :: v[i] < 64
    decreases |s|
  {
    if |s| == 0 || s[0] == '=' then []
    else match Sextet(s[0])
      case Some(x) => [x] + Sextets(s[1..])
      case None => Sextets(s[1..])
  }

  /** Groups of four sextets make three bytes; a trailing group of two or three
      sextets makes one or two bytes and a lone sextet makes none. */
  function SextetsToBytes(v: seq<nat>): (b: Bytes)
    requires forall i | 0 <= i < |v| :: v[i] < 64
    ensures |b| == (3 * |v|) / 4
    decreases |v|
  {
    if |v| >= 4 then
      [v[0] * 4 + v[1] / 16, (v[1] % 16) * 16 + v[2] / 4, (v[2] % 4) * 64 + v[3]] + SextetsToBytes(v[4..])
    else if |v| == 3 then [v[0] * 4 + v[1] / 16, (v[1] % 16) * 16 + v[2] / 4]
    else if |v| == 2 then [v[0] * 4 + v[1] / 16]
    else []
  }

  /** `Buffer.from(s, 'base64')`. */
  function Base64Decode(s: string): Bytes {
    SextetsToBytes(Sextets(s))
  }

  /** `resolveSecretKey(source)`: no key for a missing or empty setting; otherwise,
      on the trimmed text, 64 hex digits are decoded, a text of 32 UTF-16 units is
      taken as UTF-8 bytes, and base64 text is used when it decodes to 32 bytes.
      Anything else gives no key. */
  function ResolveSecretKey(source: Option<string>): (key: Option<Bytes>)
    ensures source.None? || source == Some("") ==> key.None?
    ensures source.Some? && source.value != "" ==> key == KeyFromText(Trim(source.value))
  {
    if source.None? || source.value == "" then None
    else KeyFromText(Trim(source.value))
  }

  /** The three accepted spellings of a key, tried in order on trimmed text. */
  function KeyFromText(t: string): (key: Option<Bytes>)
    ensures IsHexKey(t) ==> key.Some? && |key.value| == KeyLength
    ensures key.Some? ==> |key.value| >= KeyLength
    ensures key.Some? && |key.value| != KeyLength ==> Utf16Length(t) == 32 && !IsAscii(t)
    ensures !IsHexKey(t) && Utf16Length(t) == 32 ==> key == Some(Utf8(t))
  {
    if IsHexKey(t) then Some(HexDecode(t))
    else if Utf16Length(t) == 32 then Some(Utf8(t))
    else
      var decoded := Base64Decode(t);
      if |decoded| == KeyLength then Some(decoded) else None
  }

  /** A base64 key is accepted exactly when 43 alphabet characters precede the first
      `=` (the standard encoding of 32 bytes with one padding character). */
  lemma Base64KeyLength(s: string)
    ensures |Base64Decode(s)| == KeyLength <==> |Sextets(s)| == 43
  {
  }

  /** A 32-character key with a non-ASCII character encodes to more than 32 bytes:
      it is accepted as a key, and every later encryption with it fails. */
  lemma NonAsciiKeyIsTooLong(s: string)
    requires Utf16Length(s) == 32 && !IsAscii(s) && !IsHexKey(s)
    ensures KeyFromText(s).Some?
    ensures |KeyFromText(s).value| > KeyLength
  {
  }

  /** A string of code points below U+10000 is as long in UTF-16 units as in
      characters. */
  lemma {:induction false} Utf16OfNarrow(s: string)
    requires forall i | 0 <= i < |s| :: s[i] as int <= 0xFFFF
    ensures Utf16Length(s) == |s|
    decreases |s|
  {
    if |s| > 0 {
      Utf16OfNarrow(s[1..]);
    }
  }

  /** A concrete key that shows it: 31 letters and an `é` are 32 UTF-16 units but
      33 UTF-8 bytes. The setting is accepted as a key, every encryption under it
      fails, and under the intended reading encryption keeps working. */
  lemma AccentedKeyBreaksEncryption(c: Cipher, iv: Iv, value: string)
    ensures var t := Repeat('a', 31) + ['é'];
      ResolveSecretKey(Some(t)).Some? && |ResolveSecretKey(Some(t)).value| > KeyLength
      && EncryptSecret(c, ResolveSecretKey(Some(t)), iv, value).Failure?
      && EncryptSecret(c, ResolveSecretKeyIntended(Some(t)), iv, value).Success?
  {
    var t := Repeat('a', 31) + ['é'];
    assert t[0] == 'a' && t[31] == 'é';
    TrimOfTrimmed(t);
    Utf16OfNarrow(t);
    assert !IsAscii(t) by { assert t[31] as int >= 0x80; }
    NonAsciiKeyIsTooLong(t);
  }

  /** The key resolution as evidently intended: raw text is taken as the key when
      its UTF-8 encoding is 32 bytes long. */
  function ResolveSecretKeyIntended(source: Option<string>): (key: Option<Bytes>)
    ensures source.None? || source == Some("") ==> key.None?
    ensures key.Some? ==> |key.value| == KeyLength
    ensures forall c: Cipher, iv: Iv, value: string :: EncryptSecret(c, key, iv, value).Success?
  {
    if source.None? || source.value == "" then None
    else KeyFromTextIntended(Trim(source.value))
  }

  /** The three spellings with the raw-text length counted in UTF-8 bytes. */
  function KeyFromTextIntended(t: string): (key: Option<Bytes>)
    ensures IsHexKey(t) ==> key.Some? && |key.value| == KeyLength
    ensures !IsHexKey(t) && |Utf8(t)| == KeyLength ==> key == Some(Utf8(t))
    ensures key.Some? ==> |key.value| == KeyLength
    ensures IsAscii(t) ==> key == KeyFromText(t)
  {
    if IsHexKey(t) then Some(HexDecode(t))
    else if |Utf8(t)| == KeyLength then Some(Utf8(t))
    else
      var decoded := Base64Decode(t);
      if |decoded| == KeyLength then Some(decoded) else None
  }

  // ---- sealing and opening -----------------------------------------------------

  /** The stored cipher record as `decryptSecret` sees it after `JSON.parse`: not an
      object at all, or an object with (possibly missing) `type`, `value`, `iv`,
      `tag` and `data` members. */
  datatype Record = NotAnObject
                  | Object(kind: Option<string>, value: Option<string>,
                           iv: Option<Bytes>, tag: Option<Bytes>, data: Option<Bytes>)

  const Plain := "plain"
  const Algorithm := "aes-256-gcm"

  datatype VaultError = InvalidKeyLength

  /** `encryptSecret(value)`: without a key, a plain record holding the value; with a
      32-byte key, a sealed record; with a key of another length the cipher
      constructor throws. */
  function EncryptSecret(c: Cipher, key: Option<Bytes>, iv: Iv, value: string): (r: Result<Record, VaultError>)
    ensures key.None? ==> r == Success(Object(Some(Plain), Some(value), None, None, None))
    ensures r.Failure? <==> key.Some? && |key.value| != KeyLength
    ensures key.Some? && r.Success? ==>
      r.value.Object? && r.value.kind == Some(Algorithm) && r.value.value.None? && r.value.iv == Some(iv)
  {
    match key
    case None => Success(Object(Some(Plain), Some(value), None, None, None))
    case Some(k) =>
      if |k| != KeyLength then Failure(InvalidKeyLength)
      else
        var sealed := c.seal(k, iv, value);
        Success(Object(Some(Algorithm), None, Some(iv), Some(sealed.tag), Some(sealed.data)))
  }

  /** `decryptSecret(payload)`: the empty string for a non-object; the `value` member
      (or the empty string) when there is no key or the record is plain; the empty
      string for an unknown type; otherwise the opened plaintext, with every failure
      (missing parts, wrong key length, failed authentication) read as the empty
      string. */
  function DecryptSecret(c: Cipher, key: Option<Bytes>, payload: Record): (r: string)
    ensures payload.NotAnObject? ==> r == ""
    ensures payload.Object? && (key.None? || payload.kind == Some(Plain)) ==> r == payload.value.GetOr("")
    ensures payload.Object? && key.Some? && payload.kind != Some(Plain) && payload.kind != Some(Algorithm) ==> r == ""
  {
    match payload
    case NotAnObject => ""
    case Object(kind, value, iv, tag, data) =>
      if key.None? || kind == Some(Plain) then value.GetOr("")
      else if kind != Some(Algorithm) then ""
      else if iv.None? || tag.None? || data.None? || |key.value| != KeyLength then ""
      else c.open(key.value, iv.value, tag.value, data.value).GetOr("")
  }

  /** What is sealed is what is read back: with no key in both directions, or with
      the same 32-byte key and a cipher that inverts itself. */
  lemma EncryptDecryptRoundTrip(c: Cipher, key: Option<Bytes>, iv: Iv, value: string)
    requires key.None? || (|key.value| == KeyLength && RoundTrips(c))
    ensures EncryptSecret(c, key, iv, value).Success?
    ensures DecryptSecret(c, key, EncryptSecret(c, key, iv, value).value) == value
  {
    if key.Some? {
      var s := c.seal(key.value, iv, value);
      assert c.open(key.value, iv, s.tag, s.data) == Some(value);
    }
  }

  /** Dropping the key after secrets were sealed makes every sealed secret read as
      the empty string: a sealed record has no `value` member. */
  lemma SealedReadsEmptyWithoutKey(c: Cipher, key: Bytes, iv: Iv, value: string)
    requires |key| == KeyLength
    ensures DecryptSecret(c, None, EncryptSecret(c, Some(key), iv, value).value) == ""
  {
  }

  /** A record stored while no key was configured stays readable once a key is set. */
  lemma PlainReadableWithKey(c: Cipher, key: Bytes, iv: Iv, value: string)
    ensures DecryptSecret(c, Some(key), EncryptSecret(c, None, iv, value).value) == value
  {
  }

  // ---- batches of secrets ------------------------------------------------------

  /** One element of the array handed to `encryptSecrets`: something falsy, a
      string, another primitive, or an object whose `question`/`answer` members are
      strings (`Some`) or not (`None`). */
  datatype EntryInput = Falsy | Text(s: string) | OtherPrimitive
                      | Obj(question: Option<string>, answer: Option<string>)

  datatype Entry = Entry(question: string, answer: string)

  /** `normalizeSecretEntry`: a trimmed, non-empty answer with a trimmed question
      (empty when missing), or nothing. */
  function NormalizeSecretEntry(e: EntryInput): (r: Option<Entry>)
    ensures r.Some? ==> r.value.answer != "" && r.value.answer == Trim(r.value.answer)
                        && r.value.question == Trim(r.value.question)
    ensures r.Some? <==> (e.Text? && Trim(e.s) != "")
                         || (e.Obj? && e.answer.Some? && Trim(e.answer.value) != "")
  {
    TrimIdempotentAll();
    match e
    case Falsy => None
    case OtherPrimitive => None
    case Text(s) =>
      var answer := Trim(s);
      if answer == "" then None else Some(Entry("", answer))
    case Obj(q, a) =>
      var answer := if a.Some? then Trim(a.value) else "";
      if answer == "" then None
      else Some(Entry(if q.Some? then Trim(q.value) else "", answer))
  }

  lemma TrimIdempotentAll()
    ensures forall s: string :: Trim(Trim(s)) == Trim(s)
  {
    forall s: string ensures Trim(Trim(s)) == Trim(s) {
      TrimIdempotent(s);
    }
  }

  /** One stored secret: the question in clear and the sealed answer. */
  datatype StoredSecret = StoredSecret(question: string, cipher: Record)

  /** The entries `encryptSecrets` keeps, in order. */
  function Normalized(values: seq<EntryInput>): (r: seq<Entry>)
    ensures |r| <= |values|
    decreases |values|
  {
    if |values| == 0 then []
    else match NormalizeSecretEntry(values[0])
      case Some(e) => [e] + Normalized(values[1..])
      case None => Normalized(values[1..])
  }

  /** `encryptSecrets(values)`: every usable entry, in order, with its answer
      sealed under a fresh iv (`ivs(i)` for the i-th kept entry); the whole call
      throws when the key has the wrong length and there is something to seal. */
  function EncryptSecrets(c: Cipher, key: Option<Bytes>, ivs: nat -> Iv, values: seq<EntryInput>)
    : (r: Result<seq<StoredSecret>, VaultError>)
    ensures r.Failure? <==> key.Some? && |key.value| != KeyLength && |Normalized(values)| > 0
    ensures r.Success? ==> (|r.value| == |Normalized(values)|
      && forall i | 0 <= i < |r.value| :: r.value[i].question == Normalized(values)[i].question
           && r.value[i].cipher == EncryptSecret(c, key, ivs(i), Normalized(values)[i].answer).value)
  {
    SealAll(c, key, ivs, Normalized(values), 0)
  }

  function SealAll(c: Cipher, key: Option<Bytes>, ivs: nat -> Iv, entries: seq<Entry>, from: nat)
    : (r: Result<seq<StoredSecret>, VaultError>)
    ensures r.Failure? <==> key.Some? && |key.value| != KeyLength && |entries| > 0
    ensures r.Success? ==> (|r.value| == |entries|
      && forall i | 0 <= i < |r.value| :: r.value[i].question == entries[i].question
           && r.value[i].cipher == EncryptSecret(c, key, ivs(from + i), entries[i].answer).value)
    decreases |entries|
  {
    if |entries| == 0 then Success([])
    else
      match EncryptSecret(c, key, ivs(from), entries[0].answer)
      case Failure(e) => Failure(e)
      case Success(rec) =>
        match SealAll(c, key, ivs, entries[1..], from + 1)
        case Failure(e) => Failure(e)
        case Success(rest) => Success([StoredSecret(entries[0].question, rec)] + rest)
  }

  /** Every answer handed to `encryptSecrets` is read back by `decryptSecret`, and
      every question is stored in clear. */
  lemma SecretsRoundTrip(c: Cipher, key: Option<Bytes>, ivs: nat -> Iv, values: seq<EntryInput>, i: nat)
    requires key.None? || (|key.value| == KeyLength && RoundTrips(c))
    requires i < |Normalized(values)|
    ensures EncryptSecrets(c, key, ivs, values).Success?
    ensures DecryptSecret(c, key, EncryptSecrets(c, key, ivs, values).value[i].cipher) == Normalized(values)[i].answer
  {
    EncryptDecryptRoundTrip(c, key, ivs(i), Normalized(values)[i].answer);
  }
}
