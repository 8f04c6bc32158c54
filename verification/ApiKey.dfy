/**
 * API keys: "arq_" and the base64url form of 32 random bytes, stored as base64(salt) ':'
 * base64(digest).  The key derivation function is an arbitrary function with 32-byte digests;
 * random bytes are inputs.
 */
module ApiKey {
  import opened Wrappers
  import opened Base64
  import Text

  const KEY_PREFIX := "arq_"
  const KEY_LENGTH := 32
  const ENCODED_KEY_LENGTH := 43
  const DIGEST_LENGTH := 32
  const SALT_LENGTH := 16

  type Kdf = f: (string, seq<Byte>) -> seq<Byte> | forall k, s :: |f(k, s)| == DIGEST_LENGTH
    witness (k, s) => seq(DIGEST_LENGTH, i => ByteOf(0))

  datatype Failure = NoRandomness | MissingSeparator | BadSalt | BadDigest

  datatype StoredHash = StoredHash(salt: seq<Byte>, digest: seq<Byte>)

  // ---------- issuing ----------

  function KeyOf(bytes: seq<Byte>): string { KEY_PREFIX + Encode(Url, bytes) }

  function HashOf(key: string, salt: seq<Byte>, kdf: Kdf): string {
    Encode(Std, salt) + [':'] + Encode(Std, kdf(key, salt))
  }

  method Generate(random: Option<seq<Byte>>) returns (r: Result<string, Failure>)
    requires random.Some? ==> |random.value| == KEY_LENGTH
    ensures r == if random.None? then Err(NoRandomness) else Ok(KeyOf(random.value))
  {
    if random.None? {
      return Err(NoRandomness);
    }
    var encoded := Encode(Url, random.value);
    return Ok(KEY_PREFIX + encoded);
  }

  method Hash(key: string, random: Option<seq<Byte>>, kdf: Kdf) returns (r: Result<string, Failure>)
    requires random.Some? ==> |random.value| == SALT_LENGTH
    ensures r == if random.None? then Err(NoRandomness) else Ok(HashOf(key, random.value, kdf))
  {
    if random.None? {
      return Err(NoRandomness);
    }
    var salt := random.value;
    var digest := kdf(key, salt);
    var saltEncoded := Encode(Std, salt);
    var digestEncoded := Encode(Std, digest);
    return Ok(saltEncoded + ":" + digestEncoded);
  }

  method GenerateWithHash(keyRandom: Option<seq<Byte>>, saltRandom: Option<seq<Byte>>, kdf: Kdf)
    returns (r: Result<(string, string), Failure>)
    requires keyRandom.Some? ==> |keyRandom.value| == KEY_LENGTH
    requires saltRandom.Some? ==> |saltRandom.value| == SALT_LENGTH
    ensures r.Ok? <==> keyRandom.Some? && saltRandom.Some?
    ensures r.Ok? ==> ValidateFormat(r.value.0) && Validate(r.value.0, r.value.1, kdf)
    ensures r.Ok? ==>
      && r.value.0 == "arq_" + Encode(Url, keyRandom.value)
      && r.value.1 == Encode(Std, saltRandom.value) + ":" + Encode(Std, kdf(r.value.0, saltRandom.value))
  {
    var key := Generate(keyRandom);
    if key.Err? {
      return Err(key.error);
    }
    var hash := Hash(key.value, saltRandom, kdf);
    if hash.Err? {
      return Err(hash.error);
    }
    FormatLanguage(key.value);
    GeneratedKeyWellFormed(keyRandom.value);
    assert HashOf(key.value, saltRandom.value, kdf)
        == Encode(Std, saltRandom.value) + ":" + Encode(Std, kdf(key.value, saltRandom.value));
    ParseInvertsHash(key.value, saltRandom.value, kdf);
    return Ok((key.value, hash.value));
  }

  // ---------- checking ----------

  /** The meaning of a stored hash: split at the first ':', decode both halves. */
  function Parse(encoded: string): Result<StoredHash, Failure> {
    var sep := Text.Find(encoded, ':');
    if sep == |encoded| then Err(MissingSeparator) else
    match Decode(Std, encoded[..sep])
    case None => Err(BadSalt)
    case Some(salt) =>
      match Decode(Std, encoded[sep + 1..])
      case None => Err(BadDigest)
      case Some(digest) => Ok(StoredHash(salt, digest))
  }

  method ParseHash(encoded: string) returns (r: Result<StoredHash, Failure>)
    ensures r == Parse(encoded)
  {
    var sep := -1;
    var i := 0;
    while i < |encoded|
      invariant 0 <= i <= |encoded|
      invariant sep == -1 && ':' !in encoded[..i]
    {
      if encoded[i] == ':' {
        sep := i;
        break;
      }
      i := i + 1;
    }
    if sep == -1 {
      assert encoded[..i] == encoded;
      return Err(MissingSeparator);
    }
    Text.FindIs(encoded, ':', sep);
    var salt := Decode(Std, encoded[..sep]);
    if salt.None? {
      return Err(BadSalt);
    }
    var digest := Decode(Std, encoded[sep + 1..]);
    if digest.None? {
      return Err(BadDigest);
    }
    return Ok(StoredHash(salt.value, digest.value));
  }

  /** What a stored hash means, told from its text: what stands before and after the first ':'. */
  lemma ParseExactly(head: string, tail: string)
    requires ':' !in head
    ensures Parse(head) == Err(MissingSeparator)
    ensures var r := Parse(head + ":" + tail);
      && (r.Ok? <==> Decode(Std, head).Some? && Decode(Std, tail).Some?)
      && (r.Ok? ==> Decode(Std, head) == Some(r.value.salt) && Decode(Std, tail) == Some(r.value.digest))
      && (r == Err(BadSalt) <==> Decode(Std, head).None?)
      && (r == Err(BadDigest) <==> Decode(Std, head).Some? && Decode(Std, tail).None?)
  {
    Text.FindAfterPrefix(head, ':', tail);
    var s := head + [':'] + tail;
    assert s == head + ":" + tail;
    assert s[..|head|] == head && s[|head| + 1..] == tail;
    assert Text.Find(head, ':') == |head|;
  }

  predicate Validate(key: string, encoded: string, kdf: Kdf) {
    match Parse(encoded)
    case Err(_) => false
    case Ok(stored) => stored.digest == kdf(key, stored.salt)
  }

  predicate ValidateFormat(key: string) {
    if |key| < |KEY_PREFIX| then false
    else if key[..|KEY_PREFIX|] != KEY_PREFIX then false
    else if |key| != |KEY_PREFIX| + ENCODED_KEY_LENGTH then false
    else match Decode(Url, key[|KEY_PREFIX|..])
         case None => false
         case Some(decoded) => |decoded| == KEY_LENGTH
  }

  // ---------- the accepted language ----------

  predicate WellFormedKey(key: string) {
    && |key| == 47
    && key[..4] == "arq_"
    && forall c | c in key[4..] ::
         'A' <= c <= 'Z' || 'a' <= c <= 'z' || '0' <= c <= '9' || c == '-' || c == '_'
  }

  lemma LettersOf(key: string)
    requires |key| == 47
    ensures WellFormedKey(key) <==> key[..4] == "arq_" && forall c | c in key[4..] :: InAlphabet(Url, c)
  {
    forall c | c in key[4..]
      ensures InAlphabet(Url, c) <==> 'A' <= c <= 'Z' || 'a' <= c <= 'z' || '0' <= c <= '9' || c == '-' || c == '_'
    {
      AlphabetExactly(Url, c);
    }
  }

  lemma BodyLanguage(body: string)
    requires |body| == ENCODED_KEY_LENGTH
    ensures Decode(Url, body).Some? && |Decode(Url, body).value| == KEY_LENGTH
       <==> forall c | c in body :: InAlphabet(Url, c)
  {
    DecodeLength(Url, body);
    StripIdentity(body);
    if forall c | c in body :: InAlphabet(Url, c) {
      assert forall c | c in body :: !Skipped(c) by {
        assert !InAlphabet(Url, '\r') && !InAlphabet(Url, '\n');
      }
    }
  }

  /**
   * ValidateFormat accepts "arq_" followed by 43 base64url letters and nothing else: a byte the
   * decoder skips leaves too few letters for 32 bytes.
   */
  lemma FormatLanguage(key: string)
    ensures ValidateFormat(key) <==> WellFormedKey(key)
  {
    if |key| == 47 {
      BodyLanguage(key[4..]);
      LettersOf(key);
    }
  }

  lemma GeneratedKeyWellFormed(bytes: seq<Byte>)
    requires |bytes| == KEY_LENGTH
    ensures WellFormedKey(KeyOf(bytes))
    ensures Decode(Url, KeyOf(bytes)[4..]) == Some(bytes)
  {
    EncodeLength(Url, bytes);
    EncodeAlphabet(Url, bytes);
    DecodeEncode(Url, bytes);
    assert KeyOf(bytes)[4..] == Encode(Url, bytes) && KeyOf(bytes)[..4] == KEY_PREFIX;
    LettersOf(KeyOf(bytes));
  }

  /**
   * Sixteen spellings name the same 32 bytes, one of them generated: a well-formed key is one that
   * Generate can return exactly when its last letter carries no stray bits.
   */
  lemma GeneratedKeysAreCanonical(key: string)
    requires WellFormedKey(key)
    ensures (exists bytes: seq<Byte> :: |bytes| == KEY_LENGTH && KeyOf(bytes) == key)
       <==> TrailingBitsZero(Sextets(Url, key[4..]).value)
  {
    FormatLanguage(key);
    var body := key[4..];
    LettersOf(key);
    EncodeDecode(Url, body);
    assert !InAlphabet(Url, '\r') && !InAlphabet(Url, '\n');
    assert Canonical(Url, body) <==> TrailingBitsZero(Sextets(Url, body).value);
    var decoded := Decode(Url, body).value;
    if TrailingBitsZero(Sextets(Url, body).value) {
      assert KeyOf(decoded) == key[..4] + body == key;
    }
    if bytes: seq<Byte> :| |bytes| == KEY_LENGTH && KeyOf(bytes) == key {
      GeneratedKeyWellFormed(bytes);
      assert Encode(Url, bytes) == body;
    }
  }

  // ---------- printing and parsing a stored hash ----------

  /** The printed hash has one ':' and parses back to the salt and digest that were printed. */
  lemma ParseInvertsHash(key: string, salt: seq<Byte>, kdf: Kdf)
    ensures Parse(HashOf(key, salt, kdf)) == Ok(StoredHash(salt, kdf(key, salt)))
    ensures ':' !in Encode(Std, salt) && ':' !in Encode(Std, kdf(key, salt))
  {
    var s, d := Encode(Std, salt), Encode(Std, kdf(key, salt));
    EncodeAlphabet(Std, salt);
    EncodeAlphabet(Std, kdf(key, salt));
    Text.FindAfterPrefix(s, ':', d);
    var encoded := HashOf(key, salt, kdf);
    assert encoded[..|s|] == s && encoded[|s| + 1..] == d;
    DecodeEncode(Std, salt);
    DecodeEncode(Std, kdf(key, salt));
  }

  /** A hash printed for one key validates another key exactly when the digests coincide. */
  lemma ValidateAgainstHashOf(key: string, other: string, salt: seq<Byte>, kdf: Kdf)
    ensures Validate(other, HashOf(key, salt, kdf), kdf) <==> kdf(other, salt) == kdf(key, salt)
  {
    ParseInvertsHash(key, salt, kdf);
  }
}

/** The bearer-token check in front of the protected routes. */
module Middleware {
  import opened ApiKey
  import opened Base64
  import Text

  datatype Decision = Next | MissingHeader | BadHeader | BadKeyFormat | BadKey

  function APIKeyAuth(header: string, storedHash: string, kdf: Kdf): Decision {
    if header == "" then MissingHeader else
    var parts := Text.SplitN(header, ' ', 2);
    if |parts| != 2 || parts[0] != "Bearer" then BadHeader else
    var key := parts[1];
    if !ValidateFormat(key) then BadKeyFormat
    else if !Validate(key, storedHash, kdf) then BadKey
    else Next
  }

  lemma BearerSplit(header: string)
    ensures (|Text.SplitN(header, ' ', 2)| == 2 && Text.SplitN(header, ' ', 2)[0] == "Bearer")
       <==> "Bearer " <= header
    ensures "Bearer " <= header ==> Text.SplitN(header, ' ', 2) == ["Bearer", header[7..]]
  {
    if "Bearer " <= header {
      assert header == "Bearer" + [' '] + header[7..];
      Text.SplitHead("Bearer", ' ', header[7..], 2);
    } else {
      Text.SplitJoin(header, ' ', 2);
    }
  }

  /**
   * A header passes exactly when it is "Bearer " and a well-formed key whose digest under the
   * stored salt is the stored digest.
   */
  lemma PassesExactly(header: string, storedHash: string, kdf: Kdf)
    ensures APIKeyAuth(header, storedHash, kdf) == Next <==>
              && "Bearer " <= header
              && WellFormedKey(header[7..])
              && Parse(storedHash).Ok?
              && var stored := Parse(storedHash).value; kdf(header[7..], stored.salt) == stored.digest
  {
    BearerSplit(header);
    if "Bearer " <= header {
      FormatLanguage(header[7..]);
    }
  }

  /** Which of the four refusals a header meets. */
  lemma RefusedExactly(header: string, storedHash: string, kdf: Kdf)
    ensures var r := APIKeyAuth(header, storedHash, kdf);
      && (r == MissingHeader <==> |header| == 0)
      && (r == BadHeader <==> |header| > 0 && !("Bearer " <= header))
      && (r == BadKeyFormat <==> "Bearer " <= header && !WellFormedKey(header[7..]))
      && (r == BadKey <==> ("Bearer " <= header && WellFormedKey(header[7..])
            && (Parse(storedHash).Ok? ==>
                  kdf(header[7..], Parse(storedHash).value.salt) != Parse(storedHash).value.digest)))
  {
    BearerSplit(header);
    if "Bearer " <= header {
      FormatLanguage(header[7..]);
    }
  }

  /** Every issued key passes against the hash it was issued with. */
  lemma IssuedKeyPasses(keyBytes: seq<Byte>, salt: seq<Byte>, kdf: Kdf)
    requires |keyBytes| == KEY_LENGTH
    ensures APIKeyAuth("Bearer " + KeyOf(keyBytes), HashOf(KeyOf(keyBytes), salt, kdf), kdf) == Next
  {
    var key := KeyOf(keyBytes);
    assert ("Bearer " + key)[7..] == key;
    GeneratedKeyWellFormed(keyBytes);
    ParseInvertsHash(key, salt, kdf);
    PassesExactly("Bearer " + key, HashOf(key, salt, kdf), kdf);
  }
}
