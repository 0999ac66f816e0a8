/** The signed client cookie: `signClientData` turns a payload into
    base64(json || "|" || hex HMAC-SHA256(json, app key)) and `verifyClientData` undoes it,
    answering null for every token it cannot authenticate. */
module CookieSecurity {
  import opened Wrappers

  /** The payload the middleware reads back: `id` and `name` of the client, `user_id` of the
      user it was issued to, and a nonce that nothing checks. */
  datatype ClientData = ClientData(id: int, name: string, userId: int, nonce: string)

  /** The encoding and hashing primitives the service calls: `base64_encode`/`base64_decode`
      (section 4 of RFC 4648; `None` stands for PHP's `false`), `json_encode`/`json_decode`
      (`None` stands for `null`) and `hash_hmac('sha256', message, key)` (RFC 2104 over
      SHA-256). They are parameters; `Lawful` states all that the proofs assume of them. */
  datatype Primitives = Primitives(
    base64Encode: string -> string,
    base64Decode: string -> Option<string>,
    jsonEncode: ClientData -> string,
    jsonDecode: string -> Option<ClientData>,
    hmacSha256: (string, string) -> string)

  predicate IsLowerHexDigit(c: char) {
    '0' <= c <= '9' || 'a' <= c <= 'f'
  }

  /** `ctype_xdigit` accepts both letter cases. */
  predicate IsHexDigit(c: char) {
    '0' <= c <= '9' || 'a' <= c <= 'f' || 'A' <= c <= 'F'
  }

  /** Decoding inverts encoding; JSON leaves a `|` of the name in place; base64 turns every
      group of up to three input bytes into four characters, so non-empty text never encodes to
      fewer than four; an HMAC-SHA256 digest is 64 lower-case hex digits. */
  ghost predicate Lawful(p: Primitives) {
    && (forall s :: p.base64Decode(p.base64Encode(s)) == Some(s))
    && (forall d :: p.jsonDecode(p.jsonEncode(d)) == Some(d))
    && (forall d: ClientData :: '|' in d.name ==> '|' in p.jsonEncode(d))
    && (forall s :: s != [] ==> |p.base64Encode(s)| >= 4)
    && (forall m, k :: |p.hmacSha256(m, k)| == 64 &&
                       forall i :: 0 <= i < 64 ==> IsLowerHexDigit(p.hmacSha256(m, k)[i]))
  }

  /** PHP truthiness of a string: only "" and "0" are false. */
  predicate Falsy(s: string) {
    s == "" || s == "0"
  }

  /** `explode(sep, s, 2)` when it yields two parts: the text before the first `sep` and
      everything after it. `None` when `sep` does not occur (one part). */
  function SplitFirst(s: string, sep: char): (r: Option<(string, string)>)
    ensures r.None? <==> sep !in s
    ensures r.Some? ==> s == r.value.0 + [sep] + r.value.1 && sep !in r.value.0
  {
    if s == [] then None
    else if s[0] == sep then Some(([], s[1..]))
    else match SplitFirst(s[1..], sep)
      case None => None
      case Some((before, after)) => Some(([s[0]] + before, after))
  }

  /** A split at a separator that the first part does not contain is the split at the first one. */
  lemma {:induction false} SplitFirstAt(before: string, sep: char, after: string)
    requires sep !in before
    ensures SplitFirst(before + [sep] + after, sep) == Some((before, after))
  {
    if before == [] {
      assert before + [sep] + after == [sep] + after;
    } else {
      var s := before + [sep] + after;
      assert s[0] == before[0] != sep;
      assert s[1..] == before[1..] + [sep] + after;
      SplitFirstAt(before[1..], sep, after);
      assert [before[0]] + before[1..] == before;
    }
  }

  /** The decoded text a genuine token carries: the JSON, a bar, the hex signature. */
  function SignedText(p: Primitives, key: string, d: ClientData): string {
    var data := p.jsonEncode(d);
    data + "|" + p.hmacSha256(data, key)
  }

  /** `signClientData`. */
  function SignClientData(p: Primitives, key: string, d: ClientData): (token: string)
    ensures Lawful(p) ==>
      p.base64Decode(token) == Some(p.jsonEncode(d) + "|" + p.hmacSha256(p.jsonEncode(d), key))
  {
    p.base64Encode(SignedText(p, key, d))
  }

  /** `signed` decodes to `data`, a bar and the HMAC of `data` under `key`, and `data` holds no
      bar: exactly the tokens `verifyClientData` authenticates. */
  ghost predicate Authentic(p: Primitives, key: string, signed: string, data: string) {
    p.base64Decode(signed) == Some(data + "|" + p.hmacSha256(data, key)) && '|' !in data
  }

  /** `verifyClientData`: every failure (undecodable or falsy text, no separator, signature
      mismatch, undecodable JSON) is `None`; nothing escapes as an exception. */
  function VerifyClientData(p: Primitives, key: string, signed: string): (r: Option<ClientData>)
    ensures p.base64Decode(signed).None? ==> r.None?
    ensures p.base64Decode(signed).Some? && Falsy(p.base64Decode(signed).value) ==> r.None?
    ensures p.base64Decode(signed).Some? && '|' !in p.base64Decode(signed).value ==> r.None?
    ensures r.Some? ==> exists data :: Authentic(p, key, signed, data) && p.jsonDecode(data) == r
  {
    match p.base64Decode(signed)
    case None => None
    case Some(decoded) =>
      if Falsy(decoded) then None
      else match SplitFirst(decoded, '|')
        case None => None
        case Some((data, signature)) =>
          if p.hmacSha256(data, key) != signature then None
          else
            assert Authentic(p, key, signed, data);
            p.jsonDecode(data)
  }

  /** Every authentic token is accepted, with the payload its JSON decodes to. */
  lemma AuthenticAccepted(p: Primitives, key: string, signed: string, data: string)
    requires Authentic(p, key, signed, data)
    ensures VerifyClientData(p, key, signed) == p.jsonDecode(data)
  {
    SplitFirstAt(data, '|', p.hmacSha256(data, key));
    var decoded := data + "|" + p.hmacSha256(data, key);
    assert decoded[|data|] == '|';
    assert !Falsy(decoded);
  }

  /** A token whose text splits into `data` and a signature other than the HMAC of `data` under
      this key is rejected: editing the data without re-signing is caught. */
  lemma ForgedSignatureRejected(p: Primitives, key: string, signed: string, data: string, signature: string)
    requires p.base64Decode(signed) == Some(data + "|" + signature)
    requires '|' !in data
    requires signature != p.hmacSha256(data, key)
    ensures VerifyClientData(p, key, signed) == None
  {
    SplitFirstAt(data, '|', signature);
  }

  /** Round trip: a payload whose JSON holds no bar verifies to itself. */
  lemma RoundTrip(p: Primitives, key: string, d: ClientData)
    requires Lawful(p)
    requires '|' !in p.jsonEncode(d)
    ensures VerifyClientData(p, key, SignClientData(p, key, d)) == Some(d)
  {
    AuthenticAccepted(p, key, SignClientData(p, key, d), p.jsonEncode(d));
  }

  /** The split at the first bar defeats the round trip: a payload whose JSON holds a bar never
      verifies, because the "signature" then carries the rest of the JSON, a bar and the real
      digest, longer than any digest. */
  lemma BarInJsonNeverVerifies(p: Primitives, key: string, d: ClientData)
    requires Lawful(p)
    requires '|' in p.jsonEncode(d)
    ensures VerifyClientData(p, key, SignClientData(p, key, d)) == None
  {
    var json := p.jsonEncode(d);
    var digest := p.hmacSha256(json, key);
    var text := json + "|" + digest;
    var split := SplitFirst(json, '|');
    var data, rest := split.value.0, split.value.1;
    assert text == data + "|" + (rest + "|" + digest);
    SplitFirstAt(data, '|', rest + "|" + digest);
    var signature := rest + "|" + digest;
    assert |signature| > 64 == |p.hmacSha256(data, key)|;
  }

  /** So a client whose name contains a bar can never hold a cookie that verifies. */
  lemma BarInNameNeverVerifies(p: Primitives, key: string, d: ClientData)
    requires Lawful(p)
    requires '|' in d.name
    ensures VerifyClientData(p, key, SignClientData(p, key, d)) == None
  {
    BarInJsonNeverVerifies(p, key, d);
  }

  /** Altering the JSON without re-signing (the new text is not signed by the old digest) is
      rejected. */
  lemma TamperedDataRejected(p: Primitives, key: string, d: ClientData, forged: string)
    requires Lawful(p)
    requires '|' !in forged
    requires p.hmacSha256(forged, key) != p.hmacSha256(p.jsonEncode(d), key)
    ensures VerifyClientData(p, key,
              p.base64Encode(forged + "|" + p.hmacSha256(p.jsonEncode(d), key))) == None
  {
    ForgedSignatureRejected(p, key, p.base64Encode(forged + "|" + p.hmacSha256(p.jsonEncode(d), key)),
                            forged, p.hmacSha256(p.jsonEncode(d), key));
  }

  /** A token signed under one key is rejected under another key whose digest of the same JSON
      differs. */
  lemma WrongKeyRejected(p: Primitives, signingKey: string, checkingKey: string, d: ClientData)
    requires Lawful(p)
    requires '|' !in p.jsonEncode(d)
    requires p.hmacSha256(p.jsonEncode(d), signingKey) != p.hmacSha256(p.jsonEncode(d), checkingKey)
    ensures VerifyClientData(p, checkingKey, SignClientData(p, signingKey, d)) == None
  {
    ForgedSignatureRejected(p, checkingKey, SignClientData(p, signingKey, d),
                            p.jsonEncode(d), p.hmacSha256(p.jsonEncode(d), signingKey));
  }

  /** `createSecureClientCookie`: the signed payload and an expiry seven days after `now`
      (a Unix timestamp in seconds, read from the clock by the caller). */
  datatype SecureClientCookie = SecureClientCookie(clientData: string, expires: int)

  const SevenDays: int := 7 * 24 * 60 * 60

  function CreateSecureClientCookie(p: Primitives, key: string, d: ClientData, now: int): (c: SecureClientCookie)
    ensures c.expires - now == 604800
    ensures Lawful(p) ==>
      p.base64Decode(c.clientData) == Some(p.jsonEncode(d) + "|" + p.hmacSha256(p.jsonEncode(d), key))
  {
    SecureClientCookie(SignClientData(p, key, d), now + SevenDays)
  }

  /** The cookie made for a payload whose JSON holds no bar verifies to that payload. */
  lemma SecureCookieVerifies(p: Primitives, key: string, d: ClientData, now: int)
    requires Lawful(p)
    requires '|' !in p.jsonEncode(d)
    ensures VerifyClientData(p, key, CreateSecureClientCookie(p, key, d, now).clientData) == Some(d)
  {
    RoundTrip(p, key, d);
  }

  /** `bin2hex`: two lower-case hex digits per byte, high nibble first. */
  function HexDigit(n: nat): (c: char)
    requires n < 16
    ensures IsLowerHexDigit(c)
  {
    "0123456789abcdef"[n]
  }

  function BinToHex(bytes: seq<bv8>): string {
    if bytes == [] then ""
    else [HexDigit((bytes[0] as nat) / 16), HexDigit((bytes[0] as nat) % 16)] + BinToHex(bytes[1..])
  }

  lemma {:induction false} BinToHexShape(bytes: seq<bv8>)
    ensures |BinToHex(bytes)| == 2 * |bytes|
    ensures forall i :: 0 <= i < |BinToHex(bytes)| ==> IsLowerHexDigit(BinToHex(bytes)[i])
  {
    if bytes != [] {
      BinToHexShape(bytes[1..]);
    }
  }

  /** `generateNonce`: `random_bytes(16)` is passed in. */
  function GenerateNonce(randomBytes: seq<bv8>): (nonce: string)
    requires |randomBytes| == 16
    ensures ValidateNonce(nonce)
    ensures forall i :: 0 <= i < |nonce| ==> IsLowerHexDigit(nonce[i])
  {
    BinToHexShape(randomBytes);
    BinToHex(randomBytes)
  }

  /** `validateNonce`: a format check only. `strlen` counts bytes, but a string that
      `ctype_xdigit` accepts is ASCII, so bytes and characters agree whenever it matters. */
  predicate ValidateNonce(nonce: string) {
    |nonce| == 32 && forall i :: 0 <= i < |nonce| ==> IsHexDigit(nonce[i])
  }

  /** On hex encodings the nonce check is a length check: it accepts the encoding of exactly the
      16-byte inputs, so it accepts every nonce `generateNonce` makes and no shorter or longer
      encoding. */
  lemma {:induction false} ValidateNonceOfHex(bytes: seq<bv8>)
    ensures ValidateNonce(BinToHex(bytes)) <==> |bytes| == 16
  {
    BinToHexShape(bytes);
  }

  /** The check is looser than the generator: it accepts upper-case digits, which no encoding
      of random bytes ever contains. */
  lemma UpperCaseNonceAccepted(bytes: seq<bv8>)
    ensures ValidateNonce("0123456789ABCDEF0123456789ABCDEF")
    ensures BinToHex(bytes) != "0123456789ABCDEF0123456789ABCDEF"
  {
    var upper := "0123456789ABCDEF0123456789ABCDEF";
    BinToHexShape(bytes);
    if |BinToHex(bytes)| == |upper| {
      assert IsLowerHexDigit(BinToHex(bytes)[10]) && !IsLowerHexDigit(upper[10]);
    }
  }
}
