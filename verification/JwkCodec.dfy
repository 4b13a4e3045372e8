/** RSA public keys as JWKs: section 6.3.1 of RFC 7518, with Base64urlUInt of its section 2. */
module JwkCodec {
  import opened Base64Url
  import opened Bytes
  import opened Machine
  import opened Wrappers

  const MAX_MODULUS_BITS: nat := 8192

  datatype PublicKey = PublicKey(n: nat, e: int)

  datatype Jwk = Jwk(kty: string, kid: string, use: string, alg: string, n: string, e: string)

  datatype Error = BadModulus | BadExponent | InvalidExponent | ModulusTooLarge | NoKeys

  // big.Int.Bytes: the shortest such byte string.
  function ToBytes(n: nat): seq<Byte> {
    if n == 0 then [] else ToBytes(n / 256) + [n % 256]
  }

  function BitLen(n: nat): nat {
    if n == 0 then 0 else 1 + BitLen(n / 2)
  }

  // e<<8 | b on an int: the shift wraps, and the low byte it leaves empty takes b.
  function ShiftIn(e: int, b: Byte): int {
    Int64(e * 256) + b
  }

  function ExponentLoop(bytes: seq<Byte>): int {
    if bytes == [] then 0 else ShiftIn(ExponentLoop(bytes[..|bytes| - 1]), bytes[|bytes| - 1])
  }

  method Exponent(bytes: seq<Byte>) returns (e: int)
    ensures e == Int64(BigEndian(bytes))
  {
    e := 0;
    for i := 0 to |bytes|
      invariant e == ExponentLoop(bytes[..i])
    {
      assert bytes[..i + 1][..i] == bytes[..i];
      e := ShiftIn(e, bytes[i]);
    }
    assert bytes[..|bytes|] == bytes;
    ExponentIsBigEndian(bytes);
  }

  function Encode(key: PublicKey, kid: string): Jwk
    requires key.e >= 0
  {
    Jwk("RSA", kid, "sig", "RS256", Base64Url.Encode(ToBytes(key.n)), Base64Url.Encode(ToBytes(key.e)))
  }

  function Parse(k: Jwk): Result<PublicKey, Error> {
    var n, e := Base64Url.Decode(k.n), Base64Url.Decode(k.e);
    if n.None? then Err(BadModulus)
    else if e.None? then Err(BadExponent)
    else if ExponentLoop(e.value) < 2 then Err(InvalidExponent)
    else if BitLen(BigEndian(n.value)) > MAX_MODULUS_BITS then Err(ModulusTooLarge)
    else Ok(PublicKey(BigEndian(n.value), ExponentLoop(e.value)))
  }

  lemma {:induction false} BytesRoundTrip(n: nat)
    ensures BigEndian(ToBytes(n)) == n
  {
    if n == 0 {
    } else {
      BytesRoundTrip(n / 256);
      assert ToBytes(n)[..|ToBytes(n)| - 1] == ToBytes(n / 256);
    }
  }

  // No shorter byte string would do: the first byte is not zero.
  lemma {:induction false} BytesAreShortest(n: nat)
    ensures n > 0 ==> ToBytes(n) != [] && ToBytes(n)[0] != 0
  {
    if n < 256 {
    } else {
      BytesAreShortest(n / 256);
      assert ToBytes(n)[0] == ToBytes(n / 256)[0];
    }
  }

  function Pow2(k: nat): nat {
    if k == 0 then 1 else 2 * Pow2(k - 1)
  }

  // The bit length of n is at most k exactly when n is below 2^k.
  lemma {:induction false} BitLenMeans(n: nat, k: nat)
    ensures BitLen(n) <= k <==> n < Pow2(k)
  {
    if n == 0 {
      Pow2IsPositive(k);
    } else if k == 0 {
    } else {
      BitLenMeans(n / 2, k - 1);
      assert n / 2 < Pow2(k - 1) <==> n < 2 * Pow2(k - 1);
    }
  }

  lemma {:induction false} Pow2IsPositive(k: nat)
    ensures Pow2(k) > 0
  {
    if k == 0 {
    } else {
      Pow2IsPositive(k - 1);
    }
  }

  lemma MulMonotone(a: int, b: int, m: int)
    requires a >= b && m > 0
    ensures a * m >= b * m
  {
    assert (a - b) * m >= 0;
  }

  lemma DivisionUnique(a: int, m: int, q: int, r: int)
    requires m > 0 && a == q * m + r && 0 <= r < m
    ensures a % m == r
  {
    var q', r' := a / m, a % m;
    assert a == q' * m + r';
    if q > q' { MulMonotone(q, q' + 1, m); }
    if q < q' { MulMonotone(q', q + 1, m); }
  }

  // Multiples of m do not matter.
  lemma ModIgnores(x: int, k: int, m: int)
    requires m > 0
    ensures (x + k * m) % m == x % m
  {
    assert x + k * m == (x / m + k) * m + x % m;
    DivisionUnique(x + k * m, m, x / m + k, x % m);
  }

  lemma Int64Ignores(x: int, k: int)
    ensures Int64(x + k * TWO_64) == Int64(x)
  {
    ModIgnores(x, k, TWO_64);
  }

  lemma Int64IsShift(x: int) returns (k: int)
    ensures Int64(x) == x + k * TWO_64
  {
    k := -(x / TWO_64) - if x % TWO_64 < TWO_63 then 0 else 1;
  }

  // Wrapping early or late is the same.
  lemma WrapEarly(x: int, b: Byte)
    ensures ShiftIn(Int64(x), b) == Int64(x * 256 + b)
  {
    hide Int64;
    var k := Int64IsShift(x);
    assert Int64(x) * 256 == x * 256 + (256 * k) * TWO_64;
    Int64Ignores(x * 256, 256 * k);
    AddByte(x * 256, b);
  }

  // A multiple of 256 leaves room for a byte.
  lemma RoomForByte(r: int, h: int, b: Byte)
    requires r % 256 == 0 && r < 256 * h
    ensures r + b < 256 * h
  {
    assert r / 256 <= h - 1;
  }

  lemma RemainderIsAligned(y: int)
    requires y % 256 == 0
    ensures y % TWO_64 % 256 == 0
  {
    var q := y / TWO_64;
    assert y % TWO_64 == y + (-q * 0x100_0000_0000_0000) * 256;
    ModIgnores(y, -q * 0x100_0000_0000_0000, 256);
  }

  lemma RemainderPlusByte(y: int, b: Byte)
    requires y % TWO_64 + b < TWO_64
    ensures (y + b) % TWO_64 == y % TWO_64 + b
  {
    DivisionUnique(y + b, TWO_64, y / TWO_64, y % TWO_64 + b);
  }

  lemma AddByte(y: int, b: Byte)
    requires y % 256 == 0
    ensures Int64(y) + b == Int64(y + b)
  {
    var r := y % TWO_64;
    RemainderIsAligned(y);
    RoomForByte(r, 0x100_0000_0000_0000, b);
    RemainderPlusByte(y, b);
    if r < TWO_63 {
      RoomForByte(r, 0x80_0000_0000_0000, b);
    }
  }

  /** For every byte string the exponent loop is its big-endian value modulo 2^64, read as a signed int. */
  lemma {:induction false} ExponentIsBigEndian(bytes: seq<Byte>)
    ensures ExponentLoop(bytes) == Int64(BigEndian(bytes))
  {
    if bytes == [] {
    } else {
      ExponentIsBigEndian(bytes[..|bytes| - 1]);
      WrapEarly(BigEndian(bytes[..|bytes| - 1]), bytes[|bytes| - 1]);
    }
  }

  /** Parsing an encoded key returns it exactly when its exponent is at least 2 and its modulus has at most 8192 bits,
      for every modulus and every exponent a non-negative int can hold. */
  lemma KeyRoundTrip(key: PublicKey, kid: string)
    requires 0 <= key.e < TWO_63
    ensures Parse(Encode(key, kid)) == Ok(key) <==> 2 <= key.e && key.n < Pow2(8192)
  {
    hide Base64Url.Encode, Base64Url.Decode, ToBytes, BigEndian, ExponentLoop, BitLen, Int64, Pow2;
    BitLenMeans(key.n, 8192);
    RoundTrip(ToBytes(key.n));
    RoundTrip(ToBytes(key.e));
    BytesRoundTrip(key.n);
    BytesRoundTrip(key.e);
    ExponentIsBigEndian(ToBytes(key.e));
    Int64Keeps(key.e);
  }

  // The key set of a document: RSA keys by kid, the last of equal kids winning; other types are passed over.
  function ParseKeys(keys: seq<Jwk>): Result<map<string, PublicKey>, Error> {
    if keys == [] then Ok(map[])
    else
      var front, k := ParseKeys(keys[..|keys| - 1]), keys[|keys| - 1];
      if front.Err? || k.kty != "RSA" then front
      else match Parse(k)
        case Err(e) => Err(e)
        case Ok(key) => Ok(front.value[k.kid := key])
  }

  method ParseJWKS(keys: seq<Jwk>) returns (r: Result<map<string, PublicKey>, Error>)
    ensures r == if ParseKeys(keys) == Ok(map[]) then Err(NoKeys) else ParseKeys(keys)
  {
    var out: map<string, PublicKey> := map[];
    for i := 0 to |keys|
      invariant ParseKeys(keys[..i]) == Ok(out)
    {
      assert keys[..i + 1][..i] == keys[..i];
      var k := keys[i];
      if k.kty == "RSA" {
        var parsed := Parse(k);
        if parsed.Err? {
          ErrorsStick(keys, i + 1);
          return Err(parsed.error);
        }
        out := out[k.kid := parsed.value];
      }
    }
    assert keys[..|keys|] == keys;
    if |out| == 0 {
      return Err(NoKeys);
    }
    return Ok(out);
  }

  // Once one key fails, the document fails with that error.
  lemma {:induction false} ErrorsStick(keys: seq<Jwk>, i: nat)
    requires i <= |keys| && ParseKeys(keys[..i]).Err?
    ensures ParseKeys(keys) == ParseKeys(keys[..i])
  {
    if i < |keys| {
      var front := keys[..|keys| - 1];
      assert front[..i] == keys[..i];
      ErrorsStick(front, i);
    } else {
      assert keys[..i] == keys;
    }
  }

  predicate Usable(keys: seq<Jwk>, i: nat)
    requires i < |keys|
  {
    keys[i].kty == "RSA" && Parse(keys[i]).Ok?
  }

  /** A document is accepted exactly when every RSA key in it parses, and then holds kid exactly when some RSA
      key has it, with the value of the last such key. */
  lemma {:induction false} ParseKeysMeans(keys: seq<Jwk>, kid: string)
    ensures ParseKeys(keys).Ok? <==> forall i | 0 <= i < |keys| && keys[i].kty == "RSA" :: Parse(keys[i]).Ok?
    ensures ParseKeys(keys).Ok? ==>
      if kid in ParseKeys(keys).value
      then exists i | 0 <= i < |keys| && Usable(keys, i) && keys[i].kid == kid ::
             && Parse(keys[i]) == Ok(ParseKeys(keys).value[kid])
             && forall j | i < j < |keys| :: keys[j].kty != "RSA" || keys[j].kid != kid
      else forall i | 0 <= i < |keys| && keys[i].kty == "RSA" :: keys[i].kid != kid
  {
    hide Parse;
    if keys == [] {
    } else {
      var front, k := keys[..|keys| - 1], keys[|keys| - 1];
      assert keys == front + [k];
      ParseKeysMeans(front, kid);
      assert forall i | 0 <= i < |front| :: front[i] == keys[i];
      if ParseKeys(keys).Ok? && kid in ParseKeys(keys).value {
        if k.kty == "RSA" && k.kid == kid {
          assert Usable(keys, |front|);
        } else {
          var i :| 0 <= i < |front| && Usable(front, i) && front[i].kid == kid
                && Parse(front[i]) == Ok(ParseKeys(front).value[kid])
                && forall j | i < j < |front| :: front[j].kty != "RSA" || front[j].kid != kid;
          assert Usable(keys, i);
        }
      }
    }
  }

  /** The document an issuer publishes resolves to its own key. */
  lemma {:induction false} PublishedKeyParses(key: PublicKey, kid: string)
    requires 2 <= key.e < TWO_63 && key.n < Pow2(8192)
    ensures ParseKeys([Encode(key, kid)]) == Ok(map[kid := key])
  {
    hide Parse, Pow2;
    KeyRoundTrip(key, kid);
    assert [Encode(key, kid)][..0] == [];
    assert ParseKeys([]) == Ok(map[]);
  }

  // A text the decoder accepts.
  predicate Readable(text: string) {
    Clean(StripBreaks(text)) && |StripBreaks(text)| % 4 != 1
  }

  lemma ReadableMeans(text: string)
    ensures Readable(text) <==> Decode(text).Some?
  {
    DecodeAcceptsIff(StripBreaks(text));
  }

  /** What parsing a key comes to, for any texts: an unreadable modulus is reported first, then an unreadable exponent, an
      exponent whose int64 value is below 2, and a modulus of 2^8192 or more; else the key has both values. */
  lemma ParseMeans(k: Jwk)
    ensures Parse(k) == Err(BadModulus) <==> !Readable(k.n)
    ensures Parse(k) == Err(BadExponent) <==> Readable(k.n) && !Readable(k.e)
    ensures Readable(k.n) && Readable(k.e) ==>
      var n, e := BigEndian(Decode(k.n).value), Int64(BigEndian(Decode(k.e).value));
      Parse(k) == if e < 2 then Err(InvalidExponent)
                  else if n >= Pow2(8192) then Err(ModulusTooLarge)
                  else Ok(PublicKey(n, e))
  {
    hide Readable, Base64Url.Decode, BigEndian, ExponentLoop, Int64, BitLen, Pow2;
    ReadableMeans(k.n);
    ReadableMeans(k.e);
    if Readable(k.n) && Readable(k.e) {
      ExponentIsBigEndian(Decode(k.e).value);
      BitLenMeans(BigEndian(Decode(k.n).value), 8192);
    }
  }
}
