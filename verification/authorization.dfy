/**
 Request signing (`MarvelAuthorizationAdaptor`): the catalog service checks
 every request against the MD5 digest of the timestamp, the private key and
 the public key, in that order. MD5 itself is a foreign library call and is
 modelled as an arbitrary function whose outputs have the shape of an MD5
 hex digest.
 */
module Authorization {
  import opened Common
  import Decimal

  predicate IsLowerHex(c: char) {
    ('0' <= c <= '9') || ('a' <= c <= 'f')
  }

  /** The shape of `DigestUtils.md5DigestAsHex`: 128 bits as 32 lower-case
      hexadecimal characters. */
  predicate IsHexDigest(s: string) {
    |s| == 32 && forall i :: 0 <= i < |s| ==> IsLowerHex(s[i])
  }

  const ZeroDigest: string := "00000000000000000000000000000000"

  /** An MD5 hex digest function. Nothing beyond the shape of its outputs is
      assumed; in particular it is not assumed to be collision free. */
  type Md5 = f: string -> string | forall b :: IsHexDigest(f(b))
    witness (b: string) => ZeroDigest

  /** The bytes that are hashed: decimal timestamp, private key, public key. */
  function PreImage(timestamp: Int64, publicKey: string, privateKey: string): string {
    Decimal.Render(timestamp) + privateKey + publicKey
  }

  /** `getHashForRequest(timestamp, publicKey, privateKey)`. It reads no
      state, so equal arguments give equal digests. */
  function HashForRequest(md5: Md5, timestamp: Int64, publicKey: string, privateKey: string): (r: string)
    ensures IsHexDigest(r)
    ensures !IsBlank(r)
    ensures r == md5(Decimal.Render(timestamp) + privateKey + publicKey)
  {
    var h := md5(PreImage(timestamp, publicKey, privateKey));
    assert !IsWhitespace(h[0]);
    h
  }

  /** The pre-image the unit test expects: public key before private key. */
  function TestPreImage(timestamp: Int64, publicKey: string, privateKey: string): string {
    Decimal.Render(timestamp) + publicKey + privateKey
  }

  lemma {:induction false} AppendCancel(a: string, b: string, c: string)
    requires a + c == b + c
    ensures a == b
  {
    assert |a| == |b|;
    assert forall i :: 0 <= i < |a| ==> a[i] == (a + c)[i];
    assert forall i :: 0 <= i < |b| ==> b[i] == (b + c)[i];
  }

  lemma {:induction false} PrependCancel(a: string, b: string, c: string)
    requires a + b == a + c
    ensures b == c
  {
    assert forall i :: 0 <= i < |b| ==> b[i] == (a + b)[|a| + i];
    assert forall i :: 0 <= i < |c| ==> c[i] == (a + c)[|a| + i];
  }

  /** With the keys fixed, the pre-image determines the timestamp, so a new
      timestamp always asks for the digest of a new string. */
  lemma {:induction false} PreImageDeterminesTimestamp(t1: Int64, t2: Int64, publicKey: string, privateKey: string)
    requires PreImage(t1, publicKey, privateKey) == PreImage(t2, publicKey, privateKey)
    ensures t1 == t2
  {
    var r1, r2 := Decimal.Render(t1), Decimal.Render(t2);
    assert r1 + privateKey + publicKey == r2 + privateKey + publicKey;
    AppendCancel(r1 + privateKey, r2 + privateKey, publicKey);
    AppendCancel(r1, r2, privateKey);
    Decimal.RenderInjective(t1, t2);
  }

  /** The test's pre-image equals the code's exactly when the two keys commute
      under concatenation. */
  lemma {:induction false} TestVectorAgreesIffKeysCommute(timestamp: Int64, publicKey: string, privateKey: string)
    ensures TestPreImage(timestamp, publicKey, privateKey) == PreImage(timestamp, publicKey, privateKey)
        <==> publicKey + privateKey == privateKey + publicKey
  {
    var d := Decimal.Render(timestamp);
    assert TestPreImage(timestamp, publicKey, privateKey) == d + (publicKey + privateKey);
    assert PreImage(timestamp, publicKey, privateKey) == d + (privateKey + publicKey);
    if TestPreImage(timestamp, publicKey, privateKey) == PreImage(timestamp, publicKey, privateKey) {
      PrependCancel(d, publicKey + privateKey, privateKey + publicKey);
    }
  }

  /** With the test's own keys the two pre-images differ, so the test's
      expected digest is a digest of a different string. */
  lemma TestKeysGiveDifferentPreImages(timestamp: Int64)
    ensures TestPreImage(timestamp, "public.key", "private.key") != PreImage(timestamp, "public.key", "private.key")
  {
    TestVectorAgreesIffKeysCommute(timestamp, "public.key", "private.key");
    assert ("public.key" + "private.key")[1] != ("private.key" + "public.key")[1];
  }

  /** Equal keys are enough for agreement, but not necessary: "ab" and
      "abab" are different keys whose two pre-images coincide. */
  lemma CommutingDistinctKeysAgree(timestamp: Int64)
    ensures TestPreImage(timestamp, "ab", "abab") == PreImage(timestamp, "ab", "abab")
    ensures forall k: string :: TestPreImage(timestamp, k, k) == PreImage(timestamp, k, k)
  {
    TestVectorAgreesIffKeysCommute(timestamp, "ab", "abab");
    assert "ab" + "abab" == "abab" + "ab";
  }
}
