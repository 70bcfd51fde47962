/** Keyed index values: HMAC, taken as an injective function, written in base64url
    behind a tag. */
module BlindIndex {
  import opened Utf16
  import opened Utf8
  import Base64

  type Hmac = seq<Byte> -> seq<Byte>

  ghost predicate IsInjective(hmac: Hmac) {
    && (forall x :: hmac(x) != [])
    && forall x, y :: hmac(x) == hmac(y) ==> x == y
  }

  /** The assumption can be met. */
  lemma SomeHashIsInjective()
    ensures IsInjective((x: seq<Byte>) => [1] + x)
  {
    var hmac: Hmac := (x: seq<Byte>) => [1] + x;
    forall x, y | hmac(x) == hmac(y) ensures x == y {
      assert hmac(x)[1..] == x && hmac(y)[1..] == y;
    }
  }

  function Signed(hmac: Hmac, tag: Str, message: seq<Byte>): Str {
    tag + Base64.EncodeUrl(hmac(message))
  }

  /** The written index shows nothing of the message but its keyed hash. */
  lemma OnlyTheHashShows(hmac: Hmac, tag: Str, a: seq<Byte>, b: seq<Byte>)
    requires hmac(a) == hmac(b)
    ensures Signed(hmac, tag, a) == Signed(hmac, tag, b)
  {
  }

  /** The written index still identifies the message. */
  lemma SignedInjective(hmac: Hmac, tag: Str, a: seq<Byte>, b: seq<Byte>)
    requires IsInjective(hmac) && Signed(hmac, tag, a) == Signed(hmac, tag, b)
    ensures a == b
  {
    hide Base64.EncodeUrl;
    assert Signed(hmac, tag, a)[|tag|..] == Base64.EncodeUrl(hmac(a));
    assert Signed(hmac, tag, b)[|tag|..] == Base64.EncodeUrl(hmac(b));
    Base64.EncodeUrlInjective(hmac(a), hmac(b));
  }
}
