/** The four hashes of an address (src/address.cpp:326-340, src/hash.cpp:165-177). */
module AddressHashes {
  import opened AddressObjects
  import opened Sha
  import Addresses
  import Observations
  import RoundTrips
  import Sha1
  import Sha256

  /** A C++ string as the hash functions see it. */
  function Bytes(s: string): (b: seq<byte>)
    requires RoundTrips.PlainText(s)
    ensures |b| == |s| && forall i :: 0 <= i < |s| ==> b[i] == s[i] as int
  {
    seq(|s|, i requires 0 <= i < |s| => s[i] as int)
  }

  lemma UrnIsPlain(a: Addresses.AddressState)
    requires Addresses.AddressOk(a)
    ensures RoundTrips.PlainText(Addresses.Nss(a)) && RoundTrips.PlainText(Addresses.Urn(a))
  {
    RoundTrips.NssIsPlain(a);
  }

  method Hash(a: Address) returns (out: string)
    requires a.Valid()
    ensures RoundTrips.PlainText(Addresses.Urn(a.View()))
    ensures out == ToHex(Sha1.Hash(Bytes(Addresses.Urn(a.View()))))
  {
    UrnIsPlain(a.View());
    var text := a.Str();
    out := Sha1.ComputeHex(Bytes(text));
  }

  method NssHash(a: Address) returns (out: string)
    requires a.Valid()
    ensures RoundTrips.PlainText(Addresses.Nss(a.View()))
    ensures out == ToHex(Sha1.Hash(Bytes(Addresses.Nss(a.View()))))
  {
    UrnIsPlain(a.View());
    var text := a.Nss();
    out := Sha1.ComputeHex(Bytes(text));
  }

  method Hash256(a: Address) returns (out: string)
    requires a.Valid()
    ensures RoundTrips.PlainText(Addresses.Urn(a.View()))
    ensures out == ToHex(Sha256.Hash(Bytes(Addresses.Urn(a.View()))))
  {
    UrnIsPlain(a.View());
    var text := a.Str();
    out := Sha256.ComputeHex(Bytes(text));
  }

  method NssHash256(a: Address) returns (out: string)
    requires a.Valid()
    ensures RoundTrips.PlainText(Addresses.Nss(a.View()))
    ensures out == ToHex(Sha256.Hash(Bytes(Addresses.Nss(a.View()))))
  {
    UrnIsPlain(a.View());
    var text := a.Nss();
    out := Sha256.ComputeHex(Bytes(text));
  }

  lemma BytesInjective(s: string, t: string)
    requires RoundTrips.PlainText(s) && RoundTrips.PlainText(t)
    ensures Bytes(s) == Bytes(t) ==> s == t
  {
    if Bytes(s) == Bytes(t) {
      forall i | 0 <= i < |s| ensures s[i] == t[i] {
        assert Bytes(s)[i] == Bytes(t)[i];
      }
    }
  }

  /**
   * What is hashed names the address: two reachable addresses, complete or not, with the same hashed blocks
   * have the same canonical form. (A digest alone can of course collide.)
   */
  lemma HashedBlocksNameTheAddress(a: Addresses.AddressState, b: Addresses.AddressState)
    requires Addresses.AddressOk(a) && Addresses.AddressOk(b)
    requires RoundTrips.PlainText(Addresses.Urn(a)) && RoundTrips.PlainText(Addresses.Urn(b))
    requires |Addresses.Urn(a)| < 0x2000_0000_0000_0000 && |Addresses.Urn(b)| < 0x2000_0000_0000_0000
    requires Pad(Bytes(Addresses.Urn(a))) == Pad(Bytes(Addresses.Urn(b)))
    ensures Addresses.Canonical(a) == Addresses.Canonical(b)
  {
    PadInjective(Bytes(Addresses.Urn(a)), Bytes(Addresses.Urn(b)));
    BytesInjective(Addresses.Urn(a), Addresses.Urn(b));
    Observations.SameTextSameAddress(a, b);
  }
}
