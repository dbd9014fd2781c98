/** The address texts of utility.cpp: base-58 with version and checksum, and Bech32 for witness programs. */
module Addresses {
  import opened BlockchainTypes
  import opened Numbers
  import Base58
  import opened ConvertBits
  import Bech32

  /** The coin's parameters, and the hash functions, of which only the output length matters. */
  datatype Coin = Coin(
    p2pkhVersion: Byte,
    p2shVersion: Byte,
    bech32Prefix: string,
    sha256: seq<Byte> -> seq<Byte>,
    ripeMD160: seq<Byte> -> seq<Byte>)
  {
    ghost predicate Sound() {
      && (forall x :: |sha256(x)| == 32)
      && (forall x :: |ripeMD160(x)| == 20)
    }
  }

  /** Version, hash, and the first four bytes of the double hash of both. */
  function Payload(coin: Coin, version: Byte, hash: seq<Byte>): seq<Byte>
    requires coin.Sound()
  {
    [version] + hash + coin.sha256(coin.sha256([version] + hash))[..4]
  }

  method RipeMD160ToAddress(coin: Coin, versionByte: Byte, ripeMD: seq<Byte>) returns (address: string)
    requires coin.Sound()
    ensures address == Base58.Encode(Payload(coin, versionByte, ripeMD))
  {
    var bytes := [versionByte] + ripeMD;
    var doubleHashed := coin.sha256(coin.sha256(bytes));
    for i := 0 to 4
      invariant bytes == [versionByte] + ripeMD + doubleHashed[..i]
    {
      bytes := bytes + [doubleHashed[i]];
    }
    address := Base58.Base58(bytes);
  }

  /** What an address of a public key or of a script hash stands for. */
  function KeyAddress(coin: Coin, key: seq<Byte>): string
    requires coin.Sound()
  {
    Base58.Encode(Payload(coin, coin.p2pkhVersion, coin.ripeMD160(coin.sha256(key))))
  }

  method PublicKeyToAddress(coin: Coin, publicKey: seq<Byte>) returns (address: string)
    requires coin.Sound()
    ensures address == KeyAddress(coin, publicKey)
  {
    address := RipeMD160ToAddress(coin, coin.p2pkhVersion, coin.ripeMD160(coin.sha256(publicKey)));
  }

  function ToGroups(g: seq<nat>): (v: seq<Bech32.Group>)
    requires Digits(g, 32)
    ensures |v| == |g|
  {
    seq(|g|, i requires 0 <= i < |g| => g[i] as Bech32.Group)
  }

  lemma TwoFive()
    ensures Two(5) == 32 && Two(8) == 256
  {
  }

  /** The text is that of the witness program: version 0 and the program in five-bit groups. */
  ghost predicate IsBech32Address(coin: Coin, program: seq<Byte>, address: string) {
    exists g: seq<nat> :: Digits(g, 32) && Padded(program, 8, 5, g) &&
      address == Bech32.Encoded(coin.bech32Prefix, [0] + ToGroups(g))
  }

  lemma PaddedAreGroups(program: seq<Byte>, g: seq<nat>)
    requires Padded(program, 8, 5, g)
    ensures Digits(g, 32)
  {
    TwoFive();
  }

  lemma ToGroupsFront(g: seq<nat>)
    requires Digits(g, 32)
    ensures Digits([0] + g, 32) && ToGroups([0] + g) == [0] + ToGroups(g)
  {
  }

  method Bech32Address(coin: Coin, program: seq<Byte>) returns (address: string)
    ensures IsBech32Address(coin, program, address)
  {
    hide Padded, Unpadded, Bech32.Encoded, ToGroups, Two;
    TwoFive();
    var ok, enc := ConvertBits.ConvertBits([0], program, 8, 5, true);
    if ok {
      ghost var g := enc[1..];
      assert enc == [0] + g;
      PaddedAreGroups(program, g);
      ToGroupsFront(g);
      address := Bech32.Encode(coin.bech32Prefix, ToGroups(enc));
    } else {
      address := "";
    }
  }

  /** Base-58 addresses are equal only for the same version and the same hash. */
  lemma Base58AddressIsInjective(coin: Coin, v: Byte, h: seq<Byte>, v': Byte, h': seq<Byte>)
    requires coin.Sound()
    requires Base58.Encode(Payload(coin, v, h)) == Base58.Encode(Payload(coin, v', h'))
    ensures v == v' && h == h'
  {
    hide Base58.Encode, Payload, ReadAddress;
    ReadAddressIff(coin, v, h, Base58.Encode(Payload(coin, v, h)));
    ReadAddressIff(coin, v', h', Base58.Encode(Payload(coin, v, h)));
  }

  /** A reader of base-58 addresses: the last four bytes must be the first four of the double hash of the others. */
  function ReadAddress(coin: Coin, text: string): Option<(Byte, seq<Byte>)>
    requires coin.Sound()
  {
    match Base58.Decode(text)
    case None => None
    case Some(b) =>
      if |b| < 5 then None
      else
        var body, checksum := b[..|b| - 4], b[|b| - 4..];
        if checksum == coin.sha256(coin.sha256(body))[..4] then Some((body[0], body[1..])) else None
  }

  /** The reader accepts a text as version and hash if and only if it is their address. */
  lemma ReadAddressIff(coin: Coin, version: Byte, hash: seq<Byte>, text: string)
    requires coin.Sound()
    ensures ReadAddress(coin, text) == Some((version, hash)) <==> text == Base58.Encode(Payload(coin, version, hash))
  {
    hide Base58.Encode, Base58.Decode;
    var p := Payload(coin, version, hash);
    var n := |hash| + 1;
    assert p[..n] == [version] + hash && p[n..] == coin.sha256(coin.sha256([version] + hash))[..4] && |p| == n + 4;
    Base58.DecodeIff(text, p);
    if ReadAddress(coin, text) == Some((version, hash)) {
      var b := Base58.Decode(text).value;
      assert b[..|b| - 4] == [version] + hash;
      assert b == b[..|b| - 4] + b[|b| - 4..] == p;
    }
  }

  lemma SpellIsInjective(u: seq<Bech32.Group>, v: seq<Bech32.Group>)
    requires Bech32.SpellGroups(u) == Bech32.SpellGroups(v)
    ensures u == v
  {
    Bech32.SpellIsReadable(u);
    Bech32.SpellIsReadable(v);
  }

  lemma EncodedIsInjective(hrp: string, u: seq<Bech32.Group>, v: seq<Bech32.Group>)
    requires Bech32.Encoded(hrp, u) == Bech32.Encoded(hrp, v)
    ensures u == v
  {
    var cu, cv := u + Bech32.Checksum(hrp, u), v + Bech32.Checksum(hrp, v);
    assert Bech32.SpellGroups(cu) == Bech32.Encoded(hrp, u)[|hrp| + 1..] == Bech32.Encoded(hrp, v)[|hrp| + 1..] ==
      Bech32.SpellGroups(cv);
    SpellIsInjective(cu, cv);
    assert u == cu[..|cu| - 6] && v == cv[..|cv| - 6];
  }

  lemma ToGroupsIsInjective(g: seq<nat>, h: seq<nat>)
    requires Digits(g, 32) && Digits(h, 32) && ToGroups(g) == ToGroups(h)
    ensures g == h
  {
    assert |g| == |ToGroups(g)| == |ToGroups(h)| == |h|;
    forall i | 0 <= i < |g|
      ensures g[i] == h[i]
    {
      assert ToGroups(g)[i] == ToGroups(h)[i];
      Bech32.GroupIsNumber(0, g[i]);
      Bech32.GroupIsNumber(0, h[i]);
    }
  }

  /** Bech32 addresses of one coin are equal only for the same witness program. */
  lemma Bech32AddressIsInjective(coin: Coin, x: seq<Byte>, y: seq<Byte>, address: string)
    requires IsBech32Address(coin, x, address) && IsBech32Address(coin, y, address)
    ensures x == y
  {
    TwoFive();
    var g: seq<nat> :| Digits(g, 32) && Padded(x, 8, 5, g) &&
      address == Bech32.Encoded(coin.bech32Prefix, [0] + ToGroups(g));
    var h: seq<nat> :| Digits(h, 32) && Padded(y, 8, 5, h) &&
      address == Bech32.Encoded(coin.bech32Prefix, [0] + ToGroups(h));
    EncodedIsInjective(coin.bech32Prefix, [0] + ToGroups(g), [0] + ToGroups(h));
    assert ToGroups(g) == ([0] + ToGroups(g))[1..] == ([0] + ToGroups(h))[1..] == ToGroups(h);
    ToGroupsIsInjective(g, h);
    SamePadding(x, y, g);
  }

  lemma SamePadding(x: seq<Byte>, y: seq<Byte>, g: seq<nat>)
    requires Padded(x, 8, 5, g) && Padded(y, 8, 5, g)
    ensures x == y
  {
    TwoFive();
    assert |x| == |y|;
    var k := Two(BitCount(g, 5) - BitCount(x, 8));
    var vx, vy := Value(x, 256), Value(y, 256);
    DivModUnique(k, vx, vy, 0, 0);
    ValueInjective(x, y, 256);
  }

  /** A base-58 address of a 20-byte hash and a Bech32 address of a 20- or 32-byte program never meet. */
  lemma FamiliesAreDisjoint(coin: Coin, version: Byte, hash: seq<Byte>, program: seq<Byte>, address: string)
    requires coin.Sound() && |hash| == 20 && |program| >= 20 && coin.bech32Prefix != ""
    requires IsBech32Address(coin, program, address)
    ensures |Base58.Encode(Payload(coin, version, hash))| <= 35 && 41 <= |address|
    ensures Base58.Encode(Payload(coin, version, hash)) != address
  {
    hide Base58.Encode, Payload, IsBech32Address;
    Base58AddressIsShort(coin, version, hash);
    Bech32AddressIsLong(coin, program, address);
  }

  lemma Base58AddressIsShort(coin: Coin, version: Byte, hash: seq<Byte>)
    requires coin.Sound() && |hash| == 20
    ensures |Base58.Encode(Payload(coin, version, hash))| <= 35
  {
    hide Base58.Encode, Base58.Leading;
    var p := Payload(coin, version, hash);
    assert |p| == 25;
    Base58.EncodeLength(p);
  }

  lemma Bech32AddressIsLong(coin: Coin, program: seq<Byte>, address: string)
    requires |program| >= 20 && coin.bech32Prefix != "" && IsBech32Address(coin, program, address)
    ensures 41 <= |address|
  {
    var g: seq<nat> :| Digits(g, 32) && Padded(program, 8, 5, g) &&
      address == Bech32.Encoded(coin.bech32Prefix, [0] + ToGroups(g));
    PaddedLength(program, g);
    hide Padded, Digits;
    assert |address| == |coin.bech32Prefix| + 1 + (1 + |g| + 6);
  }
}
