/** Script classification and the addresses of a script. */
module ScriptSolver {
  import opened BlockchainTypes
  import opened Addresses
  import Base58

  const P2PKH := 0x01
  const P2PK := 0x02
  const P2SH := 0x03
  const P2WPKH := 0x04
  const P2WSH := 0x05
  const NULLDATA := 0x06
  const MULTISIG := 0x07
  const P2CPK := 0x08
  const KNOWN_NONSTANDARD := 0x09
  const UNKNOWN := 0xFF

  predicate IsMultiSig(s: Script) {
    s != [] && s[|s| - 1] == 0xAE
  }

  predicate IsPayToKeyHash(s: Script) {
    && |s| >= 3 && s[0] == 0x76 && s[1] == 0xA9 && s[2] == 20
    && ((|s| == 25 && s[23] == 0x88 && s[24] == 0xAC)
        || (|s| == 25 && s[23] == 0x88 && s[24] == 0xB0)
        || (|s| == 26 && s[23] == 0x88 && s[24] == 0xAC && s[25] == 0x61))
  }

  predicate IsKnownNonstandard(s: Script) {
    || (|s| == 33 && s[0] == 0x20)
    || (|s| == 37 && s[0] == 0x24)
    || (|s| == 24 && s[0] == 0x14)
    || s == [0x73, 0x63, 0x72, 0x69, 0x70, 0x74]
    || s == [0x76, 0xA9, 0x00, 0x88, 0xAC]
  }

  /** From position pos on, pushes of 1 to 75 bytes only; the last one may run past the end. */
  predicate OnlyPushes(s: Script, pos: nat)
    decreases |s| - pos
  {
    pos < |s| ==> 0x01 <= s[pos] <= 0x4B && OnlyPushes(s, pos + s[pos] + 1)
  }

  function ScriptType(s: Script): nat {
    if IsPayToKeyHash(s) then P2PKH
    else if |s| == 67 && s[0] == 65 && s[66] == 0xAC then P2PK
    else if |s| == 35 && s[0] == 0x21 && s[34] == 0xAC then P2CPK
    else if |s| == 22 && s[0] == 0x00 && s[1] == 0x14 then P2WSH
    else if |s| == 34 && s[0] == 0x00 && s[1] == 0x20 then P2WPKH
    else if |s| == 23 && s[0] == 0xA9 && s[1] == 20 && s[22] == 0x87 then P2SH
    else if |s| > 0 && s[0] == 0x6A then (if OnlyPushes(s, 1) then NULLDATA else UNKNOWN)
    else if IsMultiSig(s) then MULTISIG
    else if IsKnownNonstandard(s) then KNOWN_NONSTANDARD
    else UNKNOWN
  }

  method GetScriptType(s: Script) returns (t: nat)
    ensures t == ScriptType(s)
  {
    if IsPayToKeyHash(s) { return P2PKH; }
    if |s| == 67 && s[0] == 65 && s[66] == 0xAC { return P2PK; }
    if |s| == 35 && s[0] == 0x21 && s[34] == 0xAC { return P2CPK; }
    if |s| == 22 && s[0] == 0x00 && s[1] == 0x14 { return P2WSH; }
    if |s| == 34 && s[0] == 0x00 && s[1] == 0x20 { return P2WPKH; }
    if |s| == 23 && s[0] == 0xA9 && s[1] == 20 && s[22] == 0x87 { return P2SH; }
    if |s| > 0 && s[0] == 0x6A {
      var pos: nat := 1;
      var foundOpcodes := false;
      while pos < |s| && !foundOpcodes
        invariant OnlyPushes(s, 1) <==> !foundOpcodes && OnlyPushes(s, pos)
        decreases |s| - pos, !foundOpcodes
      {
        if 0x01 <= s[pos] <= 0x4B {
          pos := pos + s[pos] + 1;
        } else {
          foundOpcodes := true;
        }
      }
      return if foundOpcodes then UNKNOWN else NULLDATA;
    }
    if IsMultiSig(s) { return MULTISIG; }
    if IsKnownNonstandard(s) { return KNOWN_NONSTANDARD; }
    return UNKNOWN;
  }

  // ---------- Data scripts ----------

  ghost predicate DataItems(items: seq<seq<Byte>>) {
    forall i :: 0 <= i < |items| ==> 1 <= |items[i]| <= 75
  }

  /** Each item behind its length. */
  function DataPushes(items: seq<seq<Byte>>): Script
    requires DataItems(items)
  {
    if items == [] then [] else [|items[0]|] + items[0] + DataPushes(items[1..])
  }

  /** The bytes are pushes of these items, of the last of which the end may be missing, but not its length. */
  ghost predicate ArePushes(b: Script, items: seq<seq<Byte>>, missing: Script) {
    && DataItems(items) && b + missing == DataPushes(items)
    && (missing != [] ==> items != [] && |missing| <= |items[|items| - 1]|)
  }

  lemma {:induction false} LastPush(items: seq<seq<Byte>>)
    requires DataItems(items) && items != []
    ensures |DataPushes(items)| > |items[|items| - 1]|
    ensures |items| > 1 ==> |DataPushes(items)| > 1 + |items[0]| + |items[|items| - 1]|
  {
    if |items| > 1 { LastPush(items[1..]); }
  }

  lemma PushInFront(item: seq<Byte>, b: Script, items: seq<seq<Byte>>, missing: Script)
    requires ArePushes(b, items, missing) && 1 <= |item| <= 75
    ensures ArePushes([|item|] + item + b, [item] + items, missing)
  {
    var more := [item] + items;
    assert more[1..] == items;
    assert [|item|] + item + b + missing == [|item|] + item + (b + missing);
  }

  lemma {:induction false} PushesAreFound(s: Script, pos: nat) returns (items: seq<seq<Byte>>, missing: Script)
    requires pos <= |s| && OnlyPushes(s, pos)
    ensures ArePushes(s[pos..], items, missing)
    decreases |s| - pos
  {
    if pos == |s| {
      items, missing := [], [];
    } else {
      var next := pos + 1 + s[pos];
      if next <= |s| {
        var item, rest := s[pos + 1..next], s[next..];
        items, missing := PushesAreFound(s, next);
        assert s[pos..] == [s[pos]] + item + rest;
        PushInFront(item, rest, items, missing);
        items := [item] + items;
      } else {
        missing := seq(next - |s|, _ => 0);
        var item := s[pos + 1..] + missing;
        items := [item];
        assert s[pos..] + missing == [|item|] + item + DataPushes([]);
      }
    }
  }

  lemma {:induction false} PushesAreOnly(s: Script, pos: nat, items: seq<seq<Byte>>, missing: Script)
    requires pos <= |s| && ArePushes(s[pos..], items, missing)
    ensures OnlyPushes(s, pos)
    decreases |items|
  {
    if items != [] {
      var b, n := s[pos..], |items[0]|;
      LastPush(items);
      assert b[0] == (b + missing)[0] == n;
      if |items| > 1 {
        assert b[n + 1..] == s[pos + n + 1..];
        assert b[n + 1..] + missing == (b + missing)[n + 1..] == DataPushes(items[1..]);
        assert items[1..][|items| - 2] == items[|items| - 1];
        PushesAreOnly(s, pos + n + 1, items[1..], missing);
      } else {
        assert |b| <= n + 1;
      }
    }
  }

  /** A script is nulldata exactly when behind 0x6A there are pushes of 1 to 75 bytes and nothing else, the last of
      which may be cut short. */
  lemma NullDataIff(s: Script)
    ensures ScriptType(s) == NULLDATA <==>
      s != [] && s[0] == 0x6A && exists items, missing :: ArePushes(s[1..], items, missing)
  {
    if s != [] && s[0] == 0x6A {
      if OnlyPushes(s, 1) {
        var items, missing := PushesAreFound(s, 1);
      }
      if items, missing :| ArePushes(s[1..], items, missing) {
        PushesAreOnly(s, 1, items, missing);
      }
    }
  }

  // ---------- Multisig scripts ----------

  /** Where the key walker of a multisig script comes to: the keys it has passed and its last position,
      or a read beyond the script. */
  datatype Walk = OutOfBounds | Walked(keys: seq<seq<Byte>>, end: nat)

  /** The walk from a position on, with the keys passed before. On scripts shorter than two bytes the
      bound |s| - 2 wraps around, and the walk leaves the script. */
  function WalkKeys(s: Script, pos: nat, keys: seq<seq<Byte>>): Walk
    decreases |s| - pos
  {
    if |s| < 2 then OutOfBounds
    else if pos >= |s| - 2 then Walked(keys, pos)
    else if s[pos] == 0x21 then
      if pos + 34 > |s| then OutOfBounds else WalkKeys(s, pos + 34, keys + [s[pos + 1..pos + 34]])
    else if s[pos] == 0x41 then
      if pos + 66 > |s| then OutOfBounds else WalkKeys(s, pos + 66, keys + [s[pos + 1..pos + 66]])
    else Walked(keys, |s|)
  }

  /** A key push: its length, then the key. */
  function Push(key: seq<Byte>): Script
    requires |key| == 33 || |key| == 65
  {
    [|key|] + key
  }

  ghost predicate Keys(keys: seq<seq<Byte>>) {
    forall i :: 0 <= i < |keys| ==> |keys[i]| == 33 || |keys[i]| == 65
  }

  function Pushes(keys: seq<seq<Byte>>): Script
    requires Keys(keys)
  {
    if keys == [] then [] else Push(keys[0]) + Pushes(keys[1..])
  }

  /** m, the keys, n, and the check opcode. */
  function MultiSigScript(m: Byte, keys: seq<seq<Byte>>, n: Byte): Script
    requires Keys(keys)
  {
    [m] + Pushes(keys) + [n, 0xAE]
  }

  /** From the start of its pushes, the walker passes exactly the keys and stops in front of the last two bytes. */
  lemma {:induction false} WalkIsKeys(s: Script, front: Script, done: seq<seq<Byte>>, keys: seq<seq<Byte>>,
      last: Script)
    requires Keys(keys) && |last| == 2 && s == front + Pushes(keys) + last
    ensures WalkKeys(s, |front|, done) == Walked(done + keys, |s| - 2)
    decreases |keys|
  {
    if keys == [] {
      assert done + keys == done;
    } else {
      var k := keys[0];
      var front' := front + Push(k);
      assert s == front' + Pushes(keys[1..]) + last;
      assert s[|front|] == |k| && s[|front| + 1..|front'|] == k;
      WalkIsKeys(s, front', done + [k], keys[1..], last);
      assert done + [k] + keys[1..] == done + keys;
    }
  }

  /** Every well-formed multisig script is recognised, and the walker returns its keys in order. */
  lemma MultiSigIsWalked(m: Byte, keys: seq<seq<Byte>>, n: Byte)
    requires 0x51 <= m <= 0x60 && 0x51 <= n <= 0x60 && Keys(keys)
    ensures var s := MultiSigScript(m, keys, n);
      && ScriptType(s) == MULTISIG
      && WalkKeys(s, 1, []) == Walked(keys, |s| - 2)
  {
    var s := MultiSigScript(m, keys, n);
    assert s[0] == m && s[|s| - 1] == 0xAE;
    assert s == [m] + Pushes(keys) + [n, 0xAE];
    WalkIsKeys(s, [m], [], keys, [n, 0xAE]);
    assert [] + keys == keys;
  }

  function KeyAddresses(coin: Coin, keys: seq<seq<Byte>>): seq<Address>
    requires coin.Sound()
  {
    seq(|keys|, i requires 0 <= i < |keys| => KeyAddress(coin, keys[i]))
  }

  /** The addresses a script names; None when the walker leaves the script. */
  ghost predicate AddressesOf(coin: Coin, s: Script, r: Option<seq<Address>>)
    requires coin.Sound()
  {
    var t := ScriptType(s);
    if t == P2PKH then r == Some([Base58.Encode(Payload(coin, coin.p2pkhVersion, s[3..23]))])
    else if t == P2PK then r == Some([KeyAddress(coin, s[1..66])])
    else if t == P2CPK then r == Some([KeyAddress(coin, s[1..34])])
    else if t == P2WSH then r.Some? && |r.value| == 1 && IsBech32Address(coin, s[2..22], r.value[0])
    else if t == P2WPKH then r.Some? && |r.value| == 1 && IsBech32Address(coin, s[2..34], r.value[0])
    else if t == P2SH then r == Some([Base58.Encode(Payload(coin, coin.p2shVersion, s[2..22]))])
    else if t == MULTISIG then
      r == match WalkKeys(s, 1, []) case OutOfBounds => None case Walked(keys, _) => Some(KeyAddresses(coin, keys))
    else r == Some([])
  }

  method GetAddressesFromScript(coin: Coin, s: Script) returns (r: Option<seq<Address>>)
    requires coin.Sound()
    ensures AddressesOf(coin, s, r)
  {
    var t := GetScriptType(s);
    if t == P2PKH {
      var a := RipeMD160ToAddress(coin, coin.p2pkhVersion, s[3..23]);
      r := Some([a]);
    } else if t == P2PK {
      var a := PublicKeyToAddress(coin, s[1..66]);
      r := Some([a]);
    } else if t == P2CPK {
      var a := PublicKeyToAddress(coin, s[1..34]);
      r := Some([a]);
    } else if t == P2WSH {
      var a := Bech32Address(coin, s[2..22]);
      r := Some([a]);
    } else if t == P2WPKH {
      var a := Bech32Address(coin, s[2..34]);
      r := Some([a]);
    } else if t == P2SH {
      var a := RipeMD160ToAddress(coin, coin.p2shVersion, s[2..22]);
      r := Some([a]);
    } else if t == MULTISIG {
      r := WalkMultiSig(coin, s);
    } else {
      r := Some([]);
    }
  }

  /** The walker: from push to push, one address for each key. */
  method WalkMultiSig(coin: Coin, s: Script) returns (r: Option<seq<Address>>)
    requires coin.Sound()
    ensures r ==
      match WalkKeys(s, 1, []) case OutOfBounds => None case Walked(keys, _) => Some(KeyAddresses(coin, keys))
  {
    hide Base58.Encode, Payload;
    if |s| < 2 { return None; }
    var addresses: seq<Address> := [];
    ghost var keys: seq<seq<Byte>> := [];
    var pos: nat := 1;
    while pos < |s| - 2
      invariant WalkKeys(s, 1, []) == WalkKeys(s, pos, keys) && addresses == KeyAddresses(coin, keys)
      decreases |s| - pos
    {
      if s[pos] == 0x21 {
        if pos + 34 > |s| { return None; }
        var a := PublicKeyToAddress(coin, s[pos + 1..pos + 34]);
        keys := keys + [s[pos + 1..pos + 34]];
        addresses := addresses + [a];
        pos := pos + 34;
      } else if s[pos] == 0x41 {
        if pos + 66 > |s| { return None; }
        var a := PublicKeyToAddress(coin, s[pos + 1..pos + 66]);
        keys := keys + [s[pos + 1..pos + 66]];
        addresses := addresses + [a];
        pos := pos + 66;
      } else {
        pos := |s|;
      }
    }
    r := Some(addresses);
  }

  // ---------- What an address stands for ----------

  /** Whom an address pays: the holder of what hashes to a value, under a version byte, or of a witness program. */
  datatype Destination = HashOf(version: Byte, hash: seq<Byte>) | Program(program: seq<Byte>)

  ghost predicate IsAddressOf(coin: Coin, d: Destination, address: Address)
    requires coin.Sound()
  {
    match d
    case HashOf(version, hash) => |hash| == 20 && address == Base58.Encode(Payload(coin, version, hash))
    case Program(program) => |program| >= 20 && IsBech32Address(coin, program, address)
  }

  function KeyDestination(coin: Coin, key: seq<Byte>): Destination {
    HashOf(coin.p2pkhVersion, coin.ripeMD160(coin.sha256(key)))
  }

  /** An address stands for one destination only, across both families of addresses. */
  lemma AddressNamesOne(coin: Coin, d: Destination, e: Destination, address: Address)
    requires coin.Sound() && coin.bech32Prefix != ""
    requires IsAddressOf(coin, d, address) && IsAddressOf(coin, e, address)
    ensures d == e
  {
    hide Base58.Encode, Payload, IsBech32Address;
    match (d, e)
    case (HashOf(v, h), HashOf(w, k)) => Base58AddressIsInjective(coin, v, h, w, k);
    case (Program(p), Program(q)) => Bech32AddressIsInjective(coin, p, q, address);
    case (HashOf(v, h), Program(p)) => FamiliesAreDisjoint(coin, v, h, p, address);
    case (Program(p), HashOf(v, h)) => FamiliesAreDisjoint(coin, v, h, p, address);
  }

  /** The scripts that pay to one destination, as wallets write them. */
  datatype Template =
    | ToKeyHash(hash: seq<Byte>, ending: Script)
    | ToKey(key: seq<Byte>)
    | ToScriptHash(hash: seq<Byte>)
    | ToWitness(program: seq<Byte>)
    | ToOneOfOne(m: Byte, only: seq<Byte>, n: Byte)
  {
    predicate Fits() {
      match this
      case ToKeyHash(h, ending) => |h| == 20 && (ending == [0xAC] || ending == [0xB0] || ending == [0xAC, 0x61])
      case ToKey(k) => |k| == 33 || |k| == 65
      case ToScriptHash(h) => |h| == 20
      case ToWitness(p) => |p| == 20 || |p| == 32
      case ToOneOfOne(m, k, n) => 0x51 <= m <= 0x60 && 0x51 <= n <= 0x60 && (|k| == 33 || |k| == 65)
    }

    function Script(): seq<Byte>
      requires Fits()
    {
      match this
      case ToKeyHash(h, ending) => [0x76, 0xA9, 20] + h + ([0x88] + ending)
      case ToKey(k) => [|k|] + k + [0xAC]
      case ToScriptHash(h) => [0xA9, 20] + h + [0x87]
      case ToWitness(p) => [0x00, |p|] + p
      case ToOneOfOne(m, k, n) => MultiSigScript(m, [k], n)
    }

    function Type(): nat
      requires Fits()
    {
      match this
      case ToKeyHash(_, _) => P2PKH
      case ToKey(k) => if |k| == 65 then P2PK else P2CPK
      case ToScriptHash(_) => P2SH
      case ToWitness(p) => if |p| == 20 then P2WSH else P2WPKH
      case ToOneOfOne(_, _, _) => MULTISIG
    }

    function Payee(coin: Coin): Destination
      requires Fits()
    {
      match this
      case ToKeyHash(h, _) => HashOf(coin.p2pkhVersion, h)
      case ToKey(k) => KeyDestination(coin, k)
      case ToScriptHash(h) => HashOf(coin.p2shVersion, h)
      case ToWitness(p) => Program(p)
      case ToOneOfOne(_, k, _) => KeyDestination(coin, k)
    }
  }

  lemma TemplateHasType(t: Template)
    requires t.Fits()
    ensures ScriptType(t.Script()) == t.Type()
  {
    if t.ToOneOfOne? {
      MultiSigIsWalked(t.m, [t.only], t.n);
    }
  }

  /** The script is from no template for a single key, hash or program. */
  ghost predicate FromNoTemplate(s: Script) {
    forall t: Template :: t.Fits() && t.Type() != MULTISIG ==> t.Script() != s
  }

  /** Multisig scripts are those that end in the check opcode, if they are not data and from no template. */
  lemma MultiSigIff(s: Script)
    ensures ScriptType(s) == MULTISIG <==> s != [] && s[|s| - 1] == 0xAE && s[0] != 0x6A && FromNoTemplate(s)
  {
    hide Template.Script;
    if ScriptType(s) in {P2PKH, P2PK, P2CPK, P2WSH, P2WPKH, P2SH} {
      var t := TypeHasTemplate(s);
    }
    forall t: Template | t.Fits() && t.Script() == s
      ensures t.Type() == ScriptType(s)
    {
      TemplateHasType(t);
    }
  }

  /** An opcode with n bytes behind it. */
  ghost predicate SinglePush(s: Script, opcode: Byte, n: nat) {
    exists d: seq<Byte> :: |d| == n && s == [opcode] + d
  }

  /** The scripts that are known not to be standard: single pushes with nothing behind them, and two oddities. */
  lemma NonstandardIff(s: Script)
    ensures ScriptType(s) == KNOWN_NONSTANDARD <==>
      && s != [] && s[|s| - 1] != 0xAE
      && (SinglePush(s, 0x20, 32) || SinglePush(s, 0x24, 36) || SinglePush(s, 0x14, 23)
          || s == [0x73, 0x63, 0x72, 0x69, 0x70, 0x74] || s == [0x76, 0xA9, 0x00, 0x88, 0xAC])
  {
    if s != [] { assert s == [s[0]] + s[1..]; }
  }

  /** The solver recognises each such script, and finds in it the one address of its destination. */
  lemma TemplateHasAddress(coin: Coin, t: Template, r: Option<seq<Address>>)
    requires coin.Sound() && t.Fits() && AddressesOf(coin, t.Script(), r)
    ensures ScriptType(t.Script()) == t.Type()
    ensures r.Some? && |r.value| == 1 && IsAddressOf(coin, t.Payee(coin), r.value[0])
  {
    hide Base58.Encode, Payload, IsBech32Address;
    hide MultiSigScript;
    match t
    case ToKeyHash(h, ending) => Middle([0x76, 0xA9, 20], h, [0x88] + ending);
    case ToKey(k) => Middle([|k|], k, [0xAC]);
    case ToScriptHash(h) => Middle([0xA9, 20], h, [0x87]);
    case ToWitness(p) =>
      Middle([0x00, |p|], p, []);
      assert [0x00, |p|] + p + [] == [0x00, |p|] + p;
    case ToOneOfOne(m, k, n) => MultiSigIsWalked(m, [k], n);
  }

  lemma Middle(a: seq<Byte>, b: seq<Byte>, c: seq<Byte>)
    ensures (a + b + c)[|a|..|a| + |b|] == b
    ensures (a + b + c)[..|a|] == a && (a + b + c)[|a| + |b|..] == c
  {
  }

  /** Whatever is given one of these types was built from such a template. */
  lemma TypeHasTemplate(s: Script) returns (t: Template)
    requires ScriptType(s) in {P2PKH, P2PK, P2CPK, P2WSH, P2WPKH, P2SH}
    ensures t.Fits() && t.Script() == s && t.Type() == ScriptType(s)
  {
    var k := ScriptType(s);
    if k == P2PKH {
      assert s == s[..3] + s[3..23] + ([s[23]] + s[24..]);
      t := ToKeyHash(s[3..23], s[24..]);
    } else if k == P2PK {
      assert s == [s[0]] + s[1..66] + [s[66]];
      t := ToKey(s[1..66]);
    } else if k == P2CPK {
      assert s == [s[0]] + s[1..34] + [s[34]];
      t := ToKey(s[1..34]);
    } else if k == P2SH {
      assert s == [s[0], s[1]] + s[2..22] + [s[22]];
      t := ToScriptHash(s[2..22]);
    } else {
      assert s == [s[0], s[1]] + s[2..];
      t := ToWitness(s[2..]);
    }
  }

  /** A multisig script of any number of keys has an address for each, that of the key, in order. */
  lemma MultiSigHasAddresses(coin: Coin, m: Byte, keys: seq<seq<Byte>>, n: Byte, r: Option<seq<Address>>)
    requires coin.Sound() && 0x51 <= m <= 0x60 && 0x51 <= n <= 0x60 && Keys(keys)
    requires AddressesOf(coin, MultiSigScript(m, keys, n), r)
    ensures r.Some? && |r.value| == |keys|
    ensures forall i :: 0 <= i < |keys| ==> IsAddressOf(coin, KeyDestination(coin, keys[i]), r.value[i])
  {
    hide Base58.Encode, Payload, MultiSigScript, WalkKeys, ScriptType;
    MultiSigIsWalked(m, keys, n);
  }

  /** Two such scripts with the same address pay the same destination. */
  lemma SameAddressSameDestination(coin: Coin, t: Template, u: Template, r: Option<seq<Address>>)
    requires coin.Sound() && coin.bech32Prefix != "" && t.Fits() && u.Fits()
    requires AddressesOf(coin, t.Script(), r) && AddressesOf(coin, u.Script(), r)
    ensures t.Payee(coin) == u.Payee(coin)
  {
    hide AddressesOf, IsAddressOf, Template.Script, ScriptType;
    TemplateHasAddress(coin, t, r);
    TemplateHasAddress(coin, u, r);
    AddressNamesOne(coin, t.Payee(coin), u.Payee(coin), r.value[0]);
  }
}
