/** The typed-data digest a binding is signed over: the definition of EIP-712, which the contract
    follows, and the bytes contracts/evm/utils.go assembles by hand. */
module Digest {
  import opened Bytes

  // ----- 256-bit words -----

  function Pow256(n: nat): (p: nat)
    ensures p > 0
  {
    if n == 0 then 1 else 256 * Pow256(n - 1)
  }

  const TWO_63: nat := 0x8000_0000_0000_0000
  const TWO_64: nat := 0x1_0000_0000_0000_0000
  type Uint64 = n: nat | n < TWO_64
  type Uint256 = n: nat | n < Pow256(32) witness Zero256()

  function Zero256(): (z: nat)
    ensures z == 0 && z < Pow256(32)
  {
    0
  }

  function BigEndian(n: nat, width: nat): (bytes: Bytes)
    ensures |bytes| == width
  {
    if width == 0 then [] else BigEndian(n / 256, width - 1) + [(n % 256) as char]
  }

  lemma {:induction false} BigEndianInjective(n: nat, m: nat, width: nat)
    requires n < Pow256(width) && m < Pow256(width)
    requires BigEndian(n, width) == BigEndian(m, width)
    ensures n == m
  {
    if width > 0 {
      var x, y := BigEndian(n, width), BigEndian(m, width);
      assert x[..width - 1] == BigEndian(n / 256, width - 1);
      assert y[..width - 1] == BigEndian(m / 256, width - 1);
      assert x[width - 1] == y[width - 1];
      BigEndianInjective(n / 256, m / 256, width - 1);
    }
  }

  /** The number that bytes spell, the first one counting most: how a chain reads a word. */
  function Number(bytes: Bytes): nat {
    if bytes == [] then 0 else bytes[0] as int * Pow256(|bytes| - 1) + Number(bytes[1..])
  }

  lemma {:induction false} NumberSnoc(bytes: Bytes, b: Byte)
    ensures Number(bytes + [b]) == 256 * Number(bytes) + b as int
  {
    if bytes == [] {
      assert Pow256(0) == 1 && [b][1..] == [];
    } else {
      assert (bytes + [b])[1..] == bytes[1..] + [b];
      NumberSnoc(bytes[1..], b);
      OnePlaceUp(bytes[0] as int, |bytes|);
    }
  }

  lemma OnePlaceUp(b: nat, n: nat)
    requires n > 0
    ensures b * Pow256(n) == 256 * (b * Pow256(n - 1))
  {
    var p := Pow256(n - 1);
    assert Pow256(n) == 256 * p;
    assert b * (256 * p) == 256 * (b * p);
  }

  /** Every number that fits is spelled by its bytes, most significant first. */
  lemma {:induction false} BigEndianSpells(n: nat, width: nat)
    requires n < Pow256(width)
    ensures Number(BigEndian(n, width)) == n
  {
    if width > 0 {
      BigEndianSpells(n / 256, width - 1);
      NumberSnoc(BigEndian(n / 256, width - 1), (n % 256) as char);
    }
  }

  lemma {:induction false} LeadingZeros(k: nat, bytes: Bytes)
    ensures Number(Zeros(k) + bytes) == Number(bytes)
  {
    if k == 0 {
      assert Zeros(k) + bytes == bytes;
    } else {
      assert (Zeros(k) + bytes)[1..] == Zeros(k - 1) + bytes;
      LeadingZeros(k - 1, bytes);
    }
  }

  lemma {:induction false} NumberFits(bytes: Bytes)
    ensures Number(bytes) < Pow256(|bytes|)
  {
    if bytes != [] {
      NumberFits(bytes[1..]);
      Scaled(bytes[0] as int, Pow256(|bytes| - 1));
    }
  }

  lemma Scaled(b: nat, p: nat)
    requires b < 256
    ensures b * p + p <= 256 * p
  {
  }

  lemma LastPlace(n: nat, high: nat, b: Byte)
    requires n == 256 * high + b as int
    ensures n / 256 == high && (n % 256) as char == b
  {
  }

  /** No other bytes of that width spell the number. */
  lemma {:induction false} SpelledOnce(bytes: Bytes)
    ensures BigEndian(Number(bytes), |bytes|) == bytes
  {
    if bytes != [] {
      var n := |bytes| - 1;
      assert bytes == bytes[..n] + [bytes[n]];
      NumberSnoc(bytes[..n], bytes[n]);
      SpelledOnce(bytes[..n]);
      LastPlace(Number(bytes), Number(bytes[..n]), bytes[n]);
    }
  }

  lemma {:induction false} Pow256Grows(small: nat, large: nat)
    requires small <= large
    ensures Pow256(small) <= Pow256(large)
  {
    if small < large {
      Pow256Grows(small, large - 1);
    }
  }

  lemma Uint64Fits()
    ensures TWO_64 == Pow256(8) && TWO_64 <= Pow256(31) && 256 * TWO_64 <= Pow256(32)
  {
    assert Pow256(4) == 0x1_0000_0000;
    assert Pow256(8) == TWO_64;
    Pow256Grows(8, 31);
  }

  // ----- EIP-712 -----

  /** The members of a struct that the two types here use. */
  datatype Field = Bytes32(word: Word) | Addr(address: Address) | UInt(value: Uint256)

  /** Section "Definition of encodeData": every member is one 32-byte word. */
  function EncodeField(f: Field): Word {
    match f
    case Bytes32(w) => w
    case Addr(a) => Zeros(12) + a
    case UInt(n) => BigEndian(n, 32)
  }

  function EncodeData(fields: seq<Field>): (data: Bytes)
    ensures |data| == 32 * |fields|
  {
    if fields == [] then [] else EncodeField(fields[0]) + EncodeData(fields[1..])
  }

  /** A struct member: its type and its name. */
  datatype Member = Member(kind: Bytes, name: Bytes)

  function EncodeMembers(members: seq<Member>): Bytes {
    if members == [] then ""
    else
      var first := members[0].kind + " " + members[0].name;
      if |members| == 1 then first else first + "," + EncodeMembers(members[1..])
  }

  /** Section "Definition of encodeType": a struct's name and its members in brackets. */
  function EncodeType(name: Bytes, members: seq<Member>): Bytes {
    name + "(" + EncodeMembers(members) + ")"
  }

  const BIND_MEMBERS: seq<Member> :=
    [Member("bytes32", "namehash"), Member("address", "resolver"),
     Member("uint64", "expiresAt"), Member("uint64", "timestamp")]
  const DOMAIN_MEMBERS: seq<Member> :=
    [Member("string", "name"), Member("string", "version"),
     Member("uint256", "chainId"), Member("address", "verifyingContract")]
  const NAME: Bytes := "AlticaRegistry"
  const VERSION: Bytes := "0"
  const PREFIX: Bytes := [0x19 as char, 0x01 as char]

  function BindType(): Bytes {
    EncodeType("SubmitBinding", BIND_MEMBERS)
  }

  function DomainType(): Bytes {
    EncodeType("EIP712Domain", DOMAIN_MEMBERS)
  }

  /** What is signed, and for which contract on which chain. */
  datatype Message = Message(
    namehash: Word, resolver: Address, expiresAt: Uint64, timestamp: Uint64,
    chainId: Uint256, verifyingContract: Address)

  /** The two packed structs a digest is computed from. */
  datatype Payload = Payload(domainPacked: Bytes, structPacked: Bytes)

  function PayloadDigest(H: Hash, p: Payload): Word {
    H(PREFIX + H(p.domainPacked) + H(p.structPacked))
  }

  function Fields(H: Hash, m: Message): seq<Field> {
    Uint64Fits();
    [Bytes32(H(BindType())), Bytes32(m.namehash), Addr(m.resolver), UInt(m.expiresAt), UInt(m.timestamp)]
  }

  function DomainFields(H: Hash, m: Message): seq<Field> {
    [Bytes32(H(DomainType())), Bytes32(H(NAME)), Bytes32(H(VERSION)), UInt(m.chainId), Addr(m.verifyingContract)]
  }

  /** hashStruct and domainSeparator of the standard, as computeStructHashAndDigest builds them. */
  function TypedPayload(H: Hash, m: Message): Payload {
    Payload(EncodeData(DomainFields(H, m)), EncodeData(Fields(H, m)))
  }

  function TypedDigest(H: Hash, m: Message): Word {
    PayloadDigest(H, TypedPayload(H, m))
  }

  // ----- contracts/evm/utils.go -----

  /** The literals of the program. */
  const GO_BIND_TYPE: Bytes :=
    "SubmitBinding(bytes32 namehash," + "address resolver," + "uint64 expiresAt," + "uint64 timestamp)"
  const GO_DOMAIN_TYPE: Bytes :=
    "EIP712Domain(string name," + "string version," + "uint256 chainId," + "address verifyingContract)"
  const GO_NAME: Bytes := "AlticaRegistry"
  const GO_VERSION: Bytes := "0"
  const GO_PREFIX: Bytes := [0x19 as char, 0x01 as char]

  /** copy(dst[:], src) into a zeroed 32-byte array. */
  function Copy32(src: Bytes): (word: Word)
    ensures forall i :: 0 <= i < 32 ==> word[i] == if i < |src| then src[i] else NUL
  {
    if |src| >= 32 then src[..32] else src + Zeros(32 - |src|)
  }

  /** int64(n) of an unsigned 64-bit value. */
  function ToInt64(n: Uint64): int {
    if n < TWO_63 then n else n - TWO_64
  }

  /** abi.Pack of a big integer as uint256 keeps its two's complement in 256 bits. */
  function PackUint256(i: int): Word {
    BigEndian(i % Pow256(32), 32)
  }

  /** abi.Pack of an address left-pads it with zeros. */
  function PackAddress(a: Address): Word {
    Zeros(12) + a
  }

  type Int64 = n: int | -0x8000_0000_0000_0000 <= n < 0x8000_0000_0000_0000

  function GoPayload(H: Hash, namehash: Bytes, resolver: Address, expiresAt: Uint64, timestamp: Uint64,
                     chainID: Int64, contractAddr: Address): Payload
  {
    Payload(
      H(GO_DOMAIN_TYPE) + H(GO_NAME) + H(GO_VERSION) + PackUint256(chainID) + PackAddress(contractAddr),
      H(GO_BIND_TYPE) + Copy32(namehash) + PackAddress(resolver)
      + PackUint256(ToInt64(expiresAt)) + PackUint256(ToInt64(timestamp)))
  }

  /** GetDigest, buffer by buffer. */
  method GetDigest(H: Hash, namehash: Bytes, resolver: Address, expiresAt: Uint64, timestamp: Uint64,
                   chainID: Int64, contractAddr: Address)
    returns (digest: Word)
    ensures digest == PayloadDigest(H, GoPayload(H, namehash, resolver, expiresAt, timestamp, chainID, contractAddr))
    ensures Representable(expiresAt, timestamp, chainID) ==>
              digest == TypedDigest(H, Signed(namehash, resolver, expiresAt, timestamp, chainID, contractAddr))
  {
    var structPacked := H(GO_BIND_TYPE) + Copy32(namehash) + PackAddress(resolver);
    structPacked := structPacked + PackUint256(ToInt64(expiresAt));
    structPacked := structPacked + PackUint256(ToInt64(timestamp));
    var structHash := H(structPacked);
    var domainPacked := H(GO_DOMAIN_TYPE) + H(GO_NAME) + H(GO_VERSION);
    domainPacked := domainPacked + PackUint256(chainID) + PackAddress(contractAddr);
    var domainSeparator := H(domainPacked);
    var digestBytes: Bytes := GO_PREFIX;
    digestBytes := digestBytes + domainSeparator;
    digestBytes := digestBytes + structHash;
    digest := H(digestBytes);
    if Representable(expiresAt, timestamp, chainID) {
      RepresentablePayloads(H, namehash, resolver, expiresAt, timestamp, chainID, contractAddr);
    }
  }

  predicate Representable(expiresAt: Uint64, timestamp: Uint64, chainID: Int64) {
    expiresAt < TWO_63 && timestamp < TWO_63 && 0 <= chainID
  }

  /** The message that the arguments of GetDigest stand for. */
  function Signed(namehash: Bytes, resolver: Address, expiresAt: Uint64, timestamp: Uint64,
                  chainID: Int64, contractAddr: Address): Message
    requires 0 <= chainID
  {
    Uint64Fits();
    Message(Copy32(namehash), resolver, expiresAt, timestamp, chainID, contractAddr)
  }

  // ----- what the packed bytes say -----

  /** An address is packed as the number it is, in a word; and a word has room for nothing else. */
  lemma PackedAddressSpells(a: Address)
    ensures Number(PackAddress(a)) == Number(a)
  {
    LeadingZeros(12, a);
  }

  /** Every encoded member is the one 32-byte word that spells its value: an address as the number of its
      20 bytes, a number as itself. */
  lemma EncodedFieldSpells(f: Field, word: Word)
    ensures word == EncodeField(f) <==>
            Number(word) == match f
                            case Bytes32(w) => Number(w)
                            case Addr(a) => Number(a)
                            case UInt(n) => n
  {
    match f {
      case Bytes32(w) =>
      case Addr(a) => LeadingZeros(12, a);
      case UInt(n) => BigEndianSpells(n, 32);
    }
    SpelledOnce(word);
    SpelledOnce(EncodeField(f));
  }

  /** The members stand one after another. */
  lemma {:induction false} EncodedInPlace(fields: seq<Field>, i: nat)
    requires i < |fields|
    ensures EncodeData(fields)[32 * i..32 * i + 32] == EncodeField(fields[i])
  {
    var data := EncodeData(fields);
    assert data == EncodeField(fields[0]) + EncodeData(fields[1..]);
    if i > 0 {
      EncodedInPlace(fields[1..], i - 1);
      assert data[32 * i..32 * i + 32] == EncodeData(fields[1..])[32 * (i - 1)..32 * (i - 1) + 32];
    }
  }

  /** A message's value of the member with that type and name. */
  ghost predicate IsMember(m: Message, member: Member, f: Field) {
    if member.name == "namehash" then member.kind == "bytes32" && f == Bytes32(m.namehash)
    else if member.name == "resolver" then member.kind == "address" && f == Addr(m.resolver)
    else if member.name == "expiresAt" then member.kind == "uint64" && f.UInt? && f.value == m.expiresAt
    else if member.name == "timestamp" then member.kind == "uint64" && f.UInt? && f.value == m.timestamp
    else if member.name == "chainId" then member.kind == "uint256" && f.UInt? && f.value == m.chainId
    else member.name == "verifyingContract" && member.kind == "address" && f == Addr(m.verifyingContract)
  }

  /** The encoded members are those that the type names, in its order, after the type's hash; of the
      domain, name and version are hashed. */
  lemma FieldsFollowType(H: Hash, m: Message)
    ensures |Fields(H, m)| == |BIND_MEMBERS| + 1 && Fields(H, m)[0] == Bytes32(H(BindType()))
    ensures forall i :: 0 <= i < |BIND_MEMBERS| ==> IsMember(m, BIND_MEMBERS[i], Fields(H, m)[i + 1])
    ensures |DomainFields(H, m)| == |DOMAIN_MEMBERS| + 1 && DomainFields(H, m)[0] == Bytes32(H(DomainType()))
    ensures DOMAIN_MEMBERS[..2] == [Member("string", "name"), Member("string", "version")]
    ensures DomainFields(H, m)[1..3] == [Bytes32(H("AlticaRegistry")), Bytes32(H("0"))]
    ensures forall i :: 2 <= i < |DOMAIN_MEMBERS| ==> IsMember(m, DOMAIN_MEMBERS[i], DomainFields(H, m)[i + 1])
  {
  }

  /** Section "Specification of the eth_signTypedData JSON RPC": the bytes 0x19 and 0x01, then the domain's
      hash and the struct's. */
  lemma DigestOfBuffer(H: Hash, p: Payload, buffer: Bytes)
    requires |buffer| == 66 && buffer[0] as int == 0x19 && buffer[1] as int == 0x01
    requires buffer[2..34] == H(p.domainPacked) && buffer[34..] == H(p.structPacked)
    ensures PayloadDigest(H, p) == H(buffer)
  {
    assert buffer == PREFIX + buffer[2..34] + buffer[34..];
  }

  lemma EncodedFour(a: Member, b: Member, c: Member, d: Member)
    ensures EncodeMembers([a, b, c, d]) ==
            (a.kind + " " + a.name) + "," + ((b.kind + " " + b.name) + "," +
            ((c.kind + " " + c.name) + "," + (d.kind + " " + d.name)))
  {
    assert [a, b, c, d][1..] == [b, c, d] && [b, c, d][1..] == [c, d] && [c, d][1..] == [d];
    assert EncodeMembers([d]) == d.kind + " " + d.name;
    assert EncodeMembers([c, d]) == (c.kind + " " + c.name) + "," + EncodeMembers([d]);
    assert EncodeMembers([b, c, d]) == (b.kind + " " + b.name) + "," + EncodeMembers([c, d]);
  }

  lemma Regrouped(name: Bytes, a: Bytes, b: Bytes, c: Bytes, d: Bytes)
    ensures name + "(" + (a + "," + (b + "," + (c + "," + d))) + ")" ==
            (name + "(" + a + ",") + (b + ",") + (c + ",") + (d + ")")
  {
  }

  lemma TypeOfFour(name: Bytes, a: Member, b: Member, c: Member, d: Member)
    ensures EncodeType(name, [a, b, c, d]) ==
            (name + "(" + (a.kind + " " + a.name) + ",") + ((b.kind + " " + b.name) + ",")
            + ((c.kind + " " + c.name) + ",") + ((d.kind + " " + d.name) + ")")
  {
    EncodedFour(a, b, c, d);
    Regrouped(name, a.kind + " " + a.name, b.kind + " " + b.name, c.kind + " " + c.name, d.kind + " " + d.name);
  }

  lemma BindPieces()
    ensures "SubmitBinding" + "(" + ("bytes32" + " " + "namehash") + "," == "SubmitBinding(bytes32 namehash,"
    ensures ("address" + " " + "resolver") + "," == "address resolver,"
    ensures ("uint64" + " " + "expiresAt") + "," == "uint64 expiresAt,"
    ensures ("uint64" + " " + "timestamp") + ")" == "uint64 timestamp)"
  {
  }

  lemma DomainPieces()
    ensures "EIP712Domain" + "(" + ("string" + " " + "name") + "," == "EIP712Domain(string name,"
    ensures ("string" + " " + "version") + "," == "string version,"
    ensures ("uint256" + " " + "chainId") + "," == "uint256 chainId,"
    ensures ("address" + " " + "verifyingContract") + ")" == "address verifyingContract)"
  {
  }

  /** The literals of the program are the types that the standard encodes. */
  lemma TypeLiterals()
    ensures GO_BIND_TYPE == BindType() && GO_DOMAIN_TYPE == DomainType()
  {
    TypeOfFour("SubmitBinding", Member("bytes32", "namehash"), Member("address", "resolver"),
               Member("uint64", "expiresAt"), Member("uint64", "timestamp"));
    TypeOfFour("EIP712Domain", Member("string", "name"), Member("string", "version"),
               Member("uint256", "chainId"), Member("address", "verifyingContract"));
    BindPieces();
    DomainPieces();
  }

  // ----- agreement -----

  lemma PackSmall(n: Uint64)
    requires n < TWO_63
    ensures PackUint256(ToInt64(n)) == BigEndian(n, 32)
  {
    Uint64Fits();
    ModOfSmall(n, Pow256(32));
  }

  /** A time from 2^63 on is packed as a number close to 2^256, here to 256^width. */
  lemma PackWrapped(n: Uint64, width: nat)
    requires n >= TWO_63 && Pow256(width) >= 2 * TWO_64
    ensures BigEndian(ToInt64(n) % Pow256(width), width) != BigEndian(n, width)
  {
    var all := Pow256(width);
    ModOfNegative(n - TWO_64, all);
    if BigEndian(all + n - TWO_64, width) == BigEndian(n, width) {
      BigEndianInjective(all + n - TWO_64, n, width);
    }
  }

  lemma PackUint64(n: Uint64)
    ensures n < TWO_63 <==> PackUint256(ToInt64(n)) == BigEndian(n, 32)
  {
    if n < TWO_63 {
      PackSmall(n);
    } else {
      Uint64Fits();
      PackWrapped(n, 32);
    }
  }

  lemma ModOfNegative(i: int, m: nat)
    requires 0 <= i + m < m
    ensures i % m == i + m
  {
    var q := i / m;
    assert i == q * m + i % m;
    assert (q + 1) * m == i + m - i % m;
    MultipleBeyond(q + 1, m);
  }

  /** What the client packs for a time: the time itself below 2^63, and from there on the time less 2^64, in
      256 bits. */
  lemma PackedTimeSpells(n: Uint64)
    ensures Number(PackUint256(ToInt64(n))) == if n < TWO_63 then n else Pow256(32) - TWO_64 + n
  {
    Uint64Fits();
    var i, all := ToInt64(n), Pow256(32);
    if n < TWO_63 {
      ModOfSmall(n, all);
    } else {
      ModOfNegative(i, all);
    }
    BigEndianSpells(i % all, 32);
  }

  lemma MultipleBeyond(k: int, m: int)
    requires m > 0
    ensures k > 0 ==> k * m >= m
    ensures k < 0 ==> k * m <= 0 - m
  {
  }

  lemma ModOfSmall(n: nat, m: nat)
    requires n < m
    ensures n % m == n
  {
  }

  lemma FiveFields(a: Field, b: Field, c: Field, d: Field, e: Field)
    ensures EncodeData([a, b, c, d, e]) ==
            EncodeField(a) + EncodeField(b) + EncodeField(c) + EncodeField(d) + EncodeField(e)
  {
    FirstField(e, []);
    FirstField(d, [e]);
    FirstField(c, [d, e]);
    FirstField(b, [c, d, e]);
    FirstField(a, [b, c, d, e]);
    assert [a] + [b, c, d, e] == [a, b, c, d, e];
  }

  lemma FirstField(f: Field, rest: seq<Field>)
    ensures EncodeData([f] + rest) == EncodeField(f) + EncodeData(rest)
  {
    assert ([f] + rest)[1..] == rest;
  }

  lemma TypedStructPacked(H: Hash, m: Message)
    ensures TypedPayload(H, m).structPacked ==
            H(BindType()) + m.namehash + PackAddress(m.resolver)
            + BigEndian(m.expiresAt, 32) + BigEndian(m.timestamp, 32)
  {
    Uint64Fits();
    FiveFields(Bytes32(H(BindType())), Bytes32(m.namehash), Addr(m.resolver), UInt(m.expiresAt), UInt(m.timestamp));
  }

  lemma TypedDomainPacked(H: Hash, m: Message)
    ensures TypedPayload(H, m).domainPacked ==
            H(DomainType()) + H(NAME) + H(VERSION) + BigEndian(m.chainId, 32) + PackAddress(m.verifyingContract)
  {
    FiveFields(Bytes32(H(DomainType())), Bytes32(H(NAME)), Bytes32(H(VERSION)), UInt(m.chainId),
               Addr(m.verifyingContract));
  }

  lemma RepresentablePayloads(H: Hash, namehash: Bytes, resolver: Address, expiresAt: Uint64, timestamp: Uint64,
                              chainID: Int64, contractAddr: Address)
    requires 0 <= chainID
    ensures var go := GoPayload(H, namehash, resolver, expiresAt, timestamp, chainID, contractAddr);
            var typed := TypedPayload(H, Signed(namehash, resolver, expiresAt, timestamp, chainID, contractAddr));
            go == typed <==> expiresAt < TWO_63 && timestamp < TWO_63
  {
    var m := Signed(namehash, resolver, expiresAt, timestamp, chainID, contractAddr);
    var go := GoPayload(H, namehash, resolver, expiresAt, timestamp, chainID, contractAddr);
    TypedStructPacked(H, m);
    TypedDomainPacked(H, m);
    TypeLiterals();
    PackUint64(expiresAt);
    PackUint64(timestamp);
    Uint64Fits();
    ModOfSmall(chainID, Pow256(32));
    LastTwoWords(H(GO_BIND_TYPE) + Copy32(namehash) + PackAddress(resolver),
                 PackUint256(ToInt64(expiresAt)), PackUint256(ToInt64(timestamp)),
                 BigEndian(expiresAt, 32), BigEndian(timestamp, 32));
  }

  lemma LastTwoWords(front: Bytes, x: Word, y: Word, x': Word, y': Word)
    ensures front + x + y == front + x' + y' <==> x == x' && y == y'
  {
    var n := |front|;
    assert (front + x + y)[n..n + 32] == x && (front + x + y)[n + 32..] == y;
    assert (front + x' + y')[n..n + 32] == x' && (front + x' + y')[n + 32..] == y';
  }

  /** What two different payloads with one digest give away. */
  function Distinguish(H: Hash, p: Payload, q: Payload): Evidence {
    var x := PREFIX + H(p.domainPacked) + H(p.structPacked);
    var y := PREFIX + H(q.domainPacked) + H(q.structPacked);
    if x != y then Collision(x, y)
    else if p.domainPacked != q.domainPacked then Collision(p.domainPacked, q.domainPacked)
    else Collision(p.structPacked, q.structPacked)
  }

  lemma DistinguishRefutes(H: Hash, p: Payload, q: Payload)
    requires p != q && PayloadDigest(H, p) == PayloadDigest(H, q)
    ensures Refutes(H, Distinguish(H, p, q))
  {
    var x := PREFIX + H(p.domainPacked) + H(p.structPacked);
    var y := PREFIX + H(q.domainPacked) + H(q.structPacked);
    if x == y {
      assert x[2..34] == H(p.domainPacked) && y[2..34] == H(q.domainPacked);
      assert x[34..] == H(p.structPacked) && y[34..] == H(q.structPacked);
    }
  }

  /** Different messages have different payloads. */
  lemma TypedPayloadInjective(H: Hash, m: Message, n: Message)
    requires TypedPayload(H, m) == TypedPayload(H, n)
    ensures m == n
  {
    TypedStructPacked(H, m);
    TypedStructPacked(H, n);
    TypedDomainPacked(H, m);
    TypedDomainPacked(H, n);
    Uint64Fits();
    StructSlices(H, m);
    StructSlices(H, n);
    BigEndianInjective(m.expiresAt, n.expiresAt, 32);
    BigEndianInjective(m.timestamp, n.timestamp, 32);
    BigEndianInjective(m.chainId, n.chainId, 32);
    PackAddressInjective(m.resolver, n.resolver);
    PackAddressInjective(m.verifyingContract, n.verifyingContract);
  }

  lemma FiveWords(a: Word, b: Word, c: Word, d: Word, e: Word)
    ensures var all := a + b + c + d + e;
            all[32..64] == b && all[64..96] == c && all[96..128] == d && all[128..160] == e
  {
  }

  lemma StructSlices(H: Hash, m: Message)
    ensures var s, d := TypedPayload(H, m).structPacked, TypedPayload(H, m).domainPacked;
            && |s| == 160 && |d| == 160
            && s[32..64] == m.namehash && s[64..96] == PackAddress(m.resolver)
            && s[96..128] == BigEndian(m.expiresAt, 32) && s[128..160] == BigEndian(m.timestamp, 32)
            && d[96..128] == BigEndian(m.chainId, 32) && d[128..160] == PackAddress(m.verifyingContract)
  {
    Uint64Fits();
    TypedStructPacked(H, m);
    TypedDomainPacked(H, m);
    FiveWords(H(BindType()), m.namehash, PackAddress(m.resolver), BigEndian(m.expiresAt, 32),
              BigEndian(m.timestamp, 32));
    FiveWords(H(DomainType()), H(NAME), H(VERSION), BigEndian(m.chainId, 32), PackAddress(m.verifyingContract));
  }

  lemma PackAddressInjective(a: Address, b: Address)
    requires PackAddress(a) == PackAddress(b)
    ensures a == b
  {
    assert PackAddress(a)[12..] == a && PackAddress(b)[12..] == b;
  }

  /** One digest for two messages breaks Keccak. */
  lemma DigestInjectiveUnlessBroken(H: Hash, m: Message, n: Message)
    requires m != n && TypedDigest(H, m) == TypedDigest(H, n)
    ensures Refutes(H, Distinguish(H, TypedPayload(H, m), TypedPayload(H, n)))
  {
    if TypedPayload(H, m) == TypedPayload(H, n) {
      TypedPayloadInjective(H, m, n);
    }
    DistinguishRefutes(H, TypedPayload(H, m), TypedPayload(H, n));
  }

  /** Go and Solidity agree on the digest on exactly the times below 2^63; beyond that, where the
      conversion to int64 goes negative, agreement would break Keccak. */
  lemma GoAgreesBelow63Bits(H: Hash, namehash: Bytes, resolver: Address, expiresAt: Uint64, timestamp: Uint64,
                            chainID: Int64, contractAddr: Address)
    requires 0 <= chainID
    ensures var go := GoPayload(H, namehash, resolver, expiresAt, timestamp, chainID, contractAddr);
            var typed := TypedPayload(H, Signed(namehash, resolver, expiresAt, timestamp, chainID, contractAddr));
            if expiresAt < TWO_63 && timestamp < TWO_63
            then PayloadDigest(H, go) == PayloadDigest(H, typed)
            else PayloadDigest(H, go) == PayloadDigest(H, typed) ==> Refutes(H, Distinguish(H, go, typed))
  {
    RepresentablePayloads(H, namehash, resolver, expiresAt, timestamp, chainID, contractAddr);
    var go := GoPayload(H, namehash, resolver, expiresAt, timestamp, chainID, contractAddr);
    var typed := TypedPayload(H, Signed(namehash, resolver, expiresAt, timestamp, chainID, contractAddr));
    if go != typed && PayloadDigest(H, go) == PayloadDigest(H, typed) {
      DistinguishRefutes(H, go, typed);
    }
  }
}
