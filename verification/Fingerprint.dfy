/** The semantic fingerprint of one resolved build-config value, and the byte stream behind it. */
module Fingerprint {
  import opened Collections
  import opened Ordering
  import opened BuildConfig

  // ----- 64-bit FNV-1a (section 2 of draft-eastlake-fnv)

  const WORD_BITS: nat := 64
  const TWO_TO_64: nat := 0x1_0000_0000_0000_0000
  const OFFSET_BASIS: Word := 0xcbf29ce484222325
  const FNV_PRIME: nat := 0x100000001b3

  /** Exclusive-or of the low `bits` bits. */
  function Xor(a: nat, b: nat, bits: nat): (r: nat)
    decreases a + b + bits
  {
    if bits == 0 then 0 else (if a % 2 != b % 2 then 1 else 0) + 2 * Xor(a / 2, b / 2, bits - 1)
  }

  predicate Bit(n: nat, k: nat)
    decreases k
  {
    if k == 0 then n % 2 == 1 else Bit(n / 2, k - 1)
  }

  /** Bit by bit: a bit of the result is set exactly when the operands differ there. */
  lemma {:induction false} XorBit(a: nat, b: nat, bits: nat, k: nat)
    ensures Bit(Xor(a, b, bits), k) <==> k < bits && Bit(a, k) != Bit(b, k)
    decreases bits + k
  {
    if bits == 0 {
      if k > 0 {
        XorBit(a, b, 0, k - 1);
      }
    } else if k > 0 {
      XorBit(a / 2, b / 2, bits - 1, k - 1);
      assert Xor(a, b, bits) / 2 == Xor(a / 2, b / 2, bits - 1);
    }
  }

  /** One step: exclusive-or the byte, then multiply, wrapping at 64 bits. */
  function Mix(prime: nat, hash: Word, b: byte): Word {
    (Xor(hash, b, WORD_BITS) * prime) % TWO_TO_64
  }

  function Fold(prime: nat, hash: Word, bytes: Text): Word
    decreases |bytes|
  {
    if bytes == [] then hash else Fold(prime, Mix(prime, hash, bytes[0]), bytes[1..])
  }

  lemma {:induction false} FoldConcat(prime: nat, hash: Word, a: Text, b: Text)
    ensures Fold(prime, hash, a + b) == Fold(prime, Fold(prime, hash, a), b)
    decreases |a|
  {
    if a == [] {
      assert a + b == b;
    } else {
      assert (a + b)[1..] == a[1..] + b;
      FoldConcat(prime, Mix(prime, hash, a[0]), a[1..], b);
    }
  }

  /** One more byte: exclusive-or first, then multiply. */
  lemma {:induction false} FoldNext(prime: nat, hash: Word, bytes: Text, b: byte)
    ensures Fold(prime, hash, bytes + [b]) == (Xor(Fold(prime, hash, bytes), b, WORD_BITS) * prime) % TWO_TO_64
  {
    FoldConcat(prime, hash, bytes, [b]);
    assert [b][1..] == [];
  }

  function Pow2(k: nat): nat {
    if k == 0 then 1 else 2 * Pow2(k - 1)
  }

  lemma {:induction false} XorZero(a: nat, bits: nat)
    requires a < Pow2(bits)
    ensures Xor(a, 0, bits) == a
    decreases bits
  {
    if bits > 0 {
      XorZero(a / 2, bits - 1);
    }
  }

  lemma {:induction false} Pow2Of56()
    ensures Pow2(56) == 0x100_0000_0000_0000
  {
    assert Pow2(4) == 0x10;
    assert Pow2(8) == 0x100;
    assert Pow2(12) == 0x1000;
    assert Pow2(16) == 0x10000;
    assert Pow2(20) == 0x100000;
    assert Pow2(24) == 0x1000000;
    assert Pow2(28) == 0x10000000;
    assert Pow2(32) == 0x100000000;
    assert Pow2(36) == 0x1000000000;
    assert Pow2(40) == 0x10000000000;
    assert Pow2(44) == 0x100000000000;
    assert Pow2(48) == 0x1000000000000;
    assert Pow2(52) == 0x10000000000000;
  }

  lemma {:induction false} XorOfFirstByte()
    ensures Xor(OFFSET_BASIS, 0x61, WORD_BITS) == 0xcbf29ce484222344
  {
    Pow2Of56();
    XorZero(0xcbf29ce4842223, 56);
    assert Xor(0x197e539c9084446, 0x0, 57) == 0x197e539c9084446;
    assert Xor(0x32fca739210888c, 0x1, 58) == 0x32fca739210888d;
    assert Xor(0x65f94e724211119, 0x3, 59) == 0x65f94e72421111a;
    assert Xor(0xcbf29ce48422232, 0x6, 60) == 0xcbf29ce48422234;
    assert Xor(0x197e539c90844464, 0xc, 61) == 0x197e539c90844468;
    assert Xor(0x32fca739210888c9, 0x18, 62) == 0x32fca739210888d1;
    assert Xor(0x65f94e7242111192, 0x30, 63) == 0x65f94e72421111a2;
    assert Xor(0xcbf29ce484222325, 0x61, 64) == 0xcbf29ce484222344;
  }

  lemma MultiplyFirstByte()
    ensures (0xcbf29ce484222344 * 0x100000001b3) % 0x1_0000_0000_0000_0000 == 0xaf63_dc4c_8601_ec8c
  {
  }

  lemma {:induction false} FoldOne(prime: nat, hash: Word, b: byte)
    ensures Fold(prime, hash, [b]) == (Xor(hash, b, WORD_BITS) * prime) % TWO_TO_64
  {
    assert [b] == [] + [b];
    FoldNext(prime, hash, [], b);
    assert Fold(prime, hash, []) == hash;
  }

  /** The published parameters, and the published hashes of the empty text and of "a". */
  lemma {:induction false} PublishedValues(a: Text)
    requires a == Ascii("a")
    ensures FNV_PRIME == 0x100_0000_01b3 && OFFSET_BASIS == 0xcbf2_9ce4_8422_2325
    ensures StableContentHash([]) == 0xcbf2_9ce4_8422_2325
    ensures StableContentHash(a) == 0xaf63_dc4c_8601_ec8c
  {
    assert a == [a[0]];
    SameConstants(a);
    FoldOne(FNV_PRIME, OFFSET_BASIS, a[0]);
    XorOfFirstByte();
    MultiplyFirstByte();
  }

  /** Feed bytes one by one, as the source updates its hash. */
  method Feed(hash: Word, bytes: Text) returns (r: Word)
    ensures r == Fold(FNV_PRIME, hash, bytes)
  {
    var prime := FNV_PRIME;
    r := hash;
    for i := 0 to |bytes|
      invariant Fold(prime, hash, bytes) == Fold(prime, r, bytes[i..])
    {
      assert bytes[i..][1..] == bytes[i + 1..];
      r := Mix(prime, r, bytes[i]);
    }
  }

  /** The build system's content hash, with its own decimal constants. */
  function StableContentHash(bytes: Text): Word {
    Fold(1_099_511_628_211, 14_695_981_039_346_656_037, bytes)
  }

  lemma SameConstants(bytes: Text)
    ensures StableContentHash(bytes) == Fold(FNV_PRIME, OFFSET_BASIS, bytes)
  {
  }

  // ----- the fed byte stream

  /** Little-endian bytes of the low `width` octets. */
  function LittleEndian(w: nat, width: nat): (r: Text)
    ensures |r| == width
  {
    if width == 0 then [] else [w % 256] + LittleEndian(w / 256, width - 1)
  }

  function StringBytes(t: Text): Text {
    LittleEndian(|t|, 8) + t
  }

  /** The scalar's source spelling. */
  function ScalarName(s: Scalar): Text {
    match s
    case I8 => [0x49, 0x38]
    case I16 => [0x49, 0x31, 0x36]
    case I32 => [0x49, 0x33, 0x32]
    case I64 => [0x49, 0x36, 0x34]
    case U8 => [0x55, 0x38]
    case U16 => [0x55, 0x31, 0x36]
    case U32 => [0x55, 0x33, 0x32]
    case U64 => [0x55, 0x36, 0x34]
    case F16 => [0x46, 0x31, 0x36]
    case F32 => [0x46, 0x33, 0x32]
    case F64 => [0x46, 0x36, 0x34]
    case Byte => [0x42, 0x79, 0x74, 0x65]
  }

  lemma ScalarSpellings()
    ensures ScalarName(I8) == Ascii("I8") && ScalarName(I16) == Ascii("I16")
    ensures ScalarName(I32) == Ascii("I32") && ScalarName(I64) == Ascii("I64")
    ensures ScalarName(U8) == Ascii("U8") && ScalarName(U16) == Ascii("U16")
    ensures ScalarName(U32) == Ascii("U32") && ScalarName(U64) == Ascii("U64")
    ensures ScalarName(F16) == Ascii("F16") && ScalarName(F32) == Ascii("F32")
    ensures ScalarName(F64) == Ascii("F64") && ScalarName(Byte) == Ascii("Byte")
  {
  }

  function TypeBytes(p: Primitive): Text {
    match p
    case StringType => [0]
    case FixedType(scalar) => [1] + StringBytes(ScalarName(scalar))
    case BoolType => [2]
    case CharType => [3]
  }

  function ValueBytes(v: Option<Value>): Text {
    match v
    case None => [0]
    case Some(StringValue(text)) => [1] + StringBytes(text)
    case Some(FixedValue(scalar, bits)) => [2] + StringBytes(ScalarName(scalar)) + LittleEndian(bits, 8)
    case Some(BoolValue(flag)) => [3, if flag then 1 else 0]
    case Some(CharValue(code)) => [4] + LittleEndian(code, 8)
  }

  function Stream(name: Text, contract: Contract, value: Option<Value>): Text {
    StringBytes(name) + [if contract.Optional? then 1 else 0] + TypeBytes(contract.primitive) + ValueBytes(value)
  }

  function FingerprintOf(name: Text, contract: Contract, value: Option<Value>): Word {
    StableContentHash(Stream(name, contract, value))
  }

  method FeedString(hash: Word, t: Text) returns (r: Word)
    ensures r == Fold(FNV_PRIME, hash, StringBytes(t))
  {
    r := Feed(hash, LittleEndian(|t|, 8));
    FoldConcat(FNV_PRIME, hash, LittleEndian(|t|, 8), t);
    r := Feed(r, t);
  }

  /** Feeding piece by piece is one FNV-1a fold over the whole stream, the build system's content hash. */
  method BuildConfigFingerprint(name: Text, contract: Contract, value: Option<Value>) returns (hash: Word)
    ensures hash == FingerprintOf(name, contract, value)
  {
    hash := FeedString(OFFSET_BASIS, name);
    ghost var fed := StringBytes(name);
    var optional := [if contract.Optional? then 1 else 0];
    hash := Feed(hash, optional);
    FoldConcat(FNV_PRIME, OFFSET_BASIS, fed, optional);
    fed := fed + optional;
    hash := FeedType(hash, contract.primitive);
    FoldConcat(FNV_PRIME, OFFSET_BASIS, fed, TypeBytes(contract.primitive));
    fed := fed + TypeBytes(contract.primitive);
    hash := FeedValue(hash, value);
    FoldConcat(FNV_PRIME, OFFSET_BASIS, fed, ValueBytes(value));
    SameConstants(fed + ValueBytes(value));
  }

  method FeedType(hash: Word, p: Primitive) returns (r: Word)
    ensures r == Fold(FNV_PRIME, hash, TypeBytes(p))
  {
    match p
    case StringType => r := Feed(hash, [0]);
    case FixedType(scalar) =>
      FoldConcat(FNV_PRIME, hash, [1], StringBytes(ScalarName(scalar)));
      r := Feed(hash, [1]);
      r := FeedString(r, ScalarName(scalar));
    case BoolType => r := Feed(hash, [2]);
    case CharType => r := Feed(hash, [3]);
  }

  /** A fixed scalar feeds its tag, its name and its payload. */
  method FeedFixed(hash: Word, scalar: Scalar, bits: Word) returns (r: Word)
    ensures r == Fold(FNV_PRIME, hash, [2] + StringBytes(ScalarName(scalar)) + LittleEndian(bits, 8))
  {
    ghost var name, payload := StringBytes(ScalarName(scalar)), LittleEndian(bits, 8);
    r := Feed(hash, [2]);
    r := FeedString(r, ScalarName(scalar));
    r := Feed(r, LittleEndian(bits, 8));
    FoldThree(hash, [2], name, payload);
  }

  lemma FoldThree(hash: Word, a: Text, b: Text, c: Text)
    ensures Fold(FNV_PRIME, hash, a + b + c) == Fold(FNV_PRIME, Fold(FNV_PRIME, Fold(FNV_PRIME, hash, a), b), c)
  {
    FoldConcat(FNV_PRIME, hash, a, b);
    FoldConcat(FNV_PRIME, hash, a + b, c);
  }

  /** A tagged piece feeds its tag, then its bytes. */
  method FeedTagged(hash: Word, tag: byte, bytes: Text) returns (r: Word)
    ensures r == Fold(FNV_PRIME, hash, [tag] + bytes)
  {
    FoldConcat(FNV_PRIME, hash, [tag], bytes);
    r := Feed(hash, [tag]);
    r := Feed(r, bytes);
  }

  method FeedText(hash: Word, text: Text) returns (r: Word)
    ensures r == Fold(FNV_PRIME, hash, [1] + StringBytes(text))
  {
    FoldConcat(FNV_PRIME, hash, [1], StringBytes(text));
    r := Feed(hash, [1]);
    r := FeedString(r, text);
  }

  method FeedValue(hash: Word, v: Option<Value>) returns (r: Word)
    ensures r == Fold(FNV_PRIME, hash, ValueBytes(v))
  {
    match v
    case None => r := Feed(hash, [0]);
    case Some(value) => r := FeedPresent(hash, value);
  }

  method FeedPresent(hash: Word, value: Value) returns (r: Word)
    ensures r == Fold(FNV_PRIME, hash, ValueBytes(Some(value)))
  {
    match value
    case StringValue(text) => r := FeedText(hash, text);
    case FixedValue(scalar, bits) => r := FeedFixed(hash, scalar, bits);
    case BoolValue(flag) => r := Feed(hash, [3, if flag then 1 else 0]);
    case CharValue(code) => r := FeedTagged(hash, 4, LittleEndian(code, 8));
  }

  // ----- the stream decodes

  function FromLittleEndian(bytes: Text): nat {
    if bytes == [] then 0 else bytes[0] + 256 * FromLittleEndian(bytes[1..])
  }

  function Pow256(k: nat): nat {
    if k == 0 then 1 else 256 * Pow256(k - 1)
  }

  lemma {:induction false} LittleEndianRoundTrip(w: nat, width: nat)
    requires w < Pow256(width)
    ensures FromLittleEndian(LittleEndian(w, width)) == w
    decreases width
  {
    if width > 0 {
      LittleEndianRoundTrip(w / 256, width - 1);
      assert LittleEndian(w, width)[1..] == LittleEndian(w / 256, width - 1);
    }
  }

  datatype Parsed<+T> = NoParse | Parse(value: T, rest: Text)

  function ParseWord(bytes: Text): Parsed<nat> {
    if |bytes| < 8 then NoParse else Parse(FromLittleEndian(bytes[..8]), bytes[8..])
  }

  function ParseString(bytes: Text): Parsed<Text> {
    match ParseWord(bytes)
    case NoParse => NoParse
    case Parse(n, rest) => if |rest| < n then NoParse else Parse(rest[..n], rest[n..])
  }

  function ScalarFromName(t: Text): Option<Scalar> {
    if t == ScalarName(I8) then Some(I8) else if t == ScalarName(I16) then Some(I16)
    else if t == ScalarName(I32) then Some(I32) else if t == ScalarName(I64) then Some(I64)
    else if t == ScalarName(U8) then Some(U8) else if t == ScalarName(U16) then Some(U16)
    else if t == ScalarName(U32) then Some(U32) else if t == ScalarName(U64) then Some(U64)
    else if t == ScalarName(F16) then Some(F16) else if t == ScalarName(F32) then Some(F32)
    else if t == ScalarName(F64) then Some(F64) else if t == ScalarName(Byte) then Some(Byte)
    else None
  }

  function ParseScalar(bytes: Text): Parsed<Scalar> {
    match ParseString(bytes)
    case NoParse => NoParse
    case Parse(name, rest) =>
      match ScalarFromName(name) case None => NoParse case Some(s) => Parse(s, rest)
  }

  function ParseType(bytes: Text): Parsed<Primitive> {
    if bytes == [] then NoParse
    else if bytes[0] == 0 then Parse(StringType, bytes[1..])
    else if bytes[0] == 1 then
      (match ParseScalar(bytes[1..]) case NoParse => NoParse case Parse(s, rest) => Parse(FixedType(s), rest))
    else if bytes[0] == 2 then Parse(BoolType, bytes[1..])
    else if bytes[0] == 3 then Parse(CharType, bytes[1..])
    else NoParse
  }

  function ParseBits(bytes: Text): Parsed<Word> {
    match ParseWord(bytes)
    case NoParse => NoParse
    case Parse(w, rest) => if w < 0x1_0000_0000_0000_0000 then Parse(w, rest) else NoParse
  }

  function ParseFixed(bytes: Text): Parsed<Option<Value>> {
    match ParseScalar(bytes)
    case NoParse => NoParse
    case Parse(s, after) =>
      match ParseBits(after) case NoParse => NoParse case Parse(w, end) => Parse(Some(FixedValue(s, w)), end)
  }

  function ParseValue(bytes: Text): Parsed<Option<Value>> {
    if bytes == [] then NoParse
    else
      var rest := bytes[1..];
      if bytes[0] == 0 then Parse(None, rest)
      else if bytes[0] == 1 then
        (match ParseString(rest) case NoParse => NoParse case Parse(t, after) => Parse(Some(StringValue(t)), after))
      else if bytes[0] == 2 then
        ParseFixed(rest)
      else if bytes[0] == 3 then
        (if rest == [] then NoParse else Parse(Some(BoolValue(rest[0] == 1)), rest[1..]))
      else if bytes[0] == 4 then
        (match ParseBits(rest) case NoParse => NoParse case Parse(w, end) => Parse(Some(CharValue(w)), end))
      else NoParse
  }

  datatype Decoded = Decoded(name: Text, contract: Contract, value: Option<Value>)

  function Decode(bytes: Text): Option<Decoded> {
    match ParseString(bytes)
    case NoParse => None
    case Parse(name, afterName) => ParseAfterName(name, afterName)
  }

  /** Text lengths are 64-bit, as every length in memory is. */
  ghost predicate FitsLength(t: Text) {
    |t| < 0x1_0000_0000_0000_0000
  }

  lemma WordParses(w: Word, rest: Text)
    ensures ParseWord(LittleEndian(w, 8) + rest) == Parse(w, rest)
    ensures ParseBits(LittleEndian(w, 8) + rest) == Parse(w, rest)
  {
    LittleEndianRoundTrip(w, 8);
    var all := LittleEndian(w, 8) + rest;
    assert all[..8] == LittleEndian(w, 8) && all[8..] == rest;
  }

  lemma StringParses(t: Text, rest: Text)
    requires FitsLength(t)
    ensures ParseString(StringBytes(t) + rest) == Parse(t, rest)
  {
    WordParses(|t|, t + rest);
    assert StringBytes(t) + rest == LittleEndian(|t|, 8) + (t + rest);
    assert (t + rest)[..|t|] == t && (t + rest)[|t|..] == rest;
  }

  lemma ScalarParses(s: Scalar, rest: Text)
    ensures ParseScalar(StringBytes(ScalarName(s)) + rest) == Parse(s, rest)
  {
    StringParses(ScalarName(s), rest);
    assert ScalarFromName(ScalarName(s)) == Some(s);
  }

  lemma FixedTypeParses(name: Text, scalar: Scalar, rest: Text)
    requires ParseScalar(name + rest) == Parse(scalar, rest)
    ensures ParseType([1] + name + rest) == Parse(FixedType(scalar), rest)
  {
    assert ([1] + name + rest)[1..] == name + rest;
  }

  lemma TypeParses(p: Primitive, rest: Text)
    ensures ParseType(TypeBytes(p) + rest) == Parse(p, rest)
  {
    match p
    case FixedType(scalar) =>
      ScalarParses(scalar, rest);
      FixedTypeParses(StringBytes(ScalarName(scalar)), scalar, rest);
    case StringType => assert ([0] + rest)[1..] == rest;
    case BoolType => assert ([2] + rest)[1..] == rest;
    case CharType => assert ([3] + rest)[1..] == rest;
  }

  lemma FixedValueParses(name: Text, payload: Text, scalar: Scalar, bits: Word)
    requires ParseScalar(name + payload) == Parse(scalar, payload) && ParseBits(payload) == Parse(bits, [])
    ensures ParseValue([2] + name + payload) == Parse(Some(FixedValue(scalar, bits)), [])
  {
    var rest := name + payload;
    assert ParseFixed(rest) == Parse(Some(FixedValue(scalar, bits)), []);
    assert [2] + name + payload == [2] + rest;
    assert ([2] + rest)[1..] == rest;
  }

  lemma WordParsesAlone(w: Word)
    ensures ParseBits(LittleEndian(w, 8)) == Parse(w, [])
  {
    WordParses(w, []);
    assert LittleEndian(w, 8) + [] == LittleEndian(w, 8);
  }

  lemma ValueParses(v: Option<Value>)
    requires v.Some? && v.value.StringValue? ==> FitsLength(v.value.text)
    ensures ParseValue(ValueBytes(v)) == Parse(v, [])
  {
    var all := ValueBytes(v);
    match v
    case None => assert all[1..] == [];
    case Some(StringValue(text)) =>
      StringParses(text, []);
      assert all[1..] == StringBytes(text) + [];
    case Some(FixedValue(scalar, bits)) =>
      ScalarParses(scalar, LittleEndian(bits, 8));
      WordParsesAlone(bits);
      FixedValueParses(StringBytes(ScalarName(scalar)), LittleEndian(bits, 8), scalar, bits);
    case Some(BoolValue(flag)) => assert all[1..][1..] == [];
    case Some(CharValue(code)) =>
      WordParsesAlone(code);
      assert all[1..] == LittleEndian(code, 8);
  }

  function ParseAfterName(name: Text, afterName: Text): Option<Decoded> {
    if afterName == [] then None
    else match ParseType(afterName[1..])
      case NoParse => None
      case Parse(primitive, afterType) =>
        match ParseValue(afterType)
        case NoParse => None
        case Parse(value, end) =>
          if end != [] then None
          else Some(Decoded(name, if afterName[0] == 1 then Optional(primitive) else Plain(primitive), value))
  }

  lemma AfterNameParses(name: Text, contract: Contract, value: Option<Value>, afterName: Text)
    requires value.Some? && value.value.StringValue? ==> FitsLength(value.value.text)
    requires afterName == [if contract.Optional? then 1 else 0] + (TypeBytes(contract.primitive) + ValueBytes(value))
    ensures ParseAfterName(name, afterName) == Some(Decoded(name, contract, value))
  {
    var typed := TypeBytes(contract.primitive) + ValueBytes(value);
    assert afterName[1..] == typed;
    TypeParses(contract.primitive, ValueBytes(value));
    ValueParses(value);
  }

  lemma Reassociate(a: Text, b: Text, c: Text, d: Text)
    ensures a + b + c + d == a + (b + (c + d))
  {
  }

  /** The stream determines the name, the contract and the value or its absence. */
  lemma StreamDecodes(name: Text, contract: Contract, value: Option<Value>)
    requires FitsLength(name) && (value.Some? && value.value.StringValue? ==> FitsLength(value.value.text))
    ensures Decode(Stream(name, contract, value)) == Some(Decoded(name, contract, value))
  {
    var optional: Text := [if contract.Optional? then 1 else 0];
    var afterName := optional + (TypeBytes(contract.primitive) + ValueBytes(value));
    Reassociate(StringBytes(name), optional, TypeBytes(contract.primitive), ValueBytes(value));
    StringParses(name, afterName);
    AfterNameParses(name, contract, value, afterName);
  }
}
