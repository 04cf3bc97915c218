/** Build-config contracts, providers and the rules that select one value per contract. */
module BuildConfig {
  import opened Collections
  import opened Ordering

  datatype Scalar = I8 | I16 | I32 | I64 | U8 | U16 | U32 | U64 | F16 | F32 | F64 | Byte

  datatype Primitive = StringType | FixedType(scalar: Scalar) | BoolType | CharType

  datatype Contract = Plain(primitive: Primitive) | Optional(primitive: Primitive)

  type Word = x: int | 0 <= x < 0x1_0000_0000_0000_0000

  /** A fixed scalar carries its exact 64-bit payload; a char its code point. */
  datatype Value =
    | StringValue(text: Text)
    | FixedValue(scalar: Scalar, bits: Word)
    | BoolValue(flag: bool)
    | CharValue(code: Word)

  datatype LiteralKind = WholeNumber | DecimalPoint | Exponent

  /** A deferred numeric literal; `bitsAt` holds its value at each scalar whose range it fits. */
  datatype Literal = Literal(authored: Text, kind: LiteralKind, bitsAt: map<Scalar, Word>)

  datatype InputValue = Typed(value: Value) | Deferred(literal: Literal)

  type Span = nat

  datatype Location = Source(span: Span) | Command(argument: nat)

  datatype Origin = ExplicitInput | BuilderGlobal | FixedProjectField | DeclarationDefault

  datatype Input = Input(name: Text, value: InputValue, location: Location)

  type Inputs = map<Text, Input>

  /** Builder globals, and the fingerprint every resolved contract value is stamped with. */
  datatype Services = Services(globals: map<Text, Value>, fingerprint: (Text, Contract, Option<Value>) -> Word)

  datatype Provider = Provider(value: Option<Value>, origin: Origin, fingerprint: Word, location: Option<Location>)

  datatype Fact = Fact(
    name: Text, contract: Contract, required: bool, default_: Option<Value>, span: Option<Span>,
    provider: Option<Provider>)

  datatype Reason = PrimitiveType | Optionality | Required | Default

  datatype Error =
    | SourceContractConflict(first: Fact, conflicting: Fact, reason: Reason)
    | DuplicateProjectContract(first: Fact, conflicting: Fact, reason: Reason)
    | ProjectSourceContractConflict(project: Fact, source: Fact, reason: Reason)
    | FixedProjectSourceTypeMismatch(fixed: Fact, source: Fact, reason: Reason)
    | DefaultTypeMismatch(contract: Fact, provided: Primitive)
    | ValueTypeMismatch(contract: Fact, provided: Primitive, location: Option<Location>)
    | NumericLiteralOutOfRange(contract: Fact, text: Text, location: Option<Location>)
    | MissingRequiredValue(contract: Fact)
    | DirectProjectProviderMissing(contract: Fact)
    | UnknownExplicitInput(input: Input)

  datatype Result<+T> = Ok(value: T) | Err(error: Error)

  datatype Resolved = Resolved(
    name: Text, contract: Contract, required: bool, default_: Option<Value>, value: Option<Value>,
    origin: Origin, fingerprint: Word, span: Option<Span>, location: Option<Location>)

  type Facts = map<Text, Fact>
  type Values = map<Text, Resolved>

  // ----- acceptance of one value

  /** `v` is a value of that primitive type. */
  ghost predicate HasType(v: Value, p: Primitive) {
    match p
    case StringType => v.StringValue?
    case FixedType(scalar) => v.FixedValue? && v.scalar == scalar
    case BoolType => v.BoolValue?
    case CharType => v.CharValue?
  }

  function TypeOf(v: Value): (p: Primitive)
    ensures forall q :: HasType(v, q) <==> q == p
  {
    match v
    case StringValue(_) => StringType
    case FixedValue(scalar, _) => FixedType(scalar)
    case BoolValue(_) => BoolType
    case CharValue(_) => CharType
  }

  predicate IsFloat(s: Scalar) {
    s == F16 || s == F32 || s == F64
  }

  predicate Initialises(kind: LiteralKind, s: Scalar) {
    kind == WholeNumber || IsFloat(s)
  }

  function DefaultScalar(kind: LiteralKind): Scalar {
    if kind == WholeNumber then I32 else F64
  }

  /** Why a supplied value cannot initialise the contract it reaches. */
  datatype Refusal = TypeMismatch(provided: Primitive) | LiteralOutOfRange(text: Text)

  datatype Accepted = Accept(value: Value) | Refuse(refusal: Refusal)

  /** Whole numbers initialise every scalar, other literals only the floating-point ones. */
  ghost predicate MayInitialise(l: Literal, p: Primitive) {
    p.FixedType? && (l.kind == WholeNumber || p.scalar in {F16, F32, F64})
  }

  /** What a supplied value becomes at that primitive type: itself, or the literal's payload at the exact scalar. */
  ghost predicate Becomes(input: InputValue, p: Primitive, v: Value) {
    match input
    case Typed(t) => v == t && HasType(t, p)
    case Deferred(l) => MayInitialise(l, p) && p.scalar in l.bitsAt && v == FixedValue(p.scalar, l.bitsAt[p.scalar])
  }

  /** Why it becomes nothing: it has another type, or its text is out of the scalar's range. */
  ghost predicate RefusedFor(input: InputValue, p: Primitive, refusal: Refusal) {
    match input
    case Typed(t) => refusal.TypeMismatch? && HasType(t, refusal.provided) && refusal.provided != p
    case Deferred(l) =>
      if MayInitialise(l, p) then p.scalar !in l.bitsAt && refusal == LiteralOutOfRange(l.authored)
      else refusal == TypeMismatch(FixedType(if l.kind == WholeNumber then I32 else F64))
  }

  function AcceptFor(v: Value, contract: Contract): (r: Accepted)
    ensures match r
            case Accept(w) => w == v && HasType(v, contract.primitive)
            case Refuse(refusal) => RefusedFor(Typed(v), contract.primitive, refusal)
  {
    if TypeOf(v) == contract.primitive then Accept(v) else Refuse(TypeMismatch(TypeOf(v)))
  }

  function MaterialiseFor(input: InputValue, contract: Contract): (r: Accepted)
    ensures match r
            case Accept(v) => Becomes(input, contract.primitive, v)
            case Refuse(refusal) => RefusedFor(input, contract.primitive, refusal)
  {
    match input
    case Typed(v) => AcceptFor(v, contract)
    case Deferred(l) =>
      if !contract.primitive.FixedType? || !Initialises(l.kind, contract.primitive.scalar)
      then Refuse(TypeMismatch(FixedType(DefaultScalar(l.kind))))
      else if contract.primitive.scalar in l.bitsAt
      then Accept(FixedValue(contract.primitive.scalar, l.bitsAt[contract.primitive.scalar]))
      else Refuse(LiteralOutOfRange(l.authored))
  }

  function Failure(r: Refusal, contract: Fact, location: Option<Location>): Error {
    match r
    case TypeMismatch(provided) => ValueTypeMismatch(contract, provided, location)
    case LiteralOutOfRange(text) => NumericLiteralOutOfRange(contract, text, location)
  }

  // ----- contract comparison

  function ConflictReason(first: Fact, second: Fact, full: bool): Option<Reason> {
    if first.contract.primitive != second.contract.primitive then Some(PrimitiveType)
    else if first.contract.Optional? != second.contract.Optional? then Some(Optionality)
    else if full && first.required != second.required then Some(Required)
    else if full && first.default_ != second.default_ then Some(Default)
    else None
  }

  /** Two facts describe one shared input: everything but spans and attached providers agrees. */
  predicate SameContract(a: Fact, b: Fact) {
    a.contract == b.contract && a.required == b.required && a.default_ == b.default_
  }

  /** The first part, in declaration order, in which two contracts differ. */
  ghost predicate Differ(a: Fact, b: Fact, reason: Reason) {
    match reason
    case PrimitiveType => a.contract.primitive != b.contract.primitive
    case Optionality => a.contract.primitive == b.contract.primitive && a.contract != b.contract
    case Required => a.contract == b.contract && a.required != b.required
    case Default => a.contract == b.contract && a.required == b.required && a.default_ != b.default_
  }

  lemma ConflictIsDifference(a: Fact, b: Fact)
    ensures ConflictReason(a, b, true).None? <==> SameContract(a, b)
    ensures ConflictReason(a, b, false).None? <==> a.contract == b.contract
    ensures forall reason :: ConflictReason(a, b, true) == Some(reason) <==> Differ(a, b, reason)
    ensures forall reason :: ConflictReason(a, b, false) == Some(reason) <==>
                             Differ(a, b, reason) && a.contract != b.contract
  {
  }

  function DefaultError(f: Fact): Option<Error> {
    if f.default_.Some? && TypeOf(f.default_.value) != f.contract.primitive
    then Some(DefaultTypeMismatch(f, TypeOf(f.default_.value))) else None
  }

  function CompatibilityError(source: Fact, fixed: Facts, direct: Facts): Option<Error> {
    var n := source.name;
    if n in fixed && ConflictReason(fixed[n], source, false).Some?
    then Some(FixedProjectSourceTypeMismatch(fixed[n], source, ConflictReason(fixed[n], source, false).value))
    else if n in direct && ConflictReason(direct[n], source, true).Some?
    then Some(ProjectSourceContractConflict(direct[n], source, ConflictReason(direct[n], source, true).value))
    else None
  }
}
