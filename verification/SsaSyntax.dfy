/** The part of an SSA module that the sequence-copy lowering reads or rewrites. */
module SsaSyntax {
  import opened Prelude

  type FailureMode = string

  type U32 = n: int | 0 <= n < 0x1_0000_0000

  const U64_LIMIT: int := 0x1_0000_0000_0000_0000

  /** What a generated name is for. A name spelled from `owner:role:ordinal` is hashed in the
      program; here it is the constructor `Generated`, which is what an injective hash gives. */
  datatype Role =
    | ConstantOp | ConstantValue
    | EmptyCondition | EmptyConditionValue | EmptyResult
    | RebuildProject | RebuildProjectValue | RebuildResult
    | StaticProject | StaticProjectValue | StaticReplace | StaticReplaceValue | StaticResult
    | RuntimeEmptyCondition | RuntimeEmptyConditionValue | RuntimeEmptyResult
    | RuntimeProject | RuntimeProjectValue | RuntimeReplace | RuntimeReplaceValue | RuntimeResult
    | OffsetProject | OffsetProjectValue | OffsetReplace | OffsetReplaceValue | OffsetResult
    | OffsetAdd | OffsetAddValue | OffsetAddRequirement | OffsetAddObligation
    | EmptyDestinationView | EmptyDestinationViewValue
    | EmptyDestinationLength | EmptyDestinationLengthValue
    | EmptyDestinationCheck | EmptyDestinationCheckValue
    | EmptySourceView | EmptySourceViewValue
    | EmptySourceLength | EmptySourceLengthValue
    | EmptySourceCheck | EmptySourceCheckValue
    | EmptyViewsCondition | EmptyViewsConditionValue | EmptyViewsResult

  datatype Id = Source(name: string) | Generated(owner: Id, role: Role, ordinal: nat)

  datatype Bound = Exact(length: U32) | UpTo(capacity: U32) {
    function Max(): nat {
      match this
      case Exact(n) => n
      case UpTo(n) => n
    }
  }

  /** `U64` is the one integer type the passes look at; all others are `Named`. */
  datatype Type = Bool | U64 | Sequence(element: Type, bound: Bound) | Named(name: string)

  datatype Evidence = StaticExact | RuntimeChecked(failure: FailureMode)

  datatype Kind =
    | Constant(value: int, ty: Type)
    | Select(operandType: Type)
    | Project(bound: Bound, evidence: Evidence)
    | Replace(elementType: Type, bound: Bound, evidence: Evidence)
    | Construct(elementType: Type, length: nat)
    | Copy(elementType: Type, dstBound: Bound, srcBound: Bound, evidence: Evidence)
    | Length(bound: Bound)
    | View(sourceBound: Bound, viewBound: Bound)
    | AddChecked
    | CompareEq
    | And
    | Call(callee: Id)
    | Other(opcode: nat)

  datatype SsaValue = SsaValue(identity: Id, ty: Type, producer: Option<Id>, block: Id)

  datatype Instruction = Instruction(
    identity: Id,
    semanticIdentity: Option<Id>,
    kind: Kind,
    inputs: seq<Id>,
    outputs: seq<SsaValue>,
    obligations: seq<Id>,
    failure: Option<FailureMode>)

  /** Any terminator: it reads `operands` and goes to one of `targets`, returns or fails. */
  datatype Terminator = Terminator(opcode: nat, operands: seq<Id>, targets: seq<nat>)

  datatype Block = Block(
    identity: Id,
    parameters: seq<SsaValue>,
    instructions: seq<Instruction>,
    terminator: Terminator)

  datatype Function = Function(
    semanticIdentity: Id,
    inputs: seq<SsaValue>,
    outputs: seq<SsaValue>,
    blocks: seq<Block>)

  datatype TransformationRecord = TransformationRecord(
    input: Id, output: Id, rule: string, operation: Id, obligationsRequired: seq<Id>)

  datatype ObligationRecord = ObligationRecord(
    identity: Id, subject: Id, requirement: Id, dependencies: seq<Id>)
}
