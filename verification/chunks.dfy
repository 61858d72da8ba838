/**
 * The bytecode container: runtime values with their tag tests and checked
 * accessors, the opcode set, and a chunk (instruction sequence plus constant pool)
 * that only grows, except for slots overwritten when a jump is backpatched.
 */
module Chunks {
  import opened Wrappers

  /** Heap objects are opaque constants here: a string, or a function known by its name. */
  datatype ObjectValue = StringObject(text: string) | FunctionObject(name: string)

  /** The number payload stands for a 64-bit float; no float arithmetic is modelled. */
  datatype Value = Boolean(b: bool) | Nil | Number(n: real) | Object(obj: ObjectValue)

  predicate IsNumber(v: Value) {
    match v
    case Number(_) => true
    case _ => false
  }

  predicate IsBool(v: Value) {
    match v
    case Boolean(_) => true
    case _ => false
  }

  const MustBeNumber := "Must be a number"
  const MustBeBoolean := "Must be a boolean"

  /** The number a value holds, or an error for every other tag. */
  function AsNumber(v: Value): (r: Result<real>)
    ensures r.Ok? <==> IsNumber(v)
    ensures r.Ok? ==> v == Number(r.value)
    ensures r.Err? ==> r.msg == MustBeNumber
  {
    match v
    case Number(n) => Ok(n)
    case _ => Err(MustBeNumber)
  }

  /** The boolean a value holds, or an error for every other tag. */
  function AsBool(v: Value): (r: Result<bool>)
    ensures r.Ok? <==> IsBool(v)
    ensures r.Ok? ==> v == Boolean(r.value)
    ensures r.Err? ==> r.msg == MustBeBoolean
  {
    match v
    case Boolean(b) => Ok(b)
    case _ => Err(MustBeBoolean)
  }

  /** The tags are exclusive: no value is both a number and a boolean. */
  lemma TagsExclusive(v: Value)
    ensures !(IsNumber(v) && IsBool(v))
    ensures IsNumber(v) <==> v.Number?
    ensures IsBool(v) <==> v.Boolean?
  {
  }

  /**
   * Instructions carry their operands inline: constant-pool indices, local slots,
   * or jump distances in instruction slots (16-bit in the instruction set).
   */
  datatype Opcode =
    | OpConstant(index: nat)
    | OpNil | OpTrue | OpFalse | OpPop
    | OpDefineGlobal(global: nat) | OpGetGlobal(global: nat) | OpSetGlobal(global: nat)
    | OpGetLocal(slot: nat) | OpSetLocal(slot: nat)
    | OpEqual | OpGreater | OpLess
    | OpAdd | OpSubtract | OpMultiply | OpDivide
    | OpNot | OpNegate | OpPrint
    | OpJump(offset: nat) | OpJumpIfFalse(offset: nat) | OpLoop(offset: nat)
    | OpReturn

  /** An `OpConstant` names an existing pool entry; other opcodes need nothing. */
  predicate OperandValid(op: Opcode, constants: seq<Value>) {
    op.OpConstant? ==> op.index < |constants|
  }

  /** Every constant operand in `ops` indexes into `constants`. */
  predicate ConstantsValid(ops: seq<Opcode>, constants: seq<Value>) {
    forall i :: 0 <= i < |ops| ==> OperandValid(ops[i], constants)
  }

  /** Appending an opcode keeps the operands valid exactly when the new one is valid. */
  lemma ConstantsValidAppend(ops: seq<Opcode>, constants: seq<Value>, op: Opcode)
    ensures ConstantsValid(ops + [op], constants) <==> ConstantsValid(ops, constants) && OperandValid(op, constants)
  {
    if ConstantsValid(ops + [op], constants) {
      forall i | 0 <= i < |ops| ensures OperandValid(ops[i], constants) {
        assert ops[i] == (ops + [op])[i];
      }
      assert (ops + [op])[|ops|] == op;
    }
  }

  /** Two named opcodes share a mnemonic only when they are the same instruction, up to a constant's index. */
  lemma MnemonicIdentifies(a: Opcode, b: Opcode)
    requires Named(a) && Mnemonic(a) == Mnemonic(b)
    ensures a.OpConstant? ==> b.OpConstant?
    ensures !a.OpConstant? ==> a == b
  {
  }

  /** Growing the pool never invalidates an operand. */
  lemma ConstantsValidGrow(ops: seq<Opcode>, constants: seq<Value>, v: Value)
    requires ConstantsValid(ops, constants)
    ensures ConstantsValid(ops, constants + [v])
  {
  }

  /** The opcodes the disassembler names; it skips every other one silently. */
  predicate Named(op: Opcode) {
    op.OpReturn? || op.OpNegate? || op.OpNot? || op.OpConstant? || op.OpAdd? || op.OpSubtract?
    || op.OpMultiply? || op.OpDivide? || op.OpFalse? || op.OpNil? || op.OpTrue?
  }

  /** The mnemonic the disassembler prints: an `OP_` name for a named opcode, nothing otherwise. */
  function Mnemonic(op: Opcode): (m: string)
    ensures m == "" <==> !Named(op)
    ensures m != "" ==> |m| > 3 && m[..3] == "OP_"
  {
    match op
    case OpReturn => "OP_RETURN"
    case OpNegate => "OP_NEGATE"
    case OpNot => "OP_NOT"
    case OpConstant(_) => "OP_CONSTANT"
    case OpAdd => "OP_ADD"
    case OpSubtract => "OP_SUBTRACT"
    case OpMultiply => "OP_MULTIPLY"
    case OpDivide => "OP_DIVIDE"
    case OpFalse => "OP_FALSE"
    case OpNil => "OP_NIL"
    case OpTrue => "OP_TRUE"
    case _ => ""
  }

  /**
   * One line of a listing: the offset, the mnemonic (empty for opcodes the
   * disassembler does not name) and, for a constant load, the index and the value.
   */
  datatype Line = Line(offset: nat, mnemonic: string, constant: Operand)
  datatype Operand = NoOperand | ConstantOperand(index: nat, value: Value)

  class Chunk {
    var opCodes: seq<Opcode>
    var constants: seq<Value>

    constructor ()
      ensures opCodes == [] && constants == []
    {
      opCodes := [];
      constants := [];
    }

    /** Instruction count: the position the next instruction will occupy. */
    function Len(): nat
      reads this
    {
      |opCodes|
    }

    method WriteChunk(op: Opcode)
      modifies this
      ensures opCodes == old(opCodes) + [op]
      ensures constants == old(constants)
      ensures ConstantsValid(old(opCodes), constants) && OperandValid(op, constants) ==> ConstantsValid(opCodes, constants)
    {
      ConstantsValidAppend(opCodes, constants, op);
      opCodes := opCodes + [op];
    }

    /** Appends `value` to the pool (never deduplicating) and returns its index. */
    method AddConstant(value: Value) returns (index: nat)
      modifies this
      ensures constants == old(constants) + [value]
      ensures index == |old(constants)| && constants[index] == value
      ensures opCodes == old(opCodes)
      ensures ConstantsValid(opCodes, old(constants)) ==> ConstantsValid(opCodes, constants)
    {
      if ConstantsValid(opCodes, constants) {
        ConstantsValidGrow(opCodes, constants, value);
      }
      constants := constants + [value];
      index := |constants| - 1;
    }

    /** Overwrites one already emitted slot; used only for jump backpatching. */
    method ReplaceOpcode(i: nat, op: Opcode)
      requires i < |opCodes|
      modifies this
      ensures opCodes == old(opCodes)[i := op]
      ensures constants == old(constants)
    {
      opCodes := opCodes[i := op];
    }

    /**
     * Describes the instruction at `offset` and returns the offset of the next one,
     * which is always one slot further. A constant load whose index is outside the
     * pool is a fatal error, hence the second precondition.
     */
    method DisassembleInstruction(offset: nat) returns (next: nat, line: Line)
      requires offset < |opCodes|
      requires OperandValid(opCodes[offset], constants)
      ensures next == offset + 1
      ensures line.offset == offset && line.mnemonic == Mnemonic(opCodes[offset])
      ensures line.constant.ConstantOperand? <==> opCodes[offset].OpConstant?
      ensures line.constant.ConstantOperand? ==>
        line.constant.index == opCodes[offset].index && line.constant.value == constants[line.constant.index]
    {
      var op := opCodes[offset];
      match op {
        case OpConstant(k) =>
          line := Line(offset, Mnemonic(op), ConstantOperand(k, constants[k]));
        case _ =>
          line := Line(offset, Mnemonic(op), NoOperand);
      }
      next := offset + 1;
    }

    /**
     * Walks the whole chunk; the returned listing has one line per instruction, in
     * order, and the chunk itself is only read.
     */
    method DisassembleChunk() returns (listing: seq<Line>)
      requires ConstantsValid(opCodes, constants)
      ensures |listing| == |opCodes|
      ensures forall i :: 0 <= i < |listing| ==> listing[i].offset == i && listing[i].mnemonic == Mnemonic(opCodes[i])
      ensures forall i :: 0 <= i < |listing| ==>
        (listing[i].constant.ConstantOperand? <==> opCodes[i].OpConstant?)
      ensures forall i :: 0 <= i < |listing| && listing[i].constant.ConstantOperand? ==>
        listing[i].constant.value == constants[opCodes[i].index]
    {
      var offset: nat := 0;
      listing := [];
      while offset < |opCodes|
        invariant offset <= |opCodes|
        invariant |listing| == offset
        invariant forall i :: 0 <= i < offset ==> listing[i].offset == i && listing[i].mnemonic == Mnemonic(opCodes[i])
        invariant forall i :: 0 <= i < offset ==>
          (listing[i].constant.ConstantOperand? <==> opCodes[i].OpConstant?)
        invariant forall i :: 0 <= i < offset && listing[i].constant.ConstantOperand? ==>
          listing[i].constant.value == constants[opCodes[i].index]
      {
        var line;
        offset, line := DisassembleInstruction(offset);
        listing := listing + [line];
      }
    }
  }

  /**
   * A pool index handed out by `AddConstant` stays a valid `OpConstant` operand,
   * and the listing shows the very value that was added.
   */
  lemma AddedConstantIsOperand(constants: seq<Value>, v: Value, more: seq<Value>)
    ensures OperandValid(OpConstant(|constants|), constants + [v] + more)
    ensures (constants + [v] + more)[|constants|] == v
  {
  }
}
