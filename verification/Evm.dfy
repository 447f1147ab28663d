/**
The fragment of the Ethereum virtual machine that deployment init code runs on: PUSH1, PUSH2, CODECOPY
and RETURN as in Appendix H of the Ethereum Yellow Paper, with the gas of Appendix G, the calldata
prices of EIP-2028 and the init-code word price of EIP-3860.
*/
module Evm {
  import opened Wrappers
  import opened Lines

  const STACK_LIMIT := 1024

  const G_VERYLOW: nat := 3
  const G_COPY: nat := 3
  const G_MEMORY: nat := 3
  const G_TRANSACTION: nat := 21_000
  const G_TXCREATE: nat := 32_000
  const G_CODEDEPOSIT: nat := 200
  const G_TXDATA_ZERO: nat := 4
  const G_TXDATA_NONZERO: nat := 16
  const G_INITCODE_WORD: nat := 2

  // The top of the stack is at index 0.
  datatype Machine = Machine(pc: nat, stack: seq<nat>, memory: seq<Byte>, gas: nat)

  // OutsideModel stands for every opcode other than the four above and the implicit STOP.
  datatype Status = Running(machine: Machine) | Returned(data: seq<Byte>, gas: nat) | Failed | OutsideModel

  function CeilDiv32(n: nat): nat { (n + 31) / 32 }

  // Yellow Paper, equation for C_mem.
  function MemoryCost(words: nat): nat { G_MEMORY * words + words * words / 512 }

  // Yellow Paper, memory expansion M(s, f, l): a zero-length range touches nothing.
  function WordsAfter(words: nat, offset: nat, size: nat): (w: nat)
    ensures w >= words
  {
    if size == 0 || CeilDiv32(offset + size) <= words then words else CeilDiv32(offset + size)
  }

  lemma MemoryCostMonotone(a: nat, b: nat)
    requires a <= b
    ensures MemoryCost(a) <= MemoryCost(b)
  {
    assert a * a <= a * b <= b * b;
  }

  function Zeros(n: nat): (z: seq<Byte>)
    ensures |z| == n
  {
    seq(n, _ => 0)
  }

  // Memory grown, with zeros, to a number of words.
  function Grown(memory: seq<Byte>, words: nat): seq<Byte> {
    if |memory| < 32 * words then memory + Zeros(32 * words - |memory|) else memory
  }

  // size bytes of code from offset; reads past the end are zero.
  function CodeSlice(code: seq<Byte>, offset: nat, size: nat): (s: seq<Byte>)
    ensures |s| == size
  {
    seq(size, i requires 0 <= i < size => if offset + i < |code| then code[offset + i] else 0)
  }

  function CodeByte(code: seq<Byte>, pc: nat): Byte { if pc < |code| then code[pc] else 0 }

  // The gas an instruction charges on top of its own price for touching memory.
  function ExpansionGas(memory: seq<Byte>, offset: nat, size: nat): nat {
    var words := CeilDiv32(|memory|);
    MemoryCostMonotone(words, WordsAfter(words, offset, size));
    MemoryCost(WordsAfter(words, offset, size)) - MemoryCost(words)
  }

  // A big-endian two-byte operand.
  function Operand2(hi: nat, lo: nat): nat { 256 * hi + lo }

  function Push(m: Machine, value: nat, width: nat): Status {
    if |m.stack| >= STACK_LIMIT || m.gas < G_VERYLOW then Failed
    else Running(Machine(m.pc + 1 + width, [value] + m.stack, m.memory, m.gas - G_VERYLOW))
  }

  function CodeCopy(code: seq<Byte>, m: Machine): Status {
    if |m.stack| < 3 then Failed
    else
      var dest, offset, size := m.stack[0], m.stack[1], m.stack[2];
      var cost := G_VERYLOW + G_COPY * CeilDiv32(size) + ExpansionGas(m.memory, dest, size);
      if m.gas < cost then Failed
      else
        var grown := Grown(m.memory, WordsAfter(CeilDiv32(|m.memory|), dest, size));
        var memory :=
          if size == 0 then grown
          else grown[..dest] + CodeSlice(code, offset, size) + grown[dest + size..];
        Running(Machine(m.pc + 1, m.stack[3..], memory, m.gas - cost))
  }

  function Return(m: Machine): Status {
    if |m.stack| < 2 then Failed
    else
      var offset, size := m.stack[0], m.stack[1];
      var cost := ExpansionGas(m.memory, offset, size);
      if m.gas < cost then Failed
      else if size == 0 then Returned([], m.gas - cost)
      else
        var grown := Grown(m.memory, WordsAfter(CeilDiv32(|m.memory|), offset, size));
        Returned(grown[offset..offset + size], m.gas - cost)
  }

  function Step(code: seq<Byte>, m: Machine): (status: Status)
    ensures status.Running? ==> status.machine.gas < m.gas
  {
    var op := CodeByte(code, m.pc);
    if op == 0x00 then Returned([], m.gas)  // STOP, also past the end of the code
    else if op == 0x60 then Push(m, CodeByte(code, m.pc + 1), 1)
    else if op == 0x61 then Push(m, Operand2(CodeByte(code, m.pc + 1), CodeByte(code, m.pc + 2)), 2)
    else if op == 0x39 then CodeCopy(code, m)
    else if op == 0xf3 then Return(m)
    else OutsideModel
  }

  // Every instruction costs gas, so a run ends.
  function Run(code: seq<Byte>, m: Machine): Status
    decreases m.gas
  {
    var status := Step(code, m);
    if status.Running? then Run(code, status.machine) else status
  }

  function CalldataGas(data: seq<Byte>): nat {
    if data == [] then 0
    else (if data[0] == 0 then G_TXDATA_ZERO else G_TXDATA_NONZERO) + CalldataGas(data[1..])
  }

  lemma {:induction false} CalldataGasBounds(data: seq<Byte>)
    ensures G_TXDATA_ZERO * |data| <= CalldataGas(data) <= G_TXDATA_NONZERO * |data|
  {
    if data != [] {
      CalldataGasBounds(data[1..]);
    }
  }

  function IntrinsicCreateGas(initcode: seq<Byte>): nat {
    G_TRANSACTION + G_TXCREATE + CalldataGas(initcode) + G_INITCODE_WORD * CeilDiv32(|initcode|)
  }

  // What a network adds to the Yellow Paper: the code size limit of EIP-170, the init-code size limit of
  // EIP-3860, the refusal of code starting with 0xEF of EIP-3541, the calldata floor of EIP-7623, and the cap
  // on a transaction's gas of EIP-7825.
  datatype Rules = Rules(maxCodeSize: Option<nat>, maxInitcodeSize: Option<nat>, refusesEf: bool, calldataFloor: bool,
                         maxTxGas: Option<nat>)

  const MAINNET := Rules(Some(24_576), Some(49_152), true, true, Some(0x100_0000))

  const G_FLOOR_PER_TOKEN: nat := 10

  predicate Within(size: nat, limit: Option<nat>) { limit.None? || size <= limit.value }

  // A zero byte is one token, any other is four.
  function CalldataTokens(data: seq<Byte>): nat {
    if data == [] then 0 else (if data[0] == 0 then 1 else 4) + CalldataTokens(data[1..])
  }

  lemma {:induction false} CalldataTokensBound(data: seq<Byte>)
    ensures CalldataTokens(data) <= 4 * |data|
  {
    if data != [] {
      CalldataTokensBound(data[1..]);
    }
  }

  function FloorGas(rules: Rules, data: seq<Byte>): nat {
    if rules.calldataFloor then G_TRANSACTION + G_FLOOR_PER_TOKEN * CalldataTokens(data) else 0
  }

  predicate MayBeCode(rules: Rules, data: seq<Byte>) {
    Within(|data|, rules.maxCodeSize) && !(rules.refusesEf && data != [] && data[0] == 0xEF)
  }

  datatype CreateResult = Deployed(code: seq<Byte>) | NotDeployed

  // A contract-creation transaction: intrinsic gas, the init code, then the code deposit.
  function CreateTx(rules: Rules, gasLimit: nat, initcode: seq<Byte>): CreateResult {
    if !Within(|initcode|, rules.maxInitcodeSize) || !Within(gasLimit, rules.maxTxGas) then NotDeployed
    else if gasLimit < IntrinsicCreateGas(initcode) || gasLimit < FloorGas(rules, initcode) then NotDeployed
    else
      match Run(initcode, Machine(0, [], [], gasLimit - IntrinsicCreateGas(initcode)))
      case Returned(data, gas) =>
        if gas < G_CODEDEPOSIT * |data| || !MayBeCode(rules, data) then NotDeployed else Deployed(data)
      case _ => NotDeployed
  }
}
