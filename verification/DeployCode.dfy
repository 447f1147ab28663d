/**
Deployment init code: the 14-byte prefix that makes a CREATE transaction return a given runtime, and
the gas limit such a transaction is sent with.
*/
module DeployCode {
  import opened Evm
  import opened Lines
  import opened Wrappers

  const MAX_DEPLOY_RUNTIME_SIZE: nat := 0xFFFF
  const PREFIX_LENGTH: nat := 14

  // byte(n>>8) and byte(n)
  function HighByte(n: nat): Byte { n / 256 % 256 }

  function LowByte(n: nat): Byte { n % 256 }

  function Prefix(n: nat): seq<Byte> {
    var hi, lo := HighByte(n), LowByte(n);
    [ 0x61, hi, lo,   // PUSH2 len   (CODECOPY size)
      0x60, 0x0e,     // PUSH1 0x0e  (runtime offset)
      0x60, 0x00,     // PUSH1 0x00  (memory dest)
      0x39,           // CODECOPY
      0x61, hi, lo,   // PUSH2 len   (RETURN size)
      0x60, 0x00,     // PUSH1 0x00  (RETURN offset)
      0xf3 ]          // RETURN
  }

  function DeployInitcode(runtime: seq<Byte>): Result<seq<Byte>, nat> {
    if |runtime| > MAX_DEPLOY_RUNTIME_SIZE then Failure(|runtime|)
    else Success(Prefix(|runtime|) + runtime)
  }

  function DeployGas(runtimeLen: nat): nat { 200_000 + 350 * runtimeLen }

  // What the init code burns: six pushes and copies at 3, one word copy price per word, and the
  // quadratic price of the memory it fills.
  function ExecutionGas(n: nat): nat {
    18 + 3 * CeilDiv32(n) + MemoryCost(CeilDiv32(n))
  }

  lemma LengthOperand(n: nat)
    requires n <= MAX_DEPLOY_RUNTIME_SIZE
    ensures Operand2(HighByte(n), LowByte(n)) == n
  {
  }

  // The memory after CODECOPY holds the copied code, padded to whole words.
  function CopiedMemory(copied: seq<Byte>): seq<Byte> {
    copied + Zeros(32 * CeilDiv32(|copied|) - |copied|)
  }

  lemma CopiesRuntime(n: nat, runtime: seq<Byte>, m: Machine)
    requires n <= MAX_DEPLOY_RUNTIME_SIZE && n <= |runtime|
    requires m.pc == 7 && m.stack == [0, 0x0e, n] && m.memory == []
    ensures var cost := 3 + 3 * CeilDiv32(n) + MemoryCost(CeilDiv32(n));
            Step(Prefix(n) + runtime, m) ==
            if m.gas < cost then Failed else Running(Machine(8, [], CopiedMemory(runtime[..n]), m.gas - cost))
  {
    var code := Prefix(n) + runtime;
    assert code[7] == 0x39;
    assert WordsAfter(0, 0, n) == CeilDiv32(n);
    assert MemoryCost(0) == 0;
    assert CodeSlice(code, 14, n) == runtime[..n];
    var grown := Grown([], CeilDiv32(n));
    assert grown == Zeros(32 * CeilDiv32(n));
    assert grown[..0] + runtime[..n] + grown[n..] == CopiedMemory(runtime[..n]);
    assert m.stack[3..] == [];
  }

  lemma ReturnsRuntime(n: nat, runtime: seq<Byte>, m: Machine)
    requires n <= |runtime| && m.pc == 13 && m.stack == [0, n] && m.memory == CopiedMemory(runtime[..n])
    ensures Step(Prefix(n) + runtime, m) == Returned(runtime[..n], m.gas)
  {
    var code := Prefix(n) + runtime;
    assert code[13] == 0xf3;
    assert CeilDiv32(|m.memory|) == CeilDiv32(n);
    assert CopiedMemory(runtime[..n])[0..n] == runtime[..n];
  }

  lemma RunStep(code: seq<Byte>, m: Machine, next: Machine)
    requires Step(code, m) == Running(next)
    ensures Run(code, m) == Run(code, next)
  {
  }

  lemma RunPush1(code: seq<Byte>, m: Machine)
    requires m.pc + 1 < |code| && code[m.pc] == 0x60 && |m.stack| < STACK_LIMIT
    ensures Run(code, m) ==
            if m.gas < 3 then Failed
            else Run(code, Machine(m.pc + 2, [code[m.pc + 1]] + m.stack, m.memory, m.gas - 3))
  {
    assert Step(code, m) == Push(m, code[m.pc + 1], 1);
  }

  lemma RunPush2(code: seq<Byte>, m: Machine)
    requires m.pc + 2 < |code| && code[m.pc] == 0x61 && |m.stack| < STACK_LIMIT
    ensures Run(code, m) ==
            if m.gas < 3 then Failed
            else Run(code, Machine(m.pc + 3, [Operand2(code[m.pc + 1], code[m.pc + 2])] + m.stack, m.memory, m.gas - 3))
  {
    assert Step(code, m) == Push(m, Operand2(code[m.pc + 1], code[m.pc + 2]), 2);
  }

  lemma PushesCopyOperands(code: seq<Byte>, n: nat, gas: nat)
    requires |code| >= 7 && code[0] == 0x61 && Operand2(code[1], code[2]) == n
    requires code[3] == 0x60 && code[4] == 0x0e && code[5] == 0x60 && code[6] == 0x00
    ensures Run(code, Machine(0, [], [], gas)) ==
            if gas < 9 then Failed else Run(code, Machine(7, [0, 0x0e, n], [], gas - 9))
  {
    RunPush2(code, Machine(0, [], [], gas));
    if gas >= 3 {
      assert [n] + [] == [n];
      RunPush1(code, Machine(3, [n], [], gas - 3));
      if gas >= 6 {
        assert [0x0e] + [n] == [0x0e, n];
        RunPush1(code, Machine(5, [0x0e, n], [], gas - 6));
        assert [0] + [0x0e, n] == [0, 0x0e, n];
      }
    }
  }

  lemma PushesReturnOperands(code: seq<Byte>, n: nat, memory: seq<Byte>, gas: nat)
    requires |code| >= 13 && code[8] == 0x61 && Operand2(code[9], code[10]) == n
    requires code[11] == 0x60 && code[12] == 0x00
    ensures Run(code, Machine(8, [], memory, gas)) ==
            if gas < 6 then Failed else Run(code, Machine(13, [0, n], memory, gas - 6))
  {
    RunPush2(code, Machine(8, [], memory, gas));
    if gas >= 3 {
      assert [n] + [] == [n];
      RunPush1(code, Machine(11, [n], memory, gas - 3));
      assert [0] + [n] == [0, n];
    }
  }

  // After CODECOPY.
  lemma RunsToReturn(n: nat, runtime: seq<Byte>, code: seq<Byte>, m: Machine)
    requires n <= MAX_DEPLOY_RUNTIME_SIZE && n <= |runtime| && code == Prefix(n) + runtime
    requires m.pc == 8 && m.stack == [] && m.memory == CopiedMemory(runtime[..n])
    ensures Run(code, m) == if m.gas >= 6 then Returned(runtime[..n], m.gas - 6) else Failed
  {
    var memory := CopiedMemory(runtime[..n]);
    LengthOperand(n);
    assert m == Machine(8, [], memory, m.gas);
    PushesReturnOperands(code, n, memory, m.gas);
    if m.gas >= 6 {
      ReturnsRuntime(n, runtime, Machine(13, [0, n], memory, m.gas - 6));
    }
  }

  lemma PrefixBytes(n: nat, runtime: seq<Byte>)
    requires n <= MAX_DEPLOY_RUNTIME_SIZE
    ensures var code := Prefix(n) + runtime;
            && |code| >= 7 && code[0] == 0x61 && Operand2(code[1], code[2]) == n
            && code[3] == 0x60 && code[4] == 0x0e && code[5] == 0x60 && code[6] == 0x00
  {
    LengthOperand(n);
  }

  // Run to the end on any amount of gas, the prefix for n makes the first n bytes after it the result.
  lemma PrefixReturns(n: nat, runtime: seq<Byte>, gas: nat)
    requires n <= MAX_DEPLOY_RUNTIME_SIZE && n <= |runtime|
    ensures Run(Prefix(n) + runtime, Machine(0, [], [], gas)) ==
            if gas >= ExecutionGas(n) then Returned(runtime[..n], gas - ExecutionGas(n)) else Failed
  {
    var code, memory := Prefix(n) + runtime, CopiedMemory(runtime[..n]);
    PrefixBytes(n, runtime);
    PushesCopyOperands(code, n, gas);
    if gas >= 9 {
      var copy := Machine(7, [0, 0x0e, n], [], gas - 9);
      CopiesRuntime(n, runtime, copy);
      var left := gas - 12 - 3 * CeilDiv32(n) - MemoryCost(CeilDiv32(n));
      if left >= 0 {
        RunStep(code, copy, Machine(8, [], memory, left));
        RunsToReturn(n, runtime, code, Machine(8, [], memory, left));
      }
    }
  }

  // The init code returns exactly the runtime when it can pay for it, and fails with less.
  lemma InitcodeReturnsRuntime(runtime: seq<Byte>, gas: nat)
    requires |runtime| <= MAX_DEPLOY_RUNTIME_SIZE
    ensures DeployInitcode(runtime).Success?
    ensures Run(DeployInitcode(runtime).value, Machine(0, [], [], gas)) ==
            if gas >= ExecutionGas(|runtime|) then Returned(runtime, gas - ExecutionGas(|runtime|)) else Failed
  {
    PrefixReturns(|runtime|, runtime, gas);
    assert runtime[..|runtime|] == runtime;
  }

  // What the prefix for any runtime returns: the bytes that its two-byte length still counts.
  lemma WrappedReturns(runtime: seq<Byte>, n: nat, gas: nat)
    requires n == |runtime| % 0x1_0000 && gas >= ExecutionGas(n)
    ensures n <= |runtime|
    ensures Run(Prefix(|runtime|) + runtime, Machine(0, [], [], gas)) == Returned(runtime[..n], gas - ExecutionGas(n))
  {
    PrefixWraps(|runtime|);
    PrefixReturns(n, runtime, gas);
  }

  // The size limit is exact: a runtime is refused precisely when the code wrapped around it would not return it.
  lemma RefusedIffTruncated(runtime: seq<Byte>, n: nat, gas: nat)
    requires n == |runtime| % 0x1_0000 && gas >= ExecutionGas(n)
    ensures var intact := Run(Prefix(|runtime|) + runtime, Machine(0, [], [], gas)) == Returned(runtime, gas - ExecutionGas(n));
            && (DeployInitcode(runtime) == Success(Prefix(|runtime|) + runtime) <==> intact)
            && (DeployInitcode(runtime) == Failure(|runtime|) <==> !intact)
  {
    WrappedReturns(runtime, n, gas);
    WholeIffFits(runtime, n);
  }

  lemma WholeIffFits(runtime: seq<Byte>, n: nat)
    requires n == |runtime| % 0x1_0000
    ensures runtime[..n] == runtime <==> |runtime| <= 0xFFFF
  {
    assert |runtime| <= 0xFFFF ==> runtime[..n] == runtime;
    assert |runtime[..n]| == n;
  }

  // byte(n>>8) and byte(n) see the length modulo 65,536.
  lemma PrefixWraps(n: nat)
    ensures Prefix(n) == Prefix(n % 0x1_0000)
  {
    assert n % 0x1_0000 % 256 == n % 256;
    assert n % 0x1_0000 / 256 % 256 == n / 256 % 256;
  }

  lemma SquareBound(w: nat)
    requires w <= 2048
    ensures w * w / 512 <= 4 * w
  {
    SquareAtMost(w, 2048);
    QuotientBound(w * w, w);
  }

  lemma SquareAtMost(w: nat, most: nat)
    requires w <= most
    ensures w * w <= most * w
  {
  }

  lemma QuotientBound(square: nat, w: nat)
    requires square <= 2048 * w
    ensures square / 512 <= 4 * w
  {
  }

  lemma CreateCostFits(n: nat, calldata: nat)
    requires n <= MAX_DEPLOY_RUNTIME_SIZE
    requires calldata <= 16 * (n + PREFIX_LENGTH)
    ensures 53_000 + calldata + 2 * CeilDiv32(n + PREFIX_LENGTH) + ExecutionGas(n) + 200 * n <= DeployGas(n)
  {
    var w := CeilDiv32(n);
    assert 32 * w <= n + 31;
    SquareBound(w);
    var square := w * w / 512;
    assert MemoryCost(w) == 3 * w + square;
    assert 32 * CeilDiv32(n + PREFIX_LENGTH) <= n + PREFIX_LENGTH + 31;
  }

  // A CREATE transaction sent with DeployGas never runs out: intrinsic cost, execution and code deposit
  // together stay within the limit. So it deploys exactly the runtime, if and only if the network admits the
  // runtime as code, the init code for its size, and a transaction with that much gas.
  lemma DeployTxSucceeds(rules: Rules, runtime: seq<Byte>)
    requires |runtime| <= MAX_DEPLOY_RUNTIME_SIZE
    ensures DeployInitcode(runtime).Success?
    ensures CreateTx(rules, DeployGas(|runtime|), DeployInitcode(runtime).value) ==
            if MayBeCode(rules, runtime) && Within(|runtime| + PREFIX_LENGTH, rules.maxInitcodeSize)
               && Within(DeployGas(|runtime|), rules.maxTxGas) then Deployed(runtime)
            else NotDeployed
  {
    var n, initcode := |runtime|, DeployInitcode(runtime).value;
    assert |initcode| == n + PREFIX_LENGTH;
    CalldataGasBounds(initcode);
    CalldataTokensBound(initcode);
    CreateCostFits(n, CalldataGas(initcode));
    InitcodeReturnsRuntime(runtime, DeployGas(n) - IntrinsicCreateGas(initcode));
  }

  // With mainnet's rules the code rules decide: the other limits only bind beyond the code size limit.
  lemma DeploysOnMainnetIff(runtime: seq<Byte>)
    requires |runtime| <= MAX_DEPLOY_RUNTIME_SIZE
    ensures CreateTx(MAINNET, DeployGas(|runtime|), DeployInitcode(runtime).value) ==
            if |runtime| <= 24_576 && !(runtime != [] && runtime[0] == 0xEF) then Deployed(runtime) else NotDeployed
  {
    DeployTxSucceeds(MAINNET, runtime);
  }

  // Without a code size limit the gas cap of EIP-7825 is the one that binds, from 47,364 bytes on.
  lemma GasCapBindsFrom(rules: Rules, runtime: seq<Byte>)
    requires |runtime| <= MAX_DEPLOY_RUNTIME_SIZE && rules == Rules(None, None, false, rules.calldataFloor, Some(0x100_0000))
    ensures CreateTx(rules, DeployGas(|runtime|), DeployInitcode(runtime).value) ==
            if |runtime| < 47_364 then Deployed(runtime) else NotDeployed
  {
    DeployTxSucceeds(rules, runtime);
  }
}
