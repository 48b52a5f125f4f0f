/** `src/evm/mod.rs`: the bytecode etched where a system contract is not emulated, and the decoder
    of revert data. The five opcodes the stub uses are given their meaning from the Yellow Paper
    (appendix H) and EIP-140. */
module Evm {
  import opened Wrappers

  type Byte = b: nat | b < 256
  type Bytes = seq<Byte>

  // ---- big-endian words -------------------------------------------------------------------------

  function Pow256(k: nat): nat {
    if k == 0 then 1 else 256 * Pow256(k - 1)
  }

  /** `to_be_bytes`, truncating like `as`. */
  function BigEndian(n: nat, width: nat): (bytes: Bytes)
    ensures |bytes| == width
  {
    if width == 0 then [] else BigEndian(n / 256, width - 1) + [n % 256]
  }

  function FromBigEndian(bytes: Bytes): nat {
    if bytes == [] then 0 else 256 * FromBigEndian(bytes[..|bytes| - 1]) + bytes[|bytes| - 1]
  }

  lemma NoBytes()
    ensures Pow256(0) == 1 && FromBigEndian(BigEndian(0, 0)) == 0
  {
  }

  lemma LastByte(n: nat, width: nat)
    requires width > 0 && n < Pow256(width)
    ensures n / 256 < Pow256(width - 1) && 256 * (n / 256) + n % 256 == n
    ensures FromBigEndian(BigEndian(n, width)) == 256 * FromBigEndian(BigEndian(n / 256, width - 1)) + n % 256
  {
    var earlier, last := BigEndian(n / 256, width - 1), [n % 256];
    assert BigEndian(n, width) == earlier + last;
    hide BigEndian, Pow256;
    assert (earlier + last)[..width - 1] == earlier && (earlier + last)[width - 1] == n % 256;
  }

  lemma {:induction false} BigEndianRoundTrip(n: nat, width: nat)
    requires n < Pow256(width)
    ensures FromBigEndian(BigEndian(n, width)) == n
  {
    if width == 0 {
      NoBytes();
    } else {
      LastByte(n, width);
    }
    hide *;
    if width > 0 { BigEndianRoundTrip(n / 256, width - 1); }
  }

  function Zeros(n: nat): (bytes: Bytes)
    ensures |bytes| == n
  {
    seq(n, _ => 0)
  }

  // ---- the stub ---------------------------------------------------------------------------------

  const ERROR_SELECTOR: Bytes := [0x08, 0xc3, 0x79, 0xa0]
  const PANIC_SELECTOR: Bytes := [0x4e, 0x48, 0x7b, 0x71]
  const DATA_OFFSET: nat := 15

  /** Bytes of padding up to the next multiple of 32. */
  function Padding(length: nat): nat {
    (32 - length % 32) % 32
  }

  /** `Error(string)`: selector, offset, length, text, zeros. */
  function ErrorData(reason: Bytes): Bytes {
    ERROR_SELECTOR + (BigEndian(32, 32) + (BigEndian(|reason|, 32)
                                           + (reason + Zeros(Padding(|reason|)))))
  }

  function Header(length: nat): (code: Bytes)
    ensures |code| == DATA_OFFSET
  {
    [0x61] + BigEndian(length, 2) + [0x61] + BigEndian(DATA_OFFSET, 2) + [0x60, 0x00] + [0x39]
    + [0x61] + BigEndian(length, 2) + [0x60, 0x00] + [0xfd]
  }

  /** `len as u16`: the length pushed is the length modulo 2^16. */
  function Stub(reason: Bytes): Bytes {
    Header(|ErrorData(reason)| % 0x1_0000) + ErrorData(reason)
  }

  /** The first half of `revert_stub`: the ABI data, padded byte by byte. */
  method EncodeError(reason: Bytes) returns (data: Bytes)
    ensures data == ErrorData(reason)
  {
    var head := ERROR_SELECTOR + (BigEndian(32, 32) + BigEndian(|reason|, 32));
    data := head + reason;
    ghost var pushed := 0;
    while (|data| - 4) % 32 != 0
      invariant pushed <= Padding(|reason|)
      invariant data == WithPadding(head, reason, pushed)
      decreases Padding(|reason|) - pushed
    {
      PaddingLeft(|reason|, pushed);
      OneMoreZero(head, reason, pushed);
      data := data + [0];
      pushed := pushed + 1;
    }
    PaddingLeft(|reason|, pushed);
    ErrorDataIsPadded(reason);
  }

  ghost function WithPadding(head: Bytes, reason: Bytes, n: nat): (data: Bytes)
    ensures |data| == |head| + |reason| + n
  {
    head + reason + Zeros(n)
  }

  lemma OneMoreZero(head: Bytes, reason: Bytes, n: nat)
    ensures WithPadding(head, reason, n) + [0] == WithPadding(head, reason, n + 1)
  {
  }

  lemma ErrorDataIsPadded(reason: Bytes)
    ensures ErrorData(reason) == WithPadding(ERROR_SELECTOR + (BigEndian(32, 32) + BigEndian(|reason|, 32)),
                                             reason, Padding(|reason|))
  {
    Associate(ERROR_SELECTOR, BigEndian(32, 32), BigEndian(|reason|, 32), reason,
              Zeros(Padding(|reason|)));
  }

  lemma Associate(a: Bytes, b: Bytes, c: Bytes, d: Bytes, e: Bytes)
    ensures a + (b + (c + (d + e))) == a + (b + c) + d + e
  {
  }

  lemma PaddingLeft(n: nat, pushed: nat)
    requires pushed <= Padding(n)
    ensures (64 + n + pushed) % 32 == 0 <==> pushed == Padding(n)
  {
  }

  /** `revert_stub`. */
  method RevertStub(reason: Bytes) returns (code: Bytes)
    ensures code == Stub(reason)
  {
    var data := EncodeError(reason);
    var len := |data| % 0x1_0000;
    code := [0x61] + BigEndian(len, 2);
    code := code + [0x61] + BigEndian(DATA_OFFSET, 2);
    code := code + [0x60, 0x00];
    code := code + [0x39];
    code := code + [0x61] + BigEndian(len, 2);
    code := code + [0x60, 0x00];
    code := code + [0xfd];
    assert code == Header(len);
    code := code + data;
  }

  // ---- an interpreter ---------------------------------------------------------------------------

  /** The stack holds its top last. */
  datatype Machine = Machine(pc: nat, stack: seq<nat>, memory: Bytes)

  datatype Halt = Stopped | Reverted(data: Bytes) | Failed

  /** Bytes `from..from + n`, with zeros past the end. */
  function Slice(bytes: Bytes, from: nat, n: nat): (s: Bytes)
    ensures |s| == n
  {
    seq(n, i requires 0 <= i < n => if from + i < |bytes| then bytes[from + i] else 0)
  }

  function Write(memory: Bytes, at: nat, data: Bytes): Bytes {
    if data == [] then memory
    else
      var size := if at + |data| < |memory| then |memory| else at + |data|;
      seq(size, i requires 0 <= i < size =>
        if at <= i < at + |data| then data[i - at] else if i < |memory| then memory[i] else 0)
  }

  datatype Outcome = Running(machine: Machine) | Halted(halt: Halt)

  /** One instruction: PUSH1, PUSH2, CODECOPY and REVERT; past the code is STOP. */
  function Step(code: Bytes, m: Machine): (r: Outcome)
    ensures r.Running? ==> m.pc < r.machine.pc && m.pc < |code|
  {
    var top := |m.stack| - 1;
    if m.pc >= |code| then Halted(Stopped)
    else match code[m.pc]
      case 0x60 =>
        Running(Machine(m.pc + 2, m.stack + [FromBigEndian(Slice(code, m.pc + 1, 1))], m.memory))
      case 0x61 =>
        Running(Machine(m.pc + 3, m.stack + [FromBigEndian(Slice(code, m.pc + 1, 2))], m.memory))
      case 0x39 =>
        if top < 2 then Halted(Failed)
        else
          var copied := Slice(code, m.stack[top - 1], m.stack[top - 2]);
          Running(Machine(m.pc + 1, m.stack[..top - 2], Write(m.memory, m.stack[top], copied)))
      case 0xfd =>
        if top < 1 then Halted(Failed)
        else Halted(Reverted(Slice(m.memory, m.stack[top], m.stack[top - 1])))
      case _ => Halted(Failed)
  }

  function Execute(code: Bytes, m: Machine): Halt
    decreases |code| - m.pc
  {
    match Step(code, m)
    case Halted(halt) => halt
    case Running(next) => Execute(code, next)
  }

  function Call(code: Bytes): Halt {
    Execute(code, Machine(0, [], []))
  }

  // ---- the decoder ------------------------------------------------------------------------------

  datatype Reason =
    | NoReason
    | ErrorText(text: Bytes)
    | PanicCode(code: nat)
    | Unconvertible  // the length word does not fit `usize`, and the conversion aborts

  /** `revert_reason`. */
  function RevertReason(data: Bytes): Reason {
    if |data| >= 68 && data[..4] == ERROR_SELECTOR then
      var len := FromBigEndian(data[36..68]);
      if len >= 0x1_0000_0000_0000_0000 then Unconvertible
      else if 68 + len <= |data| then ErrorText(data[68..68 + len])
      else NoReason
    else if |data| == 36 && data[..4] == PANIC_SELECTOR then PanicCode(FromBigEndian(data[4..36]))
    else NoReason
  }

  /** Eight bytes are read off the end of a word. */
  lemma {:induction false} ShortValue(bytes: Bytes)
    ensures FromBigEndian(bytes) < Pow256(|bytes|)
  {
    if bytes != [] {
      ShortValue(bytes[..|bytes| - 1]);
      hide FromBigEndian;
      ValueOfMore(bytes);
    }
  }

  lemma ValueOfMore(bytes: Bytes)
    requires bytes != []
    ensures FromBigEndian(bytes) == 256 * FromBigEndian(bytes[..|bytes| - 1]) + bytes[|bytes| - 1]
  {
  }

  /** A word is at least `256^width` exactly when a byte before its last `width` is not zero. */
  lemma {:induction false} LongValue(bytes: Bytes, width: nat)
    requires width <= |bytes|
    ensures FromBigEndian(bytes) >= Pow256(width) <==> exists i :: 0 <= i < |bytes| - width && bytes[i] != 0
    decreases |bytes|
  {
    if width == |bytes| {
      ShortValue(bytes);
    } else {
      var earlier, last := bytes[..|bytes| - 1], bytes[|bytes| - 1];
      ValueOfMore(bytes);
      assert forall i :: 0 <= i < |earlier| ==> earlier[i] == bytes[i];
      if width == 0 {
        LongValue(earlier, 0);
        hide FromBigEndian;
        assert Pow256(0) == 1;
      } else {
        LongValue(earlier, width - 1);
        hide FromBigEndian;
        assert Pow256(width) == 256 * Pow256(width - 1);
      }
    }
  }

  lemma EightBytes()
    ensures Pow256(8) == 0x1_0000_0000_0000_0000
  {
    assert Pow256(2) == 0x1_0000;
    assert Pow256(4) == 0x1_0000_0000;
    assert Pow256(6) == 0x1_0000_0000_0000;
  }

  /** The decoder aborts exactly on an `Error(string)` whose length word has a byte set above its last
      eight; it does so whatever the rest of the data is. */
  lemma AbortsExactly(data: Bytes)
    ensures RevertReason(data) == Unconvertible
            <==> |data| >= 68 && data[..4] == ERROR_SELECTOR && exists i :: 36 <= i < 60 && data[i] != 0
  {
    if |data| >= 68 {
      var word := data[36..68];
      EightBytes();
      LongValue(word, 8);
      hide FromBigEndian, Pow256;
      assert forall i :: 36 <= i < 60 ==> data[i] == word[i - 36];
      assert (exists i :: 36 <= i < 60 && data[i] != 0) <==> exists i :: 0 <= i < 24 && word[i] != 0 by {
        if i :| 0 <= i < 24 && word[i] != 0 { assert data[i + 36] != 0; }
      }
    }
  }

  // ---- the round trip ---------------------------------------------------------------------------

  lemma ErrorDataLayout(reason: Bytes)
    ensures var d := ErrorData(reason);
            && |d| == 68 + |reason| + Padding(|reason|)
            && d[..4] == ERROR_SELECTOR
            && d[36..68] == BigEndian(|reason|, 32)
            && d[68..68 + |reason|] == reason
  {
    var d := ErrorData(reason);
    hide BigEndian, Zeros, Padding;
    var tail := reason + Zeros(Padding(|reason|));
    assert d[4..] == BigEndian(32, 32) + (BigEndian(|reason|, 32) + tail);
    assert d[36..] == BigEndian(|reason|, 32) + tail;
    assert d[68..] == tail;
    assert d[36..68] == d[36..][..32];
    assert d[68..68 + |reason|] == d[68..][..|reason|];
  }

  lemma HeaderLayout(length: nat)
    requires length < 0x1_0000
    ensures var h := Header(length);
            && h[0] == 0x61 && h[1..3] == BigEndian(length, 2)
            && h[3] == 0x61 && h[4..6] == BigEndian(DATA_OFFSET, 2)
            && h[6] == 0x60 && h[7] == 0 && h[8] == 0x39
            && h[9] == 0x61 && h[10..12] == BigEndian(length, 2)
            && h[12] == 0x60 && h[13] == 0 && h[14] == 0xfd
  {
  }

  lemma SliceOfPrefix(h: Bytes, d: Bytes, from: nat, n: nat)
    requires from + n <= |h|
    ensures Slice(h + d, from, n) == h[from..from + n]
  {
  }

  lemma Push2(h: Bytes, d: Bytes, m: Machine, n: nat)
    requires m.pc + 3 <= |h| && h[m.pc] == 0x61 && h[m.pc + 1..m.pc + 3] == BigEndian(n, 2)
    requires n < 0x1_0000
    ensures Step(h + d, m) == Running(Machine(m.pc + 3, m.stack + [n], m.memory))
  {
    SliceOfPrefix(h, d, m.pc + 1, 2);
    assert Pow256(2) == 0x1_0000 by { assert Pow256(0) == 1 && Pow256(1) == 256; }
    BigEndianRoundTrip(n, 2);
  }

  lemma Push1Zero(h: Bytes, d: Bytes, m: Machine)
    requires m.pc + 2 <= |h| && h[m.pc] == 0x60 && h[m.pc + 1] == 0
    ensures Step(h + d, m) == Running(Machine(m.pc + 2, m.stack + [0], m.memory))
  {
    var s := Slice(h + d, m.pc + 1, 1);
    assert s == [0] && s[..0] == [];
    assert FromBigEndian(s) == 0;
  }

  lemma CopyOfData(h: Bytes, d: Bytes, m: Machine, length: nat)
    requires m.pc < |h| && h[m.pc] == 0x39 && length <= |d|
    requires m.stack == [length, |h|, 0] && m.memory == []
    ensures Step(h + d, m) == Running(Machine(m.pc + 1, [], d[..length]))
  {
  }

  lemma RevertWithMemory(h: Bytes, d: Bytes, m: Machine)
    requires m.pc < |h| && h[m.pc] == 0xfd && m.stack == [|m.memory|, 0]
    ensures Step(h + d, m) == Halted(Reverted(m.memory))
  {
    assert Slice(m.memory, 0, |m.memory|) == m.memory;
  }

  /** Running the stub reverts with the first `length` bytes of the data behind its header. */
  lemma StubReverts(length: nat, data: Bytes)
    requires length < 0x1_0000 && length <= |data|
    ensures Call(Header(length) + data) == Reverted(data[..length])
  {
    var h := Header(length);
    var code := h + data;
    HeaderLayout(length);
    var m0 := Machine(0, [], []);
    Push2(h, data, m0, length);
    var m1 := Machine(3, [] + [length], []);
    Push2(h, data, m1, DATA_OFFSET);
    var m2 := Machine(6, m1.stack + [DATA_OFFSET], []);
    Push1Zero(h, data, m2);
    var m3 := Machine(8, m2.stack + [0], []);
    assert m3.stack == [length, |h|, 0];
    CopyOfData(h, data, m3, length);
    var m4 := Machine(9, [], data[..length]);
    Push2(h, data, m4, length);
    var m5 := Machine(12, [] + [length], data[..length]);
    Push1Zero(h, data, m5);
    var m6 := Machine(14, m5.stack + [0], data[..length]);
    assert m6.stack == [|m6.memory|, 0];
    RevertWithMemory(h, data, m6);
    assert Execute(code, m6) == Reverted(data[..length]);
    assert Execute(code, m5) == Execute(code, m6);
    assert Execute(code, m4) == Execute(code, m5);
    assert Execute(code, m3) == Execute(code, m4);
    assert Execute(code, m2) == Execute(code, m3);
    assert Execute(code, m1) == Execute(code, m2);
    assert Execute(code, m0) == Execute(code, m1);
  }

  /** Revert data that holds a prefix of the encoding decodes to the reason or to nothing. */
  lemma PrefixDecodes(reason: Bytes, length: nat)
    requires |reason| < 0x1_0000_0000_0000_0000 && length <= |ErrorData(reason)|
    ensures RevertReason(ErrorData(reason)[..length])
         == if length >= 68 + |reason| then ErrorText(reason) else NoReason
  {
    var d := ErrorData(reason);
    var kept := d[..length];
    ErrorDataLayout(reason);
    hide ErrorData, BigEndian;
    if length >= 4 { assert kept[..4] == d[..4]; }
    if length >= 68 {
      assert kept[36..68] == d[36..68];
      LengthFitsWord(|reason|);
      BigEndianRoundTrip(|reason|, 32);
      if length >= 68 + |reason| { assert kept[68..68 + |reason|] == d[68..68 + |reason|]; }
    }
  }

  /** A call to the stub reverts, and the revert data decodes to the reason exactly when the reason
      has at most 65440 bytes: past that the 16-bit length is truncated and nothing decodes. */
  lemma StubRoundTrip(reason: Bytes)
    requires |reason| < 0x1_0000_0000_0000_0000
    ensures Call(Stub(reason)).Reverted?
    ensures RevertReason(Call(Stub(reason)).data)
         == if |reason| <= 65440 then ErrorText(reason) else NoReason
  {
    hide ErrorData, RevertReason, Call;
    var d := ErrorData(reason);
    var length := |d| % 0x1_0000;
    ErrorDataLayout(reason);
    StubReverts(length, d);
    TruncatedLength(|reason|);
    PrefixDecodes(reason, length);
  }

  /** The truncated length covers the text only when nothing was truncated. */
  lemma TruncatedLength(n: nat)
    ensures var length := (68 + n + Padding(n)) % 0x1_0000;
            length >= 68 + n <==> n <= 65440
  {
  }

  lemma LengthFitsWord(n: nat)
    requires n < 0x1_0000_0000_0000_0000
    ensures n < Pow256(32)
  {
    assert Pow256(2) == 0x1_0000;
    assert Pow256(4) == 0x1_0000_0000;
    assert Pow256(6) == 0x1_0000_0000_0000;
    assert Pow256(8) == 0x1_0000_0000_0000_0000;
    Pow256Grows(8, 32);
  }

  lemma {:induction false} Pow256Grows(a: nat, b: nat)
    requires a <= b
    ensures Pow256(a) <= Pow256(b)
  {
    if a < b { Pow256Grows(a, b - 1); }
  }
}
