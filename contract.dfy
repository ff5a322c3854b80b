/**
 * neo/contract.py: ScriptBuilder, the NeoVM bytecode encoder the test cases
 * use to build invocation scripts, and syscall_code.
 *
 * The encodings are first given as functions (what is appended to the
 * script, and whether the call raises); the ScriptBuilder class then
 * appends them in place, and the lemmas relate the encodings to the
 * NeoVM semantics of module NeoVm.
 */
module Contract {
  import opened Wrappers
  import opened Bytes
  import Vm = NeoVm

  /** A script hash as the bytes its `to_array()` returns. */
  type UInt160 = s: seq<Byte> | |s| == 20 witness seq(20, _ => 0)

  /** A SHA-256 digest. */
  type Digest = s: seq<Byte> | |s| == 32 witness seq(32, _ => 0)

  /** The ValueError (or OverflowError) a builder call raises. */
  datatype Error =
    | InvalidOpcode(opcode: int)
    | IntegerTooLarge(item: int)
    | DataTooLarge(length: nat)
    | UnsupportedItem
    | SyscallOutOfRange(code: int)

  /** The Python values `emit_push` dispatches on. */
  datatype Item =
    | Null                              // None
    | Bool(b: bool)                     // bool, matched before int
    | Bytes(data: seq<Byte>)            // bytes or bytearray
    | Int(x: int)                       // int
    | Str(s: string)                    // str, pushed as its UTF-8 bytes
    | List(items: seq<Item>)            // list or tuple
    | ToArray(result: Option<seq<Byte>>) // an object with to_array(); None when it returns a non-bytes value
    | Unsupported                       // anything else

  /** What one builder call appends, and the error it raises after appending it, if any. */
  datatype Emission = Emission(written: seq<Byte>, outcome: Outcome<Error>)

  /** Two calls in sequence: the second runs only when the first did not raise. */
  function Then(first: Emission, second: Emission): Emission {
    if first.outcome.Fail? then first
    else Emission(first.written + second.written, second.outcome)
  }

  /** An encoding that appends everything or raises before appending anything. */
  function Atomic(r: Result<seq<Byte>, Error>): Emission {
    match r
    case Success(bytes) => Emission(bytes, Pass)
    case Failure(e) => Emission([], Fail(e))
  }

  // ---------------------------------------------------------------- UTF-8

  /** `str.encode('utf-8')` of one Unicode scalar value. */
  function Utf8Char(c: char): (bs: seq<Byte>)
    ensures 1 <= |bs| <= 4
    ensures |bs| == 1 <==> c < 0x80 as char
  {
    var n := c as int;
    if n < 0x80 then [n]
    else if n < 0x800 then [0xC0 + n / 0x40, 0x80 + n % 0x40]
    else if n < 0x1_0000 then [0xE0 + n / 0x1000, 0x80 + n / 0x40 % 0x40, 0x80 + n % 0x40]
    else [0xF0 + n / 0x4_0000, 0x80 + n / 0x1000 % 0x40, 0x80 + n / 0x40 % 0x40, 0x80 + n % 0x40]
  }

  /** `str.encode('utf-8')`. */
  function Utf8(s: string): (bs: seq<Byte>)
    ensures |s| <= |bs| <= 4 * |s|
  {
    if s == [] then [] else Utf8Char(s[0]) + Utf8(s[1..])
  }

  // ---------------------------------------------------------------- integers

  /** The six signed ranges, as neo/contract.py writes them out. */
  lemma SignedRanges(x: int)
    ensures InSignedRange(x, 1) <==> -0x80 <= x <= 0x7F
    ensures InSignedRange(x, 2) <==> -0x8000 <= x <= 0x7FFF
    ensures InSignedRange(x, 4) <==> -0x8000_0000 <= x <= 0x7FFF_FFFF
    ensures InSignedRange(x, 8) <==> -0x8000_0000_0000_0000 <= x <= 0x7FFF_FFFF_FFFF_FFFF
    ensures InSignedRange(x, 16) <==>
      -0x8000_0000_0000_0000_0000_0000_0000_0000 <= x <= 0x7FFF_FFFF_FFFF_FFFF_FFFF_FFFF_FFFF_FFFF
    ensures InSignedRange(x, 32) <==>
      -0x8000_0000_0000_0000_0000_0000_0000_0000_0000_0000_0000_0000_0000_0000_0000_0000 <= x
      <= 0x7FFF_FFFF_FFFF_FFFF_FFFF_FFFF_FFFF_FFFF_FFFF_FFFF_FFFF_FFFF_FFFF_FFFF_FFFF_FFFF
  {
    Pow256Values();
  }

  /**
   * Which of the six literal ranges of `emit_push_int` first holds x: 0 to 5
   * for PUSHINT8 .. PUSHINT256, or None when x is outside all of them. The
   * range chosen is the narrowest signed range that holds x.
   */
  function IntWidthIndex(x: int): (k: Option<nat>)
    ensures k.Some? ==> k.value < 6
  {
    if -0x80 <= x <= 0x7F then Some(0)
    else if -0x8000 <= x <= 0x7FFF then Some(1)
    else if -0x8000_0000 <= x <= 0x7FFF_FFFF then Some(2)
    else if -0x8000_0000_0000_0000 <= x <= 0x7FFF_FFFF_FFFF_FFFF then Some(3)
    else if -0x8000_0000_0000_0000_0000_0000_0000_0000 <= x <= 0x7FFF_FFFF_FFFF_FFFF_FFFF_FFFF_FFFF_FFFF then Some(4)
    else if -0x8000_0000_0000_0000_0000_0000_0000_0000_0000_0000_0000_0000_0000_0000_0000_0000 <= x
         <= 0x7FFF_FFFF_FFFF_FFFF_FFFF_FFFF_FFFF_FFFF_FFFF_FFFF_FFFF_FFFF_FFFF_FFFF_FFFF_FFFF then Some(5)
    else None
  }

  /** The range IntWidthIndex picks holds x, and it picks none exactly outside the 32-byte range. */
  lemma IntWidthIndexHolds(x: int)
    ensures var k := IntWidthIndex(x);
      && (k.Some? ==> InSignedRange(x, Vm.IntWidths[k.value]))
      && (k.None? <==> !InSignedRange(x, 32))
  {
    HalfValues();
  }

  /** IntWidthIndex picks the narrowest of the six signed ranges that holds x, and fails outside all of them. */
  lemma IntWidthIndexNarrowest(x: int)
    ensures var k := IntWidthIndex(x);
      && (k.Some? ==> InSignedRange(x, Vm.IntWidths[k.value]))
      && (k.Some? && k.value > 0 ==> !InSignedRange(x, Vm.IntWidths[k.value - 1]))
      && (k.Some? ==> forall j :: 0 <= j < k.value ==> !InSignedRange(x, Vm.IntWidths[j]))
      && (k.None? <==> !InSignedRange(x, 32))
  {
    IntWidthIndexHolds(x);
    HalfValues();
    var k := IntWidthIndex(x);
    if k.Some? && k.value > 0 {
      assert !InSignedRange(x, Vm.IntWidths[k.value - 1]);
      forall j | 0 <= j < k.value
        ensures !InSignedRange(x, Vm.IntWidths[j])
      {
        if InSignedRange(x, Vm.IntWidths[j]) {
          SignedRangeGrows(x, Vm.IntWidths[j], Vm.IntWidths[k.value - 1]);
        }
      }
    }
  }

  /**
   * The bytes `emit_push_int(x)` appends: PUSHM1..PUSH16 for -1..16, otherwise
   * PUSHINT8..PUSHINT256 followed by the item as little-endian two's complement
   * in the width of the range IntWidthIndex picks.
   */
  function IntPush(x: int): Result<seq<Byte>, Error> {
    if -1 <= x <= 16 then
      var op: Byte := Vm.PUSH0 + x;
      Success([op])
    else
      IntWidthIndexHolds(x);
      match IntWidthIndex(x)
      case Some(k) => Success([k] + SignedLE(x, Vm.IntWidths[k]))
      case None => Failure(IntegerTooLarge(x))
  }

  /** The two ways `emit_push_int` ends for an item off -1..16. */
  lemma WidePush(x: int)
    requires x < -1 || x > 16
    ensures IntWidthIndex(x).None? ==> Push(Int(x)) == Emission([], Fail(IntegerTooLarge(x)))
    ensures IntWidthIndex(x).Some? ==>
      var k := IntWidthIndex(x).value;
      && InSignedRange(x, Vm.IntWidths[k])
      && Push(Int(x)) == Emission([k] + SignedLE(x, Vm.IntWidths[k]), Pass)
  {
    IntWidthIndexHolds(x);
  }

  // ---------------------------------------------------------------- byte strings

  /**
   * The bytes `emit_push_bytes(data)` appends: PUSHDATA1, PUSHDATA2 or PUSHDATA4,
   * the length in 1, 2 or 4 little-endian bytes, then the data.
   */
  function DataPush(data: seq<Byte>): Result<seq<Byte>, Error> {
    Pow256Values();
    if |data| < 0x100 then Success([Vm.PUSHDATA1] + LE(|data|, 1) + data)
    else if |data| < 0x1_0000 then Success([0x0D] + LE(|data|, 2) + data)
    else if |data| < 0x1_0000_0000 then Success([Vm.PUSHDATA4] + LE(|data|, 4) + data)
    else Failure(DataTooLarge(|data|))
  }

  // ---------------------------------------------------------------- values

  /** What `emit_push(item)` appends, stopping at the first item that raises. */
  function Push(item: Item): Emission
    decreases item, 2
  {
    match item
    case Null => Emission([Vm.PUSHNULL], Pass)
    case Bool(b) => Emission([if b then Vm.PUSHT else Vm.PUSHF], Pass)
    case Bytes(data) => Atomic(DataPush(data))
    case Int(x) => Atomic(IntPush(x))
    case Str(s) => Atomic(DataPush(Utf8(s)))
    case List(items) => ArrayPush(items)
    case ToArray(result) =>
      if result.Some? then Atomic(DataPush(result.value)) else Emission([], Fail(UnsupportedItem))
    case Unsupported => Emission([], Fail(UnsupportedItem))
  }

  /** Pushing the items last to first, as the loops over `reversed(...)` do. */
  function PushReversed(items: seq<Item>): Emission
    decreases items, 0
  {
    if items == [] then Emission([], Pass)
    else Then(PushReversed(items[1..]), Push(items[0]))
  }

  /** What `emit_push_array(items)` appends. */
  function ArrayPush(items: seq<Item>): Emission
    decreases items, 1
  {
    if |items| == 0 then Emission([Vm.NEWARRAY0], Pass)
    else Then(Then(PushReversed(items), Atomic(IntPush(|items|))), Emission([Vm.PACK], Pass))
  }

  // ---------------------------------------------------------------- syscalls

  const ContractCall: string := "System.Contract.Call"

  datatype Syscall = Named(name: string) | Numbered(code: int)

  /**
   * `syscall_code(name)`: the first four bytes of SHA-256 of the UTF-8 name,
   * read little-endian. The hash is a parameter of the model.
   */
  function SyscallCode(sha256: seq<Byte> -> Digest, name: string): (code: nat)
    ensures code < 0x1_0000_0000 && code < Pow256(4)
  {
    Pow256Values();
    FromLE(sha256(Utf8(name))[..4])
  }

  /** The id `emit_syscall` writes: the hashed name, or the number given. */
  function SyscallId(syscall: Syscall, sha256: seq<Byte> -> Digest): int {
    match syscall
    case Named(name) => SyscallCode(sha256, name)
    case Numbered(c) => c
  }

  /** SYSCALL and the id in four little-endian bytes; an id off 0..2^32-1 raises once SYSCALL is in. */
  function SyscallTail(code: int): Emission {
    Pow256Values();
    if 0 <= code < 0x1_0000_0000 then Emission([Vm.SYSCALL] + LE(code, 4), Pass)
    else Emission([Vm.SYSCALL], Fail(SyscallOutOfRange(code)))
  }

  /** The two ways SyscallTail ends. */
  lemma SyscallTailCases(code: int)
    ensures !(0 <= code < 0x1_0000_0000) ==> SyscallTail(code) == Emission([Vm.SYSCALL], Fail(SyscallOutOfRange(code)))
    ensures 0 <= code < 0x1_0000_0000 ==>
      code < Pow256(4) && SyscallTail(code) == Emission([Vm.SYSCALL] + LE(code, 4), Pass)
  {
    Pow256Values();
  }

  /** What `emit_syscall(syscall, args)` appends: the args last to first, SYSCALL, the 4-byte id. */
  function SyscallPush(syscall: Syscall, args: seq<Item>, sha256: seq<Byte> -> Digest): Emission {
    Then(PushReversed(args), SyscallTail(SyscallId(syscall, sha256)))
  }

  /**
   * The pushes of `emit_dynamic_call`, before its SYSCALL: `emit_push_array(args)`
   * and `emit_push_int(flags)` append what `emit_push` appends for a list and an int.
   */
  function CallArguments(hash: UInt160, operation: string, flags: int, args: seq<Item>): Emission {
    Then(Then(Then(Push(List(args)), Push(Int(flags))), Push(Str(operation))), Push(ToArray(Some(hash))))
  }

  /** What `emit_dynamic_call(hash, operation, flags, args)` appends. */
  function DynamicCall(hash: UInt160, operation: string, flags: int, args: seq<Item>,
                       sha256: seq<Byte> -> Digest): Emission {
    Then(CallArguments(hash, operation, flags, args), SyscallPush(Named(ContractCall), [], sha256))
  }

  // ---------------------------------------------------------------- what can be pushed

  /** The items `emit_push` encodes without raising: supported types within NeoVM's size limits. */
  predicate Supported(item: Item)
    decreases item
  {
    match item
    case Null => true
    case Bool(_) => true
    case Bytes(data) => |data| < 0x1_0000_0000
    case Int(x) => InSignedRange(x, 32)
    case Str(s) => |Utf8(s)| < 0x1_0000_0000
    case List(items) => InSignedRange(|items|, 32) && forall k :: 0 <= k < |items| ==> Supported(items[k])
    case ToArray(result) => result.Some? && |result.value| < 0x1_0000_0000
    case Unsupported => false
  }

  /** The NeoVM stack item a supported item stands for once pushed. */
  function ValueOf(item: Item): Vm.StackItem
    requires Supported(item)
    decreases item, 1
  {
    match item
    case Null => Vm.Null
    case Bool(b) => Vm.Boolean(b)
    case Bytes(data) => Vm.ByteString(data)
    case Int(x) => Vm.Integer(x)
    case Str(s) => Vm.ByteString(Utf8(s))
    case List(items) => Vm.Array(ValuesOf(items))
    case ToArray(result) => Vm.ByteString(result.value)
  }

  function ValuesOf(items: seq<Item>): (values: seq<Vm.StackItem>)
    requires forall k :: 0 <= k < |items| ==> Supported(items[k])
    decreases items, 0
    ensures |values| == |items|
  {
    if items == [] then [] else [ValueOf(items[0])] + ValuesOf(items[1..])
  }

  /** `emit_push_int` of -1..16 appends the single opcode PUSHM1..PUSH16, 0x10 + x. */
  lemma SmallIntPush(x: int)
    requires -1 <= x <= 16
    ensures Push(Int(x)) == Emission([0x10 + x], Pass)
  {
  }

  /** The one-byte encodings of `emit_push` and `emit_push_array`: PUSHNULL, PUSHT, PUSHF and NEWARRAY0. */
  lemma OneBytePushes()
    ensures Push(Null) == Emission([0x0B], Pass)
    ensures Push(Bool(true)) == Emission([0x08], Pass) && Push(Bool(false)) == Emission([0x09], Pass)
    ensures Push(List([])) == Emission([0xC2], Pass)
  {
  }

  /** `emit_push_int` raises exactly for items outside the signed 256-bit range. */
  lemma IntPushSucceeds(x: int)
    ensures IntPush(x).Success? <==> InSignedRange(x, 32)
  {
    SignedRanges(x);
  }

  /**
   * Outside -1..16, `emit_push_int` writes the prefix PUSHINT8..PUSHINT256 of the
   * narrowest of the widths 1, 2, 4, 8, 16, 32 whose signed range holds the item
   * (the next narrower one does not, and ranges grow with the width), then that
   * many bytes of little-endian two's complement that decode back to the item.
   */
  lemma IntPushLayout(x: int)
    requires !(-1 <= x <= 16) && InSignedRange(x, 32)
    ensures IntPush(x).Success?
    ensures var bytes := IntPush(x).value;
      var k := bytes[0];
      && k <= Vm.PUSHINT256
      && |bytes| == 1 + Vm.IntWidths[k]
      && InSignedRange(x, Vm.IntWidths[k])
      && (k > 0 ==> !InSignedRange(x, Vm.IntWidths[k - 1]))
      && FromSignedLE(bytes[1..]) == x
  {
    IntWidthIndexNarrowest(x);
    var k := IntWidthIndex(x).value;
    var w := Vm.IntWidths[k];
    assert IntPush(x).value[1..] == SignedLE(x, w);
    SignedRoundTrip(x, w);
  }

  /** `emit_push_bytes` raises exactly for data of 2^32 bytes or more. */
  lemma DataPushSucceeds(data: seq<Byte>)
    ensures DataPush(data).Success? <==> |data| < 0x1_0000_0000
  {
  }

  /**
   * Below 2^32 bytes, `emit_push_bytes` writes PUSHDATA1, PUSHDATA2 or PUSHDATA4
   * for lengths below 0x100, 0x10000 and 0x100000000, then the length in 1, 2 or
   * 4 little-endian bytes, then the data: 1 + width + |data| bytes in all.
   */
  lemma DataPushLayout(data: seq<Byte>)
    requires |data| < 0x1_0000_0000
    ensures DataPush(data).Success?
    ensures var bytes := DataPush(data).value;
      var w := if |data| < 0x100 then 1 else if |data| < 0x1_0000 then 2 else 4;
      && bytes[0] == Vm.PUSHDATA1 + (if w == 4 then 2 else w - 1)
      && |bytes| == 1 + w + |data|
      && FromLE(bytes[1..1 + w]) == |data|
      && bytes[1 + w..] == data
  {
    Pow256Values();
    var w := if |data| < 0x100 then 1 else if |data| < 0x1_0000 then 2 else 4;
    var bytes := DataPush(data).value;
    assert bytes[1..1 + w] == LE(|data|, w);
    assert bytes[1 + w..] == data;
    FromLEOfLE(|data|, w);
  }

  lemma {:induction false} PushSucceeds(item: Item)
    ensures Push(item).outcome.Pass? <==> Supported(item)
    decreases item, 1
  {
    match item
    case Bytes(data) => DataPushSucceeds(data);
    case Int(x) => IntPushSucceeds(x);
    case Str(s) => DataPushSucceeds(Utf8(s));
    case List(items) => ArrayPushSucceeds(items);
    case ToArray(result) =>
      if result.Some? {
        DataPushSucceeds(result.value);
      }
    case _ =>
  }

  lemma {:induction false} ArrayPushSucceeds(items: seq<Item>)
    ensures ArrayPush(items).outcome.Pass? <==> Supported(List(items))
    decreases items, 1
  {
    PushReversedSucceeds(items);
    IntPushSucceeds(|items|);
  }

  lemma {:induction false} PushReversedSucceeds(items: seq<Item>)
    ensures PushReversed(items).outcome.Pass? <==> forall k :: 0 <= k < |items| ==> Supported(items[k])
    decreases items, 0
  {
    if items != [] {
      PushReversedSucceeds(items[1..]);
      PushSucceeds(items[0]);
      assert forall k :: 1 <= k < |items| ==> items[k] == items[1..][k - 1];
    }
  }

  // ---------------------------------------------------------------- running the encodings

  lemma RunIntPush(x: int, rest: seq<Byte>, stack: seq<Vm.StackItem>)
    requires InSignedRange(x, 32)
    ensures IntPush(x).Success?
    ensures Vm.Run(IntPush(x).value + rest, stack) == Vm.Run(rest, stack + [Vm.Integer(x)])
  {
    IntPushSucceeds(x);
    var bytes := IntPush(x).value;
    if -1 <= x <= 16 {
      Vm.RunHead(bytes, rest, stack, stack + [Vm.Integer(x)]);
    } else {
      IntPushLayout(x);
      var w := Vm.IntWidths[bytes[0]];
      assert (bytes + rest)[1..1 + w] == bytes[1..];
      Vm.RunHead(bytes, rest, stack, stack + [Vm.Integer(x)]);
    }
  }

  lemma RunDataPush(data: seq<Byte>, rest: seq<Byte>, stack: seq<Vm.StackItem>)
    requires |data| < 0x1_0000_0000
    ensures DataPush(data).Success?
    ensures Vm.Run(DataPush(data).value + rest, stack) == Vm.Run(rest, stack + [Vm.ByteString(data)])
  {
    DataPushLayout(data);
    var w := if |data| < 0x100 then 1 else if |data| < 0x1_0000 then 2 else 4;
    var bytes := DataPush(data).value;
    var script := bytes + rest;
    assert script[1..1 + w] == bytes[1..1 + w];
    assert script[1 + w..1 + w + |data|] == data;
    Vm.RunHead(bytes, rest, stack, stack + [Vm.ByteString(data)]);
  }

  /**
   * Running what `emit_push(item)` appends, on any NeoVM stack, pushes exactly
   * the stack item the value stands for; arrays come back in their own order.
   */
  lemma {:induction false} RunPush(item: Item, rest: seq<Byte>, stack: seq<Vm.StackItem>)
    requires Supported(item)
    ensures Push(item).outcome.Pass?
    ensures Vm.Run(Push(item).written + rest, stack) == Vm.Run(rest, stack + [ValueOf(item)])
    decreases item, 2
  {
    if item.List? {
      RunArrayPush(item.items, rest, stack);
    } else {
      RunScalarPush(item, rest, stack);
    }
  }

  /** RunPush for the values that are not lists: one push instruction each. */
  lemma RunScalarPush(item: Item, rest: seq<Byte>, stack: seq<Vm.StackItem>)
    requires Supported(item) && !item.List?
    ensures Push(item).outcome.Pass?
    ensures Vm.Run(Push(item).written + rest, stack) == Vm.Run(rest, stack + [ValueOf(item)])
  {
    match item
    case Null => Vm.RunHead([Vm.PUSHNULL], rest, stack, stack + [Vm.Null]);
    case Bool(b) => Vm.RunHead(Push(item).written, rest, stack, stack + [Vm.Boolean(b)]);
    case Bytes(data) =>
      RunDataPush(data, rest, stack);
      assert Push(item) == Emission(DataPush(data).value, Pass);
    case Int(x) =>
      RunIntPush(x, rest, stack);
      assert Push(item) == Emission(IntPush(x).value, Pass);
    case Str(s) =>
      RunDataPush(Utf8(s), rest, stack);
      assert Push(item) == Emission(DataPush(Utf8(s)).value, Pass);
    case ToArray(result) =>
      RunDataPush(result.value, rest, stack);
      assert Push(item) == Emission(DataPush(result.value).value, Pass);
  }

  lemma {:induction false} RunArrayPush(items: seq<Item>, rest: seq<Byte>, stack: seq<Vm.StackItem>)
    requires Supported(List(items))
    ensures ArrayPush(items).outcome.Pass?
    ensures Vm.Run(ArrayPush(items).written + rest, stack) == Vm.Run(rest, stack + [ValueOf(List(items))])
    decreases items, 2
  {
    if items == [] {
      Vm.RunHead([Vm.NEWARRAY0], rest, stack, stack + [Vm.Array([])]);
    } else {
      RunPacked(items, rest, stack);
      ArrayPushShape(items, rest);
    }
  }

  lemma ArrayPushShape(items: seq<Item>, rest: seq<Byte>)
    requires items != [] && PushReversed(items).outcome.Pass? && IntPush(|items|).Success?
    ensures ArrayPush(items).outcome.Pass?
    ensures ArrayPush(items).written + rest
         == PushReversed(items).written + (IntPush(|items|).value + ([Vm.PACK] + rest))
  {
    var count := IntPush(|items|);
    assert Atomic(count) == Emission(count.value, Pass);
    ThenPack(PushReversed(items), count.value, rest);
  }

  /** Three emissions in sequence, of which only the last two are known. */
  lemma ThenPack(a: Emission, count: seq<Byte>, rest: seq<Byte>)
    requires a.outcome.Pass?
    ensures var e := Then(Then(a, Emission(count, Pass)), Emission([Vm.PACK], Pass));
      && e.outcome.Pass?
      && e.written + rest == a.written + (count + ([Vm.PACK] + rest))
  {
    assert a.written + count + [Vm.PACK] + rest == a.written + (count + ([Vm.PACK] + rest));
  }

  /** The pushes of a non-empty array, its count and PACK build the array. */
  lemma {:induction false} RunPacked(items: seq<Item>, rest: seq<Byte>, stack: seq<Vm.StackItem>)
    requires items != [] && Supported(List(items))
    ensures PushReversed(items).outcome.Pass? && IntPush(|items|).Success?
    ensures Vm.Run(PushReversed(items).written + (IntPush(|items|).value + ([Vm.PACK] + rest)), stack)
         == Vm.Run(rest, stack + [Vm.Array(ValuesOf(items))])
    decreases items, 1
  {
    IntPushSucceeds(|items|);
    var values := ValuesOf(items);
    var count := IntPush(|items|).value;
    RunPushReversed(items, count + ([Vm.PACK] + rest), stack);
    RunIntPush(|items|, [Vm.PACK] + rest, stack + Reverse(values));
    Vm.RunPack(values, rest, stack);
  }

  lemma {:induction false} RunPushReversed(items: seq<Item>, rest: seq<Byte>, stack: seq<Vm.StackItem>)
    requires forall k :: 0 <= k < |items| ==> Supported(items[k])
    ensures PushReversed(items).outcome.Pass?
    ensures Vm.Run(PushReversed(items).written + rest, stack) == Vm.Run(rest, stack + Reverse(ValuesOf(items)))
    decreases items, 0
  {
    PushReversedSucceeds(items);
    if items != [] {
      var tail := items[1..];
      assert forall k :: 0 <= k < |tail| ==> tail[k] == items[k + 1];
      var first := Push(items[0]).written;
      RunPushReversed(tail, first + rest, stack);
      RunPush(items[0], rest, stack + Reverse(ValuesOf(tail)));
      ValuesReversedCons(items, stack);
      PushReversedCons(items, rest);
    } else {
      assert PushReversed(items).written + rest == rest;
      assert stack + Reverse(ValuesOf(items)) == stack;
    }
  }

  /** The values of items reversed: those of the tail reversed, then the first. */
  lemma ValuesReversedCons(items: seq<Item>, stack: seq<Vm.StackItem>)
    requires items != [] && forall k :: 0 <= k < |items| ==> Supported(items[k])
    ensures forall k :: 0 <= k < |items[1..]| ==> Supported(items[1..][k])
    ensures stack + Reverse(ValuesOf(items)) == stack + Reverse(ValuesOf(items[1..])) + [ValueOf(items[0])]
  {
    var tail := items[1..];
    forall k | 0 <= k < |tail|
      ensures Supported(tail[k])
    {
      assert tail[k] == items[k + 1];
    }
    var values := ValuesOf(items);
    var first := ValueOf(items[0]);
    assert values == [first] + ValuesOf(tail);
    assert values[1..] == ValuesOf(tail) && values[0] == first;
    var reversed := Reverse(ValuesOf(tail));
    assert Reverse(values) == reversed + [first];
    assert stack + (reversed + [first]) == stack + reversed + [first];
  }

  /** Pushing items last to first appends the tail's pushes, then the first item's. */
  lemma PushReversedCons(items: seq<Item>, rest: seq<Byte>)
    requires items != [] && PushReversed(items[1..]).outcome.Pass?
    ensures PushReversed(items).written + rest
         == PushReversed(items[1..]).written + (Push(items[0]).written + rest)
  {
    assert PushReversed(items) == Then(PushReversed(items[1..]), Push(items[0]));
    ThenWritten(PushReversed(items[1..]), Push(items[0]), rest);
  }

  /** What two emissions append, the first of which does not raise, and what follows them. */
  lemma ThenWritten(a: Emission, b: Emission, rest: seq<Byte>)
    requires a.outcome.Pass?
    ensures Then(a, b).written + rest == a.written + (b.written + rest)
  {
    assert a.written + b.written + rest == a.written + (b.written + rest);
  }

  /** `emit_syscall` of a name and no arguments: SYSCALL and the four id bytes, which read back as the id. */
  lemma SyscallLayout(name: string, sha256: seq<Byte> -> Digest)
    ensures var e := SyscallPush(Named(name), [], sha256);
      && e.outcome.Pass?
      && e.written == [Vm.SYSCALL] + LE(SyscallCode(sha256, name), 4)
      && FromLE(e.written[1..]) == SyscallCode(sha256, name)
  {
    var code := SyscallCode(sha256, name);
    var e := SyscallPush(Named(name), [], sha256);
    assert e.written[1..] == LE(code, 4);
    FromLEOfLE(code, 4);
  }

  /** A numeric syscall id outside 0..2^32-1 raises after SYSCALL has been appended. */
  lemma SyscallOutOfRangeLayout(code: int, sha256: seq<Byte> -> Digest)
    requires code < 0 || code >= 0x1_0000_0000
    ensures SyscallPush(Numbered(code), [], sha256) == Emission([Vm.SYSCALL], Fail(SyscallOutOfRange(code)))
  {
  }

  /** Four emissions in sequence, none of which raises. */
  lemma ThenFour(a: Emission, b: Emission, c: Emission, d: Emission)
    requires a.outcome.Pass? && b.outcome.Pass? && c.outcome.Pass? && d.outcome.Pass?
    ensures Then(Then(Then(a, b), c), d) == Emission(a.written + (b.written + (c.written + d.written)), Pass)
  {
    assert a.written + b.written + c.written + d.written == a.written + (b.written + (c.written + d.written));
  }

  /** Four supported items pushed in sequence onto an empty stack. */
  lemma RunFourPushes(i1: Item, i2: Item, i3: Item, i4: Item)
    requires Supported(i1) && Supported(i2) && Supported(i3) && Supported(i4)
    ensures var e := Then(Then(Then(Push(i1), Push(i2)), Push(i3)), Push(i4));
      && e.outcome.Pass?
      && Vm.Run(e.written, []) == Some([ValueOf(i1), ValueOf(i2), ValueOf(i3), ValueOf(i4)])
  {
    var a := Push(i1);
    var b := Push(i2);
    var c := Push(i3);
    var d := Push(i4);
    RunPush(i1, b.written + (c.written + d.written), []);
    RunPush(i2, c.written + d.written, [ValueOf(i1)]);
    RunPush(i3, d.written, [ValueOf(i1), ValueOf(i2)]);
    RunPush(i4, [], [ValueOf(i1), ValueOf(i2), ValueOf(i3)]);
    ThenFour(a, b, c, d);
    Vm.RunFour(a.written, b.written, c.written, d.written, ValueOf(i1), ValueOf(i2), ValueOf(i3), ValueOf(i4));
  }

  /**
   * The pushes of `emit_dynamic_call` leave, bottom to top, the argument array,
   * the call flags, the method name and the contract hash on an empty stack.
   */
  lemma RunCallArguments(hash: UInt160, operation: string, flags: int, args: seq<Item>)
    requires Supported(List(args)) && InSignedRange(flags, 32) && |Utf8(operation)| < 0x1_0000_0000
    ensures var pushes := CallArguments(hash, operation, flags, args);
      && pushes.outcome.Pass?
      && Vm.Run(pushes.written, []) == Some([ValueOf(List(args)), Vm.Integer(flags),
                                            Vm.ByteString(Utf8(operation)), Vm.ByteString(hash)])
  {
    RunFourPushes(List(args), Int(flags), Str(operation), ToArray(Some(hash)));
    assert ValueOf(Int(flags)) == Vm.Integer(flags);
    assert ValueOf(Str(operation)) == Vm.ByteString(Utf8(operation));
    assert ValueOf(ToArray(Some(hash))) == Vm.ByteString(hash);
  }

  /**
   * `emit_dynamic_call` appends the four pushes of RunCallArguments, which do
   * not raise, and then SYSCALL with the id of System.Contract.Call.
   */
  lemma DynamicCallLayout(hash: UInt160, operation: string, flags: int, args: seq<Item>,
                          sha256: seq<Byte> -> Digest)
    requires Supported(List(args)) && InSignedRange(flags, 32) && |Utf8(operation)| < 0x1_0000_0000
    ensures DynamicCall(hash, operation, flags, args, sha256)
         == Emission(CallArguments(hash, operation, flags, args).written
                     + [Vm.SYSCALL] + LE(SyscallCode(sha256, ContractCall), 4), Pass)
  {
    RunCallArguments(hash, operation, flags, args);
    ThenSyscall(CallArguments(hash, operation, flags, args), ContractCall, sha256);
  }

  /** A SYSCALL by name after pushes that did not raise. */
  lemma ThenSyscall(pushes: Emission, name: string, sha256: seq<Byte> -> Digest)
    requires pushes.outcome.Pass?
    ensures Then(pushes, SyscallPush(Named(name), [], sha256))
         == Emission(pushes.written + [Vm.SYSCALL] + LE(SyscallCode(sha256, name), 4), Pass)
  {
    SyscallLayout(name, sha256);
  }

  // ---------------------------------------------------------------- the builder

  /** Once a later item's push raises, pushing the items last to first stops there. */
  lemma {:induction false} PushReversedStops(items: seq<Item>, i: nat)
    requires i <= |items| && PushReversed(items[i..]).outcome.Fail?
    ensures PushReversed(items) == PushReversed(items[i..])
  {
    if i > 0 {
      assert items[1..][i - 1..] == items[i..];
      PushReversedStops(items[1..], i - 1);
    }
  }

  /** One more item, at the front, of the items pushed last to first. */
  lemma PushReversedStep(items: seq<Item>, i: nat)
    requires i < |items|
    ensures PushReversed(items[i..]) == Then(PushReversed(items[i + 1..]), Push(items[i]))
  {
    assert items[i..][1..] == items[i + 1..];
  }

  /** A call that follows calls that did not raise extends the script by its own bytes. */
  lemma ThenExtends(base: seq<Byte>, done: Emission, next: Emission, before: seq<Byte>, after: seq<Byte>)
    requires done.outcome.Pass? && before == base + done.written && after == before + next.written
    ensures after == base + Then(done, next).written && Then(done, next).outcome == next.outcome
  {
  }

  /**
   * The first `k` + 1 calls of `emit_dynamic_call`, ending in `done`: once one
   * raises, or once all of them have run except the SYSCALL, the rest is
   * determined by `done`.
   */
  lemma DynamicCallStops(hash: UInt160, operation: string, flags: int, args: seq<Item>,
                         sha256: seq<Byte> -> Digest, k: nat, done: Emission)
    requires k <= 4
    requires k == 0 ==> done == Push(List(args))
    requires k == 1 ==> done == Then(Push(List(args)), Push(Int(flags)))
    requires k == 2 ==> done == Then(Then(Push(List(args)), Push(Int(flags))), Push(Str(operation)))
    requires k >= 3 ==> done == CallArguments(hash, operation, flags, args)
    requires k < 4 ==> done.outcome.Fail?
    requires k == 4 ==> done.outcome.Pass?
    ensures k < 4 ==> DynamicCall(hash, operation, flags, args, sha256) == done
    ensures k == 4 ==> DynamicCall(hash, operation, flags, args, sha256) == Then(done, SyscallPush(Named(ContractCall), [], sha256))
  {
  }

  /**
   * `ScriptBuilder`: a script that each `emit_*` call extends in place. A call
   * that raises may already have appended part of its encoding; the model
   * returns the exception as `Fail` and keeps those bytes, as Python does.
   */
  class ScriptBuilder {
    var script: seq<Byte>

    constructor()
      ensures script == []
    {
      script := [];
    }

    /** `emit(opcode, operand)`: the opcode byte and the operand, or ValueError off 0..0xFF. */
    method Emit(opcode: int, operand: seq<Byte> := []) returns (r: Outcome<Error>)
      modifies this
      ensures 0 <= opcode <= 0xFF ==> r == Pass && script == old(script) + [opcode] + operand
      ensures !(0 <= opcode <= 0xFF) ==> r == Fail(InvalidOpcode(opcode)) && script == old(script)
    {
      if opcode < 0 || opcode > 0xFF {
        return Fail(InvalidOpcode(opcode));
      }
      var op: Byte := opcode;
      script := script + [op];
      if |operand| > 0 {
        script := script + operand;
      }
      r := Pass;
    }

    /**
     * `emit_push_int(item)`: PUSHM1..PUSH16, or the opcode of the range
     * IntWidthIndex picks (the source's six literal ranges) and the operand.
     */
    method EmitPushInt(item: int) returns (r: Outcome<Error>)
      modifies this
      ensures script == old(script) + Push(Int(item)).written
      ensures r == Push(Int(item)).outcome
    {
      ghost var before := script;
      if item >= -1 && item <= 16 {
        r := Emit(0x10 + item);
        SmallIntPush(item);
        return;
      }
      var k := IntWidthIndex(item);
      WidePush(item);
      if k.None? {
        return Fail(IntegerTooLarge(item));
      }
      r := Emit(k.value);
      ghost var operand := SignedLE(item, Vm.IntWidths[k.value]);
      script := script + SignedLE(item, Vm.IntWidths[k.value]);
      assert script == before + ([k.value] + operand);
    }

    /** `emit_push_bytes(item)`, branch by branch. */
    method EmitPushBytes(item: seq<Byte>) returns (r: Outcome<Error>)
      modifies this
      ensures script == old(script) + Push(Bytes(item)).written
      ensures r == Push(Bytes(item)).outcome
    {
      if |item| < 0x100 {
        assert |item| < Pow256(1) by {
          Pow256Values();
        }
        r := Emit(0x0C);
        script := script + LE(|item|, 1);
      } else if |item| < 0x1_0000 {
        assert |item| < Pow256(2) by {
          Pow256Values();
        }
        r := Emit(0x0D);
        script := script + LE(|item|, 2);
      } else if |item| < 0x1_0000_0000 {
        assert |item| < Pow256(4) by {
          Pow256Values();
        }
        r := Emit(0x0E);
        script := script + LE(|item|, 4);
      } else {
        return Fail(DataTooLarge(|item|));
      }
      script := script + item;
    }

    /** `emit_push(item)`: dispatch on the type of the item. */
    method EmitPush(item: Item) returns (r: Outcome<Error>)
      modifies this
      ensures script == old(script) + Push(item).written
      ensures r == Push(item).outcome
      decreases item, 2
    {
      match item
      case Null => r := Emit(Vm.PUSHNULL);
      case Bool(b) => r := Emit(if b then Vm.PUSHT else Vm.PUSHF);
      case Bytes(data) => r := EmitPushBytes(data);
      case Int(x) => r := EmitPushInt(x);
      case Str(s) => r := EmitPushBytes(Utf8(s));
      case List(items) => r := EmitPushArray(items);
      case ToArray(result) =>
        if result.None? {
          return Fail(UnsupportedItem);
        }
        r := EmitPushBytes(result.value);
      case Unsupported => r := Fail(UnsupportedItem);
    }

    /** `emit_push_array(array)`: NEWARRAY0, or the items last to first, their count and PACK. */
    method EmitPushArray(items: seq<Item>) returns (r: Outcome<Error>)
      modifies this
      ensures script == old(script) + Push(List(items)).written
      ensures r == Push(List(items)).outcome
      decreases items, 1
    {
      if |items| == 0 {
        r := Emit(Vm.NEWARRAY0);
        return;
      }
      r := EmitPushAll(items);
      if r.Fail? {
        return;
      }
      ghost var pushed := script;
      r := EmitPushInt(|items|);
      if r.Fail? {
        return;
      }
      r := Emit(Vm.PACK);
      assert script == pushed + Push(Int(|items|)).written + [Vm.PACK];
    }

    /** The loop `for item in reversed(items): self.emit_push(item)`. */
    method EmitPushAll(items: seq<Item>) returns (r: Outcome<Error>)
      modifies this
      ensures script == old(script) + PushReversed(items).written
      ensures r == PushReversed(items).outcome
      decreases items, 0
    {
      var i := |items|;
      while i > 0
        invariant 0 <= i <= |items|
        invariant script == old(script) + PushReversed(items[i..]).written
        invariant PushReversed(items[i..]).outcome.Pass?
        decreases i
      {
        i := i - 1;
        ghost var before := script;
        r := EmitPush(items[i]);
        PushReversedStep(items, i);
        assert script == old(script) + PushReversed(items[i..]).written;
        if r.Fail? {
          PushReversedStops(items, i);
          return;
        }
      }
      assert items[0..] == items;
      r := Pass;
    }

    /** `emit_syscall(syscall, args)`: the args last to first, SYSCALL, then the id in four bytes. */
    method EmitSyscall(syscall: Syscall, args: seq<Item>, sha256: seq<Byte> -> Digest) returns (r: Outcome<Error>)
      modifies this
      ensures script == old(script) + SyscallPush(syscall, args, sha256).written
      ensures r == SyscallPush(syscall, args, sha256).outcome
    {
      r := EmitPushAll(args);
      var code := SyscallId(syscall, sha256);
      ghost var tail := SyscallTail(code);
      assert SyscallPush(syscall, args, sha256) == Then(PushReversed(args), tail);
      if r.Fail? {
        return;
      }
      r := EmitSyscallId(code);
      ThenWritten(PushReversed(args), tail, []);
    }

    /** The end of `emit_syscall`: SYSCALL, then `code.to_bytes(4, 'little')`. */
    method EmitSyscallId(code: int) returns (r: Outcome<Error>)
      modifies this
      ensures script == old(script) + SyscallTail(code).written
      ensures r == SyscallTail(code).outcome
    {
      SyscallTailCases(code);
      r := Emit(Vm.SYSCALL);
      if code < 0 || code >= 0x1_0000_0000 {
        // `code.to_bytes(4, 'little')` raises after SYSCALL has been appended
        r := Fail(SyscallOutOfRange(code));
      } else {
        script := script + LE(code, 4);
      }
    }

    /**
     * `emit_dynamic_call(script_hash, method, call_flags, args)`: the argument
     * array, the flags, the method name and the hash, then System.Contract.Call.
     */
    method EmitDynamicCall(hash: UInt160, operation: string, flags: int, args: seq<Item>,
                           sha256: seq<Byte> -> Digest) returns (r: Outcome<Error>)
      modifies this
      ensures script == old(script) + DynamicCall(hash, operation, flags, args, sha256).written
      ensures r == DynamicCall(hash, operation, flags, args, sha256).outcome
    {
      ghost var base := script;
      ghost var done := Push(List(args));
      r := EmitPushArray(args);
      if r.Fail? {
        DynamicCallStops(hash, operation, flags, args, sha256, 0, done);
        return;
      }
      ghost var before := script;
      r := EmitPushInt(flags);
      ThenExtends(base, done, Push(Int(flags)), before, script);
      done := Then(done, Push(Int(flags)));
      if r.Fail? {
        DynamicCallStops(hash, operation, flags, args, sha256, 1, done);
        return;
      }
      before := script;
      r := EmitPush(Str(operation));
      ThenExtends(base, done, Push(Str(operation)), before, script);
      done := Then(done, Push(Str(operation)));
      if r.Fail? {
        DynamicCallStops(hash, operation, flags, args, sha256, 2, done);
        return;
      }
      before := script;
      r := EmitPush(ToArray(Some(hash)));
      ThenExtends(base, done, Push(ToArray(Some(hash))), before, script);
      done := Then(done, Push(ToArray(Some(hash))));
      if r.Fail? {
        DynamicCallStops(hash, operation, flags, args, sha256, 3, done);
        return;
      }
      before := script;
      r := EmitSyscall(Named(ContractCall), [], sha256);
      ThenExtends(base, done, SyscallPush(Named(ContractCall), [], sha256), before, script);
      DynamicCallStops(hash, operation, flags, args, sha256, 4, done);
    }

    /** `to_bytes()`: the script built so far. */
    method ToBytes() returns (bs: seq<Byte>)
      ensures bs == script
    {
      bs := script;
    }
  }
}
