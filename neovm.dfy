/**
 * The fragment of NeoVM that ScriptBuilder's output exercises: the push
 * instructions, NEWARRAY0 and PACK. It is the reference against which the
 * builder's encodings are proved: running an emitted push sequence on an
 * evaluation stack leaves exactly the pushed values on it.
 */
module NeoVm {
  import opened Wrappers
  import opened Bytes

  const PUSHINT8: Byte := 0x00
  const PUSHINT256: Byte := 0x05
  const PUSHT: Byte := 0x08
  const PUSHF: Byte := 0x09
  const PUSHNULL: Byte := 0x0B
  const PUSHDATA1: Byte := 0x0C
  const PUSHDATA4: Byte := 0x0E
  const PUSHM1: Byte := 0x0F
  const PUSH0: Byte := 0x10
  const PUSH16: Byte := 0x20
  const SYSCALL: Byte := 0x41
  const PACK: Byte := 0xC0
  const NEWARRAY0: Byte := 0xC2

  /** Operand widths in bytes of PUSHINT8 .. PUSHINT256, indexed by opcode. */
  const IntWidths: seq<nat> := [1, 2, 4, 8, 16, 32]

  /** Length-prefix widths of PUSHDATA1 .. PUSHDATA4, indexed by opcode - PUSHDATA1. */
  const LengthWidths: seq<nat> := [1, 2, 4]

  datatype StackItem =
    | Null
    | Boolean(b: bool)
    | Integer(i: int)
    | ByteString(bytes: seq<Byte>)
    | Array(items: seq<StackItem>)

  /**
   * Executes the instruction at the head of the script: the new evaluation
   * stack (top at the end) and the number of bytes the instruction occupies,
   * or None for a truncated operand, a PACK without its count, or an opcode
   * outside this fragment.
   */
  function Step(script: seq<Byte>, stack: seq<StackItem>): (r: Option<(seq<StackItem>, nat)>)
    requires |script| > 0
    ensures r.Some? ==> 1 <= r.value.1 <= |script|
  {
    var op := script[0];
    if op <= PUSHINT256 then
      var w := IntWidths[op];
      if |script| < 1 + w then None
      else Some((stack + [Integer(FromSignedLE(script[1..1 + w]))], 1 + w))
    else if op == PUSHT then Some((stack + [Boolean(true)], 1))
    else if op == PUSHF then Some((stack + [Boolean(false)], 1))
    else if op == PUSHNULL then Some((stack + [Null], 1))
    else if PUSHDATA1 <= op <= PUSHDATA4 then
      var w := LengthWidths[op - PUSHDATA1];
      if |script| < 1 + w then None
      else
        var n := FromLE(script[1..1 + w]);
        if |script| < 1 + w + n then None
        else Some((stack + [ByteString(script[1 + w..1 + w + n])], 1 + w + n))
    else if PUSHM1 <= op <= PUSH16 then Some((stack + [Integer(op - PUSH0)], 1))
    else if op == NEWARRAY0 then Some((stack + [Array([])], 1))
    else if op == PACK then
      // pops the count, then that many items; the first popped becomes element 0
      if |stack| == 0 || !stack[|stack| - 1].Integer? then None
      else
        var below := stack[..|stack| - 1];
        var n := stack[|stack| - 1].i;
        if n < 0 || n > |below| then None
        else Some((below[..|below| - n] + [Array(Reverse(below[|below| - n..]))], 1))
    else None
  }

  /** Runs a whole script from the given stack; None when some instruction cannot execute. */
  function Run(script: seq<Byte>, stack: seq<StackItem>): Option<seq<StackItem>>
    decreases |script|
  {
    if script == [] then Some(stack)
    else
      match Step(script, stack)
      case None => None
      case Some((next, size)) => Run(script[size..], next)
  }

  /** Running a script that starts with one instruction of `size` bytes. */
  lemma RunHead(instr: seq<Byte>, rest: seq<Byte>, stack: seq<StackItem>, next: seq<StackItem>)
    requires |instr| > 0
    requires Step(instr + rest, stack) == Some((next, |instr|))
    ensures Run(instr + rest, stack) == Run(rest, next)
  {
    assert (instr + rest)[|instr|..] == rest;
  }

  /** PACK over items pushed in reverse order reassembles them in their own order. */
  lemma RunPack(values: seq<StackItem>, rest: seq<Byte>, stack: seq<StackItem>)
    ensures Run([PACK] + rest, stack + Reverse(values) + [Integer(|values|)]) == Run(rest, stack + [Array(values)])
  {
    var below := stack + Reverse(values);
    var top := below + [Integer(|values|)];
    assert top[..|top| - 1] == below;
    assert below[..|below| - |values|] == stack;
    assert below[|below| - |values|..] == Reverse(values);
    ReverseReverse(values);
    assert Step([PACK] + rest, top) == Some((stack + [Array(values)], 1));
    RunHead([PACK], rest, top, stack + [Array(values)]);
  }

  /** Four fragments that each push one item push the four items, first at the bottom. */
  lemma RunFour(a: seq<Byte>, b: seq<Byte>, c: seq<Byte>, d: seq<Byte>,
                v1: StackItem, v2: StackItem, v3: StackItem, v4: StackItem)
    requires Run(a + (b + (c + d)), []) == Run(b + (c + d), [] + [v1])
    requires Run(b + (c + d), [v1]) == Run(c + d, [v1] + [v2])
    requires Run(c + d, [v1, v2]) == Run(d, [v1, v2] + [v3])
    requires Run(d + [], [v1, v2, v3]) == Run([], [v1, v2, v3] + [v4])
    ensures Run(a + (b + (c + d)), []) == Some([v1, v2, v3, v4])
  {
    assert d + [] == d;
    assert [] + [v1] == [v1];
    assert [v1] + [v2] == [v1, v2];
    assert [v1, v2] + [v3] == [v1, v2, v3];
    assert [v1, v2, v3] + [v4] == [v1, v2, v3, v4];
  }
}
