/**
 * testcases/testing.py: the signing thresholds of the validator and
 * committee multisig accounts, the assembly of a multisig witness, and the
 * checkers the test cases apply to an execution of the node's
 * application log.
 */
module Testing {
  import opened Wrappers
  import opened Bytes
  import opened Json
  import C = Contract
  import Vm = NeoVm

  // ---------------------------------------------------------------- thresholds

  /**
   * `n - (n - 1) // 3`, the signatures the validators' (BFT) address needs.
   * Dafny's `/` rounds toward minus infinity for a positive divisor, as
   * Python's `//` does, so n == 0 gives 1 as in the source.
   */
  function BftThreshold(n: nat): (m: int)
    ensures n >= 1 ==> 1 <= m <= n
    ensures 3 * m > 2 * n && 3 * (m - 1) <= 2 * n
    ensures n == 0 ==> m == 1
  {
    n - (n - 1) / 3
  }

  /** `n - (n - 1) // 2`, the signatures the committee address needs: a strict majority. */
  function CommitteeThreshold(n: nat): (m: int)
    ensures n >= 1 ==> 1 <= m <= n
    ensures 2 * m > n && 2 * (m - 1) <= n
    ensures n == 0 ==> m == 1
  {
    n - (n - 1) / 2
  }

  /**
   * The threshold `make_multisig_witness` computes with the divisor
   * `2 if is_committee else 3`: the one of the address it signs for.
   */
  function SigningThreshold(n: nat, isCommittee: bool): (m: int)
    ensures m == if isCommittee then CommitteeThreshold(n) else BftThreshold(n)
  {
    n - (n - 1) / (if isCommittee then 2 else 3)
  }

  /**
   * At least a third of the validators may fail: the BFT threshold is all
   * of them but f = (n - 1) // 3, and any two sets of m signers share more
   * than f validators, so at least one honest one.
   */
  lemma BftQuorumsIntersect<T>(validators: set<T>, a: set<T>, b: set<T>)
    requires |validators| >= 1 && a <= validators && b <= validators
    requires |a| >= BftThreshold(|validators|) && |b| >= BftThreshold(|validators|)
    ensures var n := |validators|; var f := (n - 1) / 3;
      && n >= 3 * f + 1
      && BftThreshold(n) == n - f
      && |a * b| >= f + 1
  {
    var union := a + b;
    assert union <= validators;
    SubsetCardinality(union, validators);
    assert |union| + |a * b| == |a| + |b|;
  }

  /** A subset has no more elements than the set. */
  lemma SubsetCardinality<T>(sub: set<T>, super: set<T>)
    requires sub <= super
    ensures |sub| <= |super|
  {
    assert super == (super - sub) + sub;
    assert (super - sub) * sub == {};
  }

  // ---------------------------------------------------------------- keys and witnesses

  /**
   * A secp256r1 public key, by its affine coordinates. The order the sort
   * uses, by x and then by y, stands in for the ordering of the neo3
   * library's key type.
   */
  datatype ECPoint = ECPoint(x: nat, y: nat)

  predicate KeyLe(a: ECPoint, b: ECPoint) {
    a.x < b.x || (a.x == b.x && a.y <= b.y)
  }

  /** One `(public_key, signature)` pair of `make_multisig_witness`. */
  datatype KeySignature = KeySignature(key: ECPoint, signature: seq<Byte>)

  predicate SortedByKey(s: seq<KeySignature>) {
    forall i, j :: 0 <= i < j < |s| ==> KeyLe(s[i].key, s[j].key)
  }

  lemma KeyLeTransitive(a: ECPoint, b: ECPoint, c: ECPoint)
    requires KeyLe(a, b) && KeyLe(b, c)
    ensures KeyLe(a, c)
  {
  }

  /**
   * `key_sign_pairs.sort(key=lambda x: x[0])`, in place: an insertion sort,
   * which like Python's sort moves a pair only past pairs of greater key.
   */
  method SortByKey(a: array<KeySignature>)
    modifies a
    ensures SortedByKey(a[..])
    ensures multiset(a[..]) == multiset(old(a[..]))
  {
    var i := 0;
    while i < a.Length
      invariant 0 <= i <= a.Length
      invariant SortedByKey(a[..i])
      invariant multiset(a[..]) == multiset(old(a[..]))
    {
      InsertAt(a, i);
      i := i + 1;
    }
    assert a[..a.Length] == a[..];
  }

  /** Moves `a[i]` left past the pairs of greater key, so that `a[..i + 1]` is sorted. */
  method InsertAt(a: array<KeySignature>, i: nat)
    requires i < a.Length && SortedByKey(a[..i])
    modifies a
    ensures SortedByKey(a[..i + 1])
    ensures multiset(a[..]) == multiset(old(a[..]))
  {
    var j := i;
    SortedExceptStart(a[..], i);
    while j > 0 && !KeyLe(a[j - 1].key, a[j].key)
      invariant 0 <= j <= i
      invariant multiset(a[..]) == multiset(old(a[..]))
      invariant SortedExcept(a[..], i, j)
    {
      ghost var before := a[..];
      a[j - 1], a[j] := a[j], a[j - 1];
      SwapKeepsOrder(before, i, j);
      assert a[..] == before[j - 1 := before[j]][j := before[j - 1]];
      j := j - 1;
    }
    SortedExceptDone(a[..], i, j);
  }

  /** `s[..i + 1]` is in order except, possibly, between the pair at j and those before it. */
  predicate SortedExcept(s: seq<KeySignature>, i: nat, j: nat)
    requires i < |s|
  {
    forall p, q :: 0 <= p < q <= i && q != j ==> KeyLe(s[p].key, s[q].key)
  }

  lemma SortedExceptStart(s: seq<KeySignature>, i: nat)
    requires i < |s| && SortedByKey(s[..i])
    ensures SortedExcept(s, i, i)
  {
    assert forall p :: 0 <= p < i ==> s[..i][p] == s[p];
  }

  /** Swapping the pair at j with a predecessor of greater key moves the exception to j - 1. */
  lemma SwapKeepsOrder(s: seq<KeySignature>, i: nat, j: nat)
    requires 0 < j <= i < |s| && SortedExcept(s, i, j) && !KeyLe(s[j - 1].key, s[j].key)
    ensures SortedExcept(s[j - 1 := s[j]][j := s[j - 1]], i, j - 1)
    ensures multiset(s[j - 1 := s[j]][j := s[j - 1]]) == multiset(s)
  {
  }

  /** Once the pair at j is not less than its predecessor, the prefix is sorted. */
  lemma SortedExceptDone(s: seq<KeySignature>, i: nat, j: nat)
    requires j <= i < |s| && SortedExcept(s, i, j) && (j == 0 || KeyLe(s[j - 1].key, s[j].key))
    ensures SortedByKey(s[..i + 1])
  {
    forall p, q | 0 <= p < q <= i
      ensures KeyLe(s[p].key, s[q].key)
    {
      if q == j && p < j - 1 {
        KeyLeTransitive(s[p].key, s[j - 1].key, s[j].key);
      }
    }
    assert forall p :: 0 <= p <= i ==> s[..i + 1][p] == s[p];
  }

  /** The exception `make_multisig_witness` raises. */
  datatype WitnessError =
    | IndexOutOfRange          // `key_sign_pairs[i]` past the end
    | Builder(error: C.Error)  // raised by `emit_push_bytes`

  /**
   * What `make_multisig_witness` builds. The verification script is
   * `create_multisig_redeemscript(m, keys)` of the neo3 library, so the
   * model returns the threshold and the keys it is given.
   */
  datatype MultisigWitness = MultisigWitness(invocation: seq<Byte>, threshold: nat, keys: seq<ECPoint>)

  /** `(k for (k, _) in pairs)`. */
  function Keys(pairs: seq<KeySignature>): (keys: seq<ECPoint>)
    ensures |keys| == |pairs|
    ensures forall i :: 0 <= i < |pairs| ==> keys[i] == pairs[i].key
  {
    if pairs == [] then [] else [pairs[0].key] + Keys(pairs[1..])
  }

  /** The loop of `emit_push_bytes` calls over the first m signatures, stopping at the first that raises. */
  function SignaturePushes(pairs: seq<KeySignature>, m: nat): C.Emission
    requires m <= |pairs|
  {
    if m == 0 then C.Emission([], Pass)
    else C.Then(SignaturePushes(pairs, m - 1), C.Push(C.Bytes(pairs[m - 1].signature)))
  }

  /** `make_multisig_witness` on pairs that are already sorted. */
  function MultisigWitnessOf(sorted: seq<KeySignature>, isCommittee: bool): Result<MultisigWitness, WitnessError> {
    var m := SigningThreshold(|sorted|, isCommittee);
    if m > |sorted| then Failure(IndexOutOfRange)
    else
      var pushes := SignaturePushes(sorted, m);
      if pushes.outcome.Fail? then Failure(Builder(pushes.outcome.error))
      else Success(MultisigWitness(pushes.written, m, Keys(sorted)))
  }

  /** Once one signature's push raises, the later ones are not attempted. */
  lemma {:induction false} SignaturePushesStop(pairs: seq<KeySignature>, i: nat, m: nat)
    requires i <= m <= |pairs| && SignaturePushes(pairs, i).outcome.Fail?
    ensures SignaturePushes(pairs, m) == SignaturePushes(pairs, i)
  {
    if m > i {
      SignaturePushesStop(pairs, i, m - 1);
    }
  }

  /** One more signature: its push is appended, and its outcome is the loop's. */
  lemma SignaturePushesStep(pairs: seq<KeySignature>, i: nat)
    requires i < |pairs| && SignaturePushes(pairs, i).outcome.Pass?
    ensures var push := C.Push(C.Bytes(pairs[i].signature));
      SignaturePushes(pairs, i + 1) == C.Emission(SignaturePushes(pairs, i).written + push.written, push.outcome)
  {
  }

  /**
   * `make_multisig_witness(key_sign_pairs, is_committee)`: sorts the pairs in
   * place, then pushes the signatures of the first m of them onto a fresh
   * builder.
   */
  method MakeMultisigWitness(pairs: array<KeySignature>, isCommittee: bool)
      returns (r: Result<MultisigWitness, WitnessError>)
    modifies pairs
    ensures SortedByKey(pairs[..]) && multiset(pairs[..]) == multiset(old(pairs[..]))
    ensures r == MultisigWitnessOf(pairs[..], isCommittee)
  {
    SortByKey(pairs);
    ghost var sorted := pairs[..];
    var m := SigningThreshold(pairs.Length, isCommittee);
    var invocation := new C.ScriptBuilder();
    var i := 0;
    while i < m
      invariant 0 <= i <= m && i <= pairs.Length
      invariant pairs[..] == sorted
      invariant SortedByKey(sorted) && multiset(sorted) == multiset(old(pairs[..]))
      invariant invocation.script == SignaturePushes(sorted, i).written
      invariant SignaturePushes(sorted, i).outcome.Pass?
    {
      if i >= pairs.Length {
        return Failure(IndexOutOfRange);
      }
      SignaturePushesStep(sorted, i);
      var pushed := invocation.EmitPushBytes(pairs[i].signature);
      i := i + 1;
      if pushed.Fail? {
        SignaturePushesStop(sorted, i, m);
        return Failure(Builder(pushed.error));
      }
    }
    var invocationScript := invocation.ToBytes();
    r := Success(MultisigWitness(invocationScript, m, Keys(pairs[..])));
  }

  /** The signatures of the first m pairs as NeoVM byte strings, in the pairs' order. */
  function SignatureValues(pairs: seq<KeySignature>, m: nat): (values: seq<Vm.StackItem>)
    requires m <= |pairs|
    ensures |values| == m
    ensures forall k :: 0 <= k < m ==> values[k] == Vm.ByteString(pairs[k].signature)
  {
    if m == 0 then [] else SignatureValues(pairs, m - 1) + [Vm.ByteString(pairs[m - 1].signature)]
  }

  predicate SignaturesFit(pairs: seq<KeySignature>) {
    forall k :: 0 <= k < |pairs| ==> |pairs[k].signature| < 0x1_0000_0000
  }

  /** Running the first m signature pushes leaves those m signatures on the stack, first at the bottom. */
  lemma {:induction false} RunSignaturePushes(pairs: seq<KeySignature>, m: nat, rest: seq<Byte>, stack: seq<Vm.StackItem>)
    requires m <= |pairs| && SignaturesFit(pairs)
    ensures SignaturePushes(pairs, m).outcome.Pass?
    ensures Vm.Run(SignaturePushes(pairs, m).written + rest, stack) == Vm.Run(rest, stack + SignatureValues(pairs, m))
  {
    if m == 0 {
      assert SignaturePushes(pairs, m).written + rest == rest;
      assert stack + SignatureValues(pairs, m) == stack;
    } else {
      var before := SignaturePushes(pairs, m - 1);
      var signature := pairs[m - 1].signature;
      var values := SignatureValues(pairs, m - 1);
      assert |signature| < 0x1_0000_0000;
      C.RunDataPush(signature, rest, stack + values);
      var push := C.DataPush(signature).value;
      assert C.Push(C.Bytes(signature)) == C.Emission(push, Pass);
      RunSignaturePushes(pairs, m - 1, push + rest, stack);
      C.ThenWritten(before, C.Emission(push, Pass), rest);
      assert SignaturePushes(pairs, m) == C.Then(before, C.Emission(push, Pass));
      assert SignatureValues(pairs, m) == values + [Vm.ByteString(signature)];
      assert stack + SignatureValues(pairs, m) == stack + values + [Vm.ByteString(signature)];
    }
  }

  /**
   * For no pairs, `key_sign_pairs[0]` raises IndexError. Otherwise, when the
   * signatures fit a PUSHDATA4, the witness carries the threshold of the
   * address and the keys in sorted order, and its invocation script pushes
   * exactly the first m signatures, in sorted order.
   */
  lemma MultisigWitnessOfMeans(sorted: seq<KeySignature>, isCommittee: bool)
    ensures |sorted| == 0 ==> MultisigWitnessOf(sorted, isCommittee) == Failure(IndexOutOfRange)
    ensures |sorted| >= 1 && SignaturesFit(sorted) ==>
      var m := SigningThreshold(|sorted|, isCommittee);
      var r := MultisigWitnessOf(sorted, isCommittee);
      && r.Success?
      && r.value.threshold == m
      && r.value.keys == Keys(sorted)
      && Vm.Run(r.value.invocation, []) == Some(SignatureValues(sorted, m))
  {
    if |sorted| >= 1 && SignaturesFit(sorted) {
      var m := SigningThreshold(|sorted|, isCommittee);
      RunSignaturePushes(sorted, m, [], []);
      assert SignaturePushes(sorted, m).written + [] == SignaturePushes(sorted, m).written;
      assert [] + SignatureValues(sorted, m) == SignatureValues(sorted, m);
    }
  }

  // ---------------------------------------------------------------- checkers

  /** One `(type, value)` pair `check_stack` expects; a Null value stands for None. */
  type Expected = (string, Value)

  /** The three assertions `check_stack` makes about one stack item. */
  predicate EntryMatches(got: Value, item: Expected) {
    && FieldIs(got, "type", Str(item.0))
    && (if item.1 != Null then FieldIs(got, "value", item.1)
        else (Contains(got, "value") == Some(false)
              || (Contains(got, "value") == Some(true) && Get(got, "value") == Some(Null))))
  }

  /** `check_stack(items, expected)` passes: it raises nothing and every assertion holds. */
  predicate StackMatches(items: Value, expected: seq<Expected>) {
    && Len(items) == Some(|expected|)
    && forall i :: 0 <= i < |expected| ==> At(items, i).Some? && EntryMatches(At(items, i).value, expected[i])
  }

  /** `check_stack`: the length, then each expected entry by index. */
  method CheckStack(items: Value, expected: seq<Expected>) returns (ok: bool)
    ensures ok == StackMatches(items, expected)
  {
    if Len(items) != Some(|expected|) {
      return false;
    }
    var i := 0;
    while i < |expected|
      invariant 0 <= i <= |expected|
      invariant forall j :: 0 <= j < i ==> At(items, j).Some? && EntryMatches(At(items, j).value, expected[j])
    {
      var got := At(items, i);
      if got.None? {
        return false;
      }
      var (kind, value) := expected[i];
      if !FieldIs(got.value, "type", Str(kind)) {
        return false;
      }
      if value != Null {
        if !FieldIs(got.value, "value", value) {
          return false;
        }
      } else if !(Contains(got.value, "value") == Some(false)
                  || (Contains(got.value, "value") == Some(true) && Get(got.value, "value") == Some(Null))) {
        return false;
      }
      i := i + 1;
    }
    return true;
  }

  /** What an entry check means: the item is a dict with that type, and that value or none. */
  predicate EntryHolds(got: Value, item: Expected) {
    && got.Object?
    && "type" in got.fields && got.fields["type"] == Str(item.0)
    && (if item.1 != Null then "value" in got.fields && PyEq(got.fields["value"], item.1)
        else "value" !in got.fields || got.fields["value"] == Null)
  }

  lemma EntryMatchesMeans(got: Value, item: Expected)
    ensures EntryMatches(got, item) <==> EntryHolds(got, item)
  {
    FieldIsMeans(got, "type", Str(item.0));
    FieldIsMeans(got, "value", item.1);
  }

  /**
   * `check_stack` passes exactly for a list of the expected length whose
   * items are dicts with the expected types and values, and, for no
   * expected entries, for any empty str, list or dict.
   */
  lemma StackMatchesMeans(items: Value, expected: seq<Expected>)
    ensures StackMatches(items, expected) <==>
      || (|expected| == 0 && Len(items) == Some(0))
      || (&& items.Array? && |items.items| == |expected|
          && forall i :: 0 <= i < |expected| ==> EntryHolds(items.items[i], expected[i]))
  {
    if items.Array? && |items.items| == |expected| {
      forall i | 0 <= i < |expected|
        ensures EntryMatches(items.items[i], expected[i]) <==> EntryHolds(items.items[i], expected[i])
      {
        EntryMatchesMeans(items.items[i], expected[i]);
      }
    }
    if |expected| > 0 && StackMatches(items, expected) {
      assert At(items, 0).Some? && EntryMatches(At(items, 0).value, expected[0]);
      EntryMatchesMeans(At(items, 0).value, expected[0]);
    }
  }

  /** `check_execution_result(execution, stack, exception)` passes. */
  predicate ExecutionResultOk(execution: Value, stack: seq<Expected>, exception: Option<string>) {
    && FieldIs(execution, "trigger", Str("Application"))
    && Get(execution, "vmstate").Some?
    && PyEq(Get(execution, "vmstate").value, Str(if exception.None? then "HALT" else "FAULT"))
    && Contains(execution, "exception") == Some(true)
    && Get(execution, "exception").Some?
    && (match exception
        case Some(text) => Contains(Get(execution, "exception").value, text) == Some(true)
        case None => Get(execution, "exception").value == Null)
    && Get(execution, "stack").Some?
    && StackMatches(Get(execution, "stack").value, stack)
  }

  /**
   * The execution passes exactly when it is a dict triggered by Application,
   * HALTed when no exception is expected and FAULTed otherwise, whose
   * `exception` is null or contains the expected text, and whose stack matches.
   */
  lemma ExecutionResultMeans(execution: Value, stack: seq<Expected>, exception: Option<string>)
    ensures ExecutionResultOk(execution, stack, exception) <==>
      && execution.Object?
      && "trigger" in execution.fields && execution.fields["trigger"] == Str("Application")
      && "vmstate" in execution.fields
      && execution.fields["vmstate"] == Str(if exception.None? then "HALT" else "FAULT")
      && "exception" in execution.fields
      && (exception.None? ==> execution.fields["exception"] == Null)
      && (exception.Some? ==> Contains(execution.fields["exception"], exception.value) == Some(true))
      && "stack" in execution.fields && StackMatches(execution.fields["stack"], stack)
  {
    FieldIsMeans(execution, "trigger", Str("Application"));
    if execution.Object? && "vmstate" in execution.fields {
      PyEqStr(execution.fields["vmstate"], if exception.None? then "HALT" else "FAULT");
    }
  }
}
