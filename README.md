# neo-testcases: the script builder and the test checkers, in Dafny

neo-testcases drives a running NEO N3 node through JSON-RPC and checks how
it behaves. This project models the parts of it that compute something
themselves.

- **`ScriptBuilder` (neo/contract.py)** is a NeoVM bytecode encoder. It is a
  class whose `script` field is the byte buffer that every `emit*` method
  appends to. Each method is proved against a specification function. That
  function gives the bytes appended and the exception raised, if any. When
  an exception comes after some bytes were already appended, for example
  from one item of an array, the model keeps those bytes too.
- **NeoVM reference (module `NeoVm`).** A small interpreter of the push
  instructions plus PACK and NEWARRAY0. Lemmas prove that running what the
  builder emits pushes exactly the value that was encoded. Integers are read
  back as two's complement, byte strings through their length prefix, and
  arrays come back in their own order after the reversed pushes and PACK.
- **testcases/testing.py:**
  - the BFT and committee thresholds;
  - `make_multisig_witness`: an in-place insertion sort of the
    (key, signature) array, then a loop of `emit_push_bytes`;
  - `check_stack`: a loop;
  - `check_execution_result`.
- **env.py:**
  - the `Hardfork` and `Env` defaults;
  - `as_dict`;
  - `from_dict`, with Python's `int(s, 16)` grammar written out;
  - the round trip between `as_dict` and `from_dict`, as the code defines it.
- **testcases/basics/base.py:** the NEP-17 Transfer notification check and
  the NEO transfer application log check.

Decoded JSON is the datatype `Json.Value`, with Python's `==`, `in`,
`len()` and indexing written out. An operation that raises in Python gives
None, and a check "passes" when nothing in it raises and every `assert`
holds. Each checker comes with a lemma stating exactly when it passes.

Three things are parameters of the model:
- the SHA-256 inside `syscall_code`, as a function `sha256`;
- `base64.b64decode`, as a function `b64decode`;
- the NEO and GAS contract hashes of the neo3 library, as strings.

`from_dict(as_dict(e))` does not give back `e`. `as_dict` writes
`'0x' + key[::-1].to_hex()`, the hex of the reversed key bytes. `from_dict`
reads that hex as a big-endian number. So every account comes back with its
key bytes reversed. `Environment.FromDictOfAsDict` states what the code does
give back. `Environment.RoundTripReversesKeys` shows that any key that is
not a palindrome, among the validators or the others, breaks the round trip.
`Environment.RoundTripExactly` shows that exactly the `Env`s whose account
keys are all byte palindromes survive it. The default `Env`, which has no
accounts, is one of them (`Environment.DefaultEnvRoundTrip`).

Files:
- `wrappers.dfy`: Option, Result, Outcome.
- `bytes.dfy`: little- and big-endian encodings and two's complement.
- `neovm.dfy`: the reference interpreter.
- `contract.dfy`: the builder.
- `json.dfy`: JSON and Python operations.
- `testing.dfy`, `environment.dfy`, `basics.dfy`: the other three core files.

## Model

| member | source | states |
|---|---|---|
| Contract.ScriptBuilder.constructor | neo/contract.py:38-39 | a new builder's script is empty |
| Contract.ScriptBuilder.Emit | neo/contract.py:41-48 | an opcode off 0..255 raises InvalidOpcode and leaves the script unchanged; otherwise the new script is the old one followed by the opcode byte and the operand |
| Contract.SmallIntPush | neo/contract.py:51-52 | an item in -1..16 is pushed as the single byte 0x10 + item |
| Contract.IntWidthIndexNarrowest | neo/contract.py:53-73 | the width picked is the narrowest of 1, 2, 4, 8, 16, 32 bytes whose signed range holds the item: that range holds it and no narrower one does; no width is picked exactly outside the 32-byte signed range |
| Contract.IntPush | neo/contract.py:50-74 | as written; meaning in IntPushSucceeds, IntPushLayout and RunIntPush |
| Contract.DataPush | neo/contract.py:76-89 | as written; meaning in DataPushSucceeds, DataPushLayout and RunDataPush |
| Contract.Push | neo/contract.py:91-111 | as written; meaning in PushSucceeds and RunPush |
| Contract.ArrayPush | neo/contract.py:113-122 | as written; meaning in ArrayPushSucceeds and RunArrayPush |
| Contract.PushReversed | neo/contract.py:118-119 | as written; meaning in PushReversedSucceeds and RunPushReversed |
| Contract.SyscallPush | neo/contract.py:133-140 | as written; meaning in SyscallLayout and SyscallOutOfRangeLayout |
| Contract.CallArguments | neo/contract.py:124-129 | as written; meaning in RunCallArguments |
| Contract.DynamicCall | neo/contract.py:124-131 | as written; meaning in DynamicCallLayout |
| Contract.Utf8 | neo/contract.py:100-101 | `str.encode('utf-8')`: one to four bytes per character |
| Contract.IntPushSucceeds | neo/contract.py:50-74 | `emit_push_int` raises exactly for items outside the signed 256-bit range |
| Contract.IntPushLayout | neo/contract.py:53-71 | outside -1..16, the prefix is 0x00..0x05 for the narrowest width, followed by exactly that many operand bytes, which decode as two's complement back to the item |
| Contract.RunIntPush | neo/contract.py:50-74 | running the bytes `emit_push_int` appends, before any further script, pushes exactly Integer(item) |
| Contract.ScriptBuilder.EmitPushInt | neo/contract.py:50-74 | the new script is the old one followed by the integer's encoding, and the outcome is that of the encoding |
| Contract.DataPushSucceeds | neo/contract.py:76-89 | `emit_push_bytes` raises exactly when the data has 2^32 bytes or more |
| Contract.DataPushLayout | neo/contract.py:76-89 | prefix 0x0C, 0x0D or 0x0E for lengths below 0x100, 0x10000 and 0x100000000; then the length in 1, 2 or 4 little-endian bytes, which decode back to the length; then the data; 1 + width + length bytes in all |
| Contract.RunDataPush | neo/contract.py:76-89 | running the bytes `emit_push_bytes` appends pushes exactly ByteString(data) |
| Contract.ScriptBuilder.EmitPushBytes | neo/contract.py:76-89 | the new script is the old one followed by the prefix, the length and the data, and the outcome is that of the encoding |
| Contract.OneBytePushes | neo/contract.py:91-116 | None is pushed as 0x0B, True as 0x08, False as 0x09, and the empty list as 0xC2 |
| Contract.PushSucceeds | neo/contract.py:91-111 | `emit_push` raises exactly for unsupported values: an unknown type, a `to_array()` that does not return bytes, data of 2^32 bytes or more, an integer off the 256-bit range, or such a value anywhere inside a list |
| Contract.RunPush | neo/contract.py:91-111 | for a supported value, running what `emit_push` appends pushes exactly the stack item the value stands for: booleans as Boolean (matched before int), str as its UTF-8 bytes, lists as Array |
| Contract.ScriptBuilder.EmitPush | neo/contract.py:91-111 | the new script is the old one followed by the value's encoding, including any bytes appended before an exception, and the outcome is the encoding's |
| Contract.ArrayPushSucceeds | neo/contract.py:113-122 | `emit_push_array` raises exactly when some element, or the element count, cannot be pushed |
| Contract.RunArrayPush | neo/contract.py:113-122 | running the elements pushed last to first, then the count, then PACK (or NEWARRAY0 for no elements) pushes one Array of the elements' items in their original order |
| Contract.ScriptBuilder.EmitPushArray | neo/contract.py:113-122 | the new script is the old one followed by the array's encoding, and the outcome is the encoding's |
| Contract.PushReversedSucceeds | neo/contract.py:118-119 | pushing a list last to first raises exactly when one of its items is unsupported |
| Contract.RunPushReversed | neo/contract.py:118-119 | running the pushes of a list's items, last to first, puts the items on the stack in reverse order |
| Contract.ScriptBuilder.EmitPushAll | neo/contract.py:134-135 | the loop over `reversed(args)` appends each item's push, last to first, and stops at the first that raises |
| Contract.SyscallCode | neo/contract.py:32-34 | the id of a name is below 2^32, so it always fits the four little-endian bytes `emit_syscall` writes |
| Contract.SyscallLayout | neo/contract.py:133-140 | a named syscall without args appends 0x41 and four bytes that decode back to `syscall_code(name)` |
| Contract.SyscallOutOfRangeLayout | neo/contract.py:136-139 | a numeric id off 0..2^32-1 raises only after SYSCALL has been appended |
| Contract.ScriptBuilder.EmitSyscall | neo/contract.py:133-140 | the new script is the old one followed by the args last to first, 0x41 and the 4-byte little-endian id; the outcome is the first exception or success |
| Contract.ScriptBuilder.EmitSyscallId | neo/contract.py:136-139 | appends 0x41, then the id as four little-endian bytes when it lies in 0..2^32-1; otherwise raises with only 0x41 appended |
| Contract.RunCallArguments | neo/contract.py:124-129 | the pushes of `emit_dynamic_call` leave, from bottom to top, the args Array, the flags, the method's UTF-8 bytes and the 20-byte hash |
| Contract.DynamicCallLayout | neo/contract.py:124-131 | without an exception, `emit_dynamic_call` appends those four pushes, then 0x41 and the 4-byte `syscall_code("System.Contract.Call")` |
| Contract.ScriptBuilder.EmitDynamicCall | neo/contract.py:124-131 | the new script is the old one followed by the dynamic call's encoding, up to the first exception, and the outcome is that exception or success |
| Contract.ScriptBuilder.ToBytes | neo/contract.py:142-143 | returns the bytes emitted so far |
| Testing.BftThreshold | testcases/testing.py:58-59 | m = n - (n-1) div 3 lies in 1..n for n >= 1; it is the least m with 3m > 2n; for n = 0 it is 1 |
| Testing.BftQuorumsIntersect | testcases/testing.py:58-59 | with f = (n-1) div 3 faulty validators, n >= 3f + 1, m = n - f, and any two subsets of the validators with at least m members each share at least f + 1 validators |
| Testing.CommitteeThreshold | testcases/testing.py:63-64 | m = n - (n-1) div 2 lies in 1..n for n >= 1; it is the least m with 2m > n; for n = 0 it is 1 |
| Testing.SigningThreshold | testcases/testing.py:84 | the divisor is 2 for the committee and 3 otherwise, so the threshold is the committee or the BFT one |
| Testing.SortByKey | testcases/testing.py:83 | the pairs end sorted by public key and are a permutation of the pairs given |
| Testing.MultisigWitnessOf | testcases/testing.py:84-91 | as written; meaning in MultisigWitnessOfMeans |
| Testing.SignaturePushes | testcases/testing.py:86-87 | as written; meaning in RunSignaturePushes and SignaturePushesStop |
| Testing.MakeMultisigWitness | testcases/testing.py:82-91 | sorts the pairs in place (sorted, same multiset) and returns what MultisigWitnessOf gives for the sorted pairs: IndexError past the end, the first `emit_push_bytes` exception, or the witness |
| Testing.MultisigWitnessOfMeans | testcases/testing.py:84-91 | with no pairs it raises IndexError; otherwise, when the signatures fit PUSHDATA, the witness carries the threshold and all keys in sorted order, and its invocation script runs to exactly the first m signatures in sorted order |
| Testing.RunSignaturePushes | testcases/testing.py:86-87 | the loop's pushes put the signatures of the first m pairs on the stack, in order |
| Testing.SignaturePushesStop | testcases/testing.py:86-87 | once one signature's push raises, no later signature is pushed |
| Testing.CheckStack | testcases/testing.py:145-153 | the loop passes exactly when StackMatches holds |
| Testing.StackMatchesMeans | testcases/testing.py:145-153 | `check_stack` passes exactly when the lengths are equal and every entry holds (an empty expectation also accepts an empty str or dict, whose length is 0) |
| Testing.StackMatches | testcases/testing.py:145-153 | as written; meaning in StackMatchesMeans |
| Testing.ExecutionResultOk | testcases/testing.py:136-143 | as written; meaning in ExecutionResultMeans |
| Testing.EntryMatchesMeans | testcases/testing.py:148-153 | an entry holds exactly when it is a dict of the expected type whose value equals the expected one under Python `==`, or, when None is expected, whose value is absent or null |
| Testing.ExecutionResultMeans | testcases/testing.py:136-143 | passes exactly when: trigger is 'Application'; vmstate is HALT without an expected exception and FAULT with one; the exception contains the expected text, or is null; the stack check passes |
| Environment.DefaultHardforkIsAllOnes | env.py:25-31 | `Hardfork()` has all six heights equal to 1 |
| Environment.HardforkOf | env.py:74 | `Hardfork(**m)` succeeds exactly when every key is a field name, and fails when some key is not a field name; each field takes the mapping's value, or 1 when it is omitted |
| Environment.HardforkOfFields | env.py:64 | rebuilding a Hardfork from `asdict(hardfork)` gives back the same hardfork |
| Environment.HardforksFrom | env.py:74 | as written; a Hardfork instance passes through, a dict goes to HardforkOf; meaning in FromDictMeans |
| Environment.DefaultEnv | env.py:37-52 | as written; survives the round trip by DefaultEnvRoundTrip |
| Environment.AccountHex | env.py:65-66 | as written; meaning in KeyFromAccountHex |
| Environment.ParseHex | env.py:75 | as written (`int(s, 16)`); meaning in ParseHexOfLowerHex |
| Environment.Items | env.py:75-76 | as written (`for v in data[...]`); meaning in AccountsOf and FromDictMeans |
| Environment.FromDict | env.py:69-77 | as written; meaning in FromDictMeans and FromDictMissingKey |
| Environment.AsDict | env.py:60-67 | exactly the five keys; endpoint and network copied; hardforks as their field map; each list of accounts as hex strings, in order |
| Environment.AccountsHex | env.py:65-66 | one hex string per account, in the accounts' order |
| Environment.HexBodyOfLowerHex | env.py:65 | the lower-case hex of a key reads back as its big-endian value |
| Environment.ParseHexOfLowerHex | env.py:75 | `int('0x' + hex, 16)` of such a string gives that big-endian value |
| Environment.KeyFromHex | env.py:75 | `int(v, 16).to_bytes(32, 'big')` succeeds exactly for a str whose hex value lies in 0..2^256-1, and then gives 32 bytes |
| Environment.KeyFromHexValue | env.py:75 | the 32 bytes read back big-endian as the number `int(v, 16)` gives |
| Environment.AccountsOf | env.py:75-76 | the list comprehension succeeds exactly when every element converts, keeping order and length |
| Environment.AccountsOfFailsAtFirst | env.py:75-76 | a failure is the error of the first element that does not convert |
| Environment.FromDictMeans | env.py:69-77 | `from_dict` succeeds exactly when the five keys are present and the hardforks and both account lists convert; endpoint and network are copied unchanged, and a Hardfork instance passes through as is |
| Environment.FromDictMissingKey | env.py:71-76 | a missing key raises KeyError for the first missing key, in keyword order |
| Environment.KeyFromAccountHex | env.py:65-75 | reading back an account's hex gives its key bytes reversed |
| Environment.AccountsOfHex | env.py:65-76 | reading back a list of accounts gives the same accounts, in order, each with its key reversed |
| Environment.FromDictOfAsDict | env.py:60-77 | `from_dict(as_dict(e))` keeps the endpoint, the network and the hardforks, and returns both account lists with every key reversed |
| Environment.DefaultEnvRoundTrip | env.py:37-77 | the default Env (localnet endpoint, network 1234567890, default hardforks, no accounts) survives the round trip unchanged |
| Environment.RoundTripReversesKeys | env.py:65-75 | an account key, in `validators` or in `others`, that is not a palindrome makes `from_dict(as_dict(e))` differ from e |
| Environment.RoundTripExactly | env.py:60-77 | `from_dict(as_dict(e)) == e` exactly when every account key in both lists reads the same reversed |
| Basics.AddressSlotMeans | testcases/basics/base.py:35-48 | an address slot passes exactly when it is a dict: of type ByteString whose str value base64-decodes to the address, when one is given; of type Any, when it is None |
| Basics.AmountSlotMeans | testcases/basics/base.py:51-55 | the amount slot passes exactly when it is a dict of type Integer with a value, equal to the amount's string when an amount is given |
| Basics.SlotsMeans | testcases/basics/base.py:32-55 | the state's value passes exactly when it is a list of three slots that hold (a str or dict of length 3 fails) |
| Basics.StateMeans | testcases/basics/base.py:30-55 | the state passes exactly when it is a dict of type Array whose value holds |
| Basics.TransferNotificationMeans | testcases/basics/base.py:25-55 | a notification passes exactly when: it is a dict from the given contract; its eventname is Transfer; its state holds |
| Basics.TransferNotificationOk | testcases/basics/base.py:25-55 | as written; meaning in TransferNotificationMeans |
| Basics.NotificationsMeans | testcases/basics/base.py:67-79 | passes exactly when there is a list of three notifications: the NEO transfer from source to dest for the amount, the GAS transfer from none to source, and the GAS transfer from none to dest |
| Basics.ExecutionMeans | testcases/basics/base.py:63-79 | the execution passes exactly when it passes `check_execution_result` with HALT and the stack [Boolean true] and its notifications hold |
| Basics.ExecutionsMeans | testcases/basics/base.py:60-79 | the executions pass exactly when they are a list of one execution that holds |
| Basics.NeoTransferLogMeans | testcases/basics/base.py:57-79 | the application log passes exactly when it is a dict for the transaction id with exactly one execution, and that execution holds |
| Basics.NeoTransferLogOk | testcases/basics/base.py:57-79 | as written; meaning in NeoTransferLogMeans |

## Left out

- neo/rpc.py, the JSON-RPC client over HTTP, is not part of this model (network I/O).
- `Env.from_testbed` is not modelled: it reads a file, parses JSON and reads an environment variable. `from_dict` takes the decoded dict.
- Cryptography comes from outside libraries:
  - SHA-256 in `syscall_code` is the function parameter `sha256`;
  - secp256r1 signing in `Testing.sign` is left out;
  - base64 decoding in the notification check is the parameter `b64decode`.
- neo3 types the source only passes around are reduced to their bytes or left out:
  - `UInt160` is its 20 `to_array()` bytes;
  - `UInt160.from_string` in `emit_dynamic_call` is left out, so the model takes a hash that is already a UInt160;
  - `Account` is its private-key bytes;
  - `Environment.KeyFromHex`: the model takes neo3's `Account(...)` to accept every 32-byte key. It does not reject keys, such as 0, that are not valid secp256r1 private keys, so `Environment.FromDictMeans` may succeed where the source raises;
  - an `ECPoint` is an (x, y) pair ordered lexicographically, standing in for neo3's own ordering;
  - `CallFlags` is its integer value.
- `create_multisig_redeemscript` and `to_script_hash` are left out. The witness returns the threshold and the sorted keys they are given.
- Whatever `.to_hex()` does to the reversed key in `as_dict` comes from neo3. The model takes it to be lower-case hex of the bytes.
- `make_tx`, `make_multisig_tx`, `bft_address` and `committee_address` are left out apart from their threshold formulas: they serialise transactions and use random nonces.
- `wait_next_block` is left out: it depends on the clock and on sleeping.
- The scripted test bodies are left out: they observe a live node.
- `ContractParameter` is left out: the builder does not use it.
- `Testing.SortByKey`: Python's `list.sort` is stable, but the model states only that the result is sorted and a permutation. Pairs with equal keys may come out in another order; keys of distinct validators differ.
- `Environment.ParseHex`: it accepts only ASCII hex digits. It strips only the six ASCII white-space characters: tab, newline, vertical tab, form feed, carriage return and space. Python's `int()` also accepts Unicode digits and Unicode white space.
- `Environment.Items`: value types are collapsed to lists and strs. Iterating a dict would give its keys in insertion order, which a `map` does not keep. It is modelled as NotIterable, like any other non-list value.
- `Environment.FromDict` takes a dict. A top-level document that is not a dict is not modelled.
- `Environment.HardforkOf`: its error carries the whole set of keys that are not field names. Python's TypeError names only the first unexpected keyword.
- The JSON model has no floating-point numbers.
- `Contract.Utf8`: a Dafny `char` cannot be a lone surrogate. Python's `str.encode('utf-8')` raises on one in `emit_push`, and the model does not reach that error path.
- Exception messages are not modelled. Each failure is a constructor of an error datatype, or plain failure of a check.
