/**
 * env.py: the testbed configuration. `Hardfork` holds the activation height
 * of each of the six protocol upgrades; `Env` the RPC endpoint, the network
 * magic, the hardforks and two lists of accounts. `as_dict` and `from_dict`
 * convert it to and from the plain dict of a testbed file, accounts as hex
 * strings of their private keys.
 *
 * A dataclass does not check the types of its fields, so the fields that
 * `from_dict` copies hold whatever value the dict has there.
 */
module Environment {
  import opened Wrappers
  import opened Bytes
  import opened Json

  // ---------------------------------------------------------------- values

  /** A value of the dict `from_dict` is given: a plain (JSON) value, or an already built `Hardfork`. */
  datatype Field = Plain(value: Value) | HardforkInstance(hardfork: Hardfork)

  datatype Hardfork = Hardfork(
    aspidochelone: Value,
    basilisk: Value,
    cockatrice: Value,
    domovoi: Value,
    echidna: Value,
    faun: Value)

  /** `Hardfork()`: every upgrade active from block 1. */
  const DefaultHardfork: Hardfork := Hardfork(Int(1), Int(1), Int(1), Int(1), Int(1), Int(1))

  /** An account by its private key: the `Account` type of the neo3 library, reduced to its key bytes. */
  datatype Account = Account(privateKey: seq<Byte>)

  datatype Env = Env(
    rpcEndpoint: Field,
    network: Field,
    hardforks: Hardfork,
    validators: seq<Account>,
    others: seq<Account>)

  /** `Env()`: the localnet endpoint and network id, default hardforks, no accounts. */
  const DefaultEnv: Env := Env(Plain(Str("127.0.0.1:10332")), Plain(Int(1234567890)), DefaultHardfork, [], [])

  /** The exception `from_dict` raises. */
  datatype ConfigError =
    | MissingKey(key: string)                 // KeyError
    | NotAMapping                             // `Hardfork(**x)` of a non-dict: TypeError
    | UnknownHardforks(names: set<string>)    // an unexpected keyword argument: TypeError
    | NotIterable                             // `for v in x` over a non-list: TypeError
    | NotAString                              // `int(v, 16)` of a non-str: TypeError
    | InvalidLiteral(literal: string)         // `int(v, 16)` of a malformed str: ValueError
    | KeyOutOfRange(value: int)               // `to_bytes(32, 'big')` of a negative or too large int: OverflowError

  // ---------------------------------------------------------------- hardforks

  const HardforkNames: set<string> :=
    {"HF_Aspidochelone", "HF_Basilisk", "HF_Cockatrice", "HF_Domovoi", "HF_Echidna", "HF_Faun"}

  /** `asdict(hardfork)`: the six field names with their values. */
  function HardforkFields(h: Hardfork): (fields: map<string, Value>)
    ensures fields.Keys == HardforkNames
  {
    map["HF_Aspidochelone" := h.aspidochelone, "HF_Basilisk" := h.basilisk,
        "HF_Cockatrice" := h.cockatrice, "HF_Domovoi" := h.domovoi,
        "HF_Echidna" := h.echidna, "HF_Faun" := h.faun]
  }

  function FieldOr(m: map<string, Value>, name: string): Value {
    if name in m then m[name] else Int(1)
  }

  /**
   * `Hardfork(**m)`: the fields m names take its values, the others their
   * default 1; a key that is no field name is rejected.
   */
  function HardforkOf(m: map<string, Value>): (r: Result<Hardfork, ConfigError>)
    ensures r.Success? <==> m.Keys <= HardforkNames
    ensures r.Failure? ==> r.error == UnknownHardforks(m.Keys - HardforkNames)
    ensures r.Success? ==> forall name :: name in HardforkNames ==>
      HardforkFields(r.value)[name] == (if name in m then m[name] else Int(1))
  {
    if !(m.Keys <= HardforkNames) then Failure(UnknownHardforks(m.Keys - HardforkNames))
    else Success(Hardfork(FieldOr(m, "HF_Aspidochelone"), FieldOr(m, "HF_Basilisk"),
                          FieldOr(m, "HF_Cockatrice"), FieldOr(m, "HF_Domovoi"),
                          FieldOr(m, "HF_Echidna"), FieldOr(m, "HF_Faun")))
  }

  /** `Hardfork()` is `Hardfork(**{})`, with all six heights 1. */
  lemma DefaultHardforkIsAllOnes()
    ensures HardforkOf(map[]) == Success(DefaultHardfork)
    ensures forall name :: name in HardforkNames ==> HardforkFields(DefaultHardfork)[name] == Int(1)
  {
  }

  /** `Hardfork(**asdict(h))` rebuilds h. */
  lemma HardforkOfFields(h: Hardfork)
    ensures HardforkOf(HardforkFields(h)) == Success(h)
  {
  }

  /** `data['hardforks'] if isinstance(data['hardforks'], Hardfork) else Hardfork(**data['hardforks'])`. */
  function HardforksFrom(f: Field): Result<Hardfork, ConfigError> {
    match f
    case HardforkInstance(h) => Success(h)
    case Plain(Object(m)) => HardforkOf(m)
    case Plain(_) => Failure(NotAMapping)
  }

  // ---------------------------------------------------------------- hex

  function HexChar(d: nat): char
    requires d < 16
  {
    if d < 10 then (48 + d) as char else (87 + d) as char
  }

  /** The value of a hex digit of either case. */
  function HexDigit(c: char): (d: Option<nat>)
    ensures d.Some? ==> d.value < 16
  {
    if '0' <= c <= '9' then Some(c as int - 48)
    else if 'a' <= c <= 'f' then Some(c as int - 87)
    else if 'A' <= c <= 'F' then Some(c as int - 55)
    else None
  }

  lemma HexDigitOfHexChar(d: nat)
    requires d < 16
    ensures HexDigit(HexChar(d)) == Some(d)
  {
  }

  /** Lower-case hex, two digits per byte, most significant digit first (`to_hex()`). */
  function LowerHex(b: seq<Byte>): (s: string)
    ensures |s| == 2 * |b|
  {
    if b == [] then []
    else var last := b[|b| - 1];
      LowerHex(b[..|b| - 1]) + [HexChar(last / 16), HexChar(last % 16)]
  }

  /**
   * The hex digits of `int(s, 16)` once the sign and prefix are removed:
   * digits with single underscores between them.
   */
  function HexBody(s: string): Option<nat>
    decreases |s|
  {
    if |s| == 0 then None
    else
      var d := HexDigit(s[|s| - 1]);
      if d.None? then None
      else if |s| == 1 then Some(d.value)
      else
        var init := if s[|s| - 2] == '_' then s[..|s| - 2] else s[..|s| - 1];
        match HexBody(init)
        case None => None
        case Some(v) => Some(16 * v + d.value)
  }

  predicate IsSpace(c: char) {
    c == ' ' || c == '\t' || c == '\n' || c == '\r' || c == '\U{B}' || c == '\U{C}'
  }

  function StripStart(s: string): (t: string)
    ensures |t| <= |s|
    ensures |t| > 0 ==> !IsSpace(t[0])
  {
    if |s| > 0 && IsSpace(s[0]) then StripStart(s[1..]) else s
  }

  function StripEnd(s: string): (t: string)
    ensures |t| <= |s|
  {
    if |s| > 0 && IsSpace(s[|s| - 1]) then StripEnd(s[..|s| - 1]) else s
  }

  /**
   * `int(s, 16)`: surrounding white space, an optional sign, an optional
   * `0x` or `0X` prefix (which one underscore may follow), then the digits.
   * None for a string Python rejects with ValueError.
   */
  function ParseHex(s: string): Option<int> {
    SignedHex(Strip(s))
  }

  /** `int(t, 16)` of a string without surrounding white space. */
  function SignedHex(t: string): Option<int> {
    var negative := |t| > 0 && t[0] == '-';
    var unsigned := if |t| > 0 && (t[0] == '-' || t[0] == '+') then t[1..] else t;
    match HexBody(WithoutPrefix(unsigned))
    case None => None
    case Some(v) =>
      var n: int := if negative then 0 - v else v;
      Some(n)
  }

  /** `s.strip()` for the ASCII white space. */
  function Strip(s: string): string {
    StripEnd(StripStart(s))
  }

  /** The digits after an optional `0x` or `0X` and the one underscore that may follow it. */
  function WithoutPrefix(u: string): string {
    if |u| >= 2 && u[0] == '0' && (u[1] == 'x' || u[1] == 'X') then
      var digits := u[2..];
      if |digits| > 0 && digits[0] == '_' then digits[1..] else digits
    else u
  }

  /** `int(v, 16).to_bytes(32, 'big')`: the 32-byte big-endian private key a hex string stands for. */
  function KeyFromHex(v: Value): (r: Result<seq<Byte>, ConfigError>)
    ensures r.Success? ==> |r.value| == 32
    ensures r.Success? <==> v.Str? && ParseHex(v.s).Some? && 0 <= ParseHex(v.s).value < Pow256(32)
  {
    if !v.Str? then Failure(NotAString)
    else match ParseHex(v.s)
      case None => Failure(InvalidLiteral(v.s))
      case Some(n) => if n < 0 || n >= Pow256(32) then Failure(KeyOutOfRange(n)) else Success(BE(n, 32))
  }

  /** The 32 bytes `to_bytes(32, 'big')` gives read back, big-endian, as the parsed number. */
  lemma KeyFromHexValue(v: Value)
    requires KeyFromHex(v).Success?
    ensures FromBE(KeyFromHex(v).value) == ParseHex(v.s).value
  {
    FromBEOfBE(ParseHex(v.s).value, 32);
  }

  /** Appending one lower-case digit pair to a digit string scales its value by 256. */
  lemma HexBodyPair(x: string, b: Byte, z: string)
    requires HexBody(x).Some? && |x| > 0 && x[|x| - 1] != '_'
    requires |z| == |x| + 2 && z[..|x|] == x && z[|x|] == HexChar(b / 16) && z[|x| + 1] == HexChar(b % 16)
    ensures HexBody(z) == Some(0x100 * HexBody(x).value + b)
  {
    ByteDigits(b);
    HexBodyTwoDigits(x, HexChar(b / 16), HexChar(b % 16), z);
    DigitPairValue(HexBody(x).value, b);
  }

  /** Two more digits after a digit: the value scales by 256. */
  lemma HexBodyTwoDigits(x: string, hi: char, lo: char, z: string)
    requires HexBody(x).Some? && |x| > 0 && x[|x| - 1] != '_' && HexDigit(hi).Some? && HexDigit(lo).Some?
    requires |z| == |x| + 2 && z[..|x|] == x && z[|x|] == hi && z[|x| + 1] == lo
    ensures HexBody(z) == Some(16 * (16 * HexBody(x).value + HexDigit(hi).value) + HexDigit(lo).value)
  {
    var y := z[..|x| + 1];
    assert y[..|x|] == x;
    HexBodySnoc(x, hi, y);
    assert z[..|y|] == y;
    HexBodySnoc(y, lo, z);
  }

  /** The two lower-case digits of a byte read back as its high and low nibble. */
  lemma ByteDigits(b: Byte)
    ensures HexDigit(HexChar(b / 16)) == Some(b / 16) && HexDigit(HexChar(b % 16)) == Some(b % 16)
  {
    HexDigitOfHexChar(b / 16);
    HexDigitOfHexChar(b % 16);
  }

  lemma DigitPairValue(v: nat, b: Byte)
    ensures 16 * (16 * v + b / 16) + b % 16 == 0x100 * v + b
  {
  }

  /** One more digit after a digit: the value scales by 16. */
  lemma HexBodySnoc(x: string, c: char, y: string)
    requires HexBody(x).Some? && |x| > 0 && x[|x| - 1] != '_' && HexDigit(c).Some?
    requires |y| == |x| + 1 && y[..|x|] == x && y[|x|] == c
    ensures HexBody(y) == Some(16 * HexBody(x).value + HexDigit(c).value)
  {
    assert y[|y| - 2] == x[|x| - 1];
  }

  /** The lower-case hex of a non-empty byte string reads back as its big-endian value. */
  lemma {:induction false} HexBodyOfLowerHex(b: seq<Byte>)
    requires |b| > 0
    ensures HexBody(LowerHex(b)) == Some(FromBE(b))
    ensures LowerHex(b)[|LowerHex(b)| - 1] != '_'
    ensures forall i :: 0 <= i < |LowerHex(b)| ==> HexDigit(LowerHex(b)[i]).Some?
  {
    var init := b[..|b| - 1];
    var last := b[|b| - 1];
    HexDigitOfHexChar(last / 16);
    HexDigitOfHexChar(last % 16);
    if |init| == 0 {
      var s := LowerHex(b);
      assert s == [HexChar(last / 16), HexChar(last % 16)];
      assert s[..1] == [HexChar(last / 16)];
    } else {
      HexBodyOfLowerHex(init);
      var s := LowerHex(b);
      assert s == LowerHex(init) + [HexChar(last / 16), HexChar(last % 16)];
      assert s[..|LowerHex(init)|] == LowerHex(init);
      HexBodyPair(LowerHex(init), last, s);
    }
  }

  /** `"0x" + to_hex(b)` parses back, through `int(…, 16)`, to the big-endian value of b. */
  lemma ParseHexOfLowerHex(b: seq<Byte>)
    requires |b| > 0
    ensures ParseHex("0x" + LowerHex(b)) == Some(FromBE(b))
  {
    var hex := LowerHex(b);
    HexBodyOfLowerHex(b);
    assert HexDigit(hex[0]).Some? && HexDigit(hex[|hex| - 1]).Some?;
    ParseHexPrefixed(hex);
  }

  /** `int('0x' + digits, 16)` for digits that start and end with a digit is the digits' value. */
  lemma ParseHexPrefixed(hex: string)
    requires |hex| > 0 && HexDigit(hex[0]).Some? && HexDigit(hex[|hex| - 1]).Some? && HexBody(hex).Some?
    ensures ParseHex("0x" + hex) == Some(HexBody(hex).value)
  {
    StripPrefixed(hex);
    SignedHexPrefixed(hex);
  }

  lemma StripPrefixed(hex: string)
    requires |hex| > 0 && HexDigit(hex[|hex| - 1]).Some?
    ensures Strip("0x" + hex) == "0x" + hex
  {
    var s := "0x" + hex;
    assert s[|s| - 1] == hex[|hex| - 1];
    NoSpaceToStrip(s);
  }

  lemma SignedHexPrefixed(hex: string)
    requires |hex| > 0 && HexDigit(hex[0]).Some? && HexBody(hex).Some?
    ensures SignedHex("0x" + hex) == Some(HexBody(hex).value)
  {
    var s := "0x" + hex;
    assert s[0] == '0' && s[1] == 'x' && s[2..] == hex;
    assert WithoutPrefix(s) == hex;
  }

  /** A string that neither starts nor ends with white space is its own strip. */
  lemma NoSpaceToStrip(s: string)
    requires |s| > 0 && !IsSpace(s[0]) && !IsSpace(s[|s| - 1])
    ensures Strip(s) == s
  {
  }

  // ---------------------------------------------------------------- as_dict, from_dict

  /** `'0x' + account.private_key[::-1].to_hex()`. */
  function AccountHex(a: Account): Value {
    Str("0x" + LowerHex(Reverse(a.privateKey)))
  }

  function AccountsHex(accounts: seq<Account>): (values: seq<Value>)
    ensures |values| == |accounts|
    ensures forall i :: 0 <= i < |accounts| ==> values[i] == AccountHex(accounts[i])
  {
    if accounts == [] then [] else [AccountHex(accounts[0])] + AccountsHex(accounts[1..])
  }

  /** `Env.as_dict()`. */
  function AsDict(e: Env): (d: map<string, Field>)
    ensures d.Keys == {"rpc_endpoint", "network", "hardforks", "validators", "others"}
    ensures d["rpc_endpoint"] == e.rpcEndpoint && d["network"] == e.network
    ensures d["hardforks"] == Plain(Object(HardforkFields(e.hardforks)))
    ensures d["validators"] == Plain(Array(AccountsHex(e.validators)))
    ensures d["others"] == Plain(Array(AccountsHex(e.others)))
  {
    map["rpc_endpoint" := e.rpcEndpoint,
        "network" := e.network,
        "hardforks" := Plain(Object(HardforkFields(e.hardforks))),
        "validators" := Plain(Array(AccountsHex(e.validators))),
        "others" := Plain(Array(AccountsHex(e.others)))]
  }

  /** `[Account(private_key=int(v, 16).to_bytes(32, 'big')) for v in values]`, stopping at the first that raises. */
  function AccountsOf(values: seq<Value>): (r: Result<seq<Account>, ConfigError>)
    ensures r.Success? <==> forall i :: 0 <= i < |values| ==> KeyFromHex(values[i]).Success?
    ensures r.Success? ==>
      && |r.value| == |values|
      && forall i :: 0 <= i < |values| ==> r.value[i] == Account(KeyFromHex(values[i]).value)
  {
    if values == [] then Success([])
    else match KeyFromHex(values[0])
      case Failure(e) => Failure(e)
      case Success(key) =>
        match AccountsOf(values[1..])
        case Failure(e) =>
          assert forall i :: 1 <= i < |values| ==> values[1..][i - 1] == values[i];
          Failure(e)
        case Success(rest) =>
          assert forall i :: 1 <= i < |values| ==> values[1..][i - 1] == values[i];
          Success([Account(key)] + rest)
  }

  /** The comprehension raises the error of the first string that is not a valid key. */
  lemma {:induction false} AccountsOfFailsAtFirst(values: seq<Value>)
    requires AccountsOf(values).Failure?
    ensures exists i ::
      && 0 <= i < |values|
      && (forall j :: 0 <= j < i ==> KeyFromHex(values[j]).Success?)
      && KeyFromHex(values[i]) == Failure(AccountsOf(values).error)
  {
    if KeyFromHex(values[0]).Failure? {
      assert KeyFromHex(values[0]) == Failure(AccountsOf(values).error);
    } else {
      var tail := values[1..];
      AccountsOfFailsAtFirst(tail);
      var i :| && 0 <= i < |tail|
        && (forall j :: 0 <= j < i ==> KeyFromHex(tail[j]).Success?)
        && KeyFromHex(tail[i]) == Failure(AccountsOf(tail).error);
      assert forall j :: 1 <= j <= i ==> tail[j - 1] == values[j];
      assert KeyFromHex(values[i + 1]) == Failure(AccountsOf(values).error);
    }
  }

  /** `for v in data[key]`: a list gives its items, a str its characters; anything else is not iterated. */
  function Items(f: Field): Result<seq<Value>, ConfigError> {
    match f
    case Plain(Array(xs)) => Success(xs)
    case Plain(Str(s)) => Success(seq(|s|, i requires 0 <= i < |s| => Str([s[i]])))
    case _ => Failure(NotIterable)
  }

  function AccountsFrom(f: Field): Result<seq<Account>, ConfigError> {
    match Items(f)
    case Failure(e) => Failure(e)
    case Success(xs) => AccountsOf(xs)
  }

  /** `Env.from_dict(data)`: the keyword arguments are evaluated, and can raise, in order. */
  function FromDict(data: map<string, Field>): Result<Env, ConfigError>
  {
    if "rpc_endpoint" !in data then Failure(MissingKey("rpc_endpoint"))
    else if "network" !in data then Failure(MissingKey("network"))
    else if "hardforks" !in data then Failure(MissingKey("hardforks"))
    else match HardforksFrom(data["hardforks"])
      case Failure(e) => Failure(e)
      case Success(hardforks) =>
        if "validators" !in data then Failure(MissingKey("validators"))
        else match AccountsFrom(data["validators"])
          case Failure(e) => Failure(e)
          case Success(validators) =>
            if "others" !in data then Failure(MissingKey("others"))
            else match AccountsFrom(data["others"])
              case Failure(e) => Failure(e)
              case Success(others) =>
                Success(Env(data["rpc_endpoint"], data["network"], hardforks, validators, others))
  }

  /**
   * `from_dict` succeeds exactly when the five keys are there and the
   * hardforks and both account lists convert; the result holds what they
   * convert to.
   */
  lemma FromDictMeans(data: map<string, Field>)
    ensures FromDict(data).Success? <==>
      && data.Keys >= {"rpc_endpoint", "network", "hardforks", "validators", "others"}
      && HardforksFrom(data["hardforks"]).Success?
      && AccountsFrom(data["validators"]).Success?
      && AccountsFrom(data["others"]).Success?
    ensures FromDict(data).Success? ==>
      FromDict(data).value == Env(data["rpc_endpoint"], data["network"], HardforksFrom(data["hardforks"]).value,
                                  AccountsFrom(data["validators"]).value, AccountsFrom(data["others"]).value)
  {
  }

  /**
   * The keys are looked up in argument order: a missing key is reported only
   * when every earlier one is there and has converted.
   */
  lemma FromDictMissingKey(data: map<string, Field>)
    ensures "rpc_endpoint" !in data ==> FromDict(data) == Failure(MissingKey("rpc_endpoint"))
    ensures "rpc_endpoint" in data && "network" !in data ==> FromDict(data) == Failure(MissingKey("network"))
    ensures "rpc_endpoint" in data && "network" in data && "hardforks" !in data
            ==> FromDict(data) == Failure(MissingKey("hardforks"))
    ensures "rpc_endpoint" in data && "network" in data && "hardforks" in data
            && HardforksFrom(data["hardforks"]).Success? && "validators" !in data
            ==> FromDict(data) == Failure(MissingKey("validators"))
    ensures "rpc_endpoint" in data && "network" in data && "hardforks" in data
            && HardforksFrom(data["hardforks"]).Success? && "validators" in data
            && AccountsFrom(data["validators"]).Success? && "others" !in data
            ==> FromDict(data) == Failure(MissingKey("others"))
  {
  }

  predicate KeysAre32Bytes(accounts: seq<Account>) {
    forall i :: 0 <= i < |accounts| ==> |accounts[i].privateKey| == 32
  }

  function ReverseKeys(accounts: seq<Account>): (r: seq<Account>)
    ensures |r| == |accounts|
    ensures forall i :: 0 <= i < |accounts| ==> r[i] == Account(Reverse(accounts[i].privateKey))
  {
    if accounts == [] then [] else [Account(Reverse(accounts[0].privateKey))] + ReverseKeys(accounts[1..])
  }

  /** One account's hex string read back: the key with its bytes reversed. */
  lemma KeyFromAccountHex(a: Account)
    requires |a.privateKey| == 32
    ensures KeyFromHex(AccountHex(a)) == Success(Reverse(a.privateKey))
  {
    var b := Reverse(a.privateKey);
    ParseHexOfLowerHex(b);
    BEOfFromBE(b);
  }

  lemma AccountsOfHex(accounts: seq<Account>)
    requires KeysAre32Bytes(accounts)
    ensures AccountsOf(AccountsHex(accounts)) == Success(ReverseKeys(accounts))
  {
    var values := AccountsHex(accounts);
    forall i | 0 <= i < |accounts|
      ensures KeyFromHex(values[i]) == Success(Reverse(accounts[i].privateKey))
    {
      KeyFromAccountHex(accounts[i]);
    }
  }

  /**
   * `from_dict(as_dict(e))` keeps the endpoint, the network, the hardforks
   * and the number and order of the accounts, but gives back every 32-byte
   * private key with its bytes reversed: `as_dict` writes the reversed key
   * and `from_dict` reads the hex as big-endian.
   */
  lemma FromDictOfAsDict(e: Env)
    requires KeysAre32Bytes(e.validators) && KeysAre32Bytes(e.others)
    ensures FromDict(AsDict(e))
         == Success(Env(e.rpcEndpoint, e.network, e.hardforks, ReverseKeys(e.validators), ReverseKeys(e.others)))
  {
    var d := AsDict(e);
    assert HardforksFrom(d["hardforks"]) == Success(e.hardforks) by {
      HardforkOfFields(e.hardforks);
    }
    assert AccountsFrom(d["validators"]) == Success(ReverseKeys(e.validators)) by {
      AccountsOfHex(e.validators);
    }
    assert AccountsFrom(d["others"]) == Success(ReverseKeys(e.others)) by {
      AccountsOfHex(e.others);
    }
  }

  /** The default configuration, which has no accounts, does come back unchanged. */
  lemma DefaultEnvRoundTrip()
    ensures FromDict(AsDict(DefaultEnv)) == Success(DefaultEnv)
  {
    FromDictOfAsDict(DefaultEnv);
  }

  /** An account, validator or other, whose key is not a palindrome comes back with a different key, so the round trip fails. */
  lemma RoundTripReversesKeys(e: Env, i: nat)
    requires KeysAre32Bytes(e.validators) && KeysAre32Bytes(e.others)
    requires || (i < |e.validators| && Reverse(e.validators[i].privateKey) != e.validators[i].privateKey)
             || (i < |e.others| && Reverse(e.others[i].privateKey) != e.others[i].privateKey)
    ensures FromDict(AsDict(e)) != Success(e)
  {
    FromDictOfAsDict(e);
    if i < |e.validators| && Reverse(e.validators[i].privateKey) != e.validators[i].privateKey {
      assert ReverseKeys(e.validators)[i] != e.validators[i];
    } else {
      assert ReverseKeys(e.others)[i] != e.others[i];
    }
  }

  predicate KeysArePalindromes(accounts: seq<Account>) {
    forall i :: 0 <= i < |accounts| ==> Reverse(accounts[i].privateKey) == accounts[i].privateKey
  }

  /** Reversing every key leaves the accounts as they are exactly when every key is a palindrome. */
  lemma ReverseKeysUnchanged(accounts: seq<Account>)
    ensures ReverseKeys(accounts) == accounts <==> KeysArePalindromes(accounts)
  {
    if KeysArePalindromes(accounts) {
      assert forall i :: 0 <= i < |accounts| ==> ReverseKeys(accounts)[i] == accounts[i];
    } else {
      var i :| 0 <= i < |accounts| && Reverse(accounts[i].privateKey) != accounts[i].privateKey;
      assert ReverseKeys(accounts)[i] != accounts[i];
    }
  }

  /**
   * The configurations that survive `from_dict(as_dict(e))` are exactly
   * those whose account keys, in both lists, all read the same reversed.
   */
  lemma RoundTripExactly(e: Env)
    requires KeysAre32Bytes(e.validators) && KeysAre32Bytes(e.others)
    ensures FromDict(AsDict(e)) == Success(e) <==> KeysArePalindromes(e.validators) && KeysArePalindromes(e.others)
  {
    FromDictOfAsDict(e);
    ReverseKeysUnchanged(e.validators);
    ReverseKeysUnchanged(e.others);
  }
}
