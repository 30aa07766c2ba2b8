// auth/password/hasher.go: password hashes in PHC string format.
// Argon2id itself is a parameter: a function of password, salt and cost.
module Hasher {
  import opened Wrappers
  import opened Base64
  import opened Text

  type Uint32 = n: int | 0 <= n < 0x1_0000_0000
  type Uint8 = n: int | 0 <= n < 0x100

  const ARGON2_VERSION := 19
  const MAX_UINT32 := 0xFFFF_FFFF
  const MAX_UINT8 := 0xFF

  datatype Cost = Cost(memory: Uint32, iterations: Uint32, parallelism: Uint8, keyLength: Uint32)

  datatype Params = Params(
    memory: Uint32, iterations: Uint32, parallelism: Uint8, saltLength: Uint32, keyLength: Uint32)
  {
    function CostOf(): Cost { Cost(memory, iterations, parallelism, keyLength) }

    // What argon2.IDKey accepts: it panics on a zero time cost, a zero number of threads or an empty key.
    predicate Runnable() { iterations >= 1 && parallelism >= 1 && keyLength >= 1 }
  }

  type Argon2id = (string, seq<Byte>, Cost) -> seq<Byte>

  ghost predicate HonoursKeyLength(argon: Argon2id) {
    forall password, salt, cost :: |argon(password, salt, cost)| == cost.keyLength
  }

  datatype DecodeError =
    BadFormat | BadAlgorithm | BadVersion | WrongVersion | BadParameter | BadSalt | BadKey

  datatype Decoded = Decoded(params: Params, salt: seq<Byte>, key: seq<Byte>)

  // What Verify reports: its two booleans, a decoding error, or the panic of argon2.IDKey.
  datatype Verdict = Verdict(matched: bool, needsRehash: bool) | Undecodable | Panic

  function Uint32Of(n: nat): Uint32 { n % 0x1_0000_0000 }

  // $argon2id$v=19$m=..,t=..,p=..$salt$key
  function Print(params: Params, salt: seq<Byte>, key: seq<Byte>): string {
    "$argon2id$" + PrintVersioned(params, salt, key)
  }

  function PrintVersioned(params: Params, salt: seq<Byte>, key: seq<Byte>): string {
    PrintVersion() + "$" + PrintRest(params, salt, key)
  }

  function PrintVersion(): string { "v=" + Decimal(ARGON2_VERSION) }

  function PrintRest(params: Params, salt: seq<Byte>, key: seq<Byte>): string {
    PrintParams(params) + "$" + (Encode(Standard, salt) + "$" + Encode(Standard, key))
  }

  function PrintParams(params: Params): string {
    "m=" + Decimal(params.memory) + ",t=" + Decimal(params.iterations) + ",p=" + Decimal(params.parallelism)
  }

  function Hash(argon: Argon2id, cfg: Params, salt: seq<Byte>, password: string): string {
    Print(cfg, salt, argon(password, salt, cfg.CostOf()))
  }

  // One key=value pair applied to the parameters read so far.
  function SetParam(params: Params, pair: string): Option<Params> {
    match Cut(pair, '=')
    case None => None
    case Some((key, value)) =>
      if key == "m" then
        match ParseUint(value, MAX_UINT32) case None => None case Some(v) => Some(params.(memory := v))
      else if key == "t" then
        match ParseUint(value, MAX_UINT32) case None => None case Some(v) => Some(params.(iterations := v))
      else if key == "p" then
        match ParseUint(value, MAX_UINT8) case None => None case Some(v) => Some(params.(parallelism := v))
      else None
  }

  function SetParams(params: Params, pairs: seq<string>): Option<Params>
    decreases |pairs|
  {
    if pairs == [] then Some(params)
    else match SetParam(params, pairs[0])
      case None => None
      case Some(next) => SetParams(next, pairs[1..])
  }

  const NO_PARAMS := Params(0, 0, 0, 0, 0)

  method ParseParams(s: string) returns (r: Option<Params>)
    ensures r == SetParams(NO_PARAMS, Split(s, ','))
  {
    var params := NO_PARAMS;
    var pairs := Split(s, ',');
    for i := 0 to |pairs|
      invariant SetParams(params, pairs[i..]) == SetParams(NO_PARAMS, pairs)
    {
      match SetParam(params, pairs[i]) {
        case None => return None;
        case Some(next) =>
          assert pairs[i..][1..] == pairs[i + 1..];
          params := next;
      }
    }
    return Some(params);
  }

  function DecodePhc(encoded: string): Result<Decoded, DecodeError> {
    DecodeParts(Split(encoded, '$'))
  }

  function DecodeParts(parts: seq<string>): Result<Decoded, DecodeError> {
    if |parts| != 6 then Err(BadFormat)
    else if parts[1] != "argon2id" then Err(BadAlgorithm)
    else match Atoi(TrimPrefix(parts[2], "v="))
      case None => Err(BadVersion)
      case Some(version) =>
        if version != ARGON2_VERSION then Err(WrongVersion)
        else match SetParams(NO_PARAMS, Split(parts[3], ','))
          case None => Err(BadParameter)
          case Some(params) =>
            match Decode(Standard, parts[4])
            case None => Err(BadSalt)
            case Some(salt) =>
              match Decode(Standard, parts[5])
              case None => Err(BadKey)
              case Some(key) =>
                Ok(Decoded(params.(saltLength := Uint32Of(|salt|), keyLength := Uint32Of(|key|)), salt, key))
  }

  method DecodePhcString(encoded: string) returns (r: Result<Decoded, DecodeError>)
    ensures r == DecodePhc(encoded)
  {
    var parts := Split(encoded, '$');
    if |parts| != 6 { return Err(BadFormat); }
    if parts[1] != "argon2id" { return Err(BadAlgorithm); }
    var version := Atoi(TrimPrefix(parts[2], "v="));
    if version.None? { return Err(BadVersion); }
    if version.value != ARGON2_VERSION { return Err(WrongVersion); }
    var parsed := ParseParams(parts[3]);
    if parsed.None? { return Err(BadParameter); }
    var params := parsed.value;
    var salt := Decode(Standard, parts[4]);
    if salt.None? { return Err(BadSalt); }
    params := params.(saltLength := Uint32Of(|salt.value|));
    var key := Decode(Standard, parts[5]);
    if key.None? { return Err(BadKey); }
    params := params.(keyLength := Uint32Of(|key.value|));
    return Ok(Decoded(params, salt.value, key.value));
  }

  predicate ParamsDiffer(cfg: Params, stored: Params) {
    || stored.memory != cfg.memory
    || stored.iterations != cfg.iterations
    || stored.parallelism != cfg.parallelism
    || stored.saltLength != cfg.saltLength
    || stored.keyLength != cfg.keyLength
  }

  function Verify(argon: Argon2id, cfg: Params, password: string, encoded: string): Verdict {
    match DecodePhc(encoded)
    case Err(_) => Undecodable
    case Ok(d) => Judge(argon, cfg, password, d)
  }

  function Judge(argon: Argon2id, cfg: Params, password: string, d: Decoded): Verdict {
    if !d.params.Runnable() then Panic
    else
      var matched := argon(password, d.salt, d.params.CostOf()) == d.key;
      Verdict(matched, matched && ParamsDiffer(cfg, d.params))
  }

  // The Hasher interface, and its one implementation.
  datatype PasswordHasher = PasswordHasher(hash: (seq<Byte>, string) -> string, verify: (string, string) -> Verdict)

  function Argon2idHasher(argon: Argon2id, cfg: Params): PasswordHasher {
    PasswordHasher((salt, password) => Hash(argon, cfg, salt, password),
                   (password, encoded) => Verify(argon, cfg, password, encoded))
  }

  // ----- The parser undoes the printer -----

  lemma Plain(s: string, c: char)
    requires AllDigits(s) && !IsDigit(c)
    ensures c !in s
  {}

  lemma EncodedHasNoDollar(bs: seq<Byte>)
    ensures '$' !in Encode(Standard, bs)
  {
    EncodeShape(Standard, bs);
  }

  lemma ParamsSplit(params: Params)
    ensures Split(PrintParams(params), ',') ==
      ["m=" + Decimal(params.memory), "t=" + Decimal(params.iterations), "p=" + Decimal(params.parallelism)]
    ensures '$' !in PrintParams(params)
  {
    var m, t, p := "m=" + Decimal(params.memory), "t=" + Decimal(params.iterations), "p=" + Decimal(params.parallelism);
    forall n: nat ensures ',' !in Decimal(n) && '$' !in Decimal(n) {
      Plain(Decimal(n), ',');
      Plain(Decimal(n), '$');
    }
    var afterM := t + [','] + p;
    assert PrintParams(params) == m + [','] + afterM;
    SplitFirst(m, ',', afterM);
    SplitFirst(t, ',', p);
    SplitNone(p, ',');
  }

  lemma ParamsRoundTrip(params: Params)
    ensures SetParams(NO_PARAMS, Split(PrintParams(params), ',')) ==
      Some(params.(saltLength := 0, keyLength := 0))
  {
    ParamsSplit(params);
    var pairs := Split(PrintParams(params), ',');
    CutOneLetter('m', '=', Decimal(params.memory));
    CutOneLetter('t', '=', Decimal(params.iterations));
    CutOneLetter('p', '=', Decimal(params.parallelism));
    ParseUintOfDecimal(params.memory, MAX_UINT32);
    ParseUintOfDecimal(params.iterations, MAX_UINT32);
    ParseUintOfDecimal(params.parallelism, MAX_UINT8);
    var afterM := NO_PARAMS.(memory := params.memory);
    var afterT := afterM.(iterations := params.iterations);
    var afterP := afterT.(parallelism := params.parallelism);
    assert pairs[1..][1..] == [pairs[2]];
    assert SetParams(afterT, [pairs[2]]) == SetParams(afterP, []);
    assert SetParams(afterM, pairs[1..]) == SetParams(afterT, pairs[1..][1..]);
  }

  lemma RestSplit(params: Params, salt: seq<Byte>, key: seq<Byte>)
    ensures Split(PrintRest(params, salt, key), '$') ==
      [PrintParams(params), Encode(Standard, salt), Encode(Standard, key)]
  {
    var saltText, keyText := Encode(Standard, salt), Encode(Standard, key);
    ParamsSplit(params);
    EncodedHasNoDollar(salt);
    EncodedHasNoDollar(key);
    SplitNone(keyText, '$');
    SplitFirst(saltText, '$', keyText);
    SplitFirst(PrintParams(params), '$', saltText + "$" + keyText);
  }

  lemma VersionedSplit(params: Params, salt: seq<Byte>, key: seq<Byte>)
    ensures Split(PrintVersioned(params, salt, key), '$') ==
      [PrintVersion()] + Split(PrintRest(params, salt, key), '$')
  {
    Plain(Decimal(ARGON2_VERSION), '$');
    SplitFirst(PrintVersion(), '$', PrintRest(params, salt, key));
  }

  lemma PrefixSplit(rest: string)
    ensures Split("$argon2id$" + rest, '$') == ["", "argon2id"] + Split(rest, '$')
  {
    SplitFirst("argon2id", '$', rest);
    var tail := "argon2id" + ['$'] + rest;
    assert "$argon2id$" + rest == "" + ['$'] + tail;
    SplitFirst("", '$', tail);
  }

  lemma PrintSplit(params: Params, salt: seq<Byte>, key: seq<Byte>)
    ensures Split(Print(params, salt, key), '$') ==
      ["", "argon2id", PrintVersion(), PrintParams(params), Encode(Standard, salt), Encode(Standard, key)]
  {
    RestSplit(params, salt, key);
    VersionedSplit(params, salt, key);
    PrefixSplit(PrintVersioned(params, salt, key));
  }

  lemma VersionReadsBack()
    ensures Atoi(TrimPrefix(PrintVersion(), "v=")) == Some(ARGON2_VERSION)
  {
    var s := Decimal(ARGON2_VERSION);
    assert ("v=" + s)[2..] == s;
    assert IsDigit(s[0]);
    ParseUintOfDecimal(ARGON2_VERSION, MAX_INT64);
  }

  // Every salt and key come back, and with them all five parameters.
  lemma PhcRoundTrip(params: Params, salt: seq<Byte>, key: seq<Byte>)
    ensures DecodePhc(Print(params, salt, key)) ==
      Ok(Decoded(params.(saltLength := Uint32Of(|salt|), keyLength := Uint32Of(|key|)), salt, key))
  {
    PrintSplit(params, salt, key);
    VersionReadsBack();
    ParamsRoundTrip(params);
    RoundTrip(Standard, salt);
    RoundTrip(Standard, key);
  }

  // A stored hash, checked under any later configuration: the verdict compares keys,
  // and asks for a rehash exactly on a match whose parameters are no longer current.
  lemma VerifyStored(argon: Argon2id, cfg: Params, stored: Params, salt: seq<Byte>, original: string, attempt: string)
    requires HonoursKeyLength(argon)
    requires stored.Runnable() && |salt| == stored.saltLength
    ensures
      var same := argon(attempt, salt, stored.CostOf()) == argon(original, salt, stored.CostOf());
      Verify(argon, cfg, attempt, Hash(argon, stored, salt, original)) == Verdict(same, same && stored != cfg)
  {
    var key := argon(original, salt, stored.CostOf());
    SizedRoundTrip(stored, salt, key);
    JudgeEncoded(argon, cfg, attempt, Print(stored, salt, key), Decoded(stored, salt, key));
  }

  lemma SizedRoundTrip(params: Params, salt: seq<Byte>, key: seq<Byte>)
    requires |salt| == params.saltLength && |key| == params.keyLength
    ensures DecodePhc(Print(params, salt, key)) == Ok(Decoded(params, salt, key))
  {
    var decoded := params.(saltLength := Uint32Of(|salt|), keyLength := Uint32Of(|key|));
    assert decoded == params;
    PhcRoundTrip(params, salt, key);
  }

  lemma JudgeEncoded(argon: Argon2id, cfg: Params, attempt: string, encoded: string, d: Decoded)
    requires DecodePhc(encoded) == Ok(d) && d.params.Runnable()
    ensures
      var same := argon(attempt, d.salt, d.params.CostOf()) == d.key;
      Verify(argon, cfg, attempt, encoded) == Verdict(same, same && d.params != cfg)
  {}

  lemma VerifyOwnHash(argon: Argon2id, cfg: Params, salt: seq<Byte>, password: string)
    requires HonoursKeyLength(argon)
    requires cfg.Runnable() && |salt| == cfg.saltLength
    ensures Verify(argon, cfg, password, Hash(argon, cfg, salt, password)) == Verdict(true, false)
  {
    VerifyStored(argon, cfg, cfg, salt, password, password);
  }

  // ----- the format, and exactly what the parser takes -----

  // A stored hash, spelled out.
  lemma HashFormat(argon: Argon2id, cfg: Params, salt: seq<Byte>, password: string)
    ensures Hash(argon, cfg, salt, password) ==
            "$argon2id$" + ("v=19" + "$" + (
              "m=" + Decimal(cfg.memory) + ",t=" + Decimal(cfg.iterations) + ",p=" + Decimal(cfg.parallelism)
              + "$" + (Encode(Standard, salt) + "$" + Encode(Standard, argon(password, salt, cfg.CostOf())))))
  {
    assert Decimal(19) == Decimal(1) + ['9'] == "19";
    assert PrintVersion() == "v=19";
  }

  // The text is these five parts, none with a dollar, behind a first part that may be anything without one.
  ghost predicate IsPhc(encoded: string, d: Decoded, first: string, version: string, fields: string, salt: string,
                        key: string)
  {
    && '$' !in first && '$' !in version && '$' !in fields && '$' !in salt && '$' !in key
    && encoded == first + "$" + ("argon2id$" + (version + "$" + (fields + "$" + (salt + "$" + key))))
    && Atoi(TrimPrefix(version, "v=")) == Some(ARGON2_VERSION)
    && Decode(Standard, salt) == Some(d.salt) && Decode(Standard, key) == Some(d.key)
    && var read := SetParams(NO_PARAMS, Split(fields, ','));
       read.Some? && d.params == read.value.(saltLength := Uint32Of(|d.salt|), keyLength := Uint32Of(|d.key|))
  }

  lemma SplitSix(first: string, second: string, version: string, fields: string, salt: string, key: string)
    requires '$' !in first && '$' !in second && '$' !in version && '$' !in fields && '$' !in salt && '$' !in key
    ensures Split(first + "$" + (second + "$" + (version + "$" + (fields + "$" + (salt + "$" + key)))), '$') ==
            [first, second, version, fields, salt, key]
  {
    SplitNone(key, '$');
    SplitFirst(salt, '$', key);
    SplitFirst(fields, '$', salt + "$" + key);
    SplitFirst(version, '$', fields + "$" + (salt + "$" + key));
    SplitFirst(second, '$', version + "$" + (fields + "$" + (salt + "$" + key)));
    SplitFirst(first, '$', second + "$" + (version + "$" + (fields + "$" + (salt + "$" + key))));
  }

  lemma JoinSix(parts: seq<string>)
    requires |parts| == 6
    ensures Join(parts, '$') ==
            parts[0] + "$" + (parts[1] + "$" + (parts[2] + "$" + (parts[3] + "$" + (parts[4] + "$" + parts[5]))))
  {
    var a, b, c, d, e := parts[1..], parts[2..], parts[3..], parts[4..], parts[5..];
    assert a[1..] == b && b[1..] == c && c[1..] == d && d[1..] == e;
    assert Join(d, '$') == parts[4] + "$" + Join(e, '$') == parts[4] + "$" + parts[5];
    assert Join(c, '$') == parts[3] + "$" + Join(d, '$');
    assert Join(b, '$') == parts[2] + "$" + Join(c, '$');
    assert Join(a, '$') == parts[1] + "$" + Join(b, '$');
  }

  // Exactly those texts decode, to exactly what their parts say.
  lemma DecodesExactly(encoded: string, d: Decoded)
    ensures DecodePhc(encoded) == Ok(d) <==>
            exists first, version, fields, salt, key :: IsPhc(encoded, d, first, version, fields, salt, key)
  {
    var parts := Split(encoded, '$');
    SplitExactly(encoded, '$');
    if DecodePhc(encoded) == Ok(d) {
      JoinSix(parts);
      assert "argon2id" + "$" == "argon2id$";
      assert IsPhc(encoded, d, parts[0], parts[2], parts[3], parts[4], parts[5]);
    }
    if first, version, fields, salt, key :| IsPhc(encoded, d, first, version, fields, salt, key) {
      SplitSix(first, "argon2id", version, fields, salt, key);
      assert "argon2id" + "$" == "argon2id$";
    }
  }

  // ----- the parameters -----

  predicate WellFormed(pair: string) {
    match Cut(pair, '=')
    case None => false
    case Some((key, value)) =>
      || (key in {"m", "t"} && ParseUint(value, MAX_UINT32).Some?)
      || (key == "p" && ParseUint(value, MAX_UINT8).Some?)
  }

  // The value of the last pair of this key.
  function LastValue(pairs: seq<string>, key: string): Option<string> {
    if pairs == [] then None
    else match Cut(pairs[|pairs| - 1], '=')
      case None => LastValue(pairs[..|pairs| - 1], key)
      case Some((k, value)) => if k == key then Some(value) else LastValue(pairs[..|pairs| - 1], key)
  }

  // The number it reads as, or zero where there is no such pair.
  function NumberOr0(text: Option<string>, max: nat): nat {
    match text case None => 0 case Some(s) => (match ParseUint(s, max) case None => 0 case Some(v) => v)
  }

  lemma {:induction false} SetParamsAppend(start: Params, pairs: seq<string>, pair: string)
    ensures SetParams(start, pairs + [pair]) ==
            match SetParams(start, pairs) case None => None case Some(p) => SetParam(p, pair)
    decreases |pairs|
  {
    if pairs == [] {
      assert pairs + [pair] == [pair];
    } else {
      assert (pairs + [pair])[1..] == pairs[1..] + [pair];
      var next := SetParam(start, pairs[0]);
      if next.Some? { SetParamsAppend(next.value, pairs[1..], pair); }
    }
  }

  // A parameter text is read exactly if each of its pairs is well formed, and then the last pair of a key
  // counts; a key that is not there is zero.
  lemma {:induction false} ParamsExactly(pairs: seq<string>)
    ensures SetParams(NO_PARAMS, pairs).Some? <==> forall i | 0 <= i < |pairs| :: WellFormed(pairs[i])
    ensures SetParams(NO_PARAMS, pairs).Some? ==>
      SetParams(NO_PARAMS, pairs).value ==
        Params(NumberOr0(LastValue(pairs, "m"), MAX_UINT32), NumberOr0(LastValue(pairs, "t"), MAX_UINT32),
               NumberOr0(LastValue(pairs, "p"), MAX_UINT8), 0, 0)
  {
    if pairs != [] {
      var before, last := pairs[..|pairs| - 1], pairs[|pairs| - 1];
      assert pairs == before + [last];
      ParamsExactly(before);
      SetParamsAppend(NO_PARAMS, before, last);
      if forall i | 0 <= i < |pairs| :: WellFormed(pairs[i]) {
        assert forall i | 0 <= i < |before| :: before[i] == pairs[i];
        assert WellFormed(pairs[|pairs| - 1]);
      }
    }
  }
}
