/** The patch configuration (`patch.cfg`): the record a contract may rewrite, and
    the ordered guards it must pass before it is written. */
module Config {
  import opened Common

  datatype ConsensusConfig = ConsensusConfig(mode: string, roundtime: int, stageSlice: int, threshold: int)

  datatype NplConfig = NplConfig(mode: string)

  datatype RoundLimits = RoundLimits(
    userInputBytes: int,
    userOutputBytes: int,
    nplOutputBytes: int,
    procCpuSeconds: int,
    procMemBytes: int,
    procOfdCount: int)

  /** `unl` is `None` when the field is missing (undefined or null); an empty
      `version` or `binPath` stands for a missing or empty string field. */
  datatype PatchConfigData = PatchConfigData(
    version: string,
    unl: Option<seq<string>>,
    binPath: string,
    consensus: ConsensusConfig,
    npl: NplConfig,
    roundLimits: RoundLimits,
    maxInputLedgerOffset: int)

  /** The errors the validator throws, in the order its guards run. */
  datatype ConfigError =
    | VersionMissing               // "Contract version is not specified."
    | UnlEmpty                     // "UNL list cannot be empty."
    | UnlKeyNotSpecified           // "UNL public key not specified."
    | UnlKeyInvalid                // "Invalid UNL public key specified."
    | BinPathEmpty                 // "Binary path cannot be empty."
    | ConsensusModeInvalid         // "Invalid consensus mode configured in patch file. ..."
    | RoundtimeOutOfRange          // "Round time must be between 1 and 3600000ms inclusive."
    | StageSliceOutOfRange         // "Stage slice must be between 1 and 33 percent inclusive."
    | ThresholdOutOfRange          // "Consensus threshold must be between 1 and 100 percent inclusive."
    | NplModeInvalid               // "Invalid npl mode configured in patch file. ..."
    | RoundLimitsInvalid           // "Invalid round limits."
    | MaxInputLedgerOffsetInvalid  // "Invalid max input ledger offset"

  predicate IsHexDigit(ch: char) {
    '0' <= ch <= '9' || 'a' <= ch <= 'f' || 'A' <= ch <= 'F'
  }

  /** `[0-9a-fA-F]{n}` matched against the whole of `s`: n hex digits, then the end. */
  predicate HexRun(s: string, n: nat)
    decreases n
  {
    if n == 0 then s == []
    else s != [] && IsHexDigit(s[0]) && HexRun(s[1..], n - 1)
  }

  /** A run of n hex digits is exactly a string of length n whose every character
      is a hex digit. */
  lemma {:induction false} HexRunPositions(s: string, n: nat)
    ensures HexRun(s, n) <==> |s| == n && forall i :: 0 <= i < |s| ==> IsHexDigit(s[i])
    decreases n
  {
    if n > 0 && s != [] {
      HexRunPositions(s[1..], n - 1);
      if IsHexDigit(s[0]) && (forall i :: 0 <= i < |s[1..]| ==> IsHexDigit(s[1..][i])) {
        forall i | 0 <= i < |s| ensures IsHexDigit(s[i]) {
          if i > 0 {
            assert s[i] == s[1..][i - 1];
          }
        }
      }
    }
  }

  /** The hex run after a two-character prefix, stated on positions of the key. */
  lemma HexTailPositions(k: string)
    ensures |k| >= 2 ==>
              (HexRun(k[2..], 64) <==> |k| == 66 && forall i :: 2 <= i < |k| ==> IsHexDigit(k[i]))
  {
    if |k| >= 2 {
      var t := k[2..];
      HexRunPositions(t, 64);
      if forall i :: 2 <= i < |k| ==> IsHexDigit(k[i]) {
        forall i | 0 <= i < |t| ensures IsHexDigit(t[i]) {
          assert t[i] == k[i + 2];
        }
      }
      if forall i :: 0 <= i < |t| ==> IsHexDigit(t[i]) {
        forall i | 2 <= i < |k| ensures IsHexDigit(k[i]) {
          assert k[i] == t[i - 2];
        }
      }
    }
  }

  /** The key pattern `^(e|E)(d|D)[0-9a-fA-F]{64}$` matched atom by atom: the
      anchored match holds exactly when the key is 66 characters long, starts
      with `e` or `E`, then `d` or `D`, and every later character is a hex digit. */
  predicate ValidPublicKey(k: string): (b: bool)
    ensures b <==> && |k| == 66
                   && (k[0] == 'e' || k[0] == 'E')
                   && (k[1] == 'd' || k[1] == 'D')
                   && forall i :: 2 <= i < |k| ==> IsHexDigit(k[i])
  {
    HexTailPositions(k);
    && k != [] && (k[0] == 'e' || k[0] == 'E')
    && |k| >= 2 && (k[1] == 'd' || k[1] == 'D')
    && HexRun(k[2..], 64)
  }

  predicate ValidMode(mode: string) {
    mode == "public" || mode == "private"
  }

  /** The loop over the UNL keys: the error of the first key that fails, if any.
      An empty key is "not specified"; any other bad key is "invalid". */
  function KeyError(keys: seq<string>): (r: Option<ConfigError>)
    ensures r in {None, Some(UnlKeyNotSpecified), Some(UnlKeyInvalid)}
    ensures r == Some(UnlKeyNotSpecified) ==> "" in keys
  {
    if keys == [] then None
    else if |keys[0]| == 0 then Some(UnlKeyNotSpecified)
    else if !ValidPublicKey(keys[0]) then Some(UnlKeyInvalid)
    else KeyError(keys[1..])
  }

  /** Key `i` is the first key that does not match the pattern. */
  predicate FirstBadKey(keys: seq<string>, i: int) {
    && 0 <= i < |keys|
    && !ValidPublicKey(keys[i])
    && forall j :: 0 <= j < i ==> ValidPublicKey(keys[j])
  }

  /** The key loop throws exactly when some key is bad, and then the error is
      decided by the first bad key alone: "not specified" if it is empty,
      "invalid" otherwise. */
  lemma {:induction false} KeyErrorFirstBad(keys: seq<string>)
    ensures KeyError(keys).None? <==> forall i :: 0 <= i < |keys| ==> ValidPublicKey(keys[i])
    ensures forall i :: FirstBadKey(keys, i) ==>
              KeyError(keys) == Some(if keys[i] == "" then UnlKeyNotSpecified else UnlKeyInvalid)
  {
    if keys != [] {
      KeyErrorFirstBad(keys[1..]);
      AllValidCons(keys);
      if ValidPublicKey(keys[0]) {
        assert |keys[0]| != 0;
        forall i | FirstBadKey(keys, i)
          ensures KeyError(keys) == Some(if keys[i] == "" then UnlKeyNotSpecified else UnlKeyInvalid)
        {
          FirstBadShift(keys, i);
        }
      } else {
        assert FirstBadKey(keys, 0);
        forall i | FirstBadKey(keys, i) ensures i == 0 {
        }
      }
    }
  }

  /** Every key is valid exactly when the first is and every later one is. */
  lemma AllValidCons(keys: seq<string>)
    requires keys != []
    ensures (forall i :: 0 <= i < |keys| ==> ValidPublicKey(keys[i])) <==>
            ValidPublicKey(keys[0]) && forall i :: 0 <= i < |keys[1..]| ==> ValidPublicKey(keys[1..][i])
  {
    if ValidPublicKey(keys[0]) && forall i :: 0 <= i < |keys[1..]| ==> ValidPublicKey(keys[1..][i]) {
      forall i | 0 <= i < |keys| ensures ValidPublicKey(keys[i]) {
        if i > 0 {
          assert keys[i] == keys[1..][i - 1];
        }
      }
    }
  }

  /** Past a valid first key, the first bad key of the list is the first bad key
      of the rest, one position earlier. */
  lemma FirstBadShift(keys: seq<string>, i: int)
    requires keys != [] && ValidPublicKey(keys[0]) && FirstBadKey(keys, i)
    ensures i > 0 && FirstBadKey(keys[1..], i - 1)
  {
    forall j | 0 <= j < i - 1 ensures ValidPublicKey(keys[1..][j]) {
      assert keys[1..][j] == keys[j + 1];
    }
  }

  /** `validateConfig`: the guards in the order `validateConfig` runs them; the
      first that fires decides the error. The roundtime guard joins its two range
      tests with `&&`, as `validateConfig` does. A config passes exactly when it
      is acceptable. */
  function Validate(c: PatchConfigData): (r: Outcome<ConfigError>)
    ensures r == Pass <==> Acceptable(c)
  {
    KeyErrorFirstBad(Keys(c));
    if c.version == "" then Fail(VersionMissing)
    else if c.unl.None? || |c.unl.value| == 0 then Fail(UnlEmpty)
    else if KeyError(c.unl.value).Some? then Fail(KeyError(c.unl.value).value)
    else if c.binPath == "" then Fail(BinPathEmpty)
    else if !ValidMode(c.consensus.mode) then Fail(ConsensusModeInvalid)
    else if c.consensus.roundtime < 1 && c.consensus.roundtime > 3600000 then Fail(RoundtimeOutOfRange)
    else if c.consensus.stageSlice < 1 || c.consensus.stageSlice > 33 then Fail(StageSliceOutOfRange)
    else if c.consensus.threshold < 1 || c.consensus.threshold > 100 then Fail(ThresholdOutOfRange)
    else if !ValidMode(c.npl.mode) then Fail(NplModeInvalid)
    else if || c.roundLimits.userInputBytes < 0 || c.roundLimits.userOutputBytes < 0
            || c.roundLimits.nplOutputBytes < 0 || c.roundLimits.procCpuSeconds < 0
            || c.roundLimits.procMemBytes < 0 || c.roundLimits.procOfdCount < 0
    then Fail(RoundLimitsInvalid)
    else if c.maxInputLedgerOffset < 0 then Fail(MaxInputLedgerOffsetInvalid)
    else Pass
  }

  /** What a config that passes looks like, stated field by field. No condition
      on `roundtime` appears: the roundtime guard of `validateConfig` cannot
      reject any value. */
  predicate Acceptable(c: PatchConfigData) {
    && c.version != ""
    && c.unl.Some? && |c.unl.value| > 0
    && (forall i :: 0 <= i < |c.unl.value| ==> ValidPublicKey(c.unl.value[i]))
    && c.binPath != ""
    && ValidMode(c.consensus.mode)
    && 1 <= c.consensus.stageSlice <= 33
    && 1 <= c.consensus.threshold <= 100
    && ValidMode(c.npl.mode)
    && c.roundLimits.userInputBytes >= 0 && c.roundLimits.userOutputBytes >= 0
    && c.roundLimits.nplOutputBytes >= 0 && c.roundLimits.procCpuSeconds >= 0
    && c.roundLimits.procMemBytes >= 0 && c.roundLimits.procOfdCount >= 0
    && c.maxInputLedgerOffset >= 0
  }

  /** The keys the key loop visits (none when the list is missing). */
  function Keys(c: PatchConfigData): seq<string> {
    if c.unl.Some? then c.unl.value else []
  }

  /** The position of each error's guard in the validator. */
  function Rank(e: ConfigError): nat {
    match e
    case VersionMissing => 0
    case UnlEmpty => 1
    case UnlKeyNotSpecified => 2
    case UnlKeyInvalid => 3
    case BinPathEmpty => 4
    case ConsensusModeInvalid => 5
    case RoundtimeOutOfRange => 6
    case StageSliceOutOfRange => 7
    case ThresholdOutOfRange => 8
    case NplModeInvalid => 9
    case RoundLimitsInvalid => 10
    case MaxInputLedgerOffsetInvalid => 11
  }

  /** Whether the guard that throws `e` fires on `c` when it is reached; for the two
      key errors, whether the key loop ends with that error. */
  predicate Fires(c: PatchConfigData, e: ConfigError) {
    match e
    case VersionMissing => c.version == ""
    case UnlEmpty => c.unl.None? || |c.unl.value| == 0
    case UnlKeyNotSpecified => KeyError(Keys(c)) == Some(UnlKeyNotSpecified)
    case UnlKeyInvalid => KeyError(Keys(c)) == Some(UnlKeyInvalid)
    case BinPathEmpty => c.binPath == ""
    case ConsensusModeInvalid => !ValidMode(c.consensus.mode)
    case RoundtimeOutOfRange => c.consensus.roundtime < 1 && c.consensus.roundtime > 3600000
    case StageSliceOutOfRange => !(1 <= c.consensus.stageSlice <= 33)
    case ThresholdOutOfRange => !(1 <= c.consensus.threshold <= 100)
    case NplModeInvalid => !ValidMode(c.npl.mode)
    case RoundLimitsInvalid =>
      !(&& c.roundLimits.userInputBytes >= 0 && c.roundLimits.userOutputBytes >= 0
        && c.roundLimits.nplOutputBytes >= 0 && c.roundLimits.procCpuSeconds >= 0
        && c.roundLimits.procMemBytes >= 0 && c.roundLimits.procOfdCount >= 0)
    case MaxInputLedgerOffsetInvalid => c.maxInputLedgerOffset < 0
  }

  /** Each guard has its own position. */
  lemma RankInjective()
    ensures forall a: ConfigError, b: ConfigError :: Rank(a) == Rank(b) ==> a == b
  {
  }

  /** What validation returns agrees with the guards: a thrown error's guard
      fires and no earlier guard does; a pass means no guard fires. */
  lemma ValidateAgreesWithGuards(c: PatchConfigData)
    ensures Validate(c).Fail? ==> Fires(c, Validate(c).error)
    ensures Validate(c).Fail? ==> forall e' :: Rank(e') < Rank(Validate(c).error) ==> !Fires(c, e')
    ensures Validate(c).Pass? ==> forall e :: !Fires(c, e)
  {
        if Validate(c).Fail? {
      var e := Validate(c).error;
      forall e' | Rank(e') < Rank(e) ensures !Fires(c, e') {
        match e' {
          case VersionMissing =>
          case UnlEmpty =>
          case UnlKeyNotSpecified =>
          case UnlKeyInvalid =>
          case BinPathEmpty =>
          case ConsensusModeInvalid =>
          case RoundtimeOutOfRange =>
          case StageSliceOutOfRange =>
          case ThresholdOutOfRange =>
          case NplModeInvalid =>
          case RoundLimitsInvalid =>
          case MaxInputLedgerOffsetInvalid =>
        }
      }
    }
  }

  /** Guards run in the order `validateConfig` runs them and the first that fires
      decides: validation throws `e` exactly when `e`'s guard fires and no earlier guard does. */
  lemma ValidateIsFirstFiring(c: PatchConfigData, e: ConfigError)
    ensures Validate(c) == Fail(e) <==> Fires(c, e) && forall e' :: Rank(e') < Rank(e) ==> !Fires(c, e')
  {
    ValidateAgreesWithGuards(c);
    RankInjective();
  }

  /** The roundtime guard never fires, so no roundtime is ever rejected: changing
      `roundtime` alone never changes the verdict. */
  lemma RoundtimeNeverRejected(c: PatchConfigData, roundtime: int)
    ensures Validate(c) != Fail(RoundtimeOutOfRange)
    ensures Validate(c.(consensus := c.consensus.(roundtime := roundtime))) == Validate(c)
  {
        var d := c.(consensus := c.consensus.(roundtime := roundtime));
    assert d.unl == c.unl && d.version == c.version && d.binPath == c.binPath;
    assert d.npl == c.npl && d.roundLimits == c.roundLimits && d.maxInputLedgerOffset == c.maxInputLedgerOffset;
    assert d.consensus.mode == c.consensus.mode && d.consensus.stageSlice == c.consensus.stageSlice;
    assert d.consensus.threshold == c.consensus.threshold;
  }

  /** The patch configuration file. `stored` stands for the bytes of `patch.cfg`
      on disk. */
  class PatchConfig {
    var stored: Bytes

    constructor (stored: Bytes)
      ensures this.stored == stored
    {
      this.stored := stored;
    }

    /** Validates, then writes the formatted JSON of `config` (`stringify`);
        an invalid config throws before anything is written. */
    method UpdateConfig(config: PatchConfigData, stringify: PatchConfigData -> Bytes) returns (r: Outcome<ConfigError>)
      modifies this`stored
      ensures r == Validate(config)
      ensures r.Fail? ==> stored == old(stored)
      ensures r.Pass? ==> stored == stringify(config)
    {
      r := Validate(config);
      if r.Fail? {
        return;
      }
      stored := stringify(config);
    }
  }
}
