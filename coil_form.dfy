/**
 * The coil calculator input form: the catalogue of field descriptors shown
 * for each calculation type, the dimension-pair choice, and the form state
 * (the parameter map and the dimension type) with its two edit handlers and
 * the submitted request body.
 */
module CoilForm {
  import opened Wrappers
  import opened JsText

  // ---------------------------------------------------------------------------
  // Values and field descriptors
  // ---------------------------------------------------------------------------

  /** The parameter names the form knows. */
  datatype ParamName =
    | CalculationType | CoilType | AirInTemperature | AirInHumidity | AirInFlowStandard
    | NoRows | NoTubes | FinPitch | DimensionType
    | FluidType | GlycolType | GlycolPercentageByVolume | FluidTempIn | FluidTempOut | FluidFlow_dm3s
    | NoCircuits | RefrigerantType | EvaporatingTemperature | CondensingTemperature
    | DTSuperheating | GasCircuitsConfiguration
    | OverallDimensionWidth | OverallDimensionHeight | CoilWidth | CoilHeight
    | AutomaticCoilSelection | NumberOfGasCircuits | SteamCoilExecutionType
    | ElectroTinnedAfterManufacturing | CalculationMode | HeaderMaterial

  /**
   * An object key: one of the known parameter names, or any other string
   * (the parameter map also admits arbitrary string keys). KeyOf gives the
   * one key of each property name; the form state holds only such keys.
   */
  datatype Key = Param(name: ParamName) | Other(text: string)

  /** The property name of parameter `p`, as the source spells it. */
  function NameText(p: ParamName): string {
    match p
    case CalculationType => "CalculationType"
    case CoilType => "CoilType"
    case AirInTemperature => "AirInTemperature"
    case AirInHumidity => "AirInHumidity"
    case AirInFlowStandard => "AirInFlowStandard"
    case NoRows => "NoRows"
    case NoTubes => "NoTubes"
    case FinPitch => "FinPitch"
    case DimensionType => "DimensionType"
    case FluidType => "FluidType"
    case GlycolType => "GlycolType"
    case GlycolPercentageByVolume => "GlycolPercentageByVolume"
    case FluidTempIn => "FluidTempIn"
    case FluidTempOut => "FluidTempOut"
    case FluidFlow_dm3s => "FluidFlow_dm3s"
    case NoCircuits => "NoCircuits"
    case RefrigerantType => "RefrigerantType"
    case EvaporatingTemperature => "EvaporatingTemperature"
    case CondensingTemperature => "CondensingTemperature"
    case DTSuperheating => "DTSuperheating"
    case GasCircuitsConfiguration => "GasCircuitsConfiguration"
    case OverallDimensionWidth => "OverallDimensionWidth"
    case OverallDimensionHeight => "OverallDimensionHeight"
    case CoilWidth => "CoilWidth"
    case CoilHeight => "CoilHeight"
    case AutomaticCoilSelection => "AutomaticCoilSelection"
    case NumberOfGasCircuits => "NumberOfGasCircuits"
    case SteamCoilExecutionType => "SteamCoilExecutionType"
    case ElectroTinnedAfterManufacturing => "ElectroTinnedAfterManufacturing"
    case CalculationMode => "CalculationMode"
    case HeaderMaterial => "HeaderMaterial"
  }

  /**
   * The only parameter whose name could be `s`, told apart by the length of
   * `s` and one or two of its letters. KeyOf confirms the guess against the
   * whole name.
   */
  function Recognise(s: string): Option<ParamName> {
    if |s| == 6 then Some(NoRows)
    else if |s| == 7 then Some(NoTubes)
    else if |s| == 8 then if s[0] == 'C' then Some(CoilType) else Some(FinPitch)
    else if |s| == 9 then if s[0] == 'F' then Some(FluidType) else Some(CoilWidth)
    else if |s| == 10 then
      if s[0] == 'G' then Some(GlycolType) else if s[0] == 'N' then Some(NoCircuits) else Some(CoilHeight)
    else if |s| == 11 then Some(FluidTempIn)
    else if |s| == 12 then Some(FluidTempOut)
    else if |s| == 13 then if s[0] == 'A' then Some(AirInHumidity) else Some(DimensionType)
    else if |s| == 14 then
      if s[0] == 'F' then Some(FluidFlow_dm3s) else if s[0] == 'D' then Some(DTSuperheating) else Some(HeaderMaterial)
    else if |s| == 15 then
      if s[0] == 'R' then Some(RefrigerantType) else if s[11] == 'T' then Some(CalculationType) else Some(CalculationMode)
    else if |s| == 16 then Some(AirInTemperature)
    else if |s| == 17 then Some(AirInFlowStandard)
    else if |s| == 19 then Some(NumberOfGasCircuits)
    else if |s| == 21 then if s[0] == 'C' then Some(CondensingTemperature) else Some(OverallDimensionWidth)
    else if |s| == 22 then
      if s[0] == 'E' then Some(EvaporatingTemperature) else if s[0] == 'O' then Some(OverallDimensionHeight)
      else if s[0] == 'A' then Some(AutomaticCoilSelection) else Some(SteamCoilExecutionType)
    else if |s| == 24 then if s[1] == 'l' then Some(GlycolPercentageByVolume) else Some(GasCircuitsConfiguration)
    else if |s| == 31 then Some(ElectroTinnedAfterManufacturing)
    else None
  }

  /** Every parameter's own name is recognised as that parameter. */
  lemma RecogniseName(p: ParamName)
    ensures Recognise(NameText(p)) == Some(p)
  {
    if p.CoilType? || p.NoRows? || p.NoTubes? || p.FinPitch? || p.FluidType? || p.CoilWidth? {
      RecogniseLength6To9(p);
    } else if p.GlycolType? || p.FluidTempIn? || p.FluidTempOut? || p.NoCircuits? || p.CoilHeight? {
      RecogniseLength10To12(p);
    } else if p.AirInHumidity? || p.DimensionType? || p.FluidFlow_dm3s? || p.DTSuperheating? || p.HeaderMaterial? {
      RecogniseLength13To14(p);
    } else if p.CalculationType? || p.AirInTemperature? || p.AirInFlowStandard? || p.RefrigerantType? || p.CalculationMode? {
      RecogniseLength15To17(p);
    } else if p.CondensingTemperature? || p.OverallDimensionWidth? || p.NumberOfGasCircuits? {
      RecogniseLength19To21(p);
    } else if p.EvaporatingTemperature? || p.OverallDimensionHeight? || p.AutomaticCoilSelection? || p.SteamCoilExecutionType? {
      RecogniseLength22To22(p);
    } else {
      RecogniseLength24To31(p);
    }
  }

  // The check of RecogniseName, by the length of the name.

  lemma RecogniseLength6To9(p: ParamName)
    requires p.CoilType? || p.NoRows? || p.NoTubes? || p.FinPitch? || p.FluidType? || p.CoilWidth?
    ensures Recognise(NameText(p)) == Some(p)
  {
  }

  lemma RecogniseLength10To12(p: ParamName)
    requires p.GlycolType? || p.FluidTempIn? || p.FluidTempOut? || p.NoCircuits? || p.CoilHeight?
    ensures Recognise(NameText(p)) == Some(p)
  {
  }

  lemma RecogniseLength13To14(p: ParamName)
    requires p.AirInHumidity? || p.DimensionType? || p.FluidFlow_dm3s? || p.DTSuperheating? || p.HeaderMaterial?
    ensures Recognise(NameText(p)) == Some(p)
  {
  }

  lemma RecogniseLength15To17(p: ParamName)
    requires p.CalculationType? || p.AirInTemperature? || p.AirInFlowStandard? || p.RefrigerantType? || p.CalculationMode?
    ensures Recognise(NameText(p)) == Some(p)
  {
  }

  lemma RecogniseLength19To21(p: ParamName)
    requires p.CondensingTemperature? || p.OverallDimensionWidth? || p.NumberOfGasCircuits?
    ensures Recognise(NameText(p)) == Some(p)
  {
  }

  lemma RecogniseLength22To22(p: ParamName)
    requires p.EvaporatingTemperature? || p.OverallDimensionHeight? || p.AutomaticCoilSelection? || p.SteamCoilExecutionType?
    ensures Recognise(NameText(p)) == Some(p)
  {
  }

  lemma RecogniseLength24To31(p: ParamName)
    requires p.GlycolPercentageByVolume? || p.GasCircuitsConfiguration? || p.ElectroTinnedAfterManufacturing?
    ensures Recognise(NameText(p)) == Some(p)
  {
  }

  /** The property name a key stands for. */
  function KeyName(k: Key): string {
    match k
    case Param(p) => NameText(p)
    case Other(t) => t
  }

  /**
   * A key in its one representation: a name the form knows is always a
   * `Param`, so `Other` holds only names the form does not know.
   */
  predicate Canonical(k: Key) {
    k.Other? ==> forall p :: NameText(p) != k.text
  }

  /** The key of the property named `name`: `obj[name]` in the source. */
  function KeyOf(name: string): (k: Key)
    ensures KeyName(k) == name
    ensures Canonical(k)
  {
    var guess := Recognise(name);
    assert forall p :: Recognise(NameText(p)) == Some(p) by {
      forall p ensures Recognise(NameText(p)) == Some(p) {
        RecogniseName(p);
      }
    }
    if guess.Some? && NameText(guess.value) == name then Param(guess.value) else Other(name)
  }

  /** A canonical key is the key of its own name, so two canonical keys with one name are one key. */
  lemma KeyOfKeyName(k: Key)
    requires Canonical(k)
    ensures KeyOf(KeyName(k)) == k
  {
    if k.Param? {
      RecogniseName(k.name);
    }
  }

  /** A parameter value: a JavaScript number (whole numbers here) or a string. */
  datatype Value = Num(n: int) | Text(s: string)

  /** The three kinds of form field. */
  datatype FieldType = NumberInput | Select | Dimension

  /** One field descriptor; `options` maps option codes to their captions. */
  datatype FieldConfig = FieldConfig(
    key: Key,
    caption: string,
    required: bool,
    fieldType: FieldType,
    options: Option<map<string, string>>)

  /**
   * A JavaScript object literal with string keys that are not array indices:
   * its entries in insertion order.
   */
  type Record = seq<(Key, FieldConfig)>

  function Keys(r: Record): (ks: seq<Key>)
    ensures |ks| == |r|
    ensures forall i :: 0 <= i < |r| ==> ks[i] == r[i].0
  {
    if r == [] then [] else [r[0].0] + Keys(r[1..])
  }

  /** `k in obj`. */
  predicate HasKey(r: Record, k: Key) {
    r != [] && (r[0].0 == k || HasKey(r[1..], k))
  }

  /** No key occurs twice. */
  predicate DistinctKeys(r: Record) {
    r == [] || (!HasKey(r[1..], r[0].0) && DistinctKeys(r[1..]))
  }

  ghost predicate Disjoint(r: Record, s: Record) {
    forall k :: HasKey(s, k) ==> !HasKey(r, k)
  }

  lemma {:induction false} HasKeyAppend(r: Record, s: Record, k: Key)
    ensures HasKey(r + s, k) <==> HasKey(r, k) || HasKey(s, k)
  {
    if r != [] {
      assert (r + s)[0] == r[0];
      assert (r + s)[1..] == r[1..] + s;
      HasKeyAppend(r[1..], s, k);
    } else {
      assert r + s == s;
    }
  }

  /** The value stored under `k`, if any. */
  function Lookup(r: Record, k: Key): (v: Option<FieldConfig>)
    ensures v.Some? <==> HasKey(r, k)
  {
    if r == [] then None else if r[0].0 == k then Some(r[0].1) else Lookup(r[1..], k)
  }

  /**
   * Property assignment `obj[k] = v`: an existing key keeps its position and
   * takes the new value, a new key is appended.
   */
  function Put(r: Record, k: Key, v: FieldConfig): (r': Record)
    ensures HasKey(r, k) ==> Keys(r') == Keys(r)
    ensures !HasKey(r, k) ==> r' == r + [(k, v)]
    ensures Lookup(r', k) == Some(v)
    ensures forall k' :: k' != k ==> Lookup(r', k') == Lookup(r, k')
    ensures forall k' :: HasKey(r', k') <==> HasKey(r, k') || k' == k
  {
    if r == [] then [(k, v)]
    else if r[0].0 == k then [(k, v)] + r[1..]
    else [r[0]] + Put(r[1..], k, v)
  }

  /** Object spread `{...r, ...s}`: the entries of `s` assigned one by one onto `r`. */
  function Spread(r: Record, s: Record): (t: Record)
    ensures forall k :: HasKey(t, k) <==> HasKey(r, k) || HasKey(s, k)
    decreases |s|
  {
    if s == [] then r else Spread(Put(r, s[0].0, s[0].1), s[1..])
  }

  /** With keys disjoint from `r` and distinct among themselves, spreading `s` appends it. */
  lemma {:induction false} SpreadDisjoint(r: Record, s: Record)
    requires DistinctKeys(s) && Disjoint(r, s)
    ensures Spread(r, s) == r + s
    decreases |s|
  {
    if s != [] {
      assert Spread(r, s) == Spread(r + [s[0]], s[1..]) by { SpreadNewKey(r, s); }
      assert Spread(r + [s[0]], s[1..]) == (r + [s[0]]) + s[1..] by {
        DisjointShift(r, s);
        SpreadDisjoint(r + [s[0]], s[1..]);
      }
      assert (r + [s[0]]) + s[1..] == r + s by { AppendHead(r, s); }
    }
  }

  lemma AppendHead(r: Record, s: Record)
    requires s != []
    ensures (r + [s[0]]) + s[1..] == r + s
  {
    assert [s[0]] + s[1..] == s;
  }

  lemma SpreadNewKey(r: Record, s: Record)
    requires s != [] && !HasKey(r, s[0].0)
    ensures Spread(r, s) == Spread(r + [s[0]], s[1..])
  {
    assert Put(r, s[0].0, s[0].1) == r + [s[0]];
  }

  lemma DisjointShift(r: Record, s: Record)
    requires s != [] && DistinctKeys(s) && Disjoint(r, s)
    ensures Disjoint(r + [s[0]], s[1..])
  {
    forall k | HasKey(s[1..], k) ensures !HasKey(r + [s[0]], k) {
      HasKeyAppend(r, [s[0]], k);
    }
  }

  /** Later entries of a spread win: the value under a key of `s` is the one in `s`. */
  lemma {:induction false} SpreadLookup(r: Record, s: Record, k: Key)
    requires DistinctKeys(s)
    ensures Lookup(Spread(r, s), k) == if HasKey(s, k) then Lookup(s, k) else Lookup(r, k)
    decreases |s|
  {
    if s != [] {
      SpreadLookup(Put(r, s[0].0, s[0].1), s[1..], k);
    }
  }

  // ---------------------------------------------------------------------------
  // The field catalogue
  // ---------------------------------------------------------------------------

  /** The kind of field the form declares for parameter `p`; None when it declares none. */
  function Kind(p: ParamName): (t: Option<FieldType>)
    ensures t == Some(Dimension) <==> p == DimensionType
  {
    match p
    case CalculationType | CoilType | FluidType | RefrigerantType => Some(Select)
    case DimensionType => Some(Dimension)
    case AirInTemperature | AirInHumidity | AirInFlowStandard | NoRows | NoTubes | FinPitch
      | GlycolPercentageByVolume | FluidTempIn | FluidTempOut | FluidFlow_dm3s | NoCircuits
      | EvaporatingTemperature | CondensingTemperature | DTSuperheating | GasCircuitsConfiguration
      => Some(NumberInput)
    case _ => None
  }

  /** The caption of the field for `p` (the text "dmÂ³/s" is kept as written). */
  function Caption(p: ParamName): (c: string)
    ensures Kind(p).Some? ==> c != []
  {
    match p
    case CalculationType => "Calculation Type"
    case CoilType => "Coil Type"
    case AirInTemperature => "Air Inlet Temperature"
    case AirInHumidity => "Air Inlet Humidity"
    case AirInFlowStandard => "Air Flow"
    case NoRows => "Number of Rows"
    case NoTubes => "Number of Tubes"
    case FinPitch => "Fin Pitch"
    case DimensionType => "Dimensions"
    case FluidType => "Fluid Type"
    case GlycolPercentageByVolume => "Glycol Percentage"
    case FluidTempIn => "Fluid Temperature In"
    case FluidTempOut => "Fluid Temperature Out"
    case FluidFlow_dm3s => "Fluid Flow (dm\U{00C2}\U{00B3}/s)"
    case NoCircuits => "Number of Circuits"
    case RefrigerantType => "Refrigerant Type"
    case EvaporatingTemperature => "Evaporating Temperature"
    case CondensingTemperature => "Condensing Temperature"
    case DTSuperheating => "DT Superheating"
    case GasCircuitsConfiguration => "Gas Circuits Configuration"
    case _ => ""
  }

  /** The option catalogue of a select field, from option code to caption. */
  function Options(p: ParamName): (o: Option<map<string, string>>)
    ensures o.Some? <==> Kind(p) == Some(Select)
  {
    match p
    case CalculationType => Some(map["1" := "Monophase", "2" := "Direct Expansion", "3" := "Condenser"])
    case CoilType => Some(map["94" := "P40", "113" := "P25", "2" := "P3012"])
    case FluidType => Some(map["1" := "Water", "2" := "Ethylenic Glycol", "3" := "Propylenic Glycol"])
    case RefrigerantType => Some(map["R410" := "R410", "R32" := "R32", "R22" := "R22", "R134A" := "R134A"])
    case _ => None
  }

  /**
   * The descriptor the form declares under key `k`, if it declares one.
   * NoCircuits is declared in both calculation-type branches with the same
   * descriptor, so one descriptor per key describes both.
   */
  function Descriptor(k: Key): (d: Option<FieldConfig>)
    ensures d.Some? <==> k.Param? && Kind(k.name).Some?
    ensures d.Some? ==> d.value.key == k && d.value.required && d.value.fieldType == Kind(k.name).value
    ensures d.Some? ==> d.value.caption == Caption(k.name) && d.value.options == Options(k.name)
  {
    match k
    case Other(_) => None
    case Param(p) =>
      if Kind(p).None? then None else Some(FieldConfig(k, Caption(p), true, Kind(p).value, Options(p)))
  }

  /** Every declared descriptor carries its own key, is required, and has options when it is a select. */
  lemma DescriptorShape(k: Key)
    requires Descriptor(k).Some?
    ensures Descriptor(k).value.key == k
    ensures Descriptor(k).value.required
    ensures Descriptor(k).value.fieldType == Select ==> Descriptor(k).value.options.Some?
    ensures Descriptor(k).value.fieldType == Dimension <==> k == Param(DimensionType)
  {
  }

  /** Keys that all have a declared descriptor. */
  predicate Declared(ks: seq<Key>) {
    forall i :: 0 <= i < |ks| ==> ks[i].Param? && Kind(ks[i].name).Some?
  }

  /** The object literal listing the keys `ks` with their descriptors, in that order. */
  function Entries(ks: seq<Key>): (r: Record)
    requires Declared(ks)
    ensures Keys(r) == ks
    ensures forall i :: 0 <= i < |ks| ==> Descriptor(ks[i]) == Some(r[i].1)
  {
    if ks == [] then [] else [(ks[0], Descriptor(ks[0]).value)] + Entries(ks[1..])
  }

  /** The fields shown for every calculation type, in order. */
  const CommonKeys: seq<Key> := [Param(CalculationType), Param(CoilType), Param(AirInTemperature),
    Param(AirInHumidity), Param(AirInFlowStandard), Param(NoRows), Param(NoTubes), Param(FinPitch),
    Param(DimensionType)]
  /** The fluid fields added for Monophase. */
  const MonophaseKeys: seq<Key> := [Param(FluidType), Param(GlycolPercentageByVolume), Param(FluidTempIn),
    Param(FluidTempOut), Param(FluidFlow_dm3s), Param(NoCircuits)]
  /** The refrigerant fields added for Direct Expansion and Condenser. */
  const RefrigerantKeys: seq<Key> := [Param(RefrigerantType), Param(EvaporatingTemperature),
    Param(CondensingTemperature), Param(NoCircuits), Param(DTSuperheating), Param(GasCircuitsConfiguration)]

  function Common(): Record { CatalogueDeclared(); Entries(CommonKeys) }
  function Monophase(): Record { CatalogueDeclared(); Entries(MonophaseKeys) }
  function Refrigerant(): Record { CatalogueDeclared(); Entries(RefrigerantKeys) }

  /**
   * The fields shown for the calculation type `calculationType`, the text of
   * the current CalculationType value.
   */
  function Resolve(calculationType: string): (r: Record)
    ensures calculationType == "1" ==> r == Common() + Monophase()
    ensures calculationType == "2" || calculationType == "3" ==> r == Common() + Refrigerant()
    ensures calculationType != "1" && calculationType != "2" && calculationType != "3" ==> r == Common()
  {
    assert "1" != "2" && "1" != "3";
    if calculationType == "1" then
      FluidSpread();
      Spread(Common(), Monophase())
    else if calculationType == "2" || calculationType == "3" then
      RefrigerantSpread();
      Spread(Common(), Refrigerant())
    else Common()
  }

  /** A record whose entries describe the fields of the form consistently. */
  predicate WellFormed(r: Record) {
    DistinctKeys(r)
    && HasKey(r, Param(DimensionType))
    && forall i :: 0 <= i < |r| ==>
         r[i].0 == r[i].1.key
         && r[i].1.required
         && (r[i].1.fieldType == Select ==> r[i].1.options.Some?)
         && (r[i].1.fieldType == Dimension <==> r[i].0 == Param(DimensionType))
  }

  function DimensionCount(r: Record): nat {
    if r == [] then 0 else (if r[0].1.fieldType == Dimension then 1 else 0) + DimensionCount(r[1..])
  }

  /** A well-formed record has exactly one dimension entry. */
  lemma OneDimensionEntry(r: Record)
    requires WellFormed(r)
    ensures DimensionCount(r) == 1
  {
    DimensionCountByKey(r);
  }

  lemma {:induction false} DimensionCountByKey(r: Record)
    requires DistinctKeys(r)
    requires forall i :: 0 <= i < |r| ==> (r[i].1.fieldType == Dimension <==> r[i].0 == Param(DimensionType))
    ensures DimensionCount(r) == if HasKey(r, Param(DimensionType)) then 1 else 0
  {
    if r != [] {
      forall i | 0 <= i < |r[1..]|
        ensures r[1..][i].1.fieldType == Dimension <==> r[1..][i].0 == Param(DimensionType)
      {
        assert r[1..][i] == r[i + 1];
      }
      DimensionCountByKey(r[1..]);
    }
  }

  // ---------------------------------------------------------------------------
  // Object literals built from distinct declared keys
  // ---------------------------------------------------------------------------

  predicate Distinct(ks: seq<Key>) {
    forall i, j :: 0 <= i < j < |ks| ==> ks[i] != ks[j]
  }

  lemma {:induction false} EntriesHasKey(ks: seq<Key>, k: Key)
    requires Declared(ks)
    ensures HasKey(Entries(ks), k) <==> k in ks
  {
    if ks != [] {
      var r := Entries(ks);
      assert r[0].0 == ks[0];
      assert r[1..] == Entries(ks[1..]);
      EntriesHasKey(ks[1..], k);
      assert ks == [ks[0]] + ks[1..];
    }
  }

  lemma {:induction false} EntriesDistinct(ks: seq<Key>)
    requires Declared(ks) && Distinct(ks)
    ensures DistinctKeys(Entries(ks))
  {
    if ks != [] {
      var r := Entries(ks);
      assert r[1..] == Entries(ks[1..]);
      assert Distinct(ks[1..]) by {
        forall i, j | 0 <= i < j < |ks[1..]| ensures ks[1..][i] != ks[1..][j] {
          assert ks[1..][i] == ks[i + 1] && ks[1..][j] == ks[j + 1];
        }
      }
      assert ks[0] !in ks[1..] by {
        forall i | 0 <= i < |ks[1..]| ensures ks[1..][i] != ks[0] {
          assert ks[1..][i] == ks[i + 1];
        }
      }
      EntriesHasKey(ks[1..], ks[0]);
      EntriesDistinct(ks[1..]);
    }
  }

  lemma {:induction false} EntriesAppend(a: seq<Key>, b: seq<Key>)
    requires Declared(a) && Declared(b)
    ensures Declared(a + b)
    ensures Entries(a + b) == Entries(a) + Entries(b)
  {
    assert Declared(a + b) by {
      forall i | 0 <= i < |a + b| ensures (a + b)[i].Param? && Kind((a + b)[i].name).Some? {
        if i < |a| { assert (a + b)[i] == a[i]; } else { assert (a + b)[i] == b[i - |a|]; }
      }
    }
    var r, t := Entries(a + b), Entries(a) + Entries(b);
    assert |r| == |t|;
    forall i | 0 <= i < |r| ensures r[i] == t[i] {
      if i < |a| {
        assert (a + b)[i] == a[i];
        assert t[i] == Entries(a)[i];
      } else {
        assert (a + b)[i] == b[i - |a|];
        assert t[i] == Entries(b)[i - |a|];
      }
    }
  }

  /** The entries of distinct declared keys, DimensionType among them, form a well-formed record. */
  lemma EntriesWellFormed(ks: seq<Key>)
    requires Declared(ks) && Distinct(ks) && Param(DimensionType) in ks
    ensures WellFormed(Entries(ks))
  {
    var r := Entries(ks);
    EntriesDistinct(ks);
    EntriesHasKey(ks, Param(DimensionType));
    forall i | 0 <= i < |r|
      ensures r[i].0 == r[i].1.key && r[i].1.required
      ensures r[i].1.fieldType == Select ==> r[i].1.options.Some?
      ensures r[i].1.fieldType == Dimension <==> r[i].0 == Param(DimensionType)
    {
      DescriptorShape(ks[i]);
    }
  }

  // ---------------------------------------------------------------------------
  // What each calculation type shows
  // ---------------------------------------------------------------------------

  lemma CatalogueDeclared()
    ensures Declared(CommonKeys) && Declared(MonophaseKeys) && Declared(RefrigerantKeys)
  {
  }

  lemma CommonKeysDistinct()
    ensures Distinct(CommonKeys)
  {
  }

  lemma FluidKeysDistinct()
    ensures Distinct(CommonKeys + MonophaseKeys)
  {
  }

  lemma RefrigerantKeysDistinct()
    ensures Distinct(CommonKeys + RefrigerantKeys)
  {
  }

  lemma {:induction false} KeysAppend(r: Record, s: Record)
    ensures Keys(r + s) == Keys(r) + Keys(s)
  {
    assert |Keys(r + s)| == |Keys(r) + Keys(s)|;
    forall i | 0 <= i < |r + s| ensures Keys(r + s)[i] == (Keys(r) + Keys(s))[i] {
      if i < |r| { assert (r + s)[i] == r[i]; } else { assert (r + s)[i] == s[i - |r|]; }
    }
  }

  /** Spreading the entries of fresh keys onto a record of entries appends them. */
  lemma SpreadEntries(c: seq<Key>, ext: seq<Key>)
    requires Declared(c) && Declared(ext) && Distinct(c + ext)
    ensures Spread(Entries(c), Entries(ext)) == Entries(c) + Entries(ext)
  {
    DistinctSuffix(c, ext);
    EntriesDistinct(ext);
    forall k | HasKey(Entries(ext), k) ensures !HasKey(Entries(c), k) {
      EntriesHasKey(ext, k);
      EntriesHasKey(c, k);
      DistinctParts(c, ext, k);
    }
    SpreadDisjoint(Entries(c), Entries(ext));
  }

  lemma DistinctSuffix(c: seq<Key>, ext: seq<Key>)
    requires Distinct(c + ext)
    ensures Distinct(ext)
  {
    forall i, j | 0 <= i < j < |ext| ensures ext[i] != ext[j] {
      assert (c + ext)[|c| + i] == ext[i];
      assert (c + ext)[|c| + j] == ext[j];
    }
  }

  lemma DistinctParts(c: seq<Key>, ext: seq<Key>, k: Key)
    requires Distinct(c + ext) && k in ext
    ensures k !in c
  {
    var j :| 0 <= j < |ext| && ext[j] == k;
    forall i | 0 <= i < |c| ensures c[i] != k {
      assert (c + ext)[i] == c[i];
      assert (c + ext)[|c| + j] == k;
    }
  }

  /** The keys a calculation type adds after the common prefix. */
  function Extension(calculationType: string): seq<Key> {
    if calculationType == "1" then MonophaseKeys
    else if calculationType == "2" || calculationType == "3" then RefrigerantKeys
    else []
  }

  lemma FluidSpread()
    ensures Spread(Common(), Monophase()) == Common() + Monophase()
  {
    CatalogueDeclared();
    FluidKeysDistinct();
    SpreadEntries(CommonKeys, MonophaseKeys);
  }

  lemma RefrigerantSpread()
    ensures Spread(Common(), Refrigerant()) == Common() + Refrigerant()
  {
    CatalogueDeclared();
    RefrigerantKeysDistinct();
    SpreadEntries(CommonKeys, RefrigerantKeys);
  }

  lemma ResolveEntries(calculationType: string)
    ensures Declared(CommonKeys + Extension(calculationType))
    ensures Distinct(CommonKeys + Extension(calculationType))
    ensures Resolve(calculationType) == Entries(CommonKeys + Extension(calculationType))
  {
    if calculationType == "1" {
      FluidEntries(calculationType);
    } else if calculationType == "2" || calculationType == "3" {
      RefrigerantEntries(calculationType);
    } else {
      CommonEntries(calculationType);
    }
  }

  lemma FluidEntries(calculationType: string)
    requires calculationType == "1"
    ensures Declared(CommonKeys + Extension(calculationType))
    ensures Distinct(CommonKeys + Extension(calculationType))
    ensures Resolve(calculationType) == Entries(CommonKeys + Extension(calculationType))
  {
    assert Extension(calculationType) == MonophaseKeys;
    CatalogueDeclared();
    EntriesAppend(CommonKeys, MonophaseKeys);
    FluidKeysDistinct();
  }

  lemma RefrigerantEntries(calculationType: string)
    requires calculationType == "2" || calculationType == "3"
    ensures Declared(CommonKeys + Extension(calculationType))
    ensures Distinct(CommonKeys + Extension(calculationType))
    ensures Resolve(calculationType) == Entries(CommonKeys + Extension(calculationType))
  {
    assert Extension(calculationType) == RefrigerantKeys;
    CatalogueDeclared();
    EntriesAppend(CommonKeys, RefrigerantKeys);
    RefrigerantKeysDistinct();
  }

  lemma CommonEntries(calculationType: string)
    requires calculationType != "1" && calculationType != "2" && calculationType != "3"
    ensures Declared(CommonKeys + Extension(calculationType))
    ensures Distinct(CommonKeys + Extension(calculationType))
    ensures Resolve(calculationType) == Entries(CommonKeys + Extension(calculationType))
  {
    assert Extension(calculationType) == [];
    assert CommonKeys + [] == CommonKeys;
    CatalogueDeclared();
    CommonKeysDistinct();
  }

  /** Every entry carries the descriptor declared for its key. */
  predicate Described(r: Record) {
    forall i :: 0 <= i < |r| ==> Descriptor(r[i].0) == Some(r[i].1)
  }

  lemma DescribedAppend(r: Record, s: Record)
    requires Described(r) && Described(s)
    ensures Described(r + s)
  {
    forall i | 0 <= i < |r + s| ensures Descriptor((r + s)[i].0) == Some((r + s)[i].1) {
      if i < |r| { assert (r + s)[i] == r[i]; } else { assert (r + s)[i] == s[i - |r|]; }
    }
  }

  lemma CatalogueDescribed()
    ensures Described(Common()) && Described(Monophase()) && Described(Refrigerant())
    ensures Keys(Common()) == CommonKeys
    ensures Keys(Monophase()) == MonophaseKeys
    ensures Keys(Refrigerant()) == RefrigerantKeys
  {
    CatalogueDeclared();
  }

  /**
   * Every calculation type shows the nine common fields first; "1" adds the
   * fluid fields, "2" and "3" the refrigerant fields, anything else nothing.
   * Each entry carries the descriptor declared for its key.
   */
  lemma ResolveCases(calculationType: string)
    ensures calculationType == "1" ==> Keys(Resolve(calculationType)) == CommonKeys + MonophaseKeys
    ensures calculationType == "2" || calculationType == "3" ==>
      Keys(Resolve(calculationType)) == CommonKeys + RefrigerantKeys
    ensures calculationType != "1" && calculationType != "2" && calculationType != "3" ==>
      Keys(Resolve(calculationType)) == CommonKeys
    ensures Described(Resolve(calculationType))
  {
    CatalogueDescribed();
    if calculationType == "1" {
      KeysAppend(Common(), Monophase());
      DescribedAppend(Common(), Monophase());
    } else if calculationType == "2" || calculationType == "3" {
      KeysAppend(Common(), Refrigerant());
      DescribedAppend(Common(), Refrigerant());
    }
  }

  /** Whatever the calculation type, the common fields come first. */
  lemma ResolveStartsWithCommon(calculationType: string)
    ensures CommonKeys <= Keys(Resolve(calculationType))
  {
    ResolveEntries(calculationType);
    CommonKeysFirst(Extension(calculationType));
  }

  lemma CommonKeysFirst(ext: seq<Key>)
    ensures CommonKeys <= CommonKeys + ext
    ensures Param(DimensionType) in CommonKeys + ext
  {
    assert (CommonKeys + ext)[..|CommonKeys|] == CommonKeys;
    assert (CommonKeys + ext)[8] == Param(DimensionType);
  }

  /** Every resolved field list is well formed and has exactly one dimension entry. */
  lemma ResolveWellFormed(calculationType: string)
    ensures WellFormed(Resolve(calculationType))
    ensures DimensionCount(Resolve(calculationType)) == 1
  {
    ResolveEntries(calculationType);
    var ks := CommonKeys + Extension(calculationType);
    CommonKeysFirst(Extension(calculationType));
    EntriesWellFormed(ks);
    OneDimensionEntry(Resolve(calculationType));
  }

  /** NoCircuits is the one key the fluid and refrigerant extensions have in common. */
  lemma ExtensionsShareOnlyNoCircuits(k: Key)
    ensures (k in MonophaseKeys && k in RefrigerantKeys) <==> k == Param(NoCircuits)
  {
  }

  lemma {:induction false} DescribedHasKey(r: Record, k: Key)
    requires Described(r) && HasKey(r, k)
    ensures Descriptor(k).Some?
  {
    if r[0].0 != k {
      assert Described(r[1..]) by {
        forall i | 0 <= i < |r[1..]| ensures Descriptor(r[1..][i].0) == Some(r[1..][i].1) {
          assert r[1..][i] == r[i + 1];
        }
      }
      DescribedHasKey(r[1..], k);
    }
  }

  /**
   * A parameter without a descriptor (GlycolType, the dimension values, the
   * calculation switches) never gets a field of its own, whatever the
   * calculation type.
   */
  lemma UndeclaredNeverShown(calculationType: string, k: Key)
    requires Descriptor(k).None?
    ensures !HasKey(Resolve(calculationType), k)
  {
    ResolveCases(calculationType);
    if HasKey(Resolve(calculationType), k) {
      DescribedHasKey(Resolve(calculationType), k);
    }
  }

  // ---------------------------------------------------------------------------
  // Parameter values and the calculation type
  // ---------------------------------------------------------------------------

  /** `String(v)`. */
  function ValueText(v: Value): (s: string)
    ensures v.Text? ==> s == v.s
  {
    match v
    case Num(n) => IntToString(n)
    case Text(t) => t
  }

  /**
   * `String(params.CalculationType)`; a missing key reads as "undefined". A
   * number reads as one of the codes "1", "2", "3" exactly when it is that
   * number.
   */
  function ModeText(params: map<Key, Value>): (s: string)
    ensures Param(CalculationType) !in params ==> s == "undefined"
    ensures Param(CalculationType) in params && params[Param(CalculationType)].Text? ==>
      s == params[Param(CalculationType)].s
    ensures Param(CalculationType) in params && params[Param(CalculationType)].Num? ==>
      var n := params[Param(CalculationType)].n;
      (s == "1" <==> n == 1) && (s == "2" <==> n == 2) && (s == "3" <==> n == 3)
  {
    if Param(CalculationType) in params then
      var v := params[Param(CalculationType)];
      assert IntToString(1) == "1" && IntToString(2) == "2" && IntToString(3) == "3";
      if v.Num? then
        IntToStringInjective(v.n, 1);
        IntToStringInjective(v.n, 2);
        IntToStringInjective(v.n, 3);
        ValueText(v)
      else ValueText(v)
    else "undefined"
  }

  /**
   * A numeric calculation type picks its fields by its value, exactly as its
   * decimal text would: 1 the fluid fields, 2 and 3 the refrigerant fields,
   * any other number none.
   */
  lemma NumericCalculationType(n: int)
    ensures n == 1 ==> Keys(Resolve(ValueText(Num(n)))) == CommonKeys + MonophaseKeys
    ensures n == 2 || n == 3 ==> Keys(Resolve(ValueText(Num(n)))) == CommonKeys + RefrigerantKeys
    ensures n != 1 && n != 2 && n != 3 ==> Keys(Resolve(ValueText(Num(n)))) == CommonKeys
  {
    assert IntToString(1) == "1" && IntToString(2) == "2" && IntToString(3) == "3";
    IntToStringInjective(n, 1);
    IntToStringInjective(n, 2);
    IntToStringInjective(n, 3);
    ResolveCases(ValueText(Num(n)));
  }

  // ---------------------------------------------------------------------------
  // Dimension fields
  // ---------------------------------------------------------------------------

  /** The four dimension parameters. */
  const DimensionKeys: set<Key> :=
    {Param(CoilWidth), Param(CoilHeight), Param(OverallDimensionWidth), Param(OverallDimensionHeight)}

  /** The width and height inputs the dimension group shows, and the prefix of their captions. */
  datatype DimensionFields = DimensionFields(widthKey: Key, heightKey: Key, labelPrefix: string)

  /**
   * The pair chosen by the dimension type: the coil pair for
   * "CoilDimensions", the overall pair for any other value.
   */
  function SelectDimensionFields(dimensionType: string): (d: DimensionFields)
    ensures d.widthKey in DimensionKeys && d.heightKey in DimensionKeys && d.widthKey != d.heightKey
    ensures d.widthKey == Param(CoilWidth) <==> dimensionType == "CoilDimensions"
    ensures d.heightKey == Param(CoilHeight) <==> dimensionType == "CoilDimensions"
    ensures d.widthKey == Param(OverallDimensionWidth) <==> dimensionType != "CoilDimensions"
    ensures d.heightKey == Param(OverallDimensionHeight) <==> dimensionType != "CoilDimensions"
    ensures d.labelPrefix == if dimensionType == "CoilDimensions" then "Coil" else "Overall"
  {
    var isCoilDimensions := dimensionType == "CoilDimensions";
    DimensionFields(
      if isCoilDimensions then Param(CoilWidth) else Param(OverallDimensionWidth),
      if isCoilDimensions then Param(CoilHeight) else Param(OverallDimensionHeight),
      if isCoilDimensions then "Coil" else "Overall")
  }

  /** The caption of the width input. */
  function WidthCaption(d: DimensionFields): string { d.labelPrefix + " Width (mm)" }

  /** The caption of the height input. */
  function HeightCaption(d: DimensionFields): string { d.labelPrefix + " Height (mm)" }

  /** The coil pair is captioned "Coil …" and the overall pair "Overall …". */
  lemma DimensionCaptions(dimensionType: string)
    ensures var d := SelectDimensionFields(dimensionType);
      if dimensionType == "CoilDimensions" then
        WidthCaption(d) == "Coil Width (mm)" && HeightCaption(d) == "Coil Height (mm)"
      else
        WidthCaption(d) == "Overall Width (mm)" && HeightCaption(d) == "Overall Height (mm)"
  {
    var d := SelectDimensionFields(dimensionType);
    if dimensionType == "CoilDimensions" {
      assert d.labelPrefix == "Coil";
      assert WidthCaption(d) == "Coil" + " Width (mm)";
      assert HeightCaption(d) == "Coil" + " Height (mm)";
    } else {
      assert d.labelPrefix == "Overall";
      assert WidthCaption(d) == "Overall" + " Width (mm)";
      assert HeightCaption(d) == "Overall" + " Height (mm)";
    }
  }

  /** Switching the dimension type sets all four dimension parameters to 0. */
  function ResetDimensions(params: map<Key, Value>): (r: map<Key, Value>)
    ensures r.Keys == params.Keys + DimensionKeys
    ensures forall k :: k in DimensionKeys ==> r[k] == Num(0)
    ensures forall k :: k in params && k !in DimensionKeys ==> r[k] == params[k]
  {
    params[Param(CoilWidth) := Num(0)][Param(CoilHeight) := Num(0)]
      [Param(OverallDimensionWidth) := Num(0)][Param(OverallDimensionHeight) := Num(0)]
  }

  /** Switching twice leaves the parameters as switching once. */
  lemma ResetIdempotent(params: map<Key, Value>)
    ensures ResetDimensions(ResetDimensions(params)) == ResetDimensions(params)
  {
    var once := ResetDimensions(params);
    assert ResetDimensions(once).Keys == once.Keys;
    forall k | k in once ensures ResetDimensions(once)[k] == once[k] {
      if k in DimensionKeys { } else { }
    }
  }

  /** After a switch nothing of the earlier dimension values is left. */
  lemma ResetForgetsDimensions(p: map<Key, Value>, q: map<Key, Value>)
    requires forall k :: k !in DimensionKeys ==> (k in p <==> k in q)
    requires forall k :: k in p && k !in DimensionKeys ==> p[k] == q[k]
    ensures ResetDimensions(p) == ResetDimensions(q)
  {
    var rp, rq := ResetDimensions(p), ResetDimensions(q);
    assert rp.Keys == rq.Keys;
    forall k | k in rp ensures rp[k] == rq[k] {
      if k in DimensionKeys { } else { }
    }
  }

  // ---------------------------------------------------------------------------
  // Defaults, edits and the request body
  // ---------------------------------------------------------------------------

  /** The 23 parameters of the declared parameter shape. */
  const CoilParamKeys: set<Key> := {Param(CoilType), Param(AirInTemperature), Param(AirInHumidity),
    Param(AirInFlowStandard), Param(NoRows), Param(NoTubes), Param(FinPitch), Param(FluidType),
    Param(GlycolType), Param(GlycolPercentageByVolume), Param(FluidTempIn), Param(FluidTempOut),
    Param(FluidFlow_dm3s), Param(NoCircuits), Param(OverallDimensionWidth), Param(OverallDimensionHeight),
    Param(AutomaticCoilSelection), Param(NumberOfGasCircuits), Param(SteamCoilExecutionType),
    Param(ElectroTinnedAfterManufacturing), Param(CalculationMode), Param(HeaderMaterial),
    Param(CalculationType)}

  /** The number each declared parameter starts with. */
  function DefaultNumber(p: ParamName): int {
    match p
    case CoilType => 2
    case AirInTemperature => 26
    case AirInHumidity => 50
    case AirInFlowStandard => 25000
    case NoRows => 3
    case NoTubes => 30
    case FinPitch => 2
    case FluidType => 1
    case GlycolType => 1
    case GlycolPercentageByVolume => 0
    case FluidTempIn => 8
    case FluidTempOut => 18
    case FluidFlow_dm3s => 12
    case NoCircuits => 9
    case OverallDimensionWidth => 947
    case OverallDimensionHeight => 444
    case AutomaticCoilSelection => 0
    case NumberOfGasCircuits => 0
    case SteamCoilExecutionType => 0
    case ElectroTinnedAfterManufacturing => 0
    case CalculationMode => 0
    case HeaderMaterial => 1
    case CalculationType => 1
    case _ => 0
  }

  /** The parameters the form starts with: every declared parameter, as its default number. */
  function DefaultParams(): (p: map<Key, Value>)
    ensures p.Keys == CoilParamKeys
    ensures forall k :: k in p ==> p[k] == Num(DefaultNumber(k.name))
  {
    map k | k in CoilParamKeys :: Num(DefaultNumber(k.name))
  }

  /** The defaults define exactly the declared parameters, all as numbers, and select Monophase. */
  lemma DefaultsShape()
    ensures ModeText(DefaultParams()) == "1"
    ensures forall k :: k in DefaultParams() ==> DefaultParams()[k].Num?
  {
    assert IntToString(1) == "1";
  }

  /** In the starting state every shown field except the dimension group has a value. */
  lemma DefaultFieldsHaveValues(k: Key)
    requires HasKey(Resolve(ModeText(DefaultParams())), k) && k != Param(DimensionType)
    ensures k in DefaultParams()
  {
    DefaultsShape();
    ResolveEntries("1");
    EntriesHasKey(CommonKeys + MonophaseKeys, k);
    if k in CommonKeys {
      CommonKeysDefaulted(k);
    } else {
      MonophaseKeysDefaulted(k);
    }
  }

  lemma CommonKeysDefaulted(k: Key)
    requires k in CommonKeys && k != Param(DimensionType)
    ensures k in CoilParamKeys
  {
  }

  lemma MonophaseKeysDefaulted(k: Key)
    requires k in MonophaseKeys
    ensures k in CoilParamKeys
  {
  }

  /**
   * Of the refrigerant fields only NoCircuits has a default: the others are
   * absent from the parameters until they are edited.
   */
  lemma RefrigerantFieldsWithoutDefaults(k: Key)
    requires k in RefrigerantKeys && k != Param(NoCircuits)
    ensures k !in DefaultParams()
  {
  }

  /** GlycolType starts with a value and is submitted, but no calculation type shows it. */
  lemma GlycolTypeHidden(calculationType: string)
    ensures Param(GlycolType) in DefaultParams()
    ensures !HasKey(Resolve(calculationType), Param(GlycolType))
  {
    UndeclaredNeverShown(calculationType, Param(GlycolType));
  }

  /**
   * The value an edit stores: `Number(value)` for a number input, the raw
   * text for anything else (select edits therefore store strings).
   * `toNumber` stands for JavaScript's `Number` conversion.
   */
  function EditedValue(inputType: string, value: string, toNumber: string -> int): (v: Value)
    ensures v.Num? <==> inputType == "number"
    ensures v.Num? ==> v.n == toNumber(value)
    ensures v.Text? ==> v.s == value
  {
    if inputType == "number" then Num(toNumber(value)) else Text(value)
  }

  /** Choosing a code in the select named CalculationType makes the chosen code the mode text. */
  lemma SelectedCalculationType(params: map<Key, Value>, code: string, toNumber: string -> int)
    ensures ModeText(params[KeyOf("CalculationType") := EditedValue("select-one", code, toNumber)]) == code
  {
    assert KeyName(Param(CalculationType)) == "CalculationType";
    KeyOfKeyName(Param(CalculationType));
  }

  /** The body posted to start a calculation job. */
  datatype StartJobBody = StartJobBody(inputsData: map<Key, Value>, optionsData: seq<int>)

  /** The request wraps the parameters unchanged, visible or not, with the option list [0]. */
  function RequestBody(params: map<Key, Value>): (b: StartJobBody)
    ensures b.inputsData == params
    ensures b.optionsData == [0]
  {
    StartJobBody(params, [0])
  }

  // ---------------------------------------------------------------------------
  // The form state
  // ---------------------------------------------------------------------------

  /** The calculator form: its parameter map and its dimension type. */
  class CoilCalculator {
    var dimensionType: string
    var params: map<Key, Value>

    /** Every declared parameter keeps a value, and each property name is stored under one key. */
    ghost predicate Valid()
      reads this
    {
      CoilParamKeys <= params.Keys && forall k :: k in params ==> Canonical(k)
    }

    /** The form starts with the overall dimensions and the default parameters. */
    constructor ()
      ensures Valid()
      ensures dimensionType == "OverallDimensions"
      ensures params == DefaultParams()
    {
      dimensionType := "OverallDimensions";
      params := DefaultParams();
    }

    /** An edit of the input named `name` stores its new value under that name's key only. */
    method HandleInputChange(name: string, inputType: string, value: string, toNumber: string -> int)
      requires Valid()
      modifies this
      ensures Valid()
      ensures params == old(params)[KeyOf(name) := EditedValue(inputType, value, toNumber)]
      ensures forall k :: k != KeyOf(name) && k in old(params) ==> k in params && params[k] == old(params)[k]
      ensures dimensionType == old(dimensionType)
    {
      params := params[KeyOf(name) := EditedValue(inputType, value, toNumber)];
    }

    /** A new dimension type is stored and the four dimension parameters are set to 0. */
    method OnDimensionTypeChange(choice: string)
      requires Valid()
      modifies this
      ensures Valid()
      ensures dimensionType == choice
      ensures params == ResetDimensions(old(params))
      ensures ShownDimensionFields() == SelectDimensionFields(choice)
      ensures params[ShownDimensionFields().widthKey] == Num(0)
      ensures params[ShownDimensionFields().heightKey] == Num(0)
    {
      dimensionType := choice;
      params := ResetDimensions(params);
    }

    /** The fields the form shows for the current calculation type. */
    function VisibleParams(): (r: Record)
      reads this
      ensures WellFormed(r)
      ensures DimensionCount(r) == 1
      ensures CommonKeys <= Keys(r)
    {
      var mode := ModeText(params);
      ResolveWellFormed(mode);
      ResolveStartsWithCommon(mode);
      Resolve(mode)
    }

    /** The width and height inputs of the dimension group: two distinct dimension parameters. */
    function ShownDimensionFields(): (d: DimensionFields)
      reads this
      ensures d.widthKey in DimensionKeys && d.heightKey in DimensionKeys && d.widthKey != d.heightKey
      ensures d.widthKey == Param(CoilWidth) <==> dimensionType == "CoilDimensions"
    {
      SelectDimensionFields(dimensionType)
    }

    /** The body a submission posts. */
    function SubmitBody(): (b: StartJobBody)
      reads this
      ensures b.inputsData == params && b.optionsData == [0]
    {
      RequestBody(params)
    }

    /**
     * A valid form submits every declared parameter, the calculation type
     * among them, and no property name under two keys.
     */
    lemma SubmitsEachNameOnce()
      requires Valid()
      ensures CoilParamKeys <= SubmitBody().inputsData.Keys
      ensures Param(CalculationType) in SubmitBody().inputsData
      ensures forall j, k :: j in SubmitBody().inputsData && k in SubmitBody().inputsData && KeyName(j) == KeyName(k) ==> j == k
    {
      forall j, k | j in params && k in params && KeyName(j) == KeyName(k) ensures j == k {
        KeyOfKeyName(j);
        KeyOfKeyName(k);
      }
    }
  }

  /** Right after a dimension switch both inputs of the chosen pair hold 0. */
  lemma ShownDimensionsZeroAfterSwitch(params: map<Key, Value>, choice: string)
    ensures var d := SelectDimensionFields(choice);
      ResetDimensions(params)[d.widthKey] == Num(0) && ResetDimensions(params)[d.heightKey] == Num(0)
  {
  }

  /**
   * The dimension inputs are named by their keys, so an edit of either lands
   * on that dimension parameter, which the next switch sets back to 0.
   */
  lemma DimensionEditCleared(params: map<Key, Value>, dimensionType: string, v: Value)
    ensures var d := SelectDimensionFields(dimensionType);
      KeyOf(KeyName(d.widthKey)) == d.widthKey && KeyOf(KeyName(d.heightKey)) == d.heightKey
      && ResetDimensions(params[KeyOf(KeyName(d.widthKey)) := v])[d.widthKey] == Num(0)
      && ResetDimensions(params[KeyOf(KeyName(d.heightKey)) := v])[d.heightKey] == Num(0)
  {
    var d := SelectDimensionFields(dimensionType);
    KeyOfKeyName(d.widthKey);
    KeyOfKeyName(d.heightKey);
  }
}
