/**
 * The table-driven naming, preset and group rules of the construction-stage tool:
 * the `Fracture_<digits>` name prefix, the name of a detached object, the
 * normalisation of a detach suffix to a preset, the `Group` tag, the rename
 * target and its `name.NNN` uniquifier, and the (materials, suffix) requests that
 * the detach operator issues.
 */
module ConstructionRules {
  import opened PyStr

  // ---------------------------------------------------------------------------
  // Material names and the detach table
  // ---------------------------------------------------------------------------

  const CutMaterial := "FracturedMaterial01"
  const GlassMaterial := "WindowGlass"
  const GrateMaterial := "GratingMetallic"
  const DecalMaterials: set<string> := {
    "AtlasDecal_Trims01", "AtlasDecal_Trims02", "AtlasDecal_Trims03",
    "AtlasButton01", "AtlasDecal_Parts01", "AtlasDecal_Parts02",
    "AtlasDecal_Stickers01", "AtlasDecal_Stickers02", "AtlasFont_BarlowCondensed"
  }

  /** The (materials, suffix) pairs the detach operator hands to the per-suffix loop, in order. */
  const DetachTable: seq<(set<string>, string)> := [
    ({CutMaterial}, "cut"),
    ({GlassMaterial}, "glass"),
    (DecalMaterials + {"EmissiveOff"}, "hide"),
    ({"Display01"}, "hide_Display01"),
    ({"LCDScreen_Off"}, "hide_LCDScreen_Off"),
    ({GrateMaterial}, "grate"),
    ({"WindowGlassBroken"}, "window"),
    ({"ConveyorsAtlas"}, "conveyor")
  ]

  // ---------------------------------------------------------------------------
  // The Fracture_<digits> prefix
  // ---------------------------------------------------------------------------

  const FractureHead := "Fracture_"

  /** The longest run of digits at the start of `s` (the greedy `\d+`). */
  function DigitRun(s: string): (d: string)
    ensures |d| <= |s| && d == s[..|d|] && AllDigits(d)
    ensures |d| == |s| || !IsDigit(s[|d|])
  {
    if |s| > 0 && IsDigit(s[0]) then [s[0]] + DigitRun(s[1..]) else ""
  }

  /**
   * `re.match(r"(Fracture_\d+)", s)` and `re.match(r"^(Fracture_\d+)", s)`: the
   * matched group, if `s` starts with `Fracture_` followed by at least one digit.
   */
  function FracturePrefix(s: string): (r: Option<string>)
    ensures r.Some? <==> StartsWith(s, FractureHead) && |s| > 9 && IsDigit(s[9])
    ensures r.Some? ==>
      && StartsWith(s, r.value) && |r.value| > 9
      && r.value[..9] == FractureHead && AllDigits(r.value[9..])
      && (|s| == |r.value| || !IsDigit(s[|r.value|]))
  {
    if StartsWith(s, FractureHead) then
      var d := DigitRun(s[9..]);
      if |d| > 0 then
        assert s[9..][..|d|] == s[9..9 + |d|];
        assert (FractureHead + d)[9..] == d;
        Some(FractureHead + d)
      else None
    else None
  }

  /** A matched prefix followed by something that is not a digit is matched again, unchanged. */
  lemma {:induction false} PrefixSurvivesTail(s: string, tail: string)
    requires FracturePrefix(s).Some?
    requires |tail| == 0 || !IsDigit(tail[0])
    ensures FracturePrefix(FracturePrefix(s).value + tail) == FracturePrefix(s)
  {
    var p := FracturePrefix(s).value;
    var t := p + tail;
    assert t[..9] == p[..9];
    var d := DigitRun(t[9..]);
    var pd := p[9..];
    assert t[9..] == pd + tail;
    DigitRunOfDigits(pd, tail);
  }

  lemma {:induction false} DigitRunOfDigits(d: string, tail: string)
    requires AllDigits(d)
    requires |tail| == 0 || !IsDigit(tail[0])
    ensures DigitRun(d + tail) == d
    decreases |d|
  {
    if |d| == 0 {
      assert d + tail == tail;
    } else {
      assert (d + tail)[0] == d[0] && (d + tail)[1..] == d[1..] + tail;
      DigitRunOfDigits(d[1..], tail);
      assert [d[0]] + d[1..] == d;
    }
  }

  /** A matched prefix is its own match. */
  lemma PrefixIsFixpoint(s: string)
    requires FracturePrefix(s).Some?
    ensures FracturePrefix(FracturePrefix(s).value) == FracturePrefix(s)
  {
    PrefixSurvivesTail(s, "");
    assert FracturePrefix(s).value + "" == FracturePrefix(s).value;
  }

  /**
   * A name without the prefix does not gain one when `_` and a non-digit are
   * appended (the `_Hide`, `_Support`, `_FrameCut` group suffixes).
   */
  lemma NoPrefixStaysUnmatched(name: string, tail: string)
    requires FracturePrefix(name).None?
    requires |tail| >= 2 && tail[0] == '_' && !IsDigit(tail[1])
    ensures FracturePrefix(name + tail).None?
  {
    var t := name + tail;
    if |name| >= 9 {
      assert t[..9] == name[..9];
      if |name| == 9 { assert t[9] == tail[0]; } else { assert t[9] == name[9]; }
    } else if |name| == 8 {
      assert t[9] == tail[1];
    } else {
      assert t[|name|] == '_' && FractureHead[|name|] != '_';
      assert |t| >= 9 ==> t[..9][|name|] == t[|name|];
    }
  }

  // ---------------------------------------------------------------------------
  // Naming a detached object
  // ---------------------------------------------------------------------------

  /** The prefix the detach step names the new object after: the match, else the whole name. */
  function BasePrefix(name: string): string
  {
    match FracturePrefix(name)
    case Some(p) => p
    case None => name
  }

  const SuffixNames: map<string, string> := map[
    "cut" := "Cut",
    "hide" := "Hide",
    "support" := "Support",
    "glass" := "Glass",
    "grate" := "Grate",
    "window" := "Glass",
    "conveyor" := "Conveyor",
    "switch" := "Switch",
    "switchhide" := "SwitchHide",
    "hide_Display01" := "Hide_Display01",
    "hide_LCDScreen_Off" := "Hide_LCDScreen_Off"
  ]

  /** `suffix_name_map.get(suffix, suffix.capitalize())`. */
  function SuffixLabel(suffix: string): string
  {
    if suffix in SuffixNames then SuffixNames[suffix] else Capitalize(suffix)
  }

  /** `f"{base_prefix}_{label}"`. */
  function DetachedName(name: string, suffix: string): string
  {
    BasePrefix(name) + "_" + SuffixLabel(suffix)
  }

  /**
   * Two suffixes give the same detached name exactly when their labels agree, so
   * the label can be read back from the name.
   */
  lemma DetachedNameLabel(name: string, s1: string, s2: string)
    ensures DetachedName(name, s1) == DetachedName(name, s2) <==> SuffixLabel(s1) == SuffixLabel(s2)
  {
    var head := BasePrefix(name) + "_";
    var l1, l2 := SuffixLabel(s1), SuffixLabel(s2);
    assert (head + l1)[|head|..] == l1 && (head + l2)[|head|..] == l2;
  }

  /** `glass` and `window` share the label `Glass`, so their detached objects collide. */
  lemma GlassWindowCollide(name: string)
    ensures DetachedName(name, "glass") == DetachedName(name, "window")
    ensures DetachedName(name, "glass") != DetachedName(name, "hide")
  {
    assert SuffixNames["glass"] == SuffixNames["window"] != SuffixNames["hide"];
    DetachedNameLabel(name, "glass", "hide");
  }

  /** A prefixed source name passes its prefix on to the detached object's name. */
  lemma DetachedNameKeepsPrefix(name: string, suffix: string)
    requires FracturePrefix(name).Some?
    ensures FracturePrefix(DetachedName(name, suffix)) == FracturePrefix(name)
  {
    var p, shown := FracturePrefix(name).value, SuffixLabel(suffix);
    assert DetachedName(name, suffix) == p + "_" + shown;
    ConcatAssoc(p, "_", shown);
    PrefixSurvivesTail(name, "_" + shown);
  }

  // ---------------------------------------------------------------------------
  // Presets
  // ---------------------------------------------------------------------------

  /** One row of `preset_map()`: (type, visibility, preset, preset tick). */
  datatype PresetEntry = PresetEntry(meshType: string, visibility: string, preset: string, tick: bool)

  const PresetMap: map<string, PresetEntry> := map[
    "Default" := PresetEntry("Default", "AlwaysVisible", "Default", true),
    "FractureCut" := PresetEntry("Split", "HiddenUntilSecondSequenceStart", "Fracture", true),
    "FrameCut" := PresetEntry("Split", "HiddenUntilSecondSequenceStart", "Default", true),
    "Hide" := PresetEntry("Default", "AlwaysHidden", "", false),
    "Scaffold" := PresetEntry("Scaffold", "AlwaysVisible", "Scaffolding", true),
    "Support" := PresetEntry("Default", "AlwaysVisible", "Support", true),
    "Glass" := PresetEntry("Default", "AlwaysVisible", "WindowGlass", true),
    "GratingMetallic" := PresetEntry("Default", "AlwaysVisible", "GratingMetallic", true),
    "Conveyor" := PresetEntry("Default", "AlwaysVisible", "Conveyor_Port", true)
  ]

  /** `suffix_to_preset`; `switch` maps to Python's None. */
  const SuffixToPreset: map<string, Option<string>> := map[
    "cut" := Some("FractureCut"),
    "glass" := Some("Glass"),
    "hide" := Some("Hide"),
    "grate" := Some("GratingMetallic"),
    "support" := Some("Support"),
    "window" := Some("Glass"),
    "switch" := None,
    "switchhide" := Some("Hide"),
    "conveyor" := Some("Conveyor")
  ]

  const HideSuffixes: set<string> := {"switchhide", "hide_Display01", "hide_LCDScreen_Off"}

  /** The preset a detach suffix normalises to; None when no construction properties are written. */
  function NormalisedPreset(suffix: string): (r: Option<string>)
    ensures r.Some? ==> r.value in PresetMap
  {
    if suffix in HideSuffixes then Some("Hide")
    else if suffix in SuffixToPreset then SuffixToPreset[suffix]
    else None
  }

  /** Which suffixes write properties, and with which preset. */
  lemma NormalisedPresetTable(suffix: string)
    ensures suffix in HideSuffixes || suffix == "hide" ==> NormalisedPreset(suffix) == Some("Hide")
    ensures suffix == "switch" ==> NormalisedPreset(suffix).None?
    ensures suffix == "cut" ==> NormalisedPreset(suffix) == Some("FractureCut")
    ensures suffix == "glass" || suffix == "window" ==> NormalisedPreset(suffix) == Some("Glass")
    ensures suffix == "grate" ==> NormalisedPreset(suffix) == Some("GratingMetallic")
    ensures NormalisedPreset(suffix).Some? <==> suffix in HideSuffixes || (suffix in SuffixToPreset && suffix != "switch")
  {
  }

  // ---------------------------------------------------------------------------
  // Groups
  // ---------------------------------------------------------------------------

  const SuffixedGroups: set<string> := {"Hide", "Support", "FrameCut"}

  /** The group name: `base_preset` for Hide, Support and FrameCut, the bare base otherwise. */
  function GroupName(base: string, preset: string): string
  {
    if preset in SuffixedGroups then base + "_" + preset else base
  }

  /** `re.match(r"Fracture_\d+", group)`: whether a `Group` property is written. */
  predicate GroupTagged(group: string)
  {
    FracturePrefix(group).Some?
  }

  /**
   * At the detach step the group is written exactly when the source name carries
   * the Fracture prefix, and then its prefix is the source's.
   */
  lemma DetachGroupTaggedIffPrefixed(name: string, preset: string)
    ensures GroupTagged(GroupName(BasePrefix(name), preset)) <==> FracturePrefix(name).Some?
    ensures FracturePrefix(name).Some? ==>
      FracturePrefix(GroupName(BasePrefix(name), preset)) == FracturePrefix(name)
  {
    var base := BasePrefix(name);
    if preset in SuffixedGroups {
      assert GroupName(base, preset) == base + "_" + preset;
      ConcatAssoc(base, "_", preset);
      assert !IsDigit(preset[0]);
      if FracturePrefix(name).Some? {
        PrefixSurvivesTail(name, "_" + preset);
      } else {
        NoPrefixStaysUnmatched(name, "_" + preset);
      }
    } else if FracturePrefix(name).Some? {
      PrefixIsFixpoint(name);
    }
  }

  /** The group operators' names: `Fracture_NN`, `_Hide`, `_Support`, `_FrameCut`. */
  datatype GroupVariant = DefaultGroup | HideGroup | SupportGroup | FrameCutGroup

  function VariantSuffix(v: GroupVariant): string
  {
    match v
    case DefaultGroup => ""
    case HideGroup => "_Hide"
    case SupportGroup => "_Support"
    case FrameCutGroup => "_FrameCut"
  }

  /** The group an operator variant writes for an object name; None when the name has no prefix. */
  function VariantGroup(name: string, v: GroupVariant): (g: Option<string>)
    ensures g.Some? <==> FracturePrefix(name).Some?
    ensures g.Some? ==> FracturePrefix(g.value) == FracturePrefix(name)
    ensures g.Some? && v != DefaultGroup ==>
      g.value == GroupName(FracturePrefix(name).value, VariantSuffix(v)[1..])
  {
    match FracturePrefix(name)
    case None => None
    case Some(p) =>
      PrefixSurvivesTail(name, VariantSuffix(v));
      Some(p + VariantSuffix(v))
  }

  // ---------------------------------------------------------------------------
  // Renaming when properties are applied
  // ---------------------------------------------------------------------------

  /** The name an object is renamed to for a preset: the prefix, `_Cut`, or `_<preset>`. */
  function TargetName(base: string, preset: string): string
  {
    if preset == "Default" then base
    else if preset == "FractureCut" then base + "_Cut"
    else base + "_" + preset
  }

  /** After applying a preset, the group of a prefixed object is always written, with its own prefix. */
  lemma ApplyGroupAlwaysTagged(name: string, preset: string)
    requires FracturePrefix(name).Some?
    ensures FracturePrefix(GroupName(FracturePrefix(name).value, preset)) == FracturePrefix(name)
    ensures FracturePrefix(TargetName(FracturePrefix(name).value, preset)) == FracturePrefix(name)
  {
    DetachGroupTaggedIffPrefixed(name, preset);
    var p := FracturePrefix(name).value;
    if preset == "Default" {
      PrefixIsFixpoint(name);
    } else if preset == "FractureCut" {
      PrefixSurvivesTail(name, "_Cut");
    } else {
      PrefixSurvivesTail(name, "_" + preset);
      assert p + "_" + preset == p + ("_" + preset);
    }
  }

  /** The k-th name the rename loop tries: `target`, then `target.001`, `target.002`, ... */
  function NameCandidate(target: string, k: nat): string
  {
    if k == 0 then target else target + "." + Pad3(k)
  }

  lemma NameCandidateInjective(target: string, k: nat, j: nat)
    requires NameCandidate(target, k) == NameCandidate(target, j)
    ensures k == j
  {
    if k != 0 && j != 0 {
      var a, b := NameCandidate(target, k), NameCandidate(target, j);
      assert Pad3(k) == a[|target| + 1..];
      assert Pad3(j) == b[|target| + 1..];
      Pad3Injective(k, j);
    }
  }

  /** n distinct candidates all taken means at least n names are taken. */
  lemma {:induction false} CandidatesBound(target: string, n: nat, taken: set<string>)
    requires forall k :: 0 <= k < n ==> NameCandidate(target, k) in taken
    ensures n <= |taken|
  {
    var tried := set k | 0 <= k < n :: NameCandidate(target, k);
    assert tried <= taken;
    CandidateSetSize(target, n);
    SubsetSize(tried, taken);
  }

  lemma {:induction false} SubsetSize(a: set<string>, b: set<string>)
    requires a <= b
    ensures |a| <= |b|
    decreases |a|
  {
    if a != {} {
      var x :| x in a;
      SubsetSize(a - {x}, b - {x});
    }
  }

  lemma CandidateSetSize(target: string, n: nat)
    ensures |set k | 0 <= k < n :: NameCandidate(target, k)| == n
  {
    var f := (k: nat) => NameCandidate(target, k);
    forall i, j | 0 <= i < j < n ensures f(i) != f(j) {
      if f(i) == f(j) {
        NameCandidateInjective(target, i, j);
      }
    }
    ImageSize(f, n);
    var image, tried := set k | 0 <= k < n :: f(k), set k | 0 <= k < n :: NameCandidate(target, k);
    forall x | x in image ensures x in tried {
      var k :| 0 <= k < n && f(k) == x;
      assert NameCandidate(target, k) == x;
    }
    forall x | x in tried ensures x in image {
      var k :| 0 <= k < n && NameCandidate(target, k) == x;
      assert f(k) == x;
    }
    assert image == tried;
  }

  /** An injective function maps `0..n` onto n distinct values. */
  lemma {:induction false} ImageSize(f: nat -> string, n: nat)
    requires forall i, j :: 0 <= i < j < n ==> f(i) != f(j)
    ensures |set k | 0 <= k < n :: f(k)| == n
  {
    if n > 0 {
      ImageSize(f, n - 1);
      var prev := set k | 0 <= k < n - 1 :: f(k);
      assert (set k | 0 <= k < n :: f(k)) == prev + {f(n - 1)};
      assert f(n - 1) !in prev;
    }
  }

  /**
   * The rename loop: `target` if no object holds that name, otherwise `target.NNN`
   * for the smallest NNN from 001 upward that no object holds.
   */
  method UniqueName(target: string, taken: set<string>) returns (name: string)
    ensures name !in taken
    ensures exists k: nat ::
      && name == NameCandidate(target, k)
      && forall j :: 0 <= j < k ==> NameCandidate(target, j) in taken
    ensures target !in taken ==> name == target
  {
    name := target;
    var suffix: nat := 1;
    while name in taken
      invariant name == NameCandidate(target, suffix - 1)
      invariant forall j :: 0 <= j < suffix - 1 ==> NameCandidate(target, j) in taken
      decreases |taken| - (suffix - 1)
    {
      CandidatesBound(target, suffix, taken);
      name := target + "." + Pad3(suffix);
      suffix := suffix + 1;
    }
  }

  // ---------------------------------------------------------------------------
  // The per-suffix detach requests
  // ---------------------------------------------------------------------------

  /** `{m + "_Subpart" for m in materials}`. */
  function SubpartMaterials(materials: set<string>): (r: set<string>)
    ensures forall m :: m in materials ==> m + "_Subpart" in r
    ensures forall x :: x in r ==> exists m :: m in materials && x == m + "_Subpart"
  {
    set m | m in materials :: m + "_Subpart"
  }

  /** The suffix of the `_Subpart` pass: `hide` stays `hide`, everything else becomes `switch`. */
  function SubpartSuffix(suffix: string): string
  {
    if suffix == "hide" then "hide" else "switch"
  }

  /** The `_Subpart` pass only ever writes the Hide preset or nothing at all. */
  lemma SubpartPassPreset(suffix: string)
    ensures NormalisedPreset(SubpartSuffix(suffix)) == (if suffix == "hide" then Some("Hide") else None)
  {
  }

  /** `detach_faces_by_suffixes`: the (materials, suffix) pairs it passes on, in call order. */
  method DetachFacesBySuffixes(table: seq<(set<string>, string)>) returns (calls: seq<(set<string>, string)>)
    ensures |calls| == 2 * |table|
    ensures forall i :: 0 <= i < |table| ==> calls[2 * i] == table[i]
    ensures forall i :: 0 <= i < |table| ==>
      calls[2 * i + 1] == (SubpartMaterials(table[i].0), SubpartSuffix(table[i].1))
  {
    calls := [];
    for i := 0 to |table|
      invariant |calls| == 2 * i
      invariant forall k :: 0 <= k < i ==> calls[2 * k] == table[k]
      invariant forall k :: 0 <= k < i ==>
        calls[2 * k + 1] == (SubpartMaterials(table[k].0), SubpartSuffix(table[k].1))
    {
      var materialSet, suffix := table[i].0, table[i].1;
      for pass := 0 to 2
        invariant |calls| == 2 * i + pass
        invariant forall k :: 0 <= k < i ==> calls[2 * k] == table[k]
        invariant forall k :: 0 <= k < i ==>
          calls[2 * k + 1] == (SubpartMaterials(table[k].0), SubpartSuffix(table[k].1))
        invariant pass >= 1 ==> calls[2 * i] == table[i]
        invariant pass == 2 ==>
          calls[2 * i + 1] == (SubpartMaterials(table[i].0), SubpartSuffix(table[i].1))
      {
        var currentSuffix, currentMaterials := suffix, materialSet;
        if pass == 1 {
          currentMaterials := SubpartMaterials(materialSet);
          currentSuffix := if suffix == "hide" then "hide" else "switch";
        }
        calls := calls + [(currentMaterials, currentSuffix)];
      }
    }
  }
}
