/** The fixed table of compression presets of the `compressor` view
    (pdfcomp/pdfcompressor/views.py:47-51). The table is keyed by the
    submitted `compression_level`, which may be absent; an absent or unknown
    name makes the dictionary lookup raise, modelled here as `None`. */
module Presets {
  import opened Wrappers

  /** A downscale factor as the exact fraction `num / den`. */
  datatype Scale = Scale(num: nat, den: nat)

  /** A scale is usable when its denominator is positive and it does not
      enlarge: every factor of the table lies in (0, 1]. */
  predicate ValidScale(s: Scale) {
    0 < s.num <= s.den
  }

  /** JPEG quality and geometric scale of one preset. */
  datatype Preset = Preset(quality: nat, scale: Scale)

  /** The three named levels of the table. */
  datatype Level = Extreme | Recommended | Less

  /** The name under which each level is submitted. */
  function LevelName(l: Level): string {
    match l
    case Extreme => "extreme"
    case Recommended => "recommended"
    case Less => "less"
  }

  /** The key set of the table. */
  const PRESET_NAMES: set<string> := {"extreme", "recommended", "less"}

  /** Reads a submitted name as a level; any other string is no level. */
  function ParseLevel(name: string): (r: Option<Level>)
    ensures r.Some? <==> name in PRESET_NAMES
    ensures r.Some? ==> LevelName(r.value) == name
  {
    if name == "extreme" then Some(Extreme)
    else if name == "recommended" then Some(Recommended)
    else if name == "less" then Some(Less)
    else None
  }

  /** The setting pair of each level (views.py:48-50). */
  function Settings(l: Level): (p: Preset)
    ensures ValidScale(p.scale)
  {
    match l
    case Extreme => Preset(20, Scale(1, 2))
    case Recommended => Preset(60, Scale(3, 4))
    case Less => Preset(90, Scale(9, 10))
  }

  /** `compression_rates[compression_level]`: a preset exactly when a name was
      submitted and it is one of the three keys. */
  function Lookup(level: Option<string>): (r: Option<Preset>)
    ensures r.Some? <==> level.Some? && level.value in PRESET_NAMES
    ensures r.Some? ==> ValidScale(r.value.scale)
  {
    match level
    case None => None
    case Some(name) =>
      match ParseLevel(name)
      case None => None
      case Some(l) => Some(Settings(l))
  }

  /** Every level's name is read back as that level, and only that name is. */
  lemma ParseLevelName(l: Level, name: string)
    ensures ParseLevel(LevelName(l)) == Some(l)
    ensures ParseLevel(name) == Some(l) ==> name == LevelName(l)
  {
  }

  /** The table's three rows, with the scales as exact fractions. */
  lemma LookupTable()
    ensures Lookup(Some("extreme")) == Some(Preset(20, Scale(1, 2)))
    ensures Lookup(Some("recommended")) == Some(Preset(60, Scale(3, 4)))
    ensures Lookup(Some("less")) == Some(Preset(90, Scale(9, 10)))
  {
  }
}
