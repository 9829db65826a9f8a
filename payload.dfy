/** The decoded MATPOWER file and the rule that picks the case tables out of it.
    The file reader yields a mapping from names to values; a value is a numeric
    table, a number, a text, or a struct whose attributes are again values.
    A version-2 case is found either as a struct stored under the case name
    ("named" layout) or as the tables stored directly at the top level ("flat"
    layout). `Extract` gives the entries the converter writes into `ppc` and
    what it reports. */
module Payload {
  datatype Option<T> = None | Some(value: T)

  datatype Value =
    | Matrix(m: array2<real>)
    | Number(x: real)
    | Text(s: string)
    | Struct(fields: map<string, Value>)

  /** The decoded file: top-level names to values. */
  type Mpc = map<string, Value>

  /** The required case entries, in the order the converter copies them. */
  const Version := "version"
  const BaseMVA := "baseMVA"
  const Bus := "bus"
  const Gen := "gen"
  const Branch := "branch"
  /** The optional generator-cost table. */
  const Gencost := "gencost"

  const RequiredKeys: set<string> := {Version, BaseMVA, Bus, Gen, Branch}

  /** Reading attribute `name` of a value: only a struct has attributes. */
  function Attribute(v: Value, name: string): (r: Option<Value>)
    ensures r.Some? <==> v.Struct? && name in v.fields
    ensures r.Some? ==> r.value == v.fields[name]
  {
    if v.Struct? && name in v.fields then Some(v.fields[name]) else None
  }

  datatype Layout = NamedStruct | FlatMapping

  /** What the extraction reports: success (with the "gencost is not in mpc"
      note as a flag), the logged "no valid mpc structure" error, or the
      attribute whose absence raised an error while copying a named struct. */
  datatype CopyReport =
    | Copied(layout: Layout, gencostMissing: bool)
    | NoValidStructure
    | AttributeMissing(name: string)

  /** The entries written into `ppc`, and the report. */
  datatype Extraction = Extraction(written: map<string, Value>, report: CopyReport)

  /** Progress of copying attributes of a named struct one after another. */
  datatype Progress = Going(copied: map<string, Value>) | Stopped(copied: map<string, Value>, missing: string)

  /** Copies attribute `name` of `s` after what is already copied; the
      first missing attribute stops the copy. */
  function CopyStep(s: Value, name: string, p: Progress): (r: Progress)
    ensures p.Stopped? ==> r == p
    ensures p.Going? && Attribute(s, name).Some? ==> r == Going(p.copied[name := Attribute(s, name).value])
    ensures p.Going? && Attribute(s, name).None? ==> r == Stopped(p.copied, name)
  {
    match p
    case Stopped(_, _) => p
    case Going(m) =>
      match Attribute(s, name)
      case Some(v) => Going(m[name := v])
      case None => Stopped(m, name)
  }

  /** Named layout: the five required attributes of struct `s`, in order,
      then `gencost` when `s` has it. */
  function CopyNamed(s: Value): (r: Extraction)
    ensures r.report.Copied? || r.report.AttributeMissing?
    ensures r.report.Copied? ==> r.report.layout == NamedStruct
    ensures r.report.Copied? <==> s.Struct? && RequiredKeys <= s.fields.Keys
    ensures r.report.AttributeMissing? ==> r.report.name in RequiredKeys && Attribute(s, r.report.name).None?
    ensures forall k :: k in r.written ==> Attribute(s, k) == Some(r.written[k])
    ensures r.report.Copied? ==>
              r.written.Keys == RequiredKeys + (if Gencost in s.fields then {Gencost} else {})
              && r.report.gencostMissing == (Gencost !in s.fields)
  {
    var p :=
      CopyStep(s, Branch, CopyStep(s, Gen, CopyStep(s, Bus, CopyStep(s, BaseMVA, CopyStep(s, Version, Going(map[]))))));
    match p
    case Stopped(m, name) => Extraction(m, AttributeMissing(name))
    case Going(m) =>
      match Attribute(s, Gencost)
      case Some(v) => Extraction(m[Gencost := v], Copied(NamedStruct, false))
      case None => Extraction(m, Copied(NamedStruct, true))
  }

  /** The attributes copied before the copy of a named struct stopped are
      exactly those that precede the first missing one in the copy order. */
  lemma NamedCopyStopsAtFirstMissing(s: Value)
    requires CopyNamed(s).report.AttributeMissing?
    ensures var order := [Version, BaseMVA, Bus, Gen, Branch];
            exists k :: 0 <= k < |order| && order[k] == CopyNamed(s).report.name
              && (forall j :: 0 <= j < k ==> Attribute(s, order[j]).Some?)
              && (forall j :: 0 <= j < |order| ==> (order[j] in CopyNamed(s).written <==> j < k))
              && CopyNamed(s).written.Keys <= RequiredKeys
  {
    var order := [Version, BaseMVA, Bus, Gen, Branch];
    var r := CopyNamed(s);
    var k :=
      if Attribute(s, Version).None? then 0
      else if Attribute(s, BaseMVA).None? then 1
      else if Attribute(s, Bus).None? then 2
      else if Attribute(s, Gen).None? then 3
      else 4;
    assert order[k] == r.report.name;
    assert forall j :: 0 <= j < |order| ==> (order[j] in r.written <==> j < k);
  }

  /** The flat-layout guard: all five required keys at the top level. */
  predicate HasFlatLayout(mpc: Mpc)
  {
    Bus in mpc && Branch in mpc && Gen in mpc && BaseMVA in mpc && Version in mpc
  }

  /** Flat layout: the five required entries and `gencost` when present,
      each taken verbatim from the same-named top-level entry. */
  function CopyFlat(mpc: Mpc): (r: Extraction)
    requires HasFlatLayout(mpc)
    ensures r.report == Copied(FlatMapping, Gencost !in mpc)
    ensures r.written.Keys == RequiredKeys + (if Gencost in mpc then {Gencost} else {})
    ensures forall k :: k in r.written ==> k in mpc && r.written[k] == mpc[k]
  {
    var m := map[Version := mpc[Version], BaseMVA := mpc[BaseMVA], Bus := mpc[Bus],
                 Gen := mpc[Gen], Branch := mpc[Branch]];
    if Gencost in mpc then Extraction(m[Gencost := mpc[Gencost]], Copied(FlatMapping, false))
    else Extraction(m, Copied(FlatMapping, true))
  }

  /** The layout rule: a value under the case name wins over flat keys; the
      flat layout is used only with all five keys; otherwise nothing is
      written and the structure is reported invalid. */
  function Extract(mpc: Mpc, caseName: string): (r: Extraction)
    // layout precedence
    ensures caseName in mpc ==> !r.report.NoValidStructure?
    ensures caseName in mpc && r.report.Copied? ==> r.report.layout == NamedStruct
    ensures caseName in mpc ==> forall k :: k in r.written ==> Attribute(mpc[caseName], k) == Some(r.written[k])
    // flat-layout guard
    ensures caseName !in mpc ==> !r.report.AttributeMissing?
    ensures caseName !in mpc ==> (r.report.Copied? <==> HasFlatLayout(mpc))
    ensures caseName !in mpc ==> forall k :: k in r.written ==> k in mpc && r.written[k] == mpc[k]
    // the required entries, and gencost exactly when the source has it
    ensures r.report.Copied? ==> RequiredKeys <= r.written.Keys <= RequiredKeys + {Gencost}
    ensures r.report.Copied? ==> (Gencost in r.written <==> !r.report.gencostMissing)
    ensures caseName in mpc && r.report.Copied? ==>
              (Gencost in r.written <==> Attribute(mpc[caseName], Gencost).Some?)
    ensures r.report.Copied? && r.report.layout == FlatMapping ==> (Gencost in r.written <==> Gencost in mpc)
    // neither layout
    ensures r.report.NoValidStructure? <==> caseName !in mpc && !HasFlatLayout(mpc)
    ensures r.report.NoValidStructure? ==> r.written == map[]
  {
    if caseName in mpc then CopyNamed(mpc[caseName])
    else if HasFlatLayout(mpc) then CopyFlat(mpc)
    else Extraction(map[], NoValidStructure)
  }
}
