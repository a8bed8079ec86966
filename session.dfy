/**
  The extraction session `parseData`: the equipment listing is crawled keyed
  on cell 5, then the medication listing keyed on cell 1, and the two
  collections are returned side by side.
 */
module Session {
  import opened Wrappers
  import opened PageOptions
  import opened RowExtractor
  import opened Records
  import opened Collector
  import opened Pagination

  /** Cell 5 of an equipment row, its register number, identifies the record. */
  const EquipmentKeyIndex: nat := 5

  /** Cell 1 of a medication row, its trading name, identifies the record. */
  const MedicationKeyIndex: nat := 1

  datatype Listing = MedicalEquipment | Medications

  /** The lines the session writes to standard output, as data. */
  datatype LogLine =
    | Starting(listing: Listing)
    | Parsed(current: string, total: nat)

  /** The snapshot: one collection per listing, never merged. */
  datatype Aggregate = Aggregate(
    medicalEquipment: map<string, Equipment>,
    medications: map<string, Medication>)

  /** The `Parsed current of total` lines for a crawl's progress events. */
  function ProgressLines(progress: seq<(string, nat)>): (lines: seq<LogLine>)
    ensures |lines| == |progress|
    ensures forall i :: 0 <= i < |progress| ==> lines[i] == Parsed(progress[i].0, progress[i].1)
  {
    if progress == [] then [] else [Parsed(progress[0].0, progress[0].1)] + ProgressLines(progress[1..])
  }

  /** `parseData` */
  method ParseData(equipmentOptions: seq<string>, equipmentSite: string -> seq<RawRow>,
                   medicationOptions: seq<string>, medicationSite: string -> seq<RawRow>)
    returns (result: Aggregate, log: seq<LogLine>)
    ensures result.medicalEquipment == CrawlResult(equipmentOptions, equipmentSite, EquipmentKeyIndex, EquipmentOf)
    ensures result.medications == CrawlResult(medicationOptions, medicationSite, MedicationKeyIndex, MedicationOf)
    ensures forall k :: k in result.medicalEquipment ==> KeyReflects(k, result.medicalEquipment[k].registerNumber)
    ensures forall k :: k in result.medications ==> KeyReflects(k, result.medications[k].tradingName)
    ensures var p, q := Plan(equipmentOptions), Plan(medicationOptions);
            && |log| == |p| + |q| + 2
            && log[0] == Starting(MedicalEquipment)
            && (forall i :: 0 <= i < |p| ==> log[1 + i] == Parsed(p[i], |p|))
            && log[|p| + 1] == Starting(Medications)
            && (forall i :: 0 <= i < |q| ==> log[|p| + 2 + i] == Parsed(q[i], |q|))
  {
    log := [Starting(MedicalEquipment)];
    var medEquipObject, equipmentProgress := ParsePage(equipmentOptions, equipmentSite, EquipmentOf, EquipmentKeyIndex);
    log := log + ProgressLines(equipmentProgress);
    log := log + [Starting(Medications)];
    var medications, medicationProgress := ParsePage(medicationOptions, medicationSite, MedicationOf, MedicationKeyIndex);
    log := log + ProgressLines(medicationProgress);
    result := Aggregate(medEquipObject, medications);
    KeyedByField(map[], Visited(Plan(equipmentOptions), equipmentSite), EquipmentKeyIndex, EquipmentOf,
                 (e: Equipment) => e.registerNumber);
    KeyedByField(map[], Visited(Plan(medicationOptions), medicationSite), MedicationKeyIndex, MedicationOf,
                 (m: Medication) => m.tradingName);
  }
}
