/**
  The two record shapes and their positional mappers
  (`medEquipDataArrayToObject`, `medicineArrayToObject`). Cell 0 of a row is
  never read; cells 1 to 8 fill the eight fields in order; a cell past the end
  of the row is `undefined`, modelled as `None`.
 */
module Records {
  import opened Wrappers
  import opened RowExtractor

  /** `row[index]`, or `undefined` past the end. */
  function At(row: Row, index: nat): (cell: Option<string>)
    ensures cell.Some? <==> index < |row|
    ensures cell.Some? ==> cell.value == row[index]
  {
    if index < |row| then Some(row[index]) else None
  }

  /** Cells `lo` up to (not including) `hi`, the missing ones as `None`. */
  function Cells(row: Row, lo: nat, hi: nat): (cells: seq<Option<string>>)
    requires lo <= hi
    ensures |cells| == hi - lo
    ensures forall k :: 0 <= k < hi - lo ==> cells[k] == At(row, lo + k)
    decreases hi - lo
  {
    if lo == hi then [] else [At(row, lo)] + Cells(row, lo + 1, hi)
  }

  /** A medical-equipment register entry. `kind` is the JSON field `type`. */
  datatype Equipment = Equipment(
    name: Option<string>,
    manufacturer: Option<string>,
    declarant: Option<string>,
    idNumber: Option<string>,
    registerNumber: Option<string>,
    registrationDate: Option<string>,
    validity: Option<string>,
    kind: Option<string>)

  /** A medication register entry. */
  datatype Medication = Medication(
    tradingName: Option<string>,
    internationalName: Option<string>,
    manufacturer: Option<string>,
    declarant: Option<string>,
    idNumber: Option<string>,
    registrationDate: Option<string>,
    validity: Option<string>,
    original: Option<string>)

  /** The fields of an equipment record in the order the mapper fills them. */
  function EquipmentFields(e: Equipment): seq<Option<string>> {
    [e.name, e.manufacturer, e.declarant, e.idNumber,
     e.registerNumber, e.registrationDate, e.validity, e.kind]
  }

  /** The fields of a medication record in the order the mapper fills them. */
  function MedicationFields(m: Medication): seq<Option<string>> {
    [m.tradingName, m.internationalName, m.manufacturer, m.declarant,
     m.idNumber, m.registrationDate, m.validity, m.original]
  }

  /** `medEquipDataArrayToObject`: field k of the record is cell k + 1 of the row. */
  function EquipmentOf(row: Row): (e: Equipment)
    ensures EquipmentFields(e) == Cells(row, 1, 9)
  {
    Equipment(At(row, 1), At(row, 2), At(row, 3), At(row, 4),
              At(row, 5), At(row, 6), At(row, 7), At(row, 8))
  }

  /** `medicineArrayToObject`: field k of the record is cell k + 1 of the row. */
  function MedicationOf(row: Row): (m: Medication)
    ensures MedicationFields(m) == Cells(row, 1, 9)
  {
    Medication(At(row, 1), At(row, 2), At(row, 3), At(row, 4),
               At(row, 5), At(row, 6), At(row, 7), At(row, 8))
  }

  /** Two records with the same fields in mapper order are the same record. */
  lemma EquipmentFieldsInjective(e1: Equipment, e2: Equipment)
    requires EquipmentFields(e1) == EquipmentFields(e2)
    ensures e1 == e2
  {
    var f1, f2 := EquipmentFields(e1), EquipmentFields(e2);
    assert f1[0] == f2[0] && f1[1] == f2[1] && f1[2] == f2[2] && f1[3] == f2[3];
    assert f1[4] == f2[4] && f1[5] == f2[5] && f1[6] == f2[6] && f1[7] == f2[7];
  }

  lemma MedicationFieldsInjective(m1: Medication, m2: Medication)
    requires MedicationFields(m1) == MedicationFields(m2)
    ensures m1 == m2
  {
    var f1, f2 := MedicationFields(m1), MedicationFields(m2);
    assert f1[0] == f2[0] && f1[1] == f2[1] && f1[2] == f2[2] && f1[3] == f2[3];
    assert f1[4] == f2[4] && f1[5] == f2[5] && f1[6] == f2[6] && f1[7] == f2[7];
  }

  /** Two rows that agree on cells 1 to 8 give the same record: cell 0 and cells past 8 are ignored. */
  lemma EquipmentIsPositional(row1: Row, row2: Row)
    requires Cells(row1, 1, 9) == Cells(row2, 1, 9)
    ensures EquipmentOf(row1) == EquipmentOf(row2)
  {
    EquipmentFieldsInjective(EquipmentOf(row1), EquipmentOf(row2));
  }

  lemma MedicationIsPositional(row1: Row, row2: Row)
    requires Cells(row1, 1, 9) == Cells(row2, 1, 9)
    ensures MedicationOf(row1) == MedicationOf(row2)
  {
    MedicationFieldsInjective(MedicationOf(row1), MedicationOf(row2));
  }

  /** The texts of fields that are all present. */
  function Values(fields: seq<Option<string>>): (texts: seq<string>)
    requires forall k :: 0 <= k < |fields| ==> fields[k].Some?
    ensures |texts| == |fields|
    ensures forall k :: 0 <= k < |fields| ==> fields[k] == Some(texts[k])
  {
    if fields == [] then [] else [fields[0].value] + Values(fields[1..])
  }

  /** A complete record written back as register cells, with any text in the unused cell 0. */
  function EquipmentRow(e: Equipment, first: string): (row: Row)
    requires forall k :: 0 <= k < 8 ==> EquipmentFields(e)[k].Some?
    ensures |row| == 9
  {
    [first] + Values(EquipmentFields(e))
  }

  function MedicationRow(m: Medication, first: string): (row: Row)
    requires forall k :: 0 <= k < 8 ==> MedicationFields(m)[k].Some?
    ensures |row| == 9
  {
    [first] + Values(MedicationFields(m))
  }

  /** Mapping a complete record's cells gives the record back. */
  lemma EquipmentRoundTrip(e: Equipment, first: string)
    requires forall k :: 0 <= k < 8 ==> EquipmentFields(e)[k].Some?
    ensures EquipmentOf(EquipmentRow(e, first)) == e
  {
    var row := EquipmentRow(e, first);
    assert Cells(row, 1, 9) == EquipmentFields(e) by {
      forall k | 0 <= k < 8 ensures Cells(row, 1, 9)[k] == EquipmentFields(e)[k] {
        assert row[k + 1] == Values(EquipmentFields(e))[k];
      }
    }
    EquipmentFieldsInjective(EquipmentOf(row), e);
  }

  lemma MedicationRoundTrip(m: Medication, first: string)
    requires forall k :: 0 <= k < 8 ==> MedicationFields(m)[k].Some?
    ensures MedicationOf(MedicationRow(m, first)) == m
  {
    var row := MedicationRow(m, first);
    assert Cells(row, 1, 9) == MedicationFields(m) by {
      forall k | 0 <= k < 8 ensures Cells(row, 1, 9)[k] == MedicationFields(m)[k] {
        assert row[k + 1] == Values(MedicationFields(m))[k];
      }
    }
    MedicationFieldsInjective(MedicationOf(row), m);
  }

  /** A row of at least nine cells has every field present, and rebuilding it restores cells 1 to 8. */
  lemma EquipmentRowRoundTrip(row: Row)
    requires |row| >= 9
    ensures forall k :: 0 <= k < 8 ==> EquipmentFields(EquipmentOf(row))[k].Some?
    ensures EquipmentRow(EquipmentOf(row), row[0]) == row[..9]
  {
    var f := EquipmentFields(EquipmentOf(row));
    assert forall k :: 0 <= k < 8 ==> f[k] == At(row, k + 1);
    var r := EquipmentRow(EquipmentOf(row), row[0]);
    forall k | 0 <= k < 9 ensures r[k] == row[k] {
      if k > 0 {
        assert r[k] == Values(f)[k - 1];
      }
    }
  }

  lemma MedicationRowRoundTrip(row: Row)
    requires |row| >= 9
    ensures forall k :: 0 <= k < 8 ==> MedicationFields(MedicationOf(row))[k].Some?
    ensures MedicationRow(MedicationOf(row), row[0]) == row[..9]
  {
    var f := MedicationFields(MedicationOf(row));
    assert forall k :: 0 <= k < 8 ==> f[k] == At(row, k + 1);
    var r := MedicationRow(MedicationOf(row), row[0]);
    forall k | 0 <= k < 9 ensures r[k] == row[k] {
      if k > 0 {
        assert r[k] == Values(f)[k - 1];
      }
    }
  }

  /** Field k is absent exactly when the row is too short to have cell k + 1. */
  lemma ShortRowsGiveAbsentFields(row: Row, k: nat)
    requires k < 8
    ensures EquipmentFields(EquipmentOf(row))[k].None? <==> |row| <= k + 1
    ensures MedicationFields(MedicationOf(row))[k].None? <==> |row| <= k + 1
  {
  }

  /** The fields the crawl keys on: cell 5 for equipment, cell 1 for medications. */
  lemma KeyFields(row: Row)
    ensures EquipmentOf(row).registerNumber == At(row, 5)
    ensures MedicationOf(row).tradingName == At(row, 1)
  {
  }
}
