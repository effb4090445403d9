/**
 * The CT-history part of the "my page" screen: the patient selector, the
 * history table with its result badges, record lookup by scan date and the
 * comparison of two scans (volume change, percent change and status).
 */
module MyPage {
  import opened Wrappers

  datatype CtRecord = CtRecord(scanDate: string, result: string, probability: real,
                               volumeCc: real, location: string, image: string)

  datatype Patient = Patient(name: string, patientId: string, records: seq<CtRecord>)

  /** The selector's label for a patient: "name (patient_id)". */
  function PatientKey(p: Patient): string
  {
    p.name + " (" + p.patientId + ")"
  }

  /** The selector's options: a dict comprehension, so a later patient with the
      same label replaces an earlier one. */
  function PatientOptions(patients: seq<Patient>): map<string, Patient>
  {
    if patients == [] then map[]
    else
      var last := patients[|patients| - 1];
      PatientOptions(patients[..|patients| - 1])[PatientKey(last) := last]
  }

  /** Each label is offered exactly when some patient has it, and it selects
      the last such patient in list order. */
  lemma {:induction false} PatientOptionsLastWins(patients: seq<Patient>, key: string)
    ensures key in PatientOptions(patients) <==> exists i :: 0 <= i < |patients| && PatientKey(patients[i]) == key
    ensures key in PatientOptions(patients) ==>
      exists i :: 0 <= i < |patients| && PatientOptions(patients)[key] == patients[i]
                  && PatientKey(patients[i]) == key
                  && forall j :: i < j < |patients| ==> PatientKey(patients[j]) != key
  {
    if patients != [] {
      var n := |patients| - 1;
      var init := patients[..n];
      var last := patients[n];
      assert PatientOptions(patients) == PatientOptions(init)[PatientKey(last) := last];
      PatientOptionsLastWins(init, key);
      if PatientKey(last) == key {
        assert PatientOptions(patients)[key] == patients[n];
      } else {
        assert key in PatientOptions(patients) <==> key in PatientOptions(init);
        if key in PatientOptions(init) {
          var i :| 0 <= i < |init| && PatientOptions(init)[key] == init[i] && PatientKey(init[i]) == key
                   && forall j :: i < j < |init| ==> PatientKey(init[j]) != key;
          assert patients[i] == init[i];
          assert PatientOptions(patients)[key] == patients[i];
          forall j | i < j < |patients| ensures PatientKey(patients[j]) != key {
            if j < n {
              assert patients[j] == init[j];
            }
          }
        }
        forall i | 0 <= i < |patients| && PatientKey(patients[i]) == key
          ensures key in PatientOptions(init)
        {
          assert i < |init| && init[i] == patients[i];
        }
      }
    }
  }

  /** The two badges of the history table. */
  datatype Badge = Bleeding | Clear

  function BadgeText(b: Badge): string
  {
    match b
    case Bleeding => "🔴 출혈"
    case Clear => "🟢 정상"
  }

  /** Only the exact result "hemorrhage" gets the red badge. */
  function BadgeOf(result: string): (b: Badge)
    ensures b == Bleeding <==> result == "hemorrhage"
  {
    if result == "hemorrhage" then Bleeding else Clear
  }

  /** One row of the history table; the probability is shown as a whole
      percentage and the volume with a "cc" suffix. */
  datatype TableRow = TableRow(scanDate: string, badge: string, probabilityPercent: int,
                               volume: real, location: string)

  /** The `.0f` format: the nearest integer, ties to the even one. */
  function RoundHalfEven(x: real): (n: int)
    ensures -0.5 <= x - n as real <= 0.5
    ensures x - n as real == 0.5 || x - n as real == -0.5 ==> n % 2 == 0
  {
    var f := x.Floor;
    var d := x - f as real;
    if d < 0.5 then f
    else if d > 0.5 then f + 1
    else if f % 2 == 0 then f
    else f + 1
  }

  /** A probability in [0, 1] is shown as a percentage from 0 to 100. */
  lemma PercentShownInRange(p: real)
    requires 0.0 <= p <= 1.0
    ensures 0 <= RoundHalfEven(p * 100.0) <= 100
  {
  }

  function RowOf(r: CtRecord): (row: TableRow)
    ensures row.scanDate == r.scanDate && row.location == r.location && row.volume == r.volumeCc
    ensures row.badge == BadgeText(Bleeding) <==> r.result == "hemorrhage"
    ensures -0.5 <= r.probability * 100.0 - row.probabilityPercent as real <= 0.5
  {
    TableRow(r.scanDate, BadgeText(BadgeOf(r.result)), RoundHalfEven(r.probability * 100.0), r.volumeCc, r.location)
  }

  /** The table is built by a loop that appends one row per record, in record
      order. */
  method BuildTable(records: seq<CtRecord>) returns (rows: seq<TableRow>)
    ensures |rows| == |records|
    ensures forall i :: 0 <= i < |records| ==> rows[i] == RowOf(records[i])
    ensures forall i :: 0 <= i < |records| ==>
      (rows[i].badge == "🔴 출혈" <==> records[i].result == "hemorrhage")
  {
    rows := [];
    for k := 0 to |records|
      invariant |rows| == k
      invariant forall i :: 0 <= i < k ==> rows[i] == RowOf(records[i])
    {
      rows := rows + [RowOf(records[k])];
    }
  }

  /** The first record, in list order, scanned on `date`
      (`next((r for r in ct_records if ...), None)`). */
  function FindRecord(records: seq<CtRecord>, date: string): (found: Option<CtRecord>)
    ensures found.None? <==> forall i :: 0 <= i < |records| ==> records[i].scanDate != date
    ensures found.Some? ==>
      exists i :: 0 <= i < |records| && records[i] == found.value && found.value.scanDate == date
                  && forall j :: 0 <= j < i ==> records[j].scanDate != date
  {
    if records == [] then None
    else if records[0].scanDate == date then Some(records[0])
    else
      var rest := FindRecord(records[1..], date);
      assert rest.None? ==> forall i :: 1 <= i < |records| ==> records[i].scanDate != date by {
        if rest.None? {
          forall i | 1 <= i < |records| ensures records[i].scanDate != date {
            assert records[1..][i - 1] == records[i];
          }
        }
      }
      assert rest.Some? ==>
        exists i :: (0 <= i < |records| && records[i] == rest.value
                     && forall j :: 0 <= j < i ==> records[j].scanDate != date) by {
        if rest.Some? {
          var k :| 0 <= k < |records[1..]| && records[1..][k] == rest.value
                   && forall j :: 0 <= j < k ==> records[1..][j].scanDate != date;
          assert records[k + 1] == rest.value;
          forall j | 0 <= j < k + 1 ensures records[j].scanDate != date {
            if j > 0 { assert records[1..][j - 1] == records[j]; }
          }
        }
      }
      rest
  }

  datatype Status = Improved | Worse | Stable

  /** The comparison panel for a previous and a current scan. */
  datatype Comparison = Comparison(volumeChange: real, changePercent: real, status: Status)

  function Compare(previous: CtRecord, current: CtRecord): (c: Comparison)
    ensures c.volumeChange == current.volumeCc - previous.volumeCc
    ensures previous.volumeCc > 0.0 ==> c.changePercent * previous.volumeCc == c.volumeChange * 100.0
    ensures previous.volumeCc <= 0.0 ==> c.changePercent == 0.0
    ensures c.status == Improved <==> current.volumeCc < previous.volumeCc
    ensures c.status == Worse <==> current.volumeCc > previous.volumeCc
    ensures c.status == Stable <==> current.volumeCc == previous.volumeCc
  {
    var change := current.volumeCc - previous.volumeCc;
    var percent := if previous.volumeCc > 0.0 then change / previous.volumeCc * 100.0 else 0.0;
    var status := if change < 0.0 then Improved else if change > 0.0 then Worse else Stable;
    Comparison(change, percent, status)
  }

  /** Comparing a scan with itself shows no change. */
  lemma CompareWithItself(r: CtRecord)
    ensures Compare(r, r) == Comparison(0.0, 0.0, Stable)
  {
  }

  /** Swapping the two scans flips improvement and worsening. */
  lemma CompareSwapped(a: CtRecord, b: CtRecord)
    ensures Compare(a, b).volumeChange == -Compare(b, a).volumeChange
    ensures Compare(a, b).status == Improved <==> Compare(b, a).status == Worse
  {
  }

  /** What the history section shows for a patient's records and the two
      selected scan dates. */
  datatype HistoryView =
    | NoRecords
    | TableOnly(rows: seq<TableRow>)
    | WithComparison(rows: seq<TableRow>, comparison: Option<Comparison>)

  function History(records: seq<CtRecord>, date1: string, date2: string): (v: HistoryView)
    ensures v == NoRecords <==> records == []
    ensures v.TableOnly? <==> |records| == 1
    ensures v.WithComparison? <==> |records| >= 2
    ensures v.WithComparison? ==>
      (v.comparison.Some? <==> FindRecord(records, date1).Some? && FindRecord(records, date2).Some?)
  {
    if |records| == 0 then NoRecords
    else
      var rows := seq(|records|, i requires 0 <= i < |records| => RowOf(records[i]));
      if |records| < 2 then TableOnly(rows)
      else
        var first := FindRecord(records, date1);
        var second := FindRecord(records, date2);
        if first.Some? && second.Some? then WithComparison(rows, Some(Compare(first.value, second.value)))
        else WithComparison(rows, None)
  }

  /** The selectors only offer the records' own dates, so with two or more
      records the comparison is always shown. */
  lemma SelectedDatesAlwaysCompared(records: seq<CtRecord>, i: nat, j: nat)
    requires |records| >= 2 && i < |records| && j < |records|
    ensures History(records, records[i].scanDate, records[j].scanDate).comparison.Some?
  {
  }
}
