/** The static table of Informatik exam periods for 2025 and its expansion into
    exam records (one per exam window) and registration records (one per
    registration window). */
module Structured {
  import opened Wrappers
  import opened Text
  import opened Records

  /** One exam period: its exam windows and the matching registration windows. */
  datatype Period = Period(periode: nat, name: string, zeitraeume: seq<string>, anmeldezeitraeume: seq<string>)

  /** The table compiled into the scraper. */
  const Table: seq<Period> := [
    Period(1, "Prüfungsperiode 1",
           ["27.01. - 31.01.2025", "24.03. - 28.03.2025"],
           ["30.12.24 - 12.01.25", "24.02. - 09.03.2025"]),
    Period(2, "Prüfungsperiode 2", ["30.06. - 11.07.2025"], ["09.06. - 22.06.2025"]),
    Period(3, "Prüfungsperiode 3", ["22.09. - 06.10.2025"], ["25.08. - 07.09.2025"])
  ]

  const InformatikSource: string := "w-hs.de/informatik"

  /** Which list of a period is expanded. */
  datatype Side = Exams | Registrations

  /** The windows expanded on this side. */
  function Own(p: Period, side: Side): seq<string> {
    if side == Exams then p.zeitraeume else p.anmeldezeitraeume
  }

  /** The windows the partner field is taken from. */
  function Other(p: Period, side: Side): seq<string> {
    if side == Exams then p.anmeldezeitraeume else p.zeitraeume
  }

  /** `other[index] || other[0]`: the window at the same index when it is there
      and non-empty, else the first one, else `undefined`. */
  function Partner(p: Period, side: Side, index: nat): (r: Option<string>)
    ensures index < |Other(p, side)| && Other(p, side)[index] != "" ==> r == Some(Other(p, side)[index])
    ensures !(index < |Other(p, side)| && Other(p, side)[index] != "") ==>
              r == (if |Other(p, side)| > 0 then Some(Other(p, side)[0]) else None)
    ensures r.Some? ==> r.value in Other(p, side)
    ensures r.None? <==> |Other(p, side)| == 0
  {
    var other := Other(p, side);
    if index < |other| && other[index] != "" then Some(other[index])
    else if |other| > 0 then Some(other[0])
    else None
  }

  /** The record for window `index` of period `p`. */
  function RecordFor(p: Period, side: Side, index: nat): Record
    requires index < |Own(p, side)|
  {
    var number := NatToString(index + 1);
    match side
    case Exams =>
      Basic("Informatik Prüfungsperiode", p.zeitraeume[index], InformatikSource)
        .(description := Some(p.name + " - Zeitraum " + number),
          anmeldung := Partner(p, side, index),
          department := Some(InformatikDepartment))
    case Registrations =>
      Basic("Informatik Prüfungsanmeldung", p.anmeldezeitraeume[index], InformatikSource)
        .(description := Some(p.name + " - Anmeldung " + number),
          pruefungszeit := Partner(p, side, index),
          campusPortal := Some("campus.w-hs.de"),
          department := Some(InformatikDepartment))
  }

  /** The records of one period, in index order. */
  function PeriodRecords(p: Period, side: Side): seq<Record> {
    seq(|Own(p, side)|, i requires 0 <= i < |Own(p, side)| => RecordFor(p, side, i))
  }

  /** The nested `forEach` over periods and their windows. */
  function Expand(table: seq<Period>, side: Side): seq<Record>
    decreases |table|
  {
    if |table| == 0 then [] else PeriodRecords(table[0], side) + Expand(table[1..], side)
  }

  /** Number of windows on this side in the first `n` periods. */
  function Offset(table: seq<Period>, side: Side, n: nat): nat
    requires n <= |table|
    decreases n
  {
    if n == 0 then 0 else |Own(table[0], side)| + Offset(table[1..], side, n - 1)
  }

  lemma {:induction false} ExpandLength(table: seq<Period>, side: Side)
    ensures |Expand(table, side)| == Offset(table, side, |table|)
    decreases |table|
  {
    if |table| > 0 {
      var rest := table[1..];
      ExpandLength(rest, side);
      assert |PeriodRecords(table[0], side)| == |Own(table[0], side)|;
      assert Offset(table, side, |table|) == |Own(table[0], side)| + Offset(rest, side, |rest|);
    }
  }

  /** Window `i` of period `n` sits right after the windows of the earlier periods. */
  lemma {:induction false} ExpandAtPeriod(table: seq<Period>, side: Side, n: nat, i: nat)
    requires n < |table| && i < |PeriodRecords(table[n], side)|
    ensures Offset(table, side, n) + i < |Expand(table, side)|
    ensures Expand(table, side)[Offset(table, side, n) + i] == PeriodRecords(table[n], side)[i]
    decreases n
  {
    var head := PeriodRecords(table[0], side);
    var rest := Expand(table[1..], side);
    assert Expand(table, side) == head + rest;
    assert |head| == |Own(table[0], side)|;
    if n == 0 {
      assert Offset(table, side, n) + i == i;
      assert (head + rest)[i] == head[i];
    } else {
      assert table[n] == table[1..][n - 1];
      ExpandAtPeriod(table[1..], side, n - 1, i);
      var j := Offset(table[1..], side, n - 1) + i;
      assert rest[j] == PeriodRecords(table[n], side)[i];
      assert Offset(table, side, n) + i == |head| + j;
      assert (head + rest)[|head| + j] == rest[j];
    }
  }

  lemma ExpandAt(table: seq<Period>, side: Side, n: nat, i: nat)
    requires n < |table| && i < |Own(table[n], side)|
    ensures Offset(table, side, n) + i < |Expand(table, side)|
    ensures Expand(table, side)[Offset(table, side, n) + i] == RecordFor(table[n], side, i)
  {
    ExpandAtPeriod(table, side, n, i);
    assert PeriodRecords(table[n], side)[i] == RecordFor(table[n], side, i);
  }

  /** Position of window `i` of period `n` in the expansion. */
  function Slot(table: seq<Period>, side: Side, n: nat, i: nat): nat
    requires n < |table|
  {
    Offset(table, side, n) + i
  }

  /** The expansion holds one record per window, in period-then-index order:
      window `i` of period `n` sits after all windows of earlier periods. */
  lemma ExpandLayout(table: seq<Period>, side: Side)
    ensures |Expand(table, side)| == Offset(table, side, |table|)
    ensures forall n: nat, i: nat | n < |table| && i < |Own(table[n], side)| ::
              Slot(table, side, n, i) < |Expand(table, side)| &&
              Expand(table, side)[Slot(table, side, n, i)] == RecordFor(table[n], side, i)
  {
    ExpandLength(table, side);
    forall n: nat, i: nat | n < |table| && i < |Own(table[n], side)|
      ensures Slot(table, side, n, i) < |Expand(table, side)|
      ensures Expand(table, side)[Slot(table, side, n, i)] == RecordFor(table[n], side, i)
    {
      ExpandAt(table, side, n, i);
    }
  }

  /** The partner property of a record on this side: `anmeldung` for an exam
      record, `pruefungszeit` for a registration record. */
  function PartnerField(r: Record, side: Side): Option<string> {
    if side == Exams then r.anmeldung else r.pruefungszeit
  }

  /** Every expanded record's partner window is taken from its own period's
      other list, and is missing only when that list is empty. */
  lemma ExpandPartners(table: seq<Period>, side: Side)
    ensures forall n: nat, i: nat | n < |table| && i < |Own(table[n], side)| ::
              Slot(table, side, n, i) < |Expand(table, side)| &&
              (PartnerField(Expand(table, side)[Slot(table, side, n, i)], side).None? <==> |Other(table[n], side)| == 0) &&
              (PartnerField(Expand(table, side)[Slot(table, side, n, i)], side).Some? ==>
                 PartnerField(Expand(table, side)[Slot(table, side, n, i)], side).value in Other(table[n], side))
  {
    ExpandLayout(table, side);
  }

  /** Every expanded record belongs to the Informatik department and carries
      one of the table's windows as its date. */
  lemma {:induction false} ExpandInformatik(table: seq<Period>, side: Side)
    ensures forall r | r in Expand(table, side) :: IsInformatik(r) && r.source == InformatikSource
    ensures forall r | r in Expand(table, side) :: exists p | p in table :: r.date in Own(p, side)
    decreases |table|
  {
    if |table| > 0 {
      ExpandInformatik(table[1..], side);
      forall r | r in Expand(table, side)
        ensures IsInformatik(r) && r.source == InformatikSource
        ensures exists p | p in table :: r.date in Own(p, side)
      {
        if r in PeriodRecords(table[0], side) {
          var i :| 0 <= i < |Own(table[0], side)| && PeriodRecords(table[0], side)[i] == r;
          assert r.date == Own(table[0], side)[i];
        } else {
          assert r in Expand(table[1..], side);
          var p :| p in table[1..] && r.date in Own(p, side);
          assert p in table;
        }
      }
    }
  }

  /** For the shipped table: four exam records and four registration records,
      each pairing a window with the partner window of the same index. */
  lemma ShippedTable()
    ensures |Expand(Table, Exams)| == 4 && |Expand(Table, Registrations)| == 4
    ensures Expand(Table, Exams)[1].description == Some("Prüfungsperiode 1 - Zeitraum 2")
    ensures Expand(Table, Exams)[1].date == "24.03. - 28.03.2025"
    ensures Expand(Table, Exams)[1].anmeldung == Some("24.02. - 09.03.2025")
    ensures Expand(Table, Registrations)[3].description == Some("Prüfungsperiode 3 - Anmeldung 1")
    ensures Expand(Table, Registrations)[3].pruefungszeit == Some("22.09. - 06.10.2025")
  {
    ShippedExams();
    ShippedRegistrations();
  }

  lemma ShippedExams()
    ensures |Expand(Table, Exams)| == 4
    ensures Expand(Table, Exams)[1].description == Some("Prüfungsperiode 1 - Zeitraum 2")
    ensures Expand(Table, Exams)[1].date == "24.03. - 28.03.2025"
    ensures Expand(Table, Exams)[1].anmeldung == Some("24.02. - 09.03.2025")
  {
    ExpandLayout(Table, Exams);
    assert Table[1..][1..][1..] == [];
    assert Offset(Table, Exams, 1) == 2;
    assert NatToString(2) == "2";
    assert Expand(Table, Exams)[1] == RecordFor(Table[0], Exams, 1);
    assert Table[0].name + " - Zeitraum " + "2" == "Prüfungsperiode 1 - Zeitraum 2";
  }

  lemma ShippedRegistrations()
    ensures |Expand(Table, Registrations)| == 4
    ensures Expand(Table, Registrations)[3].description == Some("Prüfungsperiode 3 - Anmeldung 1")
    ensures Expand(Table, Registrations)[3].pruefungszeit == Some("22.09. - 06.10.2025")
  {
    ExpandLayout(Table, Registrations);
    assert Table[1..][1..][1..] == [];
    assert Offset(Table, Registrations, 2) == 3;
    assert NatToString(1) == "1";
    assert Expand(Table, Registrations)[3] == RecordFor(Table[2], Registrations, 0);
    assert Table[2].name + " - Anmeldung " + "1" == "Prüfungsperiode 3 - Anmeldung 1";
  }
}
