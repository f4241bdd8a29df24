/** The values the participant spreadsheet is filled with: one row per registration
    of the event, in stored order, and a summary row with the totals by status.
    Styling, column widths, the title and detail lines, date formatting and the
    workbook encoding belong to the spreadsheet library and are not modelled. */
module Export {
  import opened Text
  import opened Records
  import opened Tables

  /** The first worksheet row that holds a participant (rows 1, 2 and 4 hold the
      title, the event details and the column headers). */
  const FirstParticipantRow := 5

  /** The values of one participant row: serial number, name, e-mail, phone and
      upper-cased status, placed on worksheet row `number`. */
  datatype Row = Row(number: nat, serial: nat, name: string, email: string, phone: string, status: string)

  /** The summary row: where it is placed and the counts it shows. */
  datatype Summary = Summary(number: nat, total: nat, confirmed: nat, pending: nat, rejected: nat)

  datatype Sheet = Sheet(rows: seq<Row>, summary: Summary)

  /** `participant.status.toUpperCase()`. */
  function StatusLabel(s: Status): string {
    ToUpper(StatusName(s))
  }

  /** The three labels spell the statuses in capitals, so each names one status. */
  lemma StatusLabels()
    ensures StatusLabel(Confirmed) == "CONFIRMED"
    ensures StatusLabel(Pending) == "PENDING"
    ensures StatusLabel(Rejected) == "REJECTED"
  {
    assert forall k :: 0 <= k < 9 ==> ToUpper("confirmed")[k] == "CONFIRMED"[k];
    assert forall k :: 0 <= k < 7 ==> ToUpper("pending")[k] == "PENDING"[k];
    assert forall k :: 0 <= k < 8 ==> ToUpper("rejected")[k] == "REJECTED"[k];
  }

  /** Each label reads back, lower-cased, as the status it shows. */
  lemma StatusLabelReadsBack(s: Status)
    ensures ParseStatus(ToLower(StatusLabel(s))) == Some(s)
  {
    StatusLabels();
    assert forall k :: 0 <= k < 9 ==> ToLower("CONFIRMED")[k] == "confirmed"[k];
    assert forall k :: 0 <= k < 7 ==> ToLower("PENDING")[k] == "pending"[k];
    assert forall k :: 0 <= k < 8 ==> ToLower("REJECTED")[k] == "rejected"[k];
  }

  /** Different statuses get different labels. */
  lemma StatusLabelInjective(a: Status, b: Status)
    ensures StatusLabel(a) == StatusLabel(b) <==> a == b
  {
    StatusLabelReadsBack(a);
    StatusLabelReadsBack(b);
  }

  /** The row of the participant at `index` (from 0) in the event's registrations:
      numbered from 1, placed below the headers, holding the registration's values
      and a status label that names its status. */
  function ParticipantRow(index: nat, r: Registration): (row: Row)
    ensures row.number == FirstParticipantRow + index && row.serial == index + 1
    ensures row.name == r.name && row.email == r.email && row.phone == r.phone
    ensures ParseStatus(ToLower(row.status)) == Some(r.status)
  {
    StatusLabelReadsBack(r.status);
    Row(FirstParticipantRow + index, index + 1, r.name, r.email, r.phone, StatusLabel(r.status))
  }

  /** The rows of the worksheet, filled in the order of `rs`. */
  function ParticipantRows(rs: seq<Registration>): (rows: seq<Row>)
    ensures |rows| == |rs|
    ensures forall k :: 0 <= k < |rs| ==>
              && rows[k].number == FirstParticipantRow + k && rows[k].serial == k + 1
              && rows[k].name == rs[k].name && rows[k].email == rs[k].email && rows[k].phone == rs[k].phone
              && ParseStatus(ToLower(rows[k].status)) == Some(rs[k].status)
  {
    seq(|rs|, k requires 0 <= k < |rs| => ParticipantRow(k, rs[k]))
  }

  /** The summary row under the participant rows, one blank row below the last. */
  function Summarize(rs: seq<Registration>): (s: Summary)
    ensures s.number == FirstParticipantRow + |rs| + 1
    ensures s.total == s.confirmed + s.pending + s.rejected
  {
    TallyPartition(rs);
    Summary(FirstParticipantRow + |rs| + 1, |rs|, Tally(rs, Confirmed), Tally(rs, Pending), Tally(rs, Rejected))
  }

  /** The worksheet's values: one row per registration, then the summary row one
      blank row below the last, its total the number of rows. */
  function Render(rs: seq<Registration>): (sheet: Sheet)
    ensures |sheet.rows| == |rs| && sheet.summary.total == |sheet.rows|
    ensures sheet.summary.number == FirstParticipantRow + |sheet.rows| + 1
    ensures forall k :: 0 <= k < |sheet.rows| ==> sheet.rows[k].number < sheet.summary.number - 1
  {
    Sheet(ParticipantRows(rs), Summarize(rs))
  }

  /** The number of rows whose status cell reads `text`. */
  function LabelCount(rows: seq<Row>, text: string): nat {
    if rows == [] then 0 else (if rows[0].status == text then 1 else 0) + LabelCount(rows[1..], text)
  }

  /** Each row sits on its own worksheet row, below the headers and above the
      summary, numbered from 1 and copying its registration's values. */
  lemma RowsLayout(rs: seq<Registration>, k: nat)
    requires k < |rs|
    ensures |Render(rs).rows| == |rs|
    ensures Render(rs).rows[k].serial == k + 1
    ensures FirstParticipantRow <= Render(rs).rows[k].number < Render(rs).summary.number - 1
    ensures Render(rs).rows[k].email == rs[k].email && Render(rs).rows[k].status == StatusLabel(rs[k].status)
  {
  }

  /** The rows filled from `rs` at `offset`. */
  function RowsFrom(rs: seq<Registration>, offset: nat): seq<Row> {
    seq(|rs|, k requires 0 <= k < |rs| => ParticipantRow(offset + k, rs[k]))
  }

  /** The first row shows the first registration's status, and the others are the
      rows of the rest, filled one place further down. */
  lemma RowsFromSplit(rs: seq<Registration>, offset: nat)
    requires rs != []
    ensures RowsFrom(rs, offset)[0].status == StatusLabel(rs[0].status)
    ensures RowsFrom(rs, offset)[1..] == RowsFrom(rs[1..], offset + 1)
  {
  }

  lemma {:induction false} LabelCountMatchesTally(rs: seq<Registration>, st: Status, offset: nat)
    ensures LabelCount(RowsFrom(rs, offset), StatusLabel(st)) == Tally(rs, st)
  {
    if rs != [] {
      RowsFromSplit(rs, offset);
      LabelCountMatchesTally(rs[1..], st, offset + 1);
      StatusLabelInjective(rs[0].status, st);
    }
  }

  /** The summary's counts are the tallies of the status column above it. */
  lemma SummaryMatchesRows(rs: seq<Registration>)
    ensures Render(rs).summary.confirmed == LabelCount(Render(rs).rows, "CONFIRMED")
    ensures Render(rs).summary.pending == LabelCount(Render(rs).rows, "PENDING")
    ensures Render(rs).summary.rejected == LabelCount(Render(rs).rows, "REJECTED")
    ensures Render(rs).summary.total == |Render(rs).rows|
  {
    StatusLabels();
    var rows := Render(rs).rows;
    assert rows == RowsFrom(rs, 0);
    LabelCountMatchesTally(rs, Confirmed, 0);
    LabelCountMatchesTally(rs, Pending, 0);
    LabelCountMatchesTally(rs, Rejected, 0);
  }
}
