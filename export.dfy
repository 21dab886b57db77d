/** The report downloads: the table written to `report.csv` (app.py:221-225) and the text of the
    cells drawn into `report.pdf` (app.py:268-277). Character escaping, fonts and layout belong to
    the `csv` and `fpdf` libraries and are not modelled. */
module Export {
  import opened Filters

  /** The header row (app.py:223 and 268). */
  const Headers: seq<string> :=
    ["Cognome", "Nome", "Assistito", "Città", "Accoglienza", "Data Visita", "Necessità", "Cosa Migliorare"]

  /** The PDF column widths (app.py:269). */
  const ColumnWidths: seq<nat> := [25, 25, 25, 25, 25, 25, 25, 35]

  /** A report row as the tuple `fetchall` returns, in the column order of the query. */
  function Cells(r: ReportRow): (cells: seq<string>)
    ensures |cells| == 8
  {
    [r.cognome, r.nome, r.assistitoNome, r.citta, r.accoglienza, r.dataVisita, r.necessita, r.cosaMigliorare]
  }

  /** The rows handed to `writer.writerow`: the header, then one row per report row. */
  function CsvTable(rows: seq<ReportRow>): seq<seq<string>>
  {
    [Headers] + seq(|rows|, i requires 0 <= i < |rows| => Cells(rows[i]))
  }

  /** The CSV table has the header first and then every report row, in order, each as wide as the
      header. */
  lemma CsvTableShape(rows: seq<ReportRow>)
    ensures |CsvTable(rows)| == |rows| + 1
    ensures CsvTable(rows)[0] == Headers
    ensures forall i :: 0 <= i < |rows| ==> CsvTable(rows)[i + 1] == Cells(rows[i])
    ensures forall line :: line in CsvTable(rows) ==> |line| == 8
  {
    var t := CsvTable(rows);
    assert |Headers| == 8;
    forall line | line in t
      ensures |line| == 8
    {
      var k :| 0 <= k < |t| && t[k] == line;
      if k > 0 {
        assert line == Cells(rows[k - 1]);
      }
    }
  }

  /** `str(item)[:50]` (app.py:275). */
  function Truncate(s: string): (r: string)
    ensures |r| <= 50
    ensures |s| <= 50 ==> r == s
    ensures |s| > 50 ==> |r| == 50
    ensures r <= s
  {
    if |s| <= 50 then s else s[..50]
  }

  /** The cells of one PDF line: `zip(visita, col_widths)` with every item truncated. */
  function PdfLine(r: ReportRow): (line: seq<(string, nat)>)
    ensures |line| == |ColumnWidths|
    ensures forall i :: 0 <= i < |line| ==>
      line[i].0 == Truncate(Cells(r)[i]) && line[i].1 == ColumnWidths[i]
  {
    var cells := Cells(r);
    seq(|ColumnWidths|, i requires 0 <= i < |ColumnWidths| => (Truncate(cells[i]), ColumnWidths[i]))
  }

  /** A cell of a PDF line shows the beginning of its value, and the whole value when it has at most
      50 characters. */
  lemma PdfCellsArePrefixes(r: ReportRow, i: nat)
    requires i < |ColumnWidths|
    ensures PdfLine(r)[i].0 <= Cells(r)[i]
    ensures |Cells(r)[i]| <= 50 ==> PdfLine(r)[i].0 == Cells(r)[i]
  {
  }
}
