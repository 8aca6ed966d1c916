/**
  The row extractor of `fetch_table_rows`: pick the statistics table out of
  an already parsed page and turn each of its data rows into a PlayerRecord.
  The page is given as the parser would see it: its tables in document order,
  each with the stripped texts of its header cells and, per table row, its
  data cells; a cell has its stripped text and its first anchor, if any.
 */
module Extractor {
  import opened Wrappers
  import opened Text
  import opened Records

  const PlayerHeader: string := "Игрок"
  const TeamHeader: string := "Команда"
  /** Rows with fewer cells than this are not data rows and are skipped. */
  const MinCells: nat := 10
  /** Prepended to a root-relative profile link. */
  const Origin: string := "https://allhockey.ru"

  datatype Anchor = Anchor(text: string, href: Option<string>)
  datatype Cell = Cell(text: string, anchor: Option<Anchor>)
  type Row = seq<Cell>
  datatype Table = Table(headers: seq<string>, rows: seq<Row>)
  type Document = seq<Table>

  /** The table carries both the "player" and the "team" header labels. */
  predicate IsStatsTable(t: Table) {
    PlayerHeader in t.headers && TeamHeader in t.headers
  }

  /** Index of the first statistics table of the page, if there is one. */
  function FirstStatsTable(doc: Document): (k: Option<nat>)
    ensures k.Some? ==> k.value < |doc| && IsStatsTable(doc[k.value])
    ensures k.Some? ==> forall j :: 0 <= j < k.value ==> !IsStatsTable(doc[j])
    ensures k.None? ==> forall j :: 0 <= j < |doc| ==> !IsStatsTable(doc[j])
  {
    if doc == [] then None
    else if IsStatsTable(doc[0]) then Some(0)
    else match FirstStatsTable(doc[1..])
      case None => None
      case Some(i) => Some(i + 1)
  }

  /**
    The table the extractor reads: the first statistics table; failing that,
    the first table of the page; on a page without tables, none.
   */
  function TargetTable(doc: Document): (t: Option<Table>)
    ensures doc == [] ==> t == None
    ensures doc != [] && (forall j :: 0 <= j < |doc| ==> !IsStatsTable(doc[j])) ==> t == Some(doc[0])
    ensures forall i :: 0 <= i < |doc| && IsStatsTable(doc[i]) && (forall j :: 0 <= j < i ==> !IsStatsTable(doc[j]))
                        ==> t == Some(doc[i])
  {
    match FirstStatsTable(doc)
    case Some(i) => Some(doc[i])
    case None => if doc == [] then None else Some(doc[0])
  }

  /** The search loop of `fetch_table_rows` with its fall-back to the first table. */
  method SelectTarget(doc: Document) returns (target: Option<Table>)
    ensures target == TargetTable(doc)
  {
    target := None;
    var i := 0;
    while i < |doc|
      invariant 0 <= i <= |doc|
      invariant target == None
      invariant forall j :: 0 <= j < i ==> !IsStatsTable(doc[j])
    {
      if PlayerHeader in doc[i].headers && TeamHeader in doc[i].headers {
        target := Some(doc[i]);
        break;
      }
      i := i + 1;
    }
    if target == None {
      target := if |doc| > 0 then Some(doc[0]) else None;
    }
  }

  /** The text of the cell's anchor when it has one, else the cell's own text. */
  function CellName(c: Cell): string {
    match c.anchor
    case Some(a) => a.text
    case None => c.text
  }

  /** The text of optional column `i`, or `""` when the row is too short to have it. */
  function OptionalText(cells: Row, i: nat): string {
    if |cells| > i then cells[i].text else ""
  }

  /** A root-relative link made absolute against the site's origin; any other link kept. */
  function AbsoluteUrl(href: string): (url: string)
    ensures StartsWith(href, "/") ==> url == Origin + href
    ensures !StartsWith(href, "/") ==> url == href
    ensures !StartsWith(url, "/")
  {
    if StartsWith(href, "/") then
      assert (Origin + href)[0] == 'h';
      Origin + href
    else href
  }

  /** The profile link of the player cell: its anchor's href, absolute, or `""`. */
  function ProfileUrl(c: Cell): string {
    match c.anchor
    case Some(Anchor(_, Some(href))) => AbsoluteUrl(href)
    case _ => ""
  }

  /** The record built from one data row, reading each field at its fixed column. */
  function ExtractRow(cells: Row): (r: PlayerRecord)
    requires |cells| >= MinCells
    ensures r.name == (if cells[1].anchor.Some? then cells[1].anchor.value.text else cells[1].text)
    ensures r.team == (if cells[2].anchor.Some? then cells[2].anchor.value.text else cells[2].text)
    ensures r.teamAbbr == cells[3].text && r.pos == cells[4].text && r.pts == cells[5].text
    ensures r.g == cells[6].text && r.a == cells[7].text && r.gp == cells[8].text
    ensures r.plusMinus == cells[9].text
    ensures r.pim == (if |cells| <= 10 then "" else cells[10].text)
    ensures r.foW == (if |cells| <= 11 then "" else cells[11].text)
    ensures r.foPct == (if |cells| <= 12 then "" else cells[12].text)
    ensures r.toi == (if |cells| <= 13 then "" else cells[13].text)
    ensures cells[1].anchor.None? || cells[1].anchor.value.href.None? ==> r.url == ""
    ensures cells[1].anchor.Some? && cells[1].anchor.value.href.Some? ==>
              r.url == AbsoluteUrl(cells[1].anchor.value.href.value)
  {
    PlayerRecord(
      name := CellName(cells[1]),
      team := CellName(cells[2]),
      teamAbbr := cells[3].text,
      pos := cells[4].text,
      pts := cells[5].text,
      g := cells[6].text,
      a := cells[7].text,
      gp := cells[8].text,
      plusMinus := cells[9].text,
      pim := OptionalText(cells, 10),
      foW := OptionalText(cells, 11),
      foPct := OptionalText(cells, 12),
      toi := OptionalText(cells, 13),
      url := ProfileUrl(cells[1]))
  }

  /** The records of a table's rows, in document order, skipping the short rows. */
  function TableRecords(rows: seq<Row>): (rs: seq<PlayerRecord>)
    ensures |rs| <= |rows|
    ensures forall k :: 0 <= k < |rs| ==> !StartsWith(rs[k].url, "/")
  {
    if rows == [] then []
    else
      var last := rows[|rows| - 1];
      TableRecords(rows[..|rows| - 1]) + (if |last| < MinCells then [] else [ExtractRow(last)])
  }

  /** One record per data row and nothing else: extraction distributes over concatenation. */
  lemma {:induction false} TableRecordsAppend(a: seq<Row>, b: seq<Row>)
    ensures TableRecords(a + b) == TableRecords(a) + TableRecords(b)
  {
    if b != [] {
      var last := b[|b| - 1];
      assert (a + b)[..|a + b| - 1] == a + b[..|b| - 1];
      TableRecordsAppend(a, b[..|b| - 1]);
    } else {
      assert a + b == a;
    }
  }

  /** A single row yields its record when it has at least ten cells, and nothing otherwise. */
  lemma TableRecordsOfRow(row: Row)
    ensures |row| < MinCells ==> TableRecords([row]) == []
    ensures |row| >= MinCells ==> TableRecords([row]) == [ExtractRow(row)]
  {
    assert [row][..0] == [];
  }

  /** A full fourteen-cell row fills every optional field from its own column. */
  lemma FullRowFillsOptionalFields(row: Row)
    requires |row| == 14
    ensures var r := ExtractRow(row);
      r.pim == row[10].text && r.foW == row[11].text && r.foPct == row[12].text && r.toi == row[13].text
  {
  }

  /** The row loop of `fetch_table_rows`. */
  method ExtractRows(target: Table) returns (rows: seq<PlayerRecord>)
    ensures rows == TableRecords(target.rows)
  {
    rows := [];
    for i := 0 to |target.rows|
      invariant rows == TableRecords(target.rows[..i])
    {
      assert target.rows[..i + 1][..i] == target.rows[..i];
      var tds := target.rows[i];
      if |tds| < MinCells {
        continue;
      }
      var playerName := if tds[1].anchor.Some? then tds[1].anchor.value.text else tds[1].text;
      var teamName := if tds[2].anchor.Some? then tds[2].anchor.value.text else tds[2].text;
      var pim := if |tds| > 10 then tds[10].text else "";
      var foW := if |tds| > 11 then tds[11].text else "";
      var foPct := if |tds| > 12 then tds[12].text else "";
      var toi := if |tds| > 13 then tds[13].text else "";
      var playerUrl := if tds[1].anchor.Some? && tds[1].anchor.value.href.Some? then tds[1].anchor.value.href.value else "";
      if StartsWith(playerUrl, "/") {
        playerUrl := Origin + playerUrl;
      }
      rows := rows + [PlayerRecord(
        name := playerName,
        team := teamName,
        teamAbbr := tds[3].text,
        pos := tds[4].text,
        pts := tds[5].text,
        g := tds[6].text,
        a := tds[7].text,
        gp := tds[8].text,
        plusMinus := tds[9].text,
        pim := pim,
        foW := foW,
        foPct := foPct,
        toi := toi,
        url := playerUrl)];
    }
    assert target.rows[..|target.rows|] == target.rows;
  }
}
