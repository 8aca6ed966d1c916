/**
  `format_player_card` and `_rus_pos`: the text of one player card, in the
  HTML subset the chat transport renders (bold and links).
 */
module Formatter {
  import opened Text
  import opened Records

  /** The forward's code as the source spells it: the Latin capital H (U+0048). */
  const ForwardCode: string := "H"
  const DefenderCode: string := "З"
  const GoalieCode: string := "В"

  /** Position codes and their labels. */
  const PositionLabels: map<string, string> :=
    map[ForwardCode := "Нападающий", DefenderCode := "Защитник", GoalieCode := "Вратарь"]

  /** `_rus_pos`: the label of the stripped code, or the stripped code itself when it has none. */
  function RusPos(letter: string): (shown: string)
    ensures Strip(letter) == ForwardCode ==> shown == "Нападающий"
    ensures Strip(letter) == DefenderCode ==> shown == "Защитник"
    ensures Strip(letter) == GoalieCode ==> shown == "Вратарь"
    ensures Strip(letter) !in PositionLabels ==> shown == Strip(letter)
    ensures IsStripped(shown)
  {
    var code := Strip(letter);
    if code in PositionLabels then PositionLabels[code] else code
  }

  /** The Cyrillic letter Н (U+041D) is not the forward's key and passes through unchanged. */
  lemma CyrillicEnPassesThrough()
    ensures RusPos("Н") == "Н"
  {
    StripOfStripped("Н");
  }

  /** The four lines every card starts with: name, team, position and the main stat line. */
  function HeaderLines(r: PlayerRecord): seq<string> {
    [ "<b>" + r.name + "</b>",
      "Команда: " + r.team + " (" + r.teamAbbr + ")",
      "Апмлуа: " + RusPos(r.pos),
      "И: " + r.gp + "  Ш: " + r.g + "  А: " + r.a + "  О: " + r.pts + "  +/-: " + r.plusMinus ]
  }

  /** Some optional statistic is present. */
  predicate HasExtras(r: PlayerRecord) {
    r.pim != "" || r.foW != "" || r.foPct != "" || r.toi != ""
  }

  /** One for a statistic that is present, none for an empty one. */
  function Presence(value: string): nat {
    if value == "" then 0 else 1
  }

  /** The part of the extras line for one statistic: its label and value, or nothing when the value is empty. */
  function Part(caption: string, value: string): (part: seq<string>)
    ensures |part| == Presence(value)
    ensures forall x :: x in part <==> value != "" && x == caption + value
  {
    if value != "" then [caption + value] else []
  }

  /** The labelled optional statistics that are present, in column order. */
  function ExtraParts(r: PlayerRecord): (parts: seq<string>)
    ensures |parts| == Presence(r.pim) + Presence(r.foW) + Presence(r.foPct) + Presence(r.toi)
    ensures parts == [] <==> !HasExtras(r)
    ensures forall k :: 0 <= k < |parts| ==> parts[k] != ""
  {
    Part("Штр: ", r.pim) + Part("БВ: ", r.foW) + Part("%БВ: ", r.foPct) + Part("Ср.время: ", r.toi)
  }

  /** The source column a part of the extras line reports, told by its label; 14 for no known label. */
  function ColumnOf(part: string): nat {
    if StartsWith(part, "Штр: ") then 10
    else if StartsWith(part, "БВ: ") then 11
    else if StartsWith(part, "%БВ: ") then 12
    else if StartsWith(part, "Ср.время: ") then 13
    else 14
  }

  /** Each label names its own column: the four labels begin with four different letters. */
  lemma LabelColumns(v: string)
    ensures ColumnOf("Штр: " + v) == 10
    ensures ColumnOf("БВ: " + v) == 11
    ensures ColumnOf("%БВ: " + v) == 12
    ensures ColumnOf("Ср.время: " + v) == 13
  {
    assert ("Штр: " + v)[..5] == "Штр: ";
    assert ("БВ: " + v)[..4] == "БВ: ";
    assert ("БВ: " + v)[0] == 'Б';
    assert ("%БВ: " + v)[..5] == "%БВ: ";
    assert ("%БВ: " + v)[0] == '%';
    assert ("Ср.время: " + v)[..10] == "Ср.время: ";
    assert ("Ср.время: " + v)[0] == 'С';
  }

  /** Every part for one statistic reports that statistic's column. */
  lemma PartColumn(caption: string, value: string, column: nat)
    requires ColumnOf(caption + value) == column
    ensures forall y :: y in Part(caption, value) ==> ColumnOf(y) == column
  {
  }

  /** Every present statistic has its labelled part, and an empty one has none. */
  lemma ExtraPartsMembers(r: PlayerRecord)
    ensures ("Штр: " + r.pim) in ExtraParts(r) <==> r.pim != ""
    ensures ("БВ: " + r.foW) in ExtraParts(r) <==> r.foW != ""
    ensures ("%БВ: " + r.foPct) in ExtraParts(r) <==> r.foPct != ""
    ensures ("Ср.время: " + r.toi) in ExtraParts(r) <==> r.toi != ""
  {
    LabelColumns(r.pim);
    LabelColumns(r.foW);
    LabelColumns(r.foPct);
    LabelColumns(r.toi);
    PartColumn("Штр: ", r.pim, 10);
    PartColumn("БВ: ", r.foW, 11);
    PartColumn("%БВ: ", r.foPct, 12);
    PartColumn("Ср.время: ", r.toi, 13);
  }

  /** All parts report columns 10 to 13, each strictly after the one before. */
  predicate InColumnOrder(parts: seq<string>, last: nat) {
    && (forall k :: 0 <= k < |parts| ==> 10 <= ColumnOf(parts[k]) <= last)
    && (forall i, j :: 0 <= i < j < |parts| ==> ColumnOf(parts[i]) < ColumnOf(parts[j]))
  }

  lemma ExtendInColumnOrder(parts: seq<string>, last: nat, caption: string, value: string, column: nat)
    requires InColumnOrder(parts, last) && last < column <= 13
    requires ColumnOf(caption + value) == column
    ensures InColumnOrder(parts + Part(caption, value), column)
  {
    var more := parts + Part(caption, value);
    if value != "" {
      assert more[|parts|] == caption + value;
      forall i, j | 0 <= i < j < |more|
        ensures ColumnOf(more[i]) < ColumnOf(more[j])
      {
        assert more[i] == parts[i];
      }
    } else {
      assert more == parts;
    }
  }

  /** The parts come in the order of their source columns, 10 to 13, each column at most once. */
  lemma ExtraPartsInColumnOrder(r: PlayerRecord)
    ensures forall k :: 0 <= k < |ExtraParts(r)| ==> 10 <= ColumnOf(ExtraParts(r)[k]) <= 13
    ensures forall i, j :: 0 <= i < j < |ExtraParts(r)| ==> ColumnOf(ExtraParts(r)[i]) < ColumnOf(ExtraParts(r)[j])
  {
    LabelColumns(r.pim);
    LabelColumns(r.foW);
    LabelColumns(r.foPct);
    LabelColumns(r.toi);
    ExtendInColumnOrder([], 9, "Штр: ", r.pim, 10);
    assert [] + Part("Штр: ", r.pim) == Part("Штр: ", r.pim);
    ExtendInColumnOrder(Part("Штр: ", r.pim), 10, "БВ: ", r.foW, 11);
    var b := Part("Штр: ", r.pim) + Part("БВ: ", r.foW);
    ExtendInColumnOrder(b, 11, "%БВ: ", r.foPct, 12);
    ExtendInColumnOrder(b + Part("%БВ: ", r.foPct), 12, "Ср.время: ", r.toi, 13);
  }

  function LinkLine(url: string): string {
    "<a href=\"" + url + "\">Профиль на Allhockey</a>"
  }

  /** The lines of the card: the header, then the optional-statistics line, then the profile link. */
  function CardLines(r: PlayerRecord): (lines: seq<string>)
    ensures |lines| == 4 + (if HasExtras(r) then 1 else 0) + (if r.url != "" then 1 else 0)
    ensures lines[..4] == HeaderLines(r)
    ensures HasExtras(r) ==> lines[4] == Join(ExtraParts(r), " | ")
    ensures r.url != "" ==> lines[|lines| - 1] == LinkLine(r.url)
  {
    var extra := ExtraParts(r);
    HeaderLines(r)
    + (if extra != [] then [Join(extra, " | ")] else [])
    + (if r.url != "" then [LinkLine(r.url)] else [])
  }

  /** `format_player_card`: the card's lines joined by newlines. */
  function FormatPlayerCard(r: PlayerRecord): string {
    Join(CardLines(r), "\n")
  }

  /** No field of the record holds a line break. */
  predicate NoNewlines(r: PlayerRecord) {
    && '\n' !in r.name && '\n' !in r.team && '\n' !in r.teamAbbr && '\n' !in r.pos
    && '\n' !in r.pts && '\n' !in r.g && '\n' !in r.a && '\n' !in r.gp && '\n' !in r.plusMinus
    && '\n' !in r.pim && '\n' !in r.foW && '\n' !in r.foPct && '\n' !in r.toi && '\n' !in r.url
  }

  lemma StripKeeps(s: string, c: char)
    requires c !in s
    ensures c !in Strip(s)
  {
    StripDropsSpace(s);
  }

  lemma {:induction false} JoinAvoids(parts: seq<string>, sep: string, c: char)
    requires c !in sep
    requires forall k :: 0 <= k < |parts| ==> c !in parts[k]
    ensures c !in Join(parts, sep)
  {
    if |parts| > 1 {
      JoinAvoids(parts[1..], sep, c);
    }
  }

  lemma NameAndTeamLinesWithoutNewlines(r: PlayerRecord)
    requires NoNewlines(r)
    ensures '\n' !in HeaderLines(r)[0] && '\n' !in HeaderLines(r)[1]
  {
  }

  lemma PositionLineWithoutNewlines(r: PlayerRecord)
    requires NoNewlines(r)
    ensures '\n' !in HeaderLines(r)[2]
  {
    StripKeeps(r.pos, '\n');
  }

  lemma StatLineWithoutNewlines(r: PlayerRecord)
    requires NoNewlines(r)
    ensures '\n' !in HeaderLines(r)[3]
  {
  }

  lemma ExtraPartsWithoutNewlines(r: PlayerRecord)
    requires NoNewlines(r)
    ensures forall k :: 0 <= k < |ExtraParts(r)| ==> '\n' !in ExtraParts(r)[k]
  {
  }

  lemma OptionalLinesWithoutNewlines(r: PlayerRecord)
    requires NoNewlines(r)
    ensures '\n' !in Join(ExtraParts(r), " | ")
    ensures '\n' !in LinkLine(r.url)
  {
    ExtraPartsWithoutNewlines(r);
    JoinAvoids(ExtraParts(r), " | ", '\n');
  }

  /** No line of the card holds a line break when no field does. */
  lemma CardLinesWithoutNewlines(r: PlayerRecord)
    requires NoNewlines(r)
    ensures forall k :: 0 <= k < |CardLines(r)| ==> '\n' !in CardLines(r)[k]
  {
    NameAndTeamLinesWithoutNewlines(r);
    PositionLineWithoutNewlines(r);
    StatLineWithoutNewlines(r);
    OptionalLinesWithoutNewlines(r);
    var lines := CardLines(r);
    forall k | 0 <= k < |lines|
      ensures '\n' !in lines[k]
    {
      if k < 4 {
        assert lines[k] == lines[..4][k];
      }
    }
  }

  /**
    Read back line by line, the card is the four header lines, then the
    optional-statistics line exactly when some optional statistic is present,
    then the profile link exactly when there is a link.
   */
  lemma CardLayout(r: PlayerRecord)
    requires NoNewlines(r)
    ensures var lines := Split(FormatPlayerCard(r), '\n');
      && |lines| == 4 + (if HasExtras(r) then 1 else 0) + (if r.url != "" then 1 else 0)
      && lines[..4] == HeaderLines(r)
      && (HasExtras(r) ==> lines[4] == Join(ExtraParts(r), " | "))
      && (r.url != "" ==> lines[|lines| - 1] == LinkLine(r.url))
  {
    CardLinesWithoutNewlines(r);
    SplitJoin(CardLines(r), '\n');
  }

  /** A record without optional statistics and without a link gives just the four header lines. */
  lemma BareCard(r: PlayerRecord)
    requires !HasExtras(r) && r.url == ""
    ensures FormatPlayerCard(r) == Join(HeaderLines(r), "\n")
  {
    assert CardLines(r) == HeaderLines(r);
  }
}
