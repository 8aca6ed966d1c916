/** The player record: one data row of the league statistics table. */
module Records {

  /**
    Every field is kept as the text of its cell. The four optional columns
    (`pim`, `foW`, `foPct`, `toi`) and the profile link `url` are `""` when
    the row does not provide them.
   */
  datatype PlayerRecord = PlayerRecord(
    name: string,
    team: string,
    teamAbbr: string,
    pos: string,
    pts: string,
    g: string,
    a: string,
    gp: string,
    plusMinus: string,
    pim: string,
    foW: string,
    foPct: string,
    toi: string,
    url: string)
}
