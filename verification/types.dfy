/**
 * The records the extraction layer produces (the interfaces of ts/types.ts),
 * and the runtime faults a parse can raise.
 *
 * Numbers: a field filled by `parseInt` is an `Option<int>`, where `None`
 * stands for `NaN`. A field filled by `parseFloat` is kept opaque, as the
 * text that was handed to `parseFloat`.
 */
module Types {
  import opened Wrappers

  /** The value `parseFloat(text)` — floating point is not interpreted. */
  datatype FloatField = ParsedFloat(text: string)

  datatype Team = Team(
    id: Option<int>,
    short_name: string,
    name: string,
    owner_name: string,
    division: Option<string>,
    record: Option<string>)

  /** A team seen inside one matchup, with its live scoring fields. */
  datatype TeamMatchup = TeamMatchup(
    team: Team,
    current_points: FloatField,
    projected_points: FloatField,
    mins_left: Option<int>,
    yet_to_play: Option<int>,
    in_play: Option<int>)

  datatype Matchup = Matchup(home_team: TeamMatchup, away_team: TeamMatchup)

  datatype PlayerSeasonStatistics = PlayerSeasonStatistics(
    player_rank: Option<int>,
    total_points: FloatField,
    average_points: FloatField,
    last_game_points: FloatField)

  datatype Player = Player(
    id: int,
    name: string,
    team: string,
    season_statistics: PlayerSeasonStatistics)

  datatype PlayerMatchup = PlayerMatchup(
    projected_or_current_points: FloatField,
    opponent_rank: int,
    percent_start: FloatField,
    percent_own: FloatField,
    percent_own_delta: FloatField)

  datatype RosterSlot = RosterSlot(
    slot: string,
    player: Player,
    opponent: string,
    gameStart: string,
    matchup: Option<PlayerMatchup>)

  /** `week` is `None` when the header text did not parse (NaN). */
  datatype Roster = Roster(starters: seq<RosterSlot>, bench: seq<RosterSlot>, week: Option<int>)

  /** The exceptions a parse can raise. */
  datatype Fault =
    | NullActiveList          // a player row pushed while no header has been seen
    | NoOpponentRankDigits    // the opponent-rank regex found no digit run
    | MissingTeamRow          // a matchup block has fewer than two rows
    | MissingIdAttribute      // a matchup team row has no `id` attribute
    | UnknownParser(key: string)
    | NotAParser(key: string) // the registered entry has no `parse`

  datatype Result<+T> = Ok(value: T) | Err(fault: Fault)
}
