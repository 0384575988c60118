# ESPN fantasy-football extraction layer, in Dafny

This project models the part of the scraper that turns ESPN fantasy-football
pages into typed records. It covers a registry of named page parsers and the
three parsers registered in it:

- **clubhouse** reads a team's roster. A three-state machine walks the rows of
  the roster tables: before any header, then starters, then bench.
- **owners** reads the league's teams, one team per `.ownerRow` row. A row
  whose id cell is blank is skipped.
- **scoreboard** reads the week's matchups, one per `table.matchup` block. The
  first row of a block is the away team and the second is the home team. Live
  counters are read from the block's scoring-details element, through element
  ids built from the team id.

The page itself is abstract (`Document`). A `Scope` holds what the three
selectors the parsers use would return: the roster tables, the owner tables and
the matchup blocks, in document order. A table is the sequence of its child
rows. A row has:

- optional `class` and `id` attributes;
- its `th`/`td` cells in order;
- the text under each class selector a parser queries inside it.

`parseInt` follows ECMAScript (`JsText.ParseInt`): leading white space is
skipped, then an optional sign and an optional `0x` prefix are read, then a
digit run. `None` stands for `NaN`. `parseFloat` results stay opaque: the model
keeps the text they were read from. A thrown exception is an `Err` carrying a
`Fault`.

Modules:
- `JsText`: string trimming, `indexOf`, `split`/`join`, `parseInt` and integer
  formatting, with their round trips.
- `Document`: the abstract page.
- `Types`: the records of `ts/types.ts` and the faults.
- `Clubhouse`, `Owners`, `Scoreboard`: the three parsers.
- `ParserRegistry`: the `ParserService` class and the `ParseContext` class.

Each page walk is a `method` with a loop, proved equal to a specification
function. The lemmas state what that function computes without the loop.

The model follows the code as written, including these behaviours:
- `opponent_rank` is the constant 1. The digit run the code reads from the rank
  cell is discarded.
- A header whose week does not parse gives a `NaN` week, not 0.
- The name/team split applies only when the first comma is not at index 0.
- Some row-level anomalies make the parse fail rather than being skipped:
  - a player row before any header (a push onto a null list);
  - a rank cell that is neither `--` nor holds a digit (indexing a null regex
    match);
  - a matchup block with fewer than two rows, or a team row without an `id`.
- `parseFragment` returns nothing; the parser's result is dropped.
- For an unknown key, `parseHtmlContent` never builds its `Error`: evaluating
  the message throws a `TypeError` first. `keys()` returns an iterator, which
  has no `map` before ES2025, and whose mapped result has no `join` from
  ES2025 on. `parseFragment` with an unknown key also throws a `TypeError`,
  from calling `parse` on `undefined`. The model records both as
  `UnknownParser(key)`.

## Model

| member | source | states |
|---|---|---|
| Clubhouse.KindOf | ts/parsers/Clubhouse.ts:26-31 | A row is a header exactly when its non-empty class contains `tableHead`. It is a player row exactly when the class contains `pncPlayerRow` and not `tableHead`. So the header test wins when both markers appear. |
| Clubhouse.IgnoredRowChangesNothing | ts/parsers/Clubhouse.ts:26-28 | A row without a class, or whose class holds neither marker, leaves the loop state unchanged. |
| Clubhouse.WeekOfHeader | ts/parsers/Clubhouse.ts:34-35 | A header whose second `th` reads "word N" or "word N …" sets the week to N. |
| Clubhouse.NameAndTeam | ts/parsers/Clubhouse.ts:69-73 | With no comma, or a comma first, the name is the untrimmed text and the team is "N/A". |
| Clubhouse.NameAndTeamShape | ts/parsers/Clubhouse.ts:73-78 | With a comma after the first character, the name is trimmed and holds no comma, and the team holds no comma and no space. |
| Clubhouse.NameAndTeamOfEntry | ts/parsers/Clubhouse.ts:73-78 | For "Name,rest" with any number of commas in rest, the name is the trimmed "Name" and the team is the first space-separated word of the trimmed text between the first comma and the next one (or the end). |
| Clubhouse.ParsePlayer | ts/parsers/Clubhouse.ts:68-91 | The player id is 1. On a row of `td` cells, the rank is `parseInt` of the 8th cell and the total, average and last-game points are the 9th, 10th and 11th cells. |
| Clubhouse.WeekOf | ts/parsers/Clubhouse.ts:34-35 | A week is read only when the second `th` holds a space; otherwise it is `NaN`. |
| Clubhouse.FirstDigitRun | ts/parsers/Clubhouse.ts:102 | The regular expression `([0-9]+)` finds no match exactly when the text has no ASCII digit. A match is a non-empty run of digits. |
| Clubhouse.ParsePlayerMatchup | ts/parsers/Clubhouse.ts:93-111 | The matchup is null exactly when cell 14 is "--". The parse fails exactly when the cell is not "--" and holds no digit. Otherwise `opponent_rank` is 1. |
| Clubhouse.ParseRosterSlot | ts/parsers/Clubhouse.ts:55-66 | The slot fails exactly when its matchup does. The player id is 1. The matchup is absent exactly when cell 14 is "--". The opponent is the fifth child cell. |
| Clubhouse.Parse | ts/parsers/Clubhouse.ts:9-53 | The loop over the roster tables' rows computes `ParseScope`. The result is null exactly when no roster table matched. |
| Clubhouse.VisitRow | ts/parsers/Clubhouse.ts:23-50 | The `each` callback on one row performs exactly one step of the row state machine for that row's classification. |
| Clubhouse.RunAppend | ts/parsers/Clubhouse.ts:23-50 | Running the loop over two pieces of rows is running it over the first piece, then over the second from the state reached. |
| Clubhouse.RunBeforeHeader | ts/parsers/Clubhouse.ts:21-49 | Before any header, rows that are not player rows change nothing, and any player row is a fault. |
| Clubhouse.RunStarters | ts/parsers/Clubhouse.ts:36-49 | After the first header and before the second, each player slot is appended to the starters in order. Bench and week are untouched. |
| Clubhouse.RunBench | ts/parsers/Clubhouse.ts:38-49 | From the second header on, each player slot is appended to the bench in order, through any further headers. Starters and week are untouched. |
| Clubhouse.ParseWithoutHeader | ts/parsers/Clubhouse.ts:15-21 | Rows with no header give the empty roster for week 0, unless a player row makes the parse fail. |
| Clubhouse.ParseOneHeader | ts/parsers/Clubhouse.ts:31-49 | With one header, the week is the header's and the starters are the player rows after it. The bench is empty. A player row before the header is a fault. |
| Clubhouse.ParseTwoHeaders | ts/parsers/Clubhouse.ts:31-49 | With two or more headers, the first header alone sets the week. The starters are the player rows between the first two headers, and the bench is every player row after the second. |
| Clubhouse.RosterOfTable | ts/parsers/Clubhouse.ts:12-52 | The same, end to end, for a roster table of rows with two headers. |
| Owners.ParseOwnerRow | ts/parsers/Owners.ts:27-40 | A row gives no team exactly when its first `td` is empty or white space only. A team has a division and no record. |
| Owners.Present | ts/parsers/Owners.ts:16-22 | There are no more collected teams than rows. |
| Owners.PresentMembers | ts/parsers/Owners.ts:16-22 | The collected teams are exactly the values present. |
| Owners.Parse | ts/parsers/Owners.ts:9-25 | The loop over the owner tables' children computes `ParseScope`. The result is null exactly when no table matched. |
| Owners.TeamsMembers | ts/parsers/Owners.ts:16-22 | A team is in the result exactly when some child row yields it. |
| Owners.TeamsAppend | ts/parsers/Owners.ts:16-22 | The teams of consecutive rows are consecutive, so row order is kept. |
| Owners.TeamsOfOwnerRows | ts/parsers/Owners.ts:16-22 | When every row yields a team, there is one team per row, at the same position. |
| Owners.TeamsSkipped | ts/parsers/Owners.ts:19-31 | Rows that are not owner rows, or whose id cell is blank, add nothing. |
| Owners.TeamsCount | ts/parsers/Owners.ts:16-22 | The number of teams is the number of rows minus the rows that yield none. |
| Owners.NoOwnerRows | ts/parsers/Owners.ts:10-24 | A table that is present but has no owner row gives an empty list, not null. |
| Owners.HeaderAndThreeRows | ts/parsers/Owners.ts:16-22 | A header row followed by three owner rows gives exactly those three teams, in order. |
| Owners.OwnerIdNotANumber | ts/parsers/Owners.ts:29-34 | A non-blank id cell that does not start with a number still yields a team, with a `NaN` id. |
| Owners.OwnerRowOfCells | ts/parsers/Owners.ts:29-39 | Five `td` cells, the first a number after optional white space, give the team with that id. Cell 2 is the short name, cell 3 the name, cell 4 the division and cell 5 the owner. There is no record. |
| Scoreboard.TrimParens | ts/parsers/Scoreboard.ts:49-51 | The trimmed text neither starts nor ends with a parenthesis, and it is empty exactly when the text is all parentheses. |
| Scoreboard.TrimParensSlice | ts/parsers/Scoreboard.ts:49-51 | The trimmed text is a slice of the text with only parentheses before and after it. |
| Scoreboard.TrimParensIdempotent | ts/parsers/Scoreboard.ts:49-51 | Trimming parentheses twice is trimming once. |
| Scoreboard.TrimParensOfWrapped | ts/parsers/Scoreboard.ts:49-51 | "(X)" trims to X when X does not start or end with a parenthesis. |
| Scoreboard.TeamIdOf | ts/parsers/Scoreboard.ts:43-44 | A team id is read only from an id attribute holding '_'. |
| Scoreboard.TeamIdWithoutSegment | ts/parsers/Scoreboard.ts:43-44 | An id attribute without '_' gives a `NaN` team id. |
| Scoreboard.TeamIdOfText | ts/parsers/Scoreboard.ts:43-44 | An id attribute "prefix_N" or "prefix_N_rest" gives team id N. |
| Scoreboard.DetailsId | ts/parsers/Scoreboard.ts:54-57 | A lookup id is its prefix followed by a non-empty rendering of the team id, which `parseInt` reads back as that team id (`NaN` included). |
| Scoreboard.DetailsIdInjective | ts/parsers/Scoreboard.ts:54-57 | Under one prefix, different team ids (`NaN` included) name different elements. |
| Scoreboard.DetailsIdsDistinct | ts/parsers/Scoreboard.ts:54-57 | The in-play, yet-to-play, minutes-left and projection ids never coincide, for any two team ids. |
| Scoreboard.ParseMatchupTeam | ts/parsers/Scoreboard.ts:41-59 | A team row fails exactly when the row is missing or has no `id` attribute. |
| Scoreboard.MatchupTeamShape | ts/parsers/Scoreboard.ts:41-59 | A team row fails exactly when it is missing or has no `id`. Otherwise the team id is parsed from the `id`, the division is null, and the record and short name are parenthesis-free. |
| Scoreboard.ScoringFieldsOfTeam | ts/parsers/Scoreboard.ts:43-56 | With row id "prefix_N…" and the details element holding team N's counters, the team gets id N and exactly those in-play, yet-to-play and minutes-left values. |
| Scoreboard.ParseMatchup | ts/parsers/Scoreboard.ts:26-39 | A parsed matchup needs at least two rows in its block. |
| Scoreboard.MatchupRows | ts/parsers/Scoreboard.ts:26-39 | A block with fewer than two rows fails. A parsed matchup has the second row as the home team and the first row as the away team, both read against the block's details. |
| Scoreboard.AllOkMeaning | ts/parsers/Scoreboard.ts:19-21 | Collecting succeeds exactly when every block parses, and then holds one matchup per block, in order. Otherwise its fault is that of the first failing block. |
| Scoreboard.Parse | ts/parsers/Scoreboard.ts:10-24 | The loop over the blocks computes `ParseScope`. The result is null exactly when there is no block. |
| Scoreboard.ParseEveryBlock | ts/parsers/Scoreboard.ts:19-23 | When every block parses, the result has exactly one matchup per block, at the block's position. |
| Scoreboard.ShortBlockFails | ts/parsers/Scoreboard.ts:28-35 | One block with fewer than two rows makes the whole parse fail. |
| ParserRegistry.Invoke | ts/parsers/ParserService.ts:36 | Running a parser's `parse` gives that parser's specified result. |
| ParserRegistry.Dispatch | ts/parsers/ParserService.ts:30-36 | An unknown key is a fault naming the key. An entry without `parse` is a fault. |
| ParserRegistry.Register | ts/parsers/ParserService.ts:43-61 | Registering an object never removes a key. |
| ParserRegistry.SetEach | ts/parsers/ParserService.ts:58 | Registering a list adds exactly the list's names and keeps every other entry. |
| ParserRegistry.SetEachLastWins | ts/parsers/ParserService.ts:58 | Of several objects with the same name, the last one registered is kept. |
| ParserRegistry.RegisterWithoutChildren | ts/parsers/ParserService.ts:50-57 | An object without `provide`, or whose `provide` returns null, registers itself when it has `parse` and a name, and otherwise nothing. |
| ParserRegistry.RegisterKeys | ts/parsers/ParserService.ts:50-60 | Registration adds the object's own name (given `parse` and a name) and its children's names, and leaves every other entry unchanged. |
| ParserRegistry.BuiltinContents | ts/parsers/ParserService.ts:20-25 | After construction the keys are exactly "clubhouse", "owners" and "scoreboard", each holding its own parser. |
| ParserRegistry.BuiltinDispatch | ts/parsers/ParserService.ts:27-37 | With the constructed map, each of the three keys runs its parser on the whole document. Any other key is a fault. |
| ParserRegistry.ParserService.constructor | ts/parsers/ParserService.ts:20-25 | The map holds the three built-in parsers. |
| ParserRegistry.ParserService.AddParsers | ts/parsers/ParserService.ts:43-61 | The map becomes the registration of the object into the old map. |
| ParserRegistry.ParserService.GetParser | ts/parsers/ParserService.ts:39-40 | Lookup finds an entry exactly when the key is registered, and returns that entry. It reads the map and changes nothing. |
| ParserRegistry.ParserService.ParseHtmlContent | ts/parsers/ParserService.ts:27-37 | Parsing a page under a key is the dispatch of that key on the page. |
| ParserRegistry.BuiltinFragment | ts/parsers/ParserService.ts:68-71 | With the constructed map, a fragment parse under any key other than the three built-in ones is a fault naming the key. An owners fragment always succeeds, and a clubhouse or scoreboard fragment fails exactly when that parser does. |
| ParserRegistry.ParseContext.constructor | ts/parsers/ParserService.ts:65-66 | A context holds its document and its parent service. |
| ParserRegistry.ParseContext.ParseFragment | ts/parsers/ParserService.ts:68-71 | A fragment parse runs the parser under the key on the fragment, in a new context with the same parent, and drops the result. |
| JsText.Split | ts/parsers/Clubhouse.ts:75 | `split` gives at least one part and no part holds the separator. There is exactly one part when the text has no separator. |
| JsText.JoinSplit | ts/parsers/Clubhouse.ts:75 | Joining the parts of a split with the separator gives the text back. |
| JsText.SplitJoin | ts/parsers/Clubhouse.ts:75 | Splitting the join of separator-free parts gives those parts back. |
| JsText.Strip | ts/parsers/Owners.ts:31 | The stripped text neither starts nor ends with a stripped character, and it is empty exactly when every character of the text is one. |
| JsText.StripSlice | ts/parsers/Owners.ts:31 | The stripped text is a slice of the text with only stripped characters before and after it. |
| JsText.StripIdempotent | ts/parsers/Clubhouse.ts:75 | Stripping twice strips nothing more. |
| JsText.ParseInt | ts/parsers/Owners.ts:34 | `parseInt` gives a number only when the text holds a decimal digit; otherwise it is `NaN`. |
| JsText.NumberTextRoundTrip | ts/parsers/Scoreboard.ts:54-56 | `parseInt` of the rendering of a team id gives the id back, `NaN` included. |
| JsText.ParseIntOfText | ts/parsers/Owners.ts:34 | `parseInt` skips leading white space and reads back an integer's decimal form when the text after it is empty or starts with a non-digit other than `x`/`X` ("0x…" would be read as hexadecimal). |
| JsText.ParseIntNoLeadingDigit | ts/parsers/Owners.ts:34 | Text that does not start with a sign or digit after white space parses to `NaN`. |

## Left out

- HTML loading and CSS selector semantics are not modelled. This covers
  `cheerio.load`, `children`, `each`, and how `nth-of-type`/`nth-child` match
  nested elements. The page is given as the abstract `Scope`, the `th`/`td`
  cells of each row, and the text under each class selector inside a row.
- Floating point is not modelled: every `parseFloat` field is kept as its
  source text.
- `parseInt` uses unbounded integers. It does not round values beyond 2^53,
  and it renders every integer in plain decimal, where JavaScript switches to
  exponent form from 10^21.
- The dynamic `require` and default-export unwrapping in `addParsers` are not
  modelled. `AddParsers` receives the parser object the module would provide.
  The constructor passes the three built-in parsers.
- A parser is given its context's document (`Scope`), not the context object.
  None of the three parsers calls `parseFragment`. `ParseContext.ParseFragment`
  is modelled on its own, against the parent's map.
- The error message texts are not modelled. Thrown errors of different kinds
  are collapsed into the `Fault` values. In particular, both
  `parseHtmlContent` and `parseFragment` with an unknown key throw a
  `TypeError`, and both are `UnknownParser(key)`.
- A provided child parser without a `name` would be stored under the key
  `undefined`. In the model every parser name is a string.
- The stray `x` after `getParser` (ts/parsers/ParserService.ts:41) declares an
  unused field. It is not modelled.
- In-place array pushes and the aliasing of `activeSlotSet` with
  `roster.starters`/`roster.bench` are modelled as values. The pointer is an
  `Active` marker saying which list the loop appends to.
- The HTTP layer (ts/EspnFantasyFootball.ts) is not part of this model.
- A missing matchup team row and a row without an `id` attribute both throw a
  `TypeError` in the source. The model separates them as `MissingTeamRow` and
  `MissingIdAttribute`.
