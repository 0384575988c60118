/**
 * The roster ("clubhouse") page parser.
 *
 * The rows of the `.playerTableTable` tables are walked in order by a small
 * state machine: no active list before the first header row, then the
 * starters, then (from the second header on) the bench. Player rows are
 * appended to whichever list is active.
 */
module Clubhouse {
  import opened Wrappers
  import opened JsText
  import opened Document
  import opened Types

  /** The parser's `name`, its key in the registry. */
  const Name: string := "clubhouse"

  // ---------------------------------------------------------------------
  // Classifying a row

  datatype RowKind = Ignored | Header | PlayerRow

  /** The row's `class` attribute; "" when the row has no attributes or no
      `class` (all of which the row loop treats as falsy). */
  function ClassOf(r: Row): string
  {
    if r.attribs.Some? && r.attribs.value.classAttr.Some? then r.attribs.value.classAttr.value else ""
  }

  /** How the row loop treats a row. The header test comes first, so a class
      holding both markers makes a header. */
  function KindOf(r: Row): (k: RowKind)
    ensures k == Header <==>
      ClassOf(r) != "" && exists i :: OccursAt(ClassOf(r), "tableHead", i)
    ensures k == PlayerRow <==>
      ClassOf(r) != "" && (forall i :: !OccursAt(ClassOf(r), "tableHead", i))
      && exists i :: OccursAt(ClassOf(r), "pncPlayerRow", i)
  {
    var cls := ClassOf(r);
    if cls == "" then Ignored
    else if IndexOf(cls, "tableHead") >= 0 then Header
    else if IndexOf(cls, "pncPlayerRow") >= 0 then PlayerRow
    else Ignored
  }

  // ---------------------------------------------------------------------
  // One player row

  /** The week in the first header row: the second ' '-separated word of its
      second `th` cell, through parseInt. Without a second word the source
      parses `undefined`, which is NaN. */
  function WeekOf(r: Row): (w: Option<int>)
    ensures w.Some? ==> ' ' in NthOfType(r, Th, 2)
  {
    var words := Split(NthOfType(r, Th, 2), ' ');
    if |words| >= 2 then ParseInt(words[1]) else None
  }

  /** A header whose second `th` reads "Week N", or "Week N ...", sets
      week N. */
  lemma WeekOfHeader(r: Row, word: string, n: int, rest: string)
    requires ' ' !in word && (rest == [] || rest[0] == ' ')
    requires NthOfType(r, Th, 2) == word + " " + IntText(n) + rest
    ensures WeekOf(r) == Some(n)
  {
    IntTextWithout(n, ' ');
    SplitSecond(NthOfType(r, Th, 2), word, IntText(n), rest, ' ');
    NumberTextRoundTrip(Some(n));
  }

  /** The "Name, TEAM pos" heuristic. When the text has a comma after its
      first character, the name is the trimmed part before the first comma
      and the team is the first ' '-separated word of the trimmed part
      between the first and the second comma. Otherwise the name is the
      whole text, untrimmed, and the team is "N/A". */
  function NameAndTeam(text: string): (nt: (string, string))
    ensures (',' !in text || text[0] == ',') ==> nt == (text, "N/A")
  {
    IndexOfChar(text, ',');
    if IndexOf(text, ",") > 0 then
      var parts := Split(text, ',');
      var team := Split(Trim(parts[1]), ' ')[0];
      (Trim(parts[0]), team)
    else (text, "N/A")
  }

  /** With a comma after the first character, the name is trimmed and holds
      no comma, and the team holds neither a comma nor a space. */
  lemma NameAndTeamShape(text: string)
    requires ',' in text && text[0] != ','
    ensures var nt := NameAndTeam(text);
      ',' !in nt.0 && ',' !in nt.1 && ' ' !in nt.1
      && (nt.0 == [] || (nt.0[0] !in Spaces && nt.0[|nt.0| - 1] !in Spaces))
  {
    IndexOfChar(text, ',');
    var parts := Split(text, ',');
    var name := Strip(parts[0], Spaces);
    var trimmed := Strip(parts[1], Spaces);
    var words := Split(trimmed, ' ');
    assert NameAndTeam(text) == (name, words[0]);
    assert name == [] || (name[0] !in Spaces && name[|name| - 1] !in Spaces);
    assert ',' !in name by {
      StripWithout(parts[0], Spaces, ',');
    }
    assert ',' !in words[0] && ' ' !in words[0] by {
      StripWithout(parts[1], Spaces, ',');
      SplitPartWithout(trimmed, ' ', ',', 0);
    }
  }

  /** `indexOf` of a one-character string is positive exactly when the
      character occurs, but not first. */
  lemma IndexOfChar(s: string, c: char)
    ensures IndexOf(s, [c]) > 0 <==> c in s && s[0] != c
  {
    assert forall j :: OccursAt(s, [c], j) ==> s[j] == c by {
      forall j | OccursAt(s, [c], j) ensures s[j] == c {
        assert s[j] == s[j..j + 1][0];
      }
    }
    if c in s {
      var i := FirstIndex(s, c);
      assert OccursAt(s, [c], i);
      if s[0] == c {
        assert OccursAt(s, [c], 0);
      }
    }
  }

  /** The heuristic on a "Name, TEAM pos[, ...]" text: the name is the
      trimmed text before the first comma, and the team is the first
      ' '-separated word of the trimmed text between the first comma and
      the next one (or the end). */
  lemma NameAndTeamOfEntry(name: string, rest: string)
    requires name != [] && ',' !in name
    ensures NameAndTeam(name + [','] + rest) == (Trim(name), Split(Trim(Split(rest, ',')[0]), ' ')[0])
  {
    var text := name + [','] + rest;
    assert text[0] == name[0] && text[|name|] == ',';
    IndexOfChar(text, ',');
    var parts := Split(text, ',');
    assert parts == [name] + Split(rest, ',') by {
      SplitCons(name, ',', rest);
    }
    assert parts[0] == name && parts[1] == Split(rest, ',')[0];
  }

  /** `parsePlayer`. On a row whose cells are all `td` (the layout of a
      player row), the rank and the three point fields come from the 8th
      to the 11th cells. The id is always 1. */
  function ParsePlayer(r: Row): (p: Player)
    ensures p.id == 1
    ensures AllTd(r) && |r.cells| >= 11 ==>
      p.season_statistics == PlayerSeasonStatistics(
        ParseInt(r.cells[7].text), ParsedFloat(r.cells[8].text),
        ParsedFloat(r.cells[9].text), ParsedFloat(r.cells[10].text))
  {
    var nt := NameAndTeam(ClassText(r, ".playertablePlayerName"));
    var p := Player(1, nt.0, nt.1,
      PlayerSeasonStatistics(
        ParseInt(NthOfType(r, Td, 8)),
        ParsedFloat(NthOfType(r, Td, 9)),
        ParsedFloat(NthOfType(r, Td, 10)),
        ParsedFloat(NthOfType(r, Td, 11))));
    if AllTd(r) then CellsOfUniformTag(r.cells, Td); p else p
  }


  function IsAsciiDigit(c: char): bool
  {
    '0' <= c <= '9'
  }

  /** The match of the regular expression /([0-9]+)/: the first run of ASCII
      digits, or None when there is no digit. */
  function FirstDigitRun(s: string): (m: Option<string>)
    ensures m.None? <==> forall i :: 0 <= i < |s| ==> !IsAsciiDigit(s[i])
    ensures m.Some? ==> m.value != [] && forall i :: 0 <= i < |m.value| ==> IsAsciiDigit(m.value[i])
  {
    if s == [] then None
    else if IsAsciiDigit(s[0]) then Some(s[..DigitRun(s, 10)])
    else FirstDigitRun(s[1..])
  }

  /** The player's matchup. The 14th cell holding "--" means no matchup;
      otherwise the cell must hold a digit (the regular expression match is
      indexed without a check), and the opponent rank is the constant 1: the
      digits read from the cell are discarded. */
  function ParsePlayerMatchup(r: Row): (m: Result<Option<PlayerMatchup>>)
    ensures m == Ok(None) <==> NthOfType(r, Td, 14) == "--"
    ensures m.Err? <==>
      (NthOfType(r, Td, 14) != "--"
       && forall i :: 0 <= i < |NthOfType(r, Td, 14)| ==> !IsAsciiDigit(NthOfType(r, Td, 14)[i]))
    ensures m.Ok? && m.value.Some? ==> m.value.value.opponent_rank == 1
  {
    var rank := NthOfType(r, Td, 14);
    if rank == "--" then Ok(None)
    else
      match FirstDigitRun(rank)
      case None => Err(NoOpponentRankDigits)
      case Some(_) =>
        Ok(Some(PlayerMatchup(
          ParsedFloat(NthOfType(r, Td, 13)),
          1,
          ParsedFloat(NthOfType(r, Td, 15)),
          ParsedFloat(NthOfType(r, Td, 16)),
          ParsedFloat(NthOfType(r, Td, 17)))))
  }

  /** The slot a player row describes. It fails exactly when the matchup
      does, and its matchup is absent exactly when the rank cell is "--". */
  function ParseRosterSlot(r: Row): (s: Result<RosterSlot>)
    ensures s.Ok? <==> ParsePlayerMatchup(r).Ok?
    ensures s.Ok? ==>
      (s.value.player.id == 1
       && (s.value.matchup.None? <==> NthOfType(r, Td, 14) == "--")
       && s.value.opponent == NthChildTd(r, 5))
  {
    match ParsePlayerMatchup(r)
    case Err(f) => Err(f)
    case Ok(m) =>
      Ok(RosterSlot(
        ClassText(r, ".playerSlot"),
        ParsePlayer(r),
        NthChildTd(r, 5),
        ClassText(r, ".gameStatusDiv"),
        m))
  }

  // ---------------------------------------------------------------------
  // The row loop, as a specification

  /** What one row contributes to the loop: nothing, a header carrying the
      week it would set, or a player entry carrying its parsed slot. */
  datatype Item = Skip | Head(week: Option<int>) | Entry(slot: Result<RosterSlot>)

  function ItemOf(r: Row): (it: Item)
    ensures it.Skip? <==> KindOf(r) == Ignored
    ensures it.Head? <==> KindOf(r) == Header
  {
    match KindOf(r)
    case Ignored => Skip
    case Header => Head(WeekOf(r))
    case PlayerRow => Entry(ParseRosterSlot(r))
  }

  function Items(rows: seq<Row>): (items: seq<Item>)
    ensures |items| == |rows|
    ensures forall i :: 0 <= i < |rows| ==> items[i] == ItemOf(rows[i])
  {
    seq(|rows|, i requires 0 <= i < |rows| => ItemOf(rows[i]))
  }

  /** The list `activeSlotSet` points to. */
  datatype Active = NoList | Starters | Bench

  datatype State = State(roster: Roster, active: Active)

  const Start: State := State(Roster([], [], Some(0)), NoList)

  /** One iteration of the row loop. */
  function Step(st: State, it: Item): Result<State>
  {
    match it
    case Skip => Ok(st)
    case Head(week) =>
      if st.active == NoList then Ok(State(st.roster.(week := week), Starters))
      else Ok(st.(active := Bench))
    case Entry(Err(f)) => Err(f)
    case Entry(Ok(slot)) =>
      match st.active
      case NoList => Err(NullActiveList)
      case Starters => Ok(st.(roster := st.roster.(starters := st.roster.starters + [slot])))
      case Bench => Ok(st.(roster := st.roster.(bench := st.roster.bench + [slot])))
  }

  /** The loop over `items` from state `st`; the first fault stops it. */
  function Run(st: State, items: seq<Item>): Result<State>
    decreases items
  {
    if items == [] then Ok(st)
    else
      match Step(st, items[0])
      case Err(f) => Err(f)
      case Ok(next) => Run(next, items[1..])
  }

  function RunFromStart(items: seq<Item>): Result<Roster>
  {
    match Run(Start, items)
    case Err(f) => Err(f)
    case Ok(st) => Ok(st.roster)
  }

  /** The whole parse: null without a roster table, otherwise the loop over
      the rows of the roster tables. */
  function ParseScope(selector: Scope): Result<Option<Roster>>
  {
    if selector.rosterTables == [] then Ok(None)
    else
      match RunFromStart(Items(Children(selector.rosterTables)))
      case Err(f) => Err(f)
      case Ok(roster) => Ok(Some(roster))
  }

  // ---------------------------------------------------------------------
  // The row loop, as the source runs it

  /** `ClubhouseParser.parse`. */
  method Parse(selector: Scope) returns (result: Result<Option<Roster>>)
    ensures result == ParseScope(selector)
    ensures selector.rosterTables == [] <==> result == Ok(None)
  {
    if selector.rosterTables == [] {
      return Ok(None);
    }
    var rows := Children(selector.rosterTables);
    ghost var items := Items(rows);
    var st := Start;
    var i := 0;
    assert items[i..] == items;
    while i < |rows|
      invariant 0 <= i <= |rows|
      invariant Run(Start, items) == Run(st, items[i..])
    {
      RunAt(st, items, i);
      var next := VisitRow(st, rows[i]);
      if next.Err? {
        return Err(next.fault);
      }
      st := next.value;
      i := i + 1;
    }
    return Ok(Some(st.roster));
  }

  /** The callback `each` runs on one child row. It updates the roster and
      the list `activeSlotSet` points to, which the state carries; a fault
      is what the callback throws. */
  method VisitRow(st: State, row: Row) returns (r: Result<State>)
    ensures r == Step(st, ItemOf(row))
  {
    var roster, active := st.roster, st.active;
    var kind := KindOf(row);
    if kind == Header {
      if active == NoList {
        roster := roster.(week := WeekOf(row));
        active := Starters;
      } else {
        active := Bench;
      }
    } else if kind == PlayerRow {
      var slot := ParseRosterSlot(row);
      if slot.Err? {
        return Err(slot.fault);
      }
      if active == NoList {
        return Err(NullActiveList);
      } else if active == Starters {
        roster := roster.(starters := roster.starters + [slot.value]);
      } else {
        roster := roster.(bench := roster.bench + [slot.value]);
      }
    }
    return Ok(State(roster, active));
  }

  /** The loop from position `i` is one step, then the loop from `i + 1`. */
  lemma RunAt(st: State, items: seq<Item>, i: nat)
    requires i < |items|
    ensures Run(st, items[i..]) ==
      match Step(st, items[i])
      case Err(f) => Err(f)
      case Ok(next) => Run(next, items[i + 1..])
  {
    assert items[i..][0] == items[i] && items[i..][1..] == items[i + 1..];
  }

  // ---------------------------------------------------------------------
  // What the loop computes, stated without the loop

  predicate HasHead(items: seq<Item>)
  {
    exists i :: 0 <= i < |items| && items[i].Head?
  }

  predicate HasEntry(items: seq<Item>)
  {
    exists i :: 0 <= i < |items| && items[i].Entry?
  }

  /** The slots of the player entries, in order; the first failing slot
      fails the whole. */
  function Slots(items: seq<Item>): Result<seq<RosterSlot>>
  {
    if items == [] then Ok([])
    else
      match items[0]
      case Entry(Err(f)) => Err(f)
      case Entry(Ok(s)) =>
        (match Slots(items[1..])
         case Err(f) => Err(f)
         case Ok(ss) => Ok([s] + ss))
      case _ => Slots(items[1..])
  }

  /** The items of consecutive rows are consecutive. */
  lemma ItemsAppend(a: seq<Row>, b: seq<Row>)
    ensures Items(a + b) == Items(a) + Items(b)
  {
    var whole, parts := Items(a + b), Items(a) + Items(b);
    forall i | 0 <= i < |whole|
      ensures whole[i] == parts[i]
    {
      if i < |a| {
        assert (a + b)[i] == a[i];
      } else {
        assert (a + b)[i] == b[i - |a|];
      }
    }
  }

  /** Running over two pieces is running over the first, then the second. */
  lemma {:induction false} RunAppend(st: State, a: seq<Item>, b: seq<Item>)
    ensures Run(st, a + b) ==
      match Run(st, a)
      case Err(f) => Err(f)
      case Ok(mid) => Run(mid, b)
    decreases a
  {
    if a == [] {
      assert a + b == b;
    } else {
      assert (a + b)[1..] == a[1..] + b;
      match Step(st, a[0])
      case Err(f) =>
      case Ok(next) => RunAppend(next, a[1..], b);
    }
  }

  lemma TailHasNoHead(items: seq<Item>)
    requires items != [] && !HasHead(items)
    ensures !HasHead(items[1..]) && !items[0].Head?
  {
    forall i | 0 <= i < |items[1..]| ensures !items[1..][i].Head? {
      assert items[1..][i] == items[i + 1];
    }
  }

  /** A row without a class, or whose class holds neither marker, leaves
      the state as it is. */
  lemma IgnoredRowChangesNothing(st: State, r: Row)
    requires ClassOf(r) == ""
      || ((forall i :: !OccursAt(ClassOf(r), "tableHead", i))
          && (forall i :: !OccursAt(ClassOf(r), "pncPlayerRow", i)))
    ensures Step(st, ItemOf(r)) == Ok(st)
  {
  }

  /** Before the first header: items that are not player entries change
      nothing, and any player entry is a fault. */
  lemma {:induction false} RunBeforeHeader(st: State, items: seq<Item>)
    requires st.active == NoList && !HasHead(items)
    ensures !HasEntry(items) ==> Run(st, items) == Ok(st)
    ensures HasEntry(items) ==> Run(st, items).Err?
    decreases items
  {
    if items != [] {
      TailHasNoHead(items);
      if items[0].Skip? {
        RunBeforeHeader(st, items[1..]);
        if HasEntry(items) {
          var i :| 0 <= i < |items| && items[i].Entry?;
          assert items[1..][i - 1] == items[i];
        } else {
          assert !HasEntry(items[1..]) by {
            forall i | 0 <= i < |items[1..]| ensures !items[1..][i].Entry? {
              assert items[1..][i] == items[i + 1];
            }
          }
        }
      }
    }
  }

  /** Between the first and the second header, each player entry's slot is
      appended to the starters and nothing else changes. */
  lemma {:induction false} RunStarters(st: State, items: seq<Item>)
    requires st.active == Starters && !HasHead(items)
    ensures Run(st, items) ==
      match Slots(items)
      case Err(f) => Err(f)
      case Ok(ss) => Ok(st.(roster := st.roster.(starters := st.roster.starters + ss)))
    decreases items
  {
    if items == [] {
      assert st.roster.starters + [] == st.roster.starters;
    } else {
      TailHasNoHead(items);
      match items[0]
      case Skip =>
        RunStarters(st, items[1..]);
      case Entry(Err(f)) =>
      case Entry(Ok(s)) =>
        var next := st.(roster := st.roster.(starters := st.roster.starters + [s]));
        RunStarters(next, items[1..]);
        match Slots(items[1..])
        case Err(f) =>
        case Ok(ss) =>
          assert st.roster.starters + [s] + ss == st.roster.starters + ([s] + ss);
    }
  }

  /** From the second header on, each player entry's slot is appended to the
      bench, further headers included, and nothing else changes. */
  lemma {:induction false} RunBench(st: State, items: seq<Item>)
    requires st.active == Bench
    ensures Run(st, items) ==
      match Slots(items)
      case Err(f) => Err(f)
      case Ok(ss) => Ok(st.(roster := st.roster.(bench := st.roster.bench + ss)))
    decreases items
  {
    if items == [] {
      assert st.roster.bench + [] == st.roster.bench;
    } else {
      match items[0]
      case Skip =>
        RunBench(st, items[1..]);
      case Head(_) =>
        RunBench(st, items[1..]);
      case Entry(Err(f)) =>
      case Entry(Ok(s)) =>
        var next := st.(roster := st.roster.(bench := st.roster.bench + [s]));
        RunBench(next, items[1..]);
        match Slots(items[1..])
        case Err(f) =>
        case Ok(ss) =>
          assert st.roster.bench + [s] + ss == st.roster.bench + ([s] + ss);
    }
  }

  /** A table without header rows: an empty roster for week 0, unless it has
      a player row, which is a fault. */
  lemma ParseWithoutHeader(items: seq<Item>)
    requires !HasHead(items)
    ensures RunFromStart(items).Err? <==> HasEntry(items)
    ensures !HasEntry(items) ==> RunFromStart(items) == Ok(Roster([], [], Some(0)))
  {
    RunBeforeHeader(Start, items);
  }

  /** A table with one header row: that header sets the week, the player
      rows after it are the starters, and the bench is empty. A player row
      before the header is a fault. */
  lemma ParseOneHeader(pre: seq<Item>, week: Option<int>, mid: seq<Item>)
    requires !HasHead(pre) && !HasHead(mid)
    ensures HasEntry(pre) ==> RunFromStart(pre + [Head(week)] + mid).Err?
    ensures !HasEntry(pre) ==>
      RunFromStart(pre + [Head(week)] + mid) ==
        match Slots(mid)
        case Err(f) => Err(f)
        case Ok(starters) => Ok(Roster(starters, [], week))
  {
    RunAppend(Start, pre, [Head(week)] + mid);
    assert pre + [Head(week)] + mid == pre + ([Head(week)] + mid);
    RunBeforeHeader(Start, pre);
    if !HasEntry(pre) {
      var first := State(Roster([], [], week), Starters);
      assert ([Head(week)] + mid)[1..] == mid;
      assert Run(Start, [Head(week)] + mid) == Run(first, mid);
      RunStarters(first, mid);
      match Slots(mid)
      case Err(f) =>
      case Ok(starters) =>
        assert [] + starters == starters;
    }
  }

  /** A table with two or more header rows: the week comes from the first
      header alone, the starters are the player rows between the first two
      headers, and the bench is every player row after the second. */
  lemma ParseTwoHeaders(pre: seq<Item>, week: Option<int>, mid: seq<Item>, second: Option<int>, post: seq<Item>)
    requires !HasHead(pre) && !HasHead(mid)
    ensures HasEntry(pre) ==> RunFromStart(pre + [Head(week)] + mid + [Head(second)] + post).Err?
    ensures !HasEntry(pre) ==>
      RunFromStart(pre + [Head(week)] + mid + [Head(second)] + post) ==
        match Slots(mid)
        case Err(f) => Err(f)
        case Ok(starters) =>
          match Slots(post)
          case Err(f) => Err(f)
          case Ok(bench) => Ok(Roster(starters, bench, week))
  {
    var first := pre + [Head(week)] + mid;
    assert pre + [Head(week)] + mid + [Head(second)] + post == first + ([Head(second)] + post);
    RunAppend(Start, first, [Head(second)] + post);
    ParseOneHeader(pre, week, mid);
    RunAppend(Start, pre, [Head(week)] + mid);
    assert first == pre + ([Head(week)] + mid);
    RunBeforeHeader(Start, pre);
    if !HasEntry(pre) {
      var afterFirst := State(Roster([], [], week), Starters);
      assert ([Head(week)] + mid)[1..] == mid;
      assert Run(Start, [Head(week)] + mid) == Run(afterFirst, mid);
      RunStarters(afterFirst, mid);
      match Slots(mid)
      case Err(f) =>
      case Ok(starters) =>
        var afterMid := State(Roster(starters, [], week), Starters);
        assert [] + starters == starters;
        assert Run(Start, first) == Ok(afterMid);
        assert ([Head(second)] + post)[1..] == post;
        assert Run(afterMid, [Head(second)] + post) == Run(afterMid.(active := Bench), post);
        RunBench(afterMid.(active := Bench), post);
        match Slots(post)
        case Err(f) =>
        case Ok(bench) =>
          assert [] + bench == bench;
    }
  }

  /** A roster table read end to end: rows before the first header are not
      player rows, the first header sets the week, the player rows up to the
      second header are the starters and every player row after it is on
      the bench. */
  lemma RosterOfTable(selector: Scope, pre: seq<Row>, h1: Row, mid: seq<Row>, h2: Row, post: seq<Row>)
    requires selector.rosterTables == [pre + [h1] + mid + [h2] + post]
    requires KindOf(h1) == Header && KindOf(h2) == Header
    requires forall i :: 0 <= i < |pre| ==> KindOf(pre[i]) == Ignored
    requires forall i :: 0 <= i < |mid| ==> KindOf(mid[i]) != Header
    ensures ParseScope(selector) ==
      match Slots(Items(mid))
      case Err(f) => Err(f)
      case Ok(starters) =>
        match Slots(Items(post))
        case Err(f) => Err(f)
        case Ok(bench) => Ok(Some(Roster(starters, bench, WeekOf(h1))))
  {
    var table := pre + [h1] + mid + [h2] + post;
    assert Children(selector.rosterTables) == table + [];
    assert table + [] == table;
    ItemsAppend(pre + [h1] + mid + [h2], post);
    ItemsAppend(pre + [h1] + mid, [h2]);
    ItemsAppend(pre + [h1], mid);
    ItemsAppend(pre, [h1]);
    var items := Items(pre) + [Head(WeekOf(h1))] + Items(mid) + [Head(WeekOf(h2))] + Items(post);
    assert Items([h1]) == [Head(WeekOf(h1))] && Items([h2]) == [Head(WeekOf(h2))];
    assert Items(table) == items;
    assert !HasHead(Items(pre)) && !HasEntry(Items(pre));
    assert !HasHead(Items(mid));
    ParseTwoHeaders(Items(pre), WeekOf(h1), Items(mid), WeekOf(h2), Items(post));
  }
}
