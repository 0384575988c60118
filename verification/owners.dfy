/**
 * The league owners page parser.
 *
 * Every `.ownerRow` child of the first `table.tableBody` tables becomes a
 * team, in document order, unless its first `td` cell is blank.
 */
module Owners {
  import opened Wrappers
  import opened JsText
  import opened Document
  import opened Types

  /** The parser's `name`, its key in the registry. */
  const Name: string := "owners"

  /** A text the source treats as blank: empty, or white space only. */
  predicate Blank(s: string)
  {
    forall i :: 0 <= i < |s| ==> s[i] in Spaces
  }

  /** `parseOwnerRow`: no team when the first `td` is blank; otherwise the id
      is `parseInt` of that cell as it stands (leading white space is skipped
      by `parseInt` itself), and the next four cells are the short name, the
      name, the division and the owner. The page has no record column. */
  function ParseOwnerRow(r: Row): (t: Option<Team>)
    ensures t.None? <==> Blank(NthOfType(r, Td, 1))
    ensures t.Some? ==> t.value.record.None? && t.value.division.Some?
  {
    var id := NthOfType(r, Td, 1);
    if Trim(id) == [] then None
    else
      Some(Team(
        ParseInt(id),
        NthOfType(r, Td, 2),
        NthOfType(r, Td, 3),
        NthOfType(r, Td, 5),
        Some(NthOfType(r, Td, 4)),
        None))
  }

  /** What one child row contributes: a team when it is an `.ownerRow`
      whose id cell is not blank. */
  function RowTeam(r: Row): Option<Team>
  {
    if HasClass(r, "ownerRow") then ParseOwnerRow(r) else None
  }

  function RowTeams(rows: seq<Row>): (opts: seq<Option<Team>>)
    ensures |opts| == |rows|
    ensures forall i :: 0 <= i < |rows| ==> opts[i] == RowTeam(rows[i])
  {
    seq(|rows|, i requires 0 <= i < |rows| => RowTeam(rows[i]))
  }

  /** The values present in `opts`, in order: what `result.push` collects. */
  function Present(opts: seq<Option<Team>>): (ts: seq<Team>)
    ensures |ts| <= |opts|
  {
    if opts == [] then []
    else
      var init := opts[..|opts| - 1];
      assert opts == init + [opts[|opts| - 1]];
      Present(init) + (match opts[|opts| - 1] case Some(t) => [t] case None => [])
  }

  /** The teams of a sequence of child rows, in order. */
  function Teams(rows: seq<Row>): seq<Team>
  {
    Present(RowTeams(rows))
  }

  /** `OwnersParser.parse`, as a value: null when no table matched. */
  function ParseScope(selector: Scope): Option<seq<Team>>
  {
    if selector.ownerTables == [] then None
    else Some(Teams(Children(selector.ownerTables)))
  }

  /** `OwnersParser.parse`. */
  method Parse(selector: Scope) returns (result: Option<seq<Team>>)
    ensures result == ParseScope(selector)
    ensures result.None? <==> selector.ownerTables == []
  {
    if selector.ownerTables == [] {
      return None;
    }
    var rows := Children(selector.ownerTables);
    ghost var opts := RowTeams(rows);
    var teams := [];
    var i := 0;
    while i < |rows|
      invariant 0 <= i <= |rows|
      invariant teams == Present(opts[..i])
    {
      assert opts[..i + 1][..i] == opts[..i];
      if HasClass(rows[i], "ownerRow") {
        var team := ParseOwnerRow(rows[i]);
        if team.Some? {
          teams := teams + [team.value];
        }
      }
      i := i + 1;
    }
    assert opts[..i] == opts;
    return Some(teams);
  }

  /** The values collected are exactly the values present. */
  lemma {:induction false} PresentMembers(opts: seq<Option<Team>>, t: Team)
    ensures t in Present(opts) <==> Some(t) in opts
  {
    if opts != [] {
      var init, o := opts[..|opts| - 1], opts[|opts| - 1];
      assert opts == init + [o];
      PresentSnoc(init, o);
      PresentMembers(init, t);
    }
  }

  /** A team belongs to the result exactly when some child row yields it. */
  lemma TeamsMembers(rows: seq<Row>, t: Team)
    ensures t in Teams(rows) <==> exists i :: 0 <= i < |rows| && RowTeam(rows[i]) == Some(t)
  {
    var opts := RowTeams(rows);
    PresentMembers(opts, t);
    if Some(t) in opts {
      var i :| 0 <= i < |opts| && opts[i] == Some(t);
      assert RowTeam(rows[i]) == Some(t);
    } else {
      forall i | 0 <= i < |rows|
        ensures RowTeam(rows[i]) != Some(t)
      {
        assert opts[i] == RowTeam(rows[i]);
      }
    }
  }

  /** What consecutive pieces collect is consecutive: the order of the page
      is kept. */
  lemma {:induction false} PresentAppend(a: seq<Option<Team>>, b: seq<Option<Team>>)
    ensures Present(a + b) == Present(a) + Present(b)
    decreases |b|
  {
    if b == [] {
      assert a + b == a;
    } else {
      var b' := b[..|b| - 1];
      assert (a + b)[..|a + b| - 1] == a + b';
      assert (a + b)[|a + b| - 1] == b[|b| - 1];
      PresentAppend(a, b');
    }
  }

  lemma TeamsAppend(a: seq<Row>, b: seq<Row>)
    ensures Teams(a + b) == Teams(a) + Teams(b)
  {
    var ab, opts := a + b, RowTeams(a) + RowTeams(b);
    forall i | 0 <= i < |ab| ensures RowTeams(ab)[i] == opts[i] {
      if i < |a| {
        assert ab[i] == a[i];
      } else {
        assert ab[i] == b[i - |a|];
      }
    }
    assert RowTeams(ab) == opts;
    PresentAppend(RowTeams(a), RowTeams(b));
  }

  /** When every option is present, nothing is dropped and nothing moves. */
  lemma {:induction false} PresentAll(opts: seq<Option<Team>>)
    requires forall i :: 0 <= i < |opts| ==> opts[i].Some?
    ensures |Present(opts)| == |opts|
    ensures forall i :: 0 <= i < |opts| ==> Present(opts)[i] == opts[i].value
  {
    if opts != [] {
      PresentAll(opts[..|opts| - 1]);
    }
  }

  /** When no option is present, nothing is collected. */
  lemma {:induction false} PresentNone(opts: seq<Option<Team>>)
    requires forall i :: 0 <= i < |opts| ==> opts[i].None?
    ensures Present(opts) == []
  {
    if opts != [] {
      PresentNone(opts[..|opts| - 1]);
    }
  }

  /** When every row is an owner row with an id, there is one team per row,
      at the same position. */
  lemma TeamsOfOwnerRows(rows: seq<Row>)
    requires forall i :: 0 <= i < |rows| ==> RowTeam(rows[i]).Some?
    ensures |Teams(rows)| == |rows|
    ensures forall i :: 0 <= i < |rows| ==> Teams(rows)[i] == RowTeam(rows[i]).value
  {
    PresentAll(RowTeams(rows));
  }

  /** Rows that are not owner rows, or whose id cell is blank, add nothing. */
  lemma TeamsSkipped(rows: seq<Row>)
    requires forall i :: 0 <= i < |rows| ==> !HasClass(rows[i], "ownerRow") || Blank(NthOfType(rows[i], Td, 1))
    ensures Teams(rows) == []
  {
    PresentNone(RowTeams(rows));
  }

  /** The number of rows that yield no team. */
  function Skipped(opts: seq<Option<Team>>): nat
  {
    if opts == [] then 0
    else Skipped(opts[..|opts| - 1]) + (if opts[|opts| - 1].None? then 1 else 0)
  }

  /** Every row yields one team or is skipped. */
  lemma {:induction false} PresentCount(opts: seq<Option<Team>>)
    ensures |Present(opts)| + Skipped(opts) == |opts|
  {
    if opts != [] {
      PresentCount(opts[..|opts| - 1]);
    }
  }

  lemma TeamsCount(rows: seq<Row>)
    ensures |Teams(rows)| == |rows| - Skipped(RowTeams(rows))
  {
    PresentCount(RowTeams(rows));
  }

  /** A table that is present but has no owner row gives an empty list,
      not null. */
  lemma NoOwnerRows(selector: Scope)
    requires selector.ownerTables != []
    requires forall r :: r in Children(selector.ownerTables) ==> !HasClass(r, "ownerRow")
    ensures ParseScope(selector) == Some([])
  {
    TeamsSkipped(Children(selector.ownerTables));
  }

  /** An id cell that is not blank but does not start with a number (after
      white space) still yields a team, with a NaN id. */
  lemma OwnerIdNotANumber(r: Row)
    requires var t := StripStart(NthOfType(r, Td, 1), Spaces);
      t != [] && t[0] != '+' && t[0] != '-' && DigitValue(t[0]) >= 10
    ensures ParseOwnerRow(r).Some? && ParseOwnerRow(r).value.id.None?
  {
    var id := NthOfType(r, Td, 1);
    var t := StripStart(id, Spaces);
    assert id[|id| - |t|] == t[0];
    ParseIntNoLeadingDigit(id);
  }

  /** A table of a header row and three owner rows gives exactly the three
      teams, in row order. */
  lemma HeaderAndThreeRows(rows: seq<Row>)
    requires |rows| == 4 && RowTeam(rows[0]).None?
    requires forall i :: 1 <= i < 4 ==> RowTeam(rows[i]).Some?
    ensures Teams(rows) == [RowTeam(rows[1]).value, RowTeam(rows[2]).value, RowTeam(rows[3]).value]
  {
    SkipThenThree(RowTeams(rows));
  }

  lemma SkipThenThree(opts: seq<Option<Team>>)
    requires |opts| == 4 && opts[0].None? && opts[1].Some? && opts[2].Some? && opts[3].Some?
    ensures Present(opts) == [opts[1].value, opts[2].value, opts[3].value]
  {
    assert opts == [opts[0], opts[1], opts[2], opts[3]];
    PresentOfFour(opts[0], opts[1], opts[2], opts[3]);
  }

  lemma PresentOfFour(a: Option<Team>, b: Option<Team>, c: Option<Team>, d: Option<Team>)
    requires a.None? && b.Some? && c.Some? && d.Some?
    ensures Present([a, b, c, d]) == [b.value, c.value, d.value]
  {
    PresentSnoc([], a);
    assert [a] == [] + [a];
    PresentSnoc([a], b);
    assert [a, b] == [a] + [b];
    PresentSnoc([a, b], c);
    assert [a, b, c] == [a, b] + [c];
    PresentSnoc([a, b, c], d);
    assert [a, b, c, d] == [a, b, c] + [d];
  }

  /** Collecting one more option adds its value, when present, at the end. */
  lemma PresentSnoc(init: seq<Option<Team>>, o: Option<Team>)
    ensures Present(init + [o]) == Present(init) + (if o.Some? then [o.value] else [])
  {
    var s := init + [o];
    assert s[..|s| - 1] == init;
  }

  /** A row of five `td` cells whose first holds a number (after any white
      space) gives the team with that id and the other four cells. */
  lemma OwnerRowOfCells(ws: string, id: int, shortName: string, name: string, division: string, owner: string, r: Row)
    requires Blank(ws)
    requires r.cells == [Cell(Td, ws + IntText(id)), Cell(Td, shortName), Cell(Td, name), Cell(Td, division), Cell(Td, owner)]
    ensures ParseOwnerRow(r) == Some(Team(Some(id), shortName, name, owner, Some(division), None))
  {
    CellsOfUniformTag(r.cells, Td);
    var text := ws + IntText(id);
    IntTextStart(id);
    assert text[|ws|] == IntText(id)[0];
    ParseIntOfText(ws, id, "");
    assert ws + IntText(id) + "" == text;
  }
}
