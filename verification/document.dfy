/**
 * The abstract HTML the parsers walk, in place of a loaded cheerio document.
 *
 * A `Scope` is what the selectors the parsers use return inside one
 * context: the `.playerTableTable` tables, the `table.tableBody:nth-of-type(1)`
 * tables and the `table.matchup` blocks, each in document order. A table is
 * the sequence of its child rows. A row has optional attributes (its
 * `class` and `id`), its cells in order, and the text under each class
 * selector the parsers query inside it (`.playerSlot`, `.name > a`, ...).
 */
module Document {
  import opened Wrappers
  import opened JsText

  datatype CellTag = Th | Td

  datatype Cell = Cell(tag: CellTag, text: string)

  datatype Attribs = Attribs(classAttr: Option<string>, id: Option<string>)

  datatype Row = Row(attribs: Option<Attribs>, cells: seq<Cell>, classText: map<string, string>)

  /** A table, as the sequence of its child rows. */
  type Table = seq<Row>

  /** A `table.matchup` block: its rows and its `.scoringDetails` element,
      given as the text of each element id inside it. */
  datatype Block = Block(rows: seq<Row>, details: Option<map<string, string>>)

  datatype Scope = Scope(rosterTables: seq<Table>, ownerTables: seq<Table>, matchupBlocks: seq<Block>)

  /** The cells of `cells` that carry `tag`, in order. */
  function CellsOfType(cells: seq<Cell>, tag: CellTag): (r: seq<Cell>)
    ensures |r| <= |cells|
    ensures forall c :: c in r ==> c in cells && c.tag == tag
  {
    if cells == [] then []
    else (if cells[0].tag == tag then [cells[0]] else []) + CellsOfType(cells[1..], tag)
  }

  /** `cheerio('th:nth-of-type(n)', row).text()` or `td:...`: the text of
      the `n`-th cell (from 1) with that tag, or "" when there is none. */
  function NthOfType(r: Row, tag: CellTag, n: nat): (t: string)
    ensures (exists c :: c in r.cells && c.tag == tag && c.text == t) || t == ""
  {
    var cs := CellsOfType(r.cells, tag);
    if 1 <= n <= |cs| then cs[n - 1].text else ""
  }

  /** Every cell of the row is a `td`. */
  predicate AllTd(r: Row)
  {
    forall i :: 0 <= i < |r.cells| ==> r.cells[i].tag == Td
  }

  /** When every cell carries `tag`, the `n`-th cell of that tag is the
      `n`-th cell. */
  lemma {:induction false} CellsOfUniformTag(cells: seq<Cell>, tag: CellTag)
    requires forall i :: 0 <= i < |cells| ==> cells[i].tag == tag
    ensures CellsOfType(cells, tag) == cells
  {
    if cells != [] {
      CellsOfUniformTag(cells[1..], tag);
    }
  }

  /** `cheerio('td:nth-child(n)', row).text()`: the text of the `n`-th
      child when it is a `td`, or "". */
  function NthChildTd(r: Row, n: nat): string
  {
    if 1 <= n <= |r.cells| && r.cells[n - 1].tag == Td then r.cells[n - 1].text else ""
  }

  /** The text under a class selector inside a row; "" when nothing matches. */
  function ClassText(r: Row, selector: string): string
  {
    if selector in r.classText then r.classText[selector] else ""
  }

  /** The text of the element with id `id` inside a details element; "" when
      there is none (or no details element at all). */
  function IdText(details: Option<map<string, string>>, id: string): string
  {
    match details
    case Some(m) => if id in m then m[id] else ""
    case None => ""
  }

  predicate IsClassSeparator(c: char)
  {
    c == ' ' || c == '\t' || c == '\n' || c == '\U{000C}' || c == '\r'
  }

  /** `name` occurs in `cls` at `i` as a whole white-space separated word. */
  predicate WordAt(cls: string, name: string, i: int)
  {
    OccursAt(cls, name, i)
    && (i == 0 || IsClassSeparator(cls[i - 1]))
    && (i + |name| == |cls| || IsClassSeparator(cls[i + |name|]))
  }

  /** The CSS class selector `.name`: `name` is one of the white-space
      separated words of the row's `class` attribute. */
  predicate HasClass(r: Row, name: string)
  {
    name != [] && r.attribs.Some? && r.attribs.value.classAttr.Some? &&
    var cls := r.attribs.value.classAttr.value;
    exists i | 0 <= i <= |cls| :: WordAt(cls, name, i)
  }

  /** The child rows of every table of a selection, in document order
      (`selection.children(...)`). */
  function Children(tables: seq<Table>): (rows: seq<Row>)
    ensures forall t, r :: t in tables && r in t ==> r in rows
    ensures forall r :: r in rows ==> exists t :: t in tables && r in t
  {
    if tables == [] then [] else tables[0] + Children(tables[1..])
  }
}
