/** The document tree as python-docx exposes it to the pipeline: a document
    holds body paragraphs and tables, a table holds rows of cells, a cell holds
    paragraphs, and a paragraph holds runs (spans of text with their own bold
    flag and font colour).

    Two views are given. The datatypes (RunV ... DocV) are the VALUE of a tree
    at one moment; the classes (Paragraph ... Document) are the mutable objects
    the passes update in place. Each class has a `Value()` function from the
    objects to the value, so that every in-place method can state its effect
    as a function (or a relation) between the old and the new value. */
module DocxTree {

  datatype Option<T> = None | Some(value: T)

  /** RGBColor: one value 0..255 per channel. */
  datatype Rgb = Rgb(red: int, green: int, blue: int)

  /** WD_PARAGRAPH_ALIGNMENT. A paragraph whose alignment is None inherits it from its style. */
  datatype Alignment =
    | Left | Center | Right | Justify | Distribute
    | JustifyMed | JustifyHi | JustifyLow | ThaiJustify

  /** A run: its text, and its bold flag and font colour (None: inherited from the style). */
  datatype RunV = RunV(text: string, bold: Option<bool>, color: Option<Rgb>)

  datatype ParagraphV = ParagraphV(style: string, alignment: Option<Alignment>, runs: seq<RunV>)
  {
    /** `paragraph.text` */
    function Text(): string
    {
      TextOf(runs)
    }
  }

  datatype CellV = CellV(paragraphs: seq<ParagraphV>)

  datatype TableV = TableV(style: Option<string>, rows: seq<seq<CellV>>)

  datatype DocV = DocV(paragraphs: seq<ParagraphV>, tables: seq<TableV>)

  /** The concatenation of the texts of `runs`. */
  function TextOf(runs: seq<RunV>): (t: string)
    ensures runs == [] ==> t == ""
    ensures |runs| == 1 ==> t == runs[0].text
  {
    if runs == [] then "" else runs[0].text + TextOf(runs[1..])
  }

  /** The runs python-docx's `text` setter leaves in a paragraph: it removes
      every run and adds one holding `s`, with no formatting of its own. The
      setter belongs to the library; the in-place correction methods assume
      this behaviour, so their contracts state that a rewritten paragraph
      loses its run formatting. */
  function TextRuns(s: string): (runs: seq<RunV>)
    ensures TextOf(runs) == s
  {
    [RunV(s, None, None)]
  }

  /** Where a paragraph sits in its document. Distinct positions hold distinct
      paragraphs: a .docx body is an XML tree, so no paragraph or cell is
      shared between two places. */
  datatype Loc =
    | Body(index: nat)
    | InCell(table: nat, row: nat, cell: nat, index: nat)

  class Paragraph {
    ghost const loc: Loc
    const styleName: string
    var alignment: Option<Alignment>
    /** `paragraph.runs`. A run is part of exactly one paragraph, so the runs
        are held here as values, and writing to a run replaces it in this list. */
    var runs: seq<RunV>

    function Value(): ParagraphV
      reads this
    {
      ParagraphV(styleName, alignment, runs)
    }

    /** `paragraph.add_run()`: a new last run, empty and with no formatting of its own. */
    method AddRun()
      modifies this`runs
      ensures runs == old(runs) + [RunV("", None, None)]
    {
      runs := runs + [RunV("", None, None)];
    }

    /** `paragraph.text = s`: the runs are rebuilt so that the paragraph reads
        back as `s`; its style and alignment stay. */
    method SetText(s: string)
      modifies this`runs
      ensures runs == TextRuns(s)
      ensures Value().Text() == s
    {
      runs := TextRuns(s);
    }
  }

  function ParagraphValues(ps: seq<Paragraph>): (vs: seq<ParagraphV>)
    reads set p | p in ps
    ensures |vs| == |ps|
    ensures forall k :: 0 <= k < |ps| ==> vs[k] == ps[k].Value()
  {
    seq(|ps|, k requires 0 <= k < |ps| reads set p | p in ps => ps[k].Value())
  }

  class Cell {
    const paragraphs: seq<Paragraph>

    function Value(): CellV
      reads set p | p in paragraphs
    {
      CellV(ParagraphValues(paragraphs))
    }
  }

  /** The paragraphs of a row of cells. */
  ghost function RowParas(row: seq<Cell>): set<Paragraph>
  {
    set c, p | c in row && p in c.paragraphs :: p
  }

  function RowValue(row: seq<Cell>): (vs: seq<CellV>)
    reads RowParas(row)
    ensures |vs| == |row|
    ensures forall c :: 0 <= c < |row| ==> vs[c] == row[c].Value()
  {
    seq(|row|, c requires 0 <= c < |row| reads RowParas(row) =>
      assert forall p :: p in row[c].paragraphs ==> p in RowParas(row);
      row[c].Value())
  }

  class Table {
    ghost const index: nat
    var style: Option<string>
    const rows: seq<seq<Cell>>

    /** The paragraphs of all cells of this table. */
    ghost function Paras(): set<Paragraph>
    {
      set row, c, p | row in rows && c in row && p in c.paragraphs :: p
    }

    /** Each cell paragraph sits at its own position in table `index`. */
    ghost predicate Valid()
    {
      && (forall r, c, j :: 0 <= r < |rows| && 0 <= c < |rows[r]| && 0 <= j < |rows[r][c].paragraphs| ==>
            rows[r][c].paragraphs[j].loc == InCell(index, r, c, j))
      && (forall p :: p in Paras() ==> p.loc.InCell? && p.loc.table == index)
    }

    function Value(): TableV
      reads this, Paras()
    {
      TableV(style, seq(|rows|, r requires 0 <= r < |rows| reads Paras() =>
        assert RowParas(rows[r]) <= Paras();
        RowValue(rows[r])))
    }
  }

  /** The paragraphs of all cells of a sequence of tables. */
  ghost function TablesParas(ts: seq<Table>): set<Paragraph>
  {
    set t, p | t in ts && p in t.Paras() :: p
  }

  function TableValues(ts: seq<Table>): (vs: seq<TableV>)
    reads (set t | t in ts), TablesParas(ts)
    ensures |vs| == |ts|
    ensures forall k :: 0 <= k < |ts| ==> vs[k] == ts[k].Value()
  {
    seq(|ts|, k requires 0 <= k < |ts| reads (set t | t in ts), TablesParas(ts) =>
      assert ts[k].Paras() <= TablesParas(ts);
      ts[k].Value())
  }

  class Document {
    const paragraphs: seq<Paragraph>
    const tables: seq<Table>

    ghost function BodyParas(): set<Paragraph>
    {
      set p | p in paragraphs
    }

    /** Every object a pass over this document may read or update. */
    ghost function Repr(): set<object>
    {
      (set p: object | p in paragraphs) + (set t: object | t in tables) + TablesParas(tables)
    }

    /** The document is a tree: body paragraph `i` sits at Body(i), table `t`
        has index `t`, and every cell paragraph sits at its own place in its table. */
    ghost predicate Valid()
    {
      && (forall i :: 0 <= i < |paragraphs| ==> paragraphs[i].loc == Body(i))
      && (forall t :: 0 <= t < |tables| ==> tables[t].index == t && tables[t].Valid())
    }

    function Value(): DocV
      reads Repr()
    {
      DocV(ParagraphValues(paragraphs), TableValues(tables))
    }
  }

  // ---------------------------------------------------------------------------
  // The tree property: distinct places hold distinct paragraphs

  /** No paragraph is listed twice. */
  ghost predicate Distinct(ps: seq<Paragraph>)
  {
    forall a, b :: 0 <= a < b < |ps| ==> ps[a] != ps[b]
  }

  /** Paragraph `j` of cell `c` of `row` sits at InCell(t, r, c, j). */
  ghost predicate InRow(row: seq<Cell>, t: nat, r: nat)
  {
    forall c, j :: 0 <= c < |row| && 0 <= j < |row[c].paragraphs| ==> row[c].paragraphs[j].loc == InCell(t, r, c, j)
  }

  /** Every paragraph of cell `c` of the row sits in that cell. */
  lemma CellParasAt(row: seq<Cell>, t: nat, r: nat, c: int)
    requires InRow(row, t, r) && 0 <= c < |row|
    ensures forall p :: p in row[c].paragraphs ==> p.loc.InCell? && p.loc.cell == c
  {
    forall p | p in row[c].paragraphs
      ensures p.loc.InCell? && p.loc.cell == c
    {
      var k :| 0 <= k < |row[c].paragraphs| && row[c].paragraphs[k] == p;
    }
  }

  /** Row `r` of a table sits at its place, and every paragraph of it sits in that row. */
  lemma RowOfTable(t: Table, r: int)
    requires t.Valid() && 0 <= r < |t.rows|
    ensures InRow(t.rows[r], t.index, r)
    ensures RowParas(t.rows[r]) <= t.Paras()
    ensures forall p :: p in RowParas(t.rows[r]) ==> p.loc.InCell? && p.loc.row == r
  {
    forall p | p in RowParas(t.rows[r])
      ensures p.loc.InCell? && p.loc.row == r
    {
      var cell :| cell in t.rows[r] && p in cell.paragraphs;
      var c :| 0 <= c < |t.rows[r]| && t.rows[r][c] == cell;
      var k :| 0 <= k < |cell.paragraphs| && cell.paragraphs[k] == p;
    }
  }

  /** No paragraph is both in the body and in a table cell. */
  lemma TablesParasInCells(doc: Document)
    requires doc.Valid()
    ensures forall p :: p in TablesParas(doc.tables) ==> p.loc.InCell? && p !in doc.BodyParas()
  {
    forall p | p in TablesParas(doc.tables)
      ensures p.loc.InCell? && p !in doc.BodyParas()
    {
      var t :| t in doc.tables && p in t.Paras();
      var k :| 0 <= k < |doc.tables| && doc.tables[k] == t;
    }
  }
}
