/** The formatting pass of utils/docx_processor.py: heading paragraphs of the
    body get a blue bold first run, "Title" paragraphs of the body are
    centred (paragraphs in table cells get neither), and every top-level
    table is restyled "Table Grid" with the runs of the paragraphs directly in
    its cells forced to black.

    The pure functions (EnhanceParagraph, EnhanceTable, FormatDoc) say what
    the pass does to the value of a document; the methods do it in place on
    the objects, loop by loop as the source does, and promise that the new
    value is that function of the old one. */
module DocxProcessor {
  import opened DocxTree

  const ProfessionalBlue := Rgb(0, 51, 153)
  const Black := Rgb(0, 0, 0)
  const TableGrid := "Table Grid"

  /** `style.name.startswith('Heading')` */
  predicate IsHeading(style: string)
  {
    |style| >= 7 && style[..7] == "Heading"
  }

  /** `enhance_paragraph_style` on the value of one paragraph. */
  function EnhanceParagraph(p: ParagraphV): (q: ParagraphV)
    ensures q.style == p.style
    ensures IsHeading(p.style) ==>
      && |q.runs| == (if p.runs == [] then 1 else |p.runs|)
      && q.runs[0].color == Some(ProfessionalBlue)
      && q.runs[0].bold == Some(true)
      && q.runs[0].text == (if p.runs == [] then "" else p.runs[0].text)
      && q.runs[1..] == (if p.runs == [] then [] else p.runs[1..])
    ensures !IsHeading(p.style) ==> q.runs == p.runs
    ensures q.alignment == (if p.style == "Title" then Some(Center) else p.alignment)
  {
    var runs :=
      if !IsHeading(p.style) then p.runs
      else if p.runs == [] then [RunV("", Some(true), Some(ProfessionalBlue))]
      else [p.runs[0].(bold := Some(true), color := Some(ProfessionalBlue))] + p.runs[1..];
    var alignment := if p.style == "Title" then Some(Center) else p.alignment;
    ParagraphV(p.style, alignment, runs)
  }

  function BlackenRun(r: RunV): RunV
  {
    r.(color := Some(Black))
  }

  /** The inner loop of `enhance_table_style`: every run of the paragraph turns black. */
  function BlackenParagraph(p: ParagraphV): ParagraphV
  {
    p.(runs := seq(|p.runs|, k requires 0 <= k < |p.runs| => BlackenRun(p.runs[k])))
  }

  function BlackenCell(c: CellV): CellV
  {
    CellV(seq(|c.paragraphs|, j requires 0 <= j < |c.paragraphs| => BlackenParagraph(c.paragraphs[j])))
  }

  function BlackenRow(row: seq<CellV>): seq<CellV>
  {
    seq(|row|, c requires 0 <= c < |row| => BlackenCell(row[c]))
  }

  /** `enhance_table_style` on the value of one table. */
  function EnhanceTable(t: TableV): TableV
  {
    TableV(Some(TableGrid), seq(|t.rows|, r requires 0 <= r < |t.rows| => BlackenRow(t.rows[r])))
  }

  /** The first loop of `process_docx`: the paragraph rule on every body paragraph. */
  function BodyFormatted(d: DocV): DocV
  {
    d.(paragraphs := seq(|d.paragraphs|, i requires 0 <= i < |d.paragraphs| => EnhanceParagraph(d.paragraphs[i])))
  }

  /** The second loop of `process_docx`: the table rule on every table. */
  function TablesFormatted(d: DocV): DocV
  {
    d.(tables := seq(|d.tables|, t requires 0 <= t < |d.tables| => EnhanceTable(d.tables[t])))
  }

  /** `process_docx` between loading and saving: the body loop, then the table loop. */
  function FormatDoc(d: DocV): DocV
  {
    TablesFormatted(BodyFormatted(d))
  }

  // ---------------------------------------------------------------------------
  // The pass in place

  /** `enhance_paragraph_style(paragraph)` */
  method EnhanceParagraphStyle(p: Paragraph)
    modifies p
    ensures p.Value() == EnhanceParagraph(old(p.Value()))
  {
    if IsHeading(p.styleName) {
      if p.runs == [] {
        p.AddRun();
      }
      p.runs := p.runs[0 := p.runs[0].(color := Some(ProfessionalBlue))];
      p.runs := p.runs[0 := p.runs[0].(bold := Some(true))];
    }
    if p.styleName == "Title" {
      p.alignment := Some(Center);
    }
  }

  /** `for run in paragraph.runs: run.font.color.rgb = RGBColor(0, 0, 0)` */
  method BlackenRuns(p: Paragraph)
    modifies p`runs
    ensures p.Value() == BlackenParagraph(old(p.Value()))
  {
    for k := 0 to |p.runs|
      invariant |p.runs| == |old(p.runs)|
      invariant forall j :: 0 <= j < k ==> p.runs[j] == BlackenRun(old(p.runs[j]))
      invariant forall j :: k <= j < |p.runs| ==> p.runs[j] == old(p.runs[j])
    {
      p.runs := p.runs[k := p.runs[k].(color := Some(Black))];
    }
  }

  /** `for paragraph in cell.paragraphs: ...`, for a cell whose paragraph `j`
      sits at InCell(t, r, c, j). */
  method BlackenCellRuns(cell: Cell, ghost t: nat, ghost r: nat, ghost c: nat)
    requires forall j :: 0 <= j < |cell.paragraphs| ==> cell.paragraphs[j].loc == InCell(t, r, c, j)
    modifies (set p | p in cell.paragraphs)`runs
    ensures forall j :: 0 <= j < |cell.paragraphs| ==>
      cell.paragraphs[j].Value() == BlackenParagraph(old(cell.paragraphs[j].Value()))
  {
    var ps := cell.paragraphs;
    for j := 0 to |ps|
      invariant forall i :: 0 <= i < j ==> ps[i].Value() == BlackenParagraph(old(ps[i].Value()))
      invariant forall i :: j <= i < |ps| ==> ps[i].Value() == old(ps[i].Value())
    {
      BlackenRuns(ps[j]);
      assert forall i :: j < i < |ps| ==> ps[i].loc != ps[j].loc;
    }
  }

  /** `for cell in row.cells: ...`, for row `r` of table `t`. */
  method BlackenRowRuns(row: seq<Cell>, ghost t: nat, ghost r: nat)
    requires InRow(row, t, r)
    modifies RowParas(row)`runs
    ensures forall c, j :: 0 <= c < |row| && 0 <= j < |row[c].paragraphs| ==>
      row[c].paragraphs[j].Value() == BlackenParagraph(old(row[c].paragraphs[j].Value()))
  {
    for c := 0 to |row|
      invariant forall i, j :: 0 <= i < c && 0 <= j < |row[i].paragraphs| ==>
        row[i].paragraphs[j].Value() == BlackenParagraph(old(row[i].paragraphs[j].Value()))
      invariant forall i, j :: c <= i < |row| && 0 <= j < |row[i].paragraphs| ==> unchanged(row[i].paragraphs[j])
    {
      assert row[c] in row;
      assert (set p | p in row[c].paragraphs) <= RowParas(row);
      CellParasAt(row, t, r, c);
      BlackenCellRuns(row[c], t, r, c);
    }
  }

  /** `enhance_table_style(table)` */
  method EnhanceTableStyle(t: Table)
    requires t.Valid()
    modifies t`style, t.Paras()`runs
    ensures t.Value() == EnhanceTable(old(t.Value()))
  {
    t.style := Some(TableGrid);
    for r := 0 to |t.rows|
      invariant t.style == Some(TableGrid)
      invariant forall i, c, j :: 0 <= i < r && 0 <= c < |t.rows[i]| && 0 <= j < |t.rows[i][c].paragraphs| ==>
        t.rows[i][c].paragraphs[j].Value() == BlackenParagraph(old(t.rows[i][c].paragraphs[j].Value()))
      invariant forall i, c, j :: r <= i < |t.rows| && 0 <= c < |t.rows[i]| && 0 <= j < |t.rows[i][c].paragraphs| ==>
        unchanged(t.rows[i][c].paragraphs[j])
    {
      RowOfTable(t, r);
      BlackenRowRuns(t.rows[r], t.index, r);
    }
    TableBlackened(t);
  }

  /** A table whose cell paragraphs have all been blackened, and whose style is
      "Table Grid", has the value the table rule gives. */
  twostate lemma TableBlackened(t: Table)
    requires t.style == Some(TableGrid)
    requires forall i, c, j :: 0 <= i < |t.rows| && 0 <= c < |t.rows[i]| && 0 <= j < |t.rows[i][c].paragraphs| ==>
      t.rows[i][c].paragraphs[j].Value() == BlackenParagraph(old(t.rows[i][c].paragraphs[j].Value()))
    ensures t.Value() == EnhanceTable(old(t.Value()))
  {
    forall i, c | 0 <= i < |t.rows| && 0 <= c < |t.rows[i]|
      ensures t.rows[i][c].Value() == BlackenCell(old(t.rows[i][c].Value()))
    {
    }
    forall i | 0 <= i < |t.rows|
      ensures RowValue(t.rows[i]) == BlackenRow(old(RowValue(t.rows[i])))
    {
    }
  }

  /** `process_docx` between `load_docx` and `doc.save`: the paragraph rule on
      the body paragraphs only, then the table rule on every table. */
  method ProcessDocx(doc: Document)
    requires doc.Valid()
    modifies doc.BodyParas(), (set t | t in doc.tables)`style, TablesParas(doc.tables)`runs
    ensures doc.Value() == FormatDoc(old(doc.Value()))
  {
    TablesParasInCells(doc);
    EnhanceBodyParagraphs(doc);
    ghost var mid := doc.Value();
    assert mid == BodyFormatted(old(doc.Value()));
    EnhanceTables(doc);
  }

  /** `for paragraph in doc.paragraphs: enhance_paragraph_style(paragraph)` */
  method EnhanceBodyParagraphs(doc: Document)
    requires doc.Valid()
    modifies doc.BodyParas()
    ensures forall k :: 0 <= k < |doc.paragraphs| ==>
      doc.paragraphs[k].Value() == EnhanceParagraph(old(doc.paragraphs[k].Value()))
  {
    var ps := doc.paragraphs;
    for i := 0 to |ps|
      invariant forall k :: 0 <= k < i ==> ps[k].Value() == EnhanceParagraph(old(ps[k].Value()))
      invariant forall k :: i <= k < |ps| ==> ps[k].Value() == old(ps[k].Value())
    {
      EnhanceParagraphStyle(ps[i]);
      assert forall k :: i < k < |ps| ==> ps[k].loc != ps[i].loc;
    }
  }

  /** `for table in doc.tables: enhance_table_style(table)` */
  method EnhanceTables(doc: Document)
    requires doc.Valid()
    modifies (set t | t in doc.tables)`style, TablesParas(doc.tables)`runs
    ensures forall k :: 0 <= k < |doc.tables| ==> doc.tables[k].Value() == EnhanceTable(old(doc.tables[k].Value()))
  {
    ghost var before := TableValues(doc.tables);
    for j := 0 to |doc.tables|
      invariant TablesEnhanced(doc, before, j)
    {
      EnhanceTableAt(doc, j, before);
    }
  }

  /** The state of the loop over the tables of `doc` after `j` iterations,
      where `before` holds the values the tables had when it started. */
  ghost predicate TablesEnhanced(doc: Document, before: seq<TableV>, j: int)
    reads (set t | t in doc.tables), TablesParas(doc.tables)
  {
    && |before| == |doc.tables| && 0 <= j <= |doc.tables|
    && (forall k :: 0 <= k < |doc.tables| ==>
          assert doc.tables[k].Paras() <= TablesParas(doc.tables);
          doc.tables[k].Value() == if k < j then EnhanceTable(before[k]) else before[k])
  }

  /** Iteration `j` of the loop over the tables of `doc`. */
  method EnhanceTableAt(doc: Document, j: int, ghost before: seq<TableV>)
    requires doc.Valid() && 0 <= j < |doc.tables| && TablesEnhanced(doc, before, j)
    modifies {doc.tables[j]}`style, doc.tables[j].Paras()`runs
    ensures TablesEnhanced(doc, before, j + 1)
  {
    EnhanceTableStyle(doc.tables[j]);
    forall k | 0 <= k < |doc.tables| && k != j
      ensures doc.tables[k].Value() == old(doc.tables[k].Value())
    {
      assert doc.tables[k] != doc.tables[j] && doc.tables[k].Paras() !! doc.tables[j].Paras();
    }
  }

  // ---------------------------------------------------------------------------
  // What the formatting rules promise

  /** `enhance_table_style`: the table is styled "Table Grid"; every cell
      paragraph keeps its style, its alignment and its runs, each run keeping
      its text and bold flag and turning black; rows, cells, paragraphs and
      runs keep their number and order. */
  lemma EnhanceTableSpec(t: TableV)
    ensures EnhanceTable(t).style == Some(TableGrid)
    ensures |EnhanceTable(t).rows| == |t.rows|
    ensures forall r :: 0 <= r < |t.rows| ==> |EnhanceTable(t).rows[r]| == |t.rows[r]|
    ensures forall r, c :: 0 <= r < |t.rows| && 0 <= c < |t.rows[r]| ==>
      var p, q := t.rows[r][c].paragraphs, EnhanceTable(t).rows[r][c].paragraphs;
      |q| == |p| &&
      forall j :: 0 <= j < |p| ==>
        && q[j].style == p[j].style
        && q[j].alignment == p[j].alignment
        && |q[j].runs| == |p[j].runs|
        && forall k :: 0 <= k < |p[j].runs| ==>
             q[j].runs[k] == RunV(p[j].runs[k].text, p[j].runs[k].bold, Some(Black))
  {
  }

  /** Applying the paragraph rule a second time changes nothing: a heading
      that had no run already holds the run added by the first pass, so no
      second run is added. */
  lemma EnhanceParagraphIdempotent(p: ParagraphV)
    ensures EnhanceParagraph(EnhanceParagraph(p)) == EnhanceParagraph(p)
  {
  }

  lemma EnhanceTableIdempotent(t: TableV)
    ensures EnhanceTable(EnhanceTable(t)) == EnhanceTable(t)
  {
    var u := EnhanceTable(t);
    forall r | 0 <= r < |u.rows|
      ensures BlackenRow(u.rows[r]) == u.rows[r]
    {
      forall c | 0 <= c < |u.rows[r]|
        ensures BlackenCell(u.rows[r][c]) == u.rows[r][c]
      {
        var cell := u.rows[r][c];
        forall j | 0 <= j < |cell.paragraphs|
          ensures BlackenParagraph(cell.paragraphs[j]) == cell.paragraphs[j]
        {
        }
      }
    }
  }

  /** Formatting a formatted document changes nothing. */
  lemma FormatDocIdempotent(d: DocV)
    ensures FormatDoc(FormatDoc(d)) == FormatDoc(d)
  {
    var f := FormatDoc(d);
    forall i | 0 <= i < |d.paragraphs|
      ensures EnhanceParagraph(f.paragraphs[i]) == f.paragraphs[i]
    {
      EnhanceParagraphIdempotent(d.paragraphs[i]);
    }
    forall t | 0 <= t < |d.tables|
      ensures EnhanceTable(f.tables[t]) == f.tables[t]
    {
      EnhanceTableIdempotent(d.tables[t]);
    }
  }

  /** `process_docx` keeps the number and order of body paragraphs and tables,
      applies the paragraph rule to body paragraphs only, and leaves a cell
      paragraph's style, alignment, run texts and bold flags as they were,
      even when it is styled as a heading or "Title": its runs only turn black. */
  lemma FormatDocSpec(d: DocV)
    ensures |FormatDoc(d).paragraphs| == |d.paragraphs|
    ensures forall i :: 0 <= i < |d.paragraphs| ==> FormatDoc(d).paragraphs[i] == EnhanceParagraph(d.paragraphs[i])
    ensures |FormatDoc(d).tables| == |d.tables|
    ensures forall t :: 0 <= t < |d.tables| ==> FormatDoc(d).tables[t].style == Some(TableGrid)
    ensures forall t, r, c, j ::
      (0 <= t < |d.tables| && 0 <= r < |d.tables[t].rows| &&
       0 <= c < |d.tables[t].rows[r]| && 0 <= j < |d.tables[t].rows[r][c].paragraphs|) ==>
      var p, q := d.tables[t].rows[r][c].paragraphs[j], FormatDoc(d).tables[t].rows[r][c].paragraphs[j];
      && q.style == p.style
      && q.alignment == p.alignment
      && |q.runs| == |p.runs|
      && forall k :: 0 <= k < |p.runs| ==>
           q.runs[k].text == p.runs[k].text && q.runs[k].bold == p.runs[k].bold && q.runs[k].color == Some(Black)
  {
    forall t | 0 <= t < |d.tables|
      ensures FormatDoc(d).tables[t] == EnhanceTable(d.tables[t])
    {
      EnhanceTableSpec(d.tables[t]);
    }
  }
}
