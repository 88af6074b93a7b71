/** The correction pass of utils/grammar_corrector.py: every paragraph whose
    text is not blank is sent to the corrector, and its text is replaced when
    the corrector returns something different. Body paragraphs are visited
    first, then the paragraphs of every table, row by row and cell by cell.

    The corrector (`correct_text`, a LanguageTool call) is a parameter
    `correct`: nothing is assumed about it. When a paragraph's text is
    assigned, `Corrected` assumes what python-docx's setter does: it clears
    the runs and adds one run holding the text (`TextRuns`). The lemmas about
    the pass state only the text, style and alignment of a rewritten
    paragraph. */
module GrammarCorrector {
  import opened DocxTree

  // ---------------------------------------------------------------------------
  // `str.strip()`

  /** Python's `str.isspace` for one code point: the separators and the
      characters whose bidirectional class is whitespace, segment or block
      separator. */
  predicate IsSpace(c: char)
  {
    || '\U{9}' <= c <= '\U{D}'
    || '\U{1C}' <= c <= '\U{20}'
    || c == '\U{85}' || c == '\U{A0}' || c == '\U{1680}'
    || '\U{2000}' <= c <= '\U{200A}'
    || c == '\U{2028}' || c == '\U{2029}' || c == '\U{202F}' || c == '\U{205F}' || c == '\U{3000}'
  }

  /** `s.lstrip()`: drops the spaces at the front of `s`. */
  function LStrip(s: string): (t: string)
    ensures |t| <= |s|
    ensures t == [] || !IsSpace(t[0])
  {
    if s != [] && IsSpace(s[0]) then LStrip(s[1..]) else s
  }

  /** `s.rstrip()`: drops the spaces at the back of `s`. */
  function RStrip(s: string): (t: string)
    ensures |t| <= |s|
    ensures t == [] || !IsSpace(t[|t| - 1])
  {
    if s != [] && IsSpace(s[|s| - 1]) then RStrip(s[..|s| - 1]) else s
  }

  /** What `lstrip` drops is a run of spaces, and what it keeps is the rest of `s`. */
  lemma {:induction false} LStripSplits(s: string)
    ensures LStrip(s) == s[|s| - |LStrip(s)|..]
    ensures forall k :: 0 <= k < |s| - |LStrip(s)| ==> IsSpace(s[k])
  {
    if s != [] && IsSpace(s[0]) {
      LStripSplits(s[1..]);
    }
  }

  /** What `rstrip` drops is a run of spaces, and what it keeps is the start of `s`. */
  lemma {:induction false} RStripSplits(s: string)
    ensures RStrip(s) == s[..|RStrip(s)|]
    ensures forall k :: |RStrip(s)| <= k < |s| ==> IsSpace(s[k])
  {
    if s != [] && IsSpace(s[|s| - 1]) {
      RStripSplits(s[..|s| - 1]);
    }
  }

  /** `s.strip()`: what is left has no space at either end. */
  function Strip(s: string): (t: string)
    ensures |t| <= |s|
    ensures t == [] || (!IsSpace(t[0]) && !IsSpace(t[|t| - 1]))
  {
    RStripSplits(LStrip(s));
    RStrip(LStrip(s))
  }

  /** A blank text: every character of it is a space. */
  predicate IsBlank(s: string)
  {
    forall k :: 0 <= k < |s| ==> IsSpace(s[k])
  }

  /** `not text.strip()`, the test that makes the pass skip a paragraph, holds
      exactly for the blank texts. */
  lemma StripEmptyIffBlank(s: string)
    ensures Strip(s) == [] <==> IsBlank(s)
  {
    var l := LStrip(s);
    LStripSplits(s);
    RStripSplits(l);
    if !IsBlank(s) {
      var k :| 0 <= k < |s| && !IsSpace(s[k]);
      assert |s| - |l| <= k;
      assert l[k - (|s| - |l|)] == s[k];
    }
  }

  // ---------------------------------------------------------------------------
  // What the pass does to the value of a document


  /** One visit of `correct_docx_paragraphs` to a paragraph. A blank paragraph
      is skipped; one the corrector leaves as it is is not written; any other
      gets the corrected text through the `text` setter, which keeps its style
      and alignment. */
  function Corrected(p: ParagraphV, correct: string -> string): (q: ParagraphV)
    ensures q.style == p.style && q.alignment == p.alignment
    ensures IsBlank(p.Text()) || correct(p.Text()) == p.Text() ==> q == p
    ensures !IsBlank(p.Text()) ==> q.Text() == correct(p.Text())
  {
    var t := p.Text();
    if IsBlank(t) || correct(t) == t then p
    else p.(runs := TextRuns(correct(t)))
  }

  function CorrectedSeq(ps: seq<ParagraphV>, correct: string -> string): seq<ParagraphV>
  {
    seq(|ps|, k requires 0 <= k < |ps| => Corrected(ps[k], correct))
  }

  function CorrectedRow(row: seq<CellV>, correct: string -> string): seq<CellV>
  {
    seq(|row|, c requires 0 <= c < |row| => CellV(CorrectedSeq(row[c].paragraphs, correct)))
  }

  function CorrectedRows(rows: seq<seq<CellV>>, correct: string -> string): seq<seq<CellV>>
  {
    seq(|rows|, r requires 0 <= r < |rows| => CorrectedRow(rows[r], correct))
  }

  /** The visit of the table loop to one table: its style stays. */
  function CorrectedTable(t: TableV, correct: string -> string): TableV
  {
    t.(rows := CorrectedRows(t.rows, correct))
  }

  function CorrectedTables(ts: seq<TableV>, correct: string -> string): seq<TableV>
  {
    seq(|ts|, k requires 0 <= k < |ts| => CorrectedTable(ts[k], correct))
  }

  /** `correct_docx_paragraphs(doc)` on the value of a document: every
      paragraph of the body and of every table cell is visited once. */
  function CorrectedDoc(d: DocV, correct: string -> string): DocV
  {
    DocV(CorrectedSeq(d.paragraphs, correct), CorrectedTables(d.tables, correct))
  }

  // ---------------------------------------------------------------------------
  // The order of the visits

  /** The paragraphs of a row, cell by cell. */
  function CellsParagraphs(cells: seq<CellV>): seq<ParagraphV>
  {
    if cells == [] then [] else CellsParagraphs(cells[..|cells| - 1]) + cells[|cells| - 1].paragraphs
  }

  /** The paragraphs of a table, row by row. */
  function RowsParagraphs(rows: seq<seq<CellV>>): seq<ParagraphV>
  {
    if rows == [] then [] else RowsParagraphs(rows[..|rows| - 1]) + CellsParagraphs(rows[|rows| - 1])
  }

  function TablesParagraphs(ts: seq<TableV>): seq<ParagraphV>
  {
    if ts == [] then [] else TablesParagraphs(ts[..|ts| - 1]) + RowsParagraphs(ts[|ts| - 1].rows)
  }

  /** Every paragraph of the document in the order the pass visits them:
      the body, then table by table, row by row, cell by cell. */
  function AllParagraphs(d: DocV): seq<ParagraphV>
  {
    d.paragraphs + TablesParagraphs(d.tables)
  }

  /** The texts of the paragraphs that are not blank, in order. */
  function NonBlankTexts(ps: seq<ParagraphV>): (ts: seq<string>)
    ensures |ts| <= |ps|
    ensures forall k :: 0 <= k < |ts| ==> !IsBlank(ts[k])
  {
    if ps == [] then []
    else
      var last := ps[|ps| - 1].Text();
      NonBlankTexts(ps[..|ps| - 1]) + (if IsBlank(last) then [] else [last])
  }

  /** The texts handed to `correct_text`, in the order of the calls. */
  function CorrectionCalls(d: DocV): seq<string>
  {
    NonBlankTexts(AllParagraphs(d))
  }

  // ---------------------------------------------------------------------------
  // What the pass promises

  lemma {:induction false} NonBlankTextsAppend(a: seq<ParagraphV>, b: seq<ParagraphV>)
    ensures NonBlankTexts(a + b) == NonBlankTexts(a) + NonBlankTexts(b)
    decreases |b|
  {
    if b == [] {
      assert a + b == a;
    } else {
      var init, last := b[..|b| - 1], b[|b| - 1].Text();
      var tail := if IsBlank(last) then [] else [last];
      assert (a + b)[..|a + b| - 1] == a + init;
      assert (a + b)[|a + b| - 1] == b[|b| - 1];
      calc {
        NonBlankTexts(a + b);
        NonBlankTexts(a + init) + tail;
        { NonBlankTextsAppend(a, init); }
        NonBlankTexts(a) + NonBlankTexts(init) + tail;
        NonBlankTexts(a) + (NonBlankTexts(init) + tail);
      }
    }
  }

  lemma NonBlankTextsStep(ps: seq<ParagraphV>, i: int)
    requires 0 <= i < |ps|
    ensures NonBlankTexts(ps[..i + 1]) == NonBlankTexts(ps[..i]) + NonBlankTexts([ps[i]])
  {
    assert ps[..i + 1] == ps[..i] + [ps[i]];
    NonBlankTextsAppend(ps[..i], [ps[i]]);
  }

  lemma CellsParagraphsStep(cells: seq<CellV>, c: int)
    requires 0 <= c < |cells|
    ensures NonBlankTexts(CellsParagraphs(cells[..c + 1])) ==
            NonBlankTexts(CellsParagraphs(cells[..c])) + NonBlankTexts(cells[c].paragraphs)
  {
    assert cells[..c + 1][..c] == cells[..c];
    NonBlankTextsAppend(CellsParagraphs(cells[..c]), cells[c].paragraphs);
  }

  lemma RowsParagraphsStep(rows: seq<seq<CellV>>, r: int)
    requires 0 <= r < |rows|
    ensures NonBlankTexts(RowsParagraphs(rows[..r + 1])) ==
            NonBlankTexts(RowsParagraphs(rows[..r])) + NonBlankTexts(CellsParagraphs(rows[r]))
  {
    assert rows[..r + 1][..r] == rows[..r];
    NonBlankTextsAppend(RowsParagraphs(rows[..r]), CellsParagraphs(rows[r]));
  }

  lemma TablesParagraphsStep(ts: seq<TableV>, k: int)
    requires 0 <= k < |ts|
    ensures NonBlankTexts(TablesParagraphs(ts[..k + 1])) ==
            NonBlankTexts(TablesParagraphs(ts[..k])) + NonBlankTexts(RowsParagraphs(ts[k].rows))
  {
    assert ts[..k + 1][..k] == ts[..k];
    NonBlankTextsAppend(TablesParagraphs(ts[..k]), RowsParagraphs(ts[k].rows));
  }

  /** The positions of the paragraphs that are not blank. */
  function NonBlankIndices(ps: seq<ParagraphV>): set<int>
  {
    set k | 0 <= k < |ps| && !IsBlank(ps[k].Text())
  }

  lemma NonBlankIndicesStep(ps: seq<ParagraphV>)
    requires ps != []
    ensures NonBlankIndices(ps) ==
      NonBlankIndices(ps[..|ps| - 1]) + (if IsBlank(ps[|ps| - 1].Text()) then {} else {|ps| - 1})
  {
    var init := ps[..|ps| - 1];
    forall k | k in NonBlankIndices(ps) && k < |ps| - 1
      ensures k in NonBlankIndices(init)
    {
      assert ps[k] == init[k];
    }
  }

  /** `correct_text` is called once per paragraph that is not blank. */
  lemma {:induction false} CallCount(ps: seq<ParagraphV>)
    ensures |NonBlankTexts(ps)| == |NonBlankIndices(ps)|
  {
    if ps != [] {
      var init := ps[..|ps| - 1];
      CallCount(init);
      NonBlankIndicesStep(ps);
      assert |ps| - 1 !in NonBlankIndices(init);
    }
  }

  /** A text is handed to `correct_text` exactly when some paragraph has it
      as its text and it is not blank. */
  lemma {:induction false} CallsAreNonBlankTexts(ps: seq<ParagraphV>, t: string)
    ensures t in NonBlankTexts(ps) <==> exists k :: 0 <= k < |ps| && ps[k].Text() == t && !IsBlank(t)
  {
    if ps != [] {
      var init := ps[..|ps| - 1];
      CallsAreNonBlankTexts(init, t);
      if exists k :: 0 <= k < |init| && init[k].Text() == t && !IsBlank(t) {
        var k :| 0 <= k < |init| && init[k].Text() == t && !IsBlank(t);
        assert ps[k] == init[k];
      }
    }
  }

  lemma CorrectedSeqAppend(a: seq<ParagraphV>, b: seq<ParagraphV>, correct: string -> string)
    ensures CorrectedSeq(a + b, correct) == CorrectedSeq(a, correct) + CorrectedSeq(b, correct)
  {
  }

  lemma {:induction false} CorrectedCellsFlat(cells: seq<CellV>, correct: string -> string)
    ensures CellsParagraphs(CorrectedRow(cells, correct)) == CorrectedSeq(CellsParagraphs(cells), correct)
    decreases |cells|
  {
    if cells != [] {
      var n := |cells| - 1;
      assert CorrectedRow(cells, correct)[..n] == CorrectedRow(cells[..n], correct);
      CorrectedCellsFlat(cells[..n], correct);
      CorrectedSeqAppend(CellsParagraphs(cells[..n]), cells[n].paragraphs, correct);
    }
  }

  lemma {:induction false} CorrectedRowsFlat(rows: seq<seq<CellV>>, correct: string -> string)
    ensures RowsParagraphs(CorrectedRows(rows, correct)) == CorrectedSeq(RowsParagraphs(rows), correct)
    decreases |rows|
  {
    if rows != [] {
      var n := |rows| - 1;
      assert CorrectedRows(rows, correct)[..n] == CorrectedRows(rows[..n], correct);
      CorrectedRowsFlat(rows[..n], correct);
      CorrectedCellsFlat(rows[n], correct);
      CorrectedSeqAppend(RowsParagraphs(rows[..n]), CellsParagraphs(rows[n]), correct);
    }
  }

  lemma {:induction false} CorrectedTablesFlat(ts: seq<TableV>, correct: string -> string)
    ensures TablesParagraphs(CorrectedTables(ts, correct)) == CorrectedSeq(TablesParagraphs(ts), correct)
    decreases |ts|
  {
    if ts != [] {
      var n := |ts| - 1;
      assert CorrectedTables(ts, correct)[..n] == CorrectedTables(ts[..n], correct);
      CorrectedTablesFlat(ts[..n], correct);
      CorrectedRowsFlat(ts[n].rows, correct);
      CorrectedSeqAppend(TablesParagraphs(ts[..n]), RowsParagraphs(ts[n].rows), correct);
    }
  }

  /** After the pass, every paragraph of the body and of the table cells is
      where it was, in the order of the visits; a blank one, or one the
      corrector leaves alone, is untouched, runs included; every other one
      keeps its style and alignment and reads as the corrector's output for its
      original text. */
  lemma CorrectedDocParagraphs(d: DocV, correct: string -> string)
    ensures |AllParagraphs(CorrectedDoc(d, correct))| == |AllParagraphs(d)|
    ensures forall k :: 0 <= k < |AllParagraphs(d)| ==>
      var p, q := AllParagraphs(d)[k], AllParagraphs(CorrectedDoc(d, correct))[k];
      && (IsBlank(p.Text()) || correct(p.Text()) == p.Text() ==> q == p)
      && (!IsBlank(p.Text()) ==> q.Text() == correct(p.Text()))
      && q.style == p.style && q.alignment == p.alignment
  {
    CorrectedTablesFlat(d.tables, correct);
    CorrectedSeqAppend(d.paragraphs, TablesParagraphs(d.tables), correct);
  }

  /** The pass keeps the tables' number, order and styles and the shape of each table. */
  lemma CorrectedDocShape(d: DocV, correct: string -> string)
    ensures |CorrectedDoc(d, correct).paragraphs| == |d.paragraphs|
    ensures |CorrectedDoc(d, correct).tables| == |d.tables|
    ensures forall t :: 0 <= t < |d.tables| ==>
      var u, v := d.tables[t], CorrectedDoc(d, correct).tables[t];
      && v.style == u.style && |v.rows| == |u.rows|
      && forall r :: 0 <= r < |u.rows| ==>
           |v.rows[r]| == |u.rows[r]| &&
           forall c :: 0 <= c < |u.rows[r]| ==> |v.rows[r][c].paragraphs| == |u.rows[r][c].paragraphs|
  {
  }

  /** Running the pass a second time with a corrector that accepts its own
      output changes nothing. */
  lemma SecondPassIsNoOp(d: DocV, correct: string -> string)
    requires forall s :: correct(correct(s)) == correct(s)
    ensures CorrectedDoc(CorrectedDoc(d, correct), correct) == CorrectedDoc(d, correct)
  {
    forall p
      ensures Corrected(Corrected(p, correct), correct) == Corrected(p, correct)
    {
      if !(IsBlank(p.Text()) || correct(p.Text()) == p.Text()) {
        assert correct(Corrected(p, correct).Text()) == Corrected(p, correct).Text();
      }
    }
    var e := CorrectedDoc(d, correct);
    forall t | 0 <= t < |d.tables|
      ensures CorrectedTable(e.tables[t], correct) == e.tables[t]
    {
      var u := e.tables[t];
      forall r | 0 <= r < |u.rows|
        ensures CorrectedRow(u.rows[r], correct) == u.rows[r]
      {
        forall c | 0 <= c < |u.rows[r]|
          ensures CorrectedSeq(u.rows[r][c].paragraphs, correct) == u.rows[r][c].paragraphs
        {
        }
      }
    }
  }

  // ---------------------------------------------------------------------------
  // The pass in place

  /** One iteration of either inner loop of `correct_docx_paragraphs`. */
  method CorrectParagraph(p: Paragraph, correct: string -> string) returns (calls: seq<string>)
    modifies p`runs
    ensures p.Value() == Corrected(old(p.Value()), correct)
    ensures calls == NonBlankTexts([old(p.Value())])
  {
    var text := p.Value().Text();
    StripEmptyIffBlank(text);
    calls := [];
    if Strip(text) != [] {
      var corrected := correct(text);
      calls := [text];
      if corrected != text {
        p.SetText(corrected);
      }
    }
  }

  /** `for paragraph in ps: ...`, over the body or over the paragraphs of one cell. */
  method CorrectParagraphs(ps: seq<Paragraph>, correct: string -> string) returns (calls: seq<string>)
    requires Distinct(ps)
    modifies (set p | p in ps)`runs
    ensures forall k :: 0 <= k < |ps| ==> ps[k].Value() == Corrected(old(ps[k].Value()), correct)
    ensures calls == NonBlankTexts(old(ParagraphValues(ps)))
  {
    ghost var before := ParagraphValues(ps);
    calls := [];
    for i := 0 to |ps|
      invariant forall k :: 0 <= k < i ==> ps[k].Value() == Corrected(before[k], correct)
      invariant forall k :: i <= k < |ps| ==> ps[k].Value() == before[k]
      invariant calls == NonBlankTexts(before[..i])
    {
      var c := CorrectParagraph(ps[i], correct);
      NonBlankTextsStep(before, i);
      calls := calls + c;
    }
    assert before[..|ps|] == before;
  }

  /** `for cell in row.cells: for paragraph in cell.paragraphs: ...`, for row
      `r` of table `t`. */
  method CorrectRow(row: seq<Cell>, correct: string -> string, ghost t: nat, ghost r: nat) returns (calls: seq<string>)
    requires InRow(row, t, r)
    modifies RowParas(row)`runs
    ensures RowValue(row) == CorrectedRow(old(RowValue(row)), correct)
    ensures calls == NonBlankTexts(CellsParagraphs(old(RowValue(row))))
  {
    ghost var before := RowValue(row);
    calls := [];
    for c := 0 to |row|
      invariant CellsVisited(row, before, c, correct)
      invariant calls == NonBlankTexts(CellsParagraphs(before[..c]))
    {
      calls := CorrectCellAt(row, c, correct, calls, before, t, r);
    }
    assert before[..|row|] == before;
    assert RowValue(row) == CorrectedRow(before, correct);
  }

  /** The state of the loop over the cells of `row` after `c` iterations,
      where `before` is the value the row had when it started. */
  ghost predicate CellsVisited(row: seq<Cell>, before: seq<CellV>, c: int, correct: string -> string)
    reads RowParas(row)
  {
    && |before| == |row| && 0 <= c <= |row|
    && (forall i :: 0 <= i < |row| ==>
          RowValue(row)[i] == if i < c then CorrectedRow(before, correct)[i] else before[i])
  }

  /** Iteration `c` of the loop over the cells of `row`. */
  method CorrectCellAt(row: seq<Cell>, c: int, correct: string -> string, calls: seq<string>,
                       ghost before: seq<CellV>, ghost t: nat, ghost r: nat) returns (calls': seq<string>)
    requires InRow(row, t, r) && 0 <= c < |row|
    requires CellsVisited(row, before, c, correct) && calls == NonBlankTexts(CellsParagraphs(before[..c]))
    modifies (set p | p in row[c].paragraphs)`runs
    ensures CellsVisited(row, before, c + 1, correct) && calls' == NonBlankTexts(CellsParagraphs(before[..c + 1]))
  {
    CellParasAt(row, t, r, c);
    assert RowValue(row)[c] == row[c].Value();
    var cs := CorrectParagraphs(row[c].paragraphs, correct);
    CellsParagraphsStep(before, c);
    calls' := calls + cs;
    forall i | 0 <= i < |row| && i != c
      ensures row[i].Value() == old(row[i].Value())
    {
      CellParasAt(row, t, r, i);
    }
  }

  /** `for row in table.rows: ...` */
  method CorrectTable(t: Table, correct: string -> string) returns (calls: seq<string>)
    requires t.Valid()
    modifies t.Paras()`runs
    ensures t.Value() == CorrectedTable(old(t.Value()), correct)
    ensures calls == NonBlankTexts(RowsParagraphs(old(t.Value()).rows))
  {
    ghost var before: seq<seq<CellV>> := t.Value().rows;
    calls := [];
    for r := 0 to |t.rows|
      invariant RowsVisited(t, before, r, correct)
      invariant calls == NonBlankTexts(RowsParagraphs(before[..r]))
    {
      calls := CorrectRowAt(t, r, correct, calls, before);
    }
    assert before[..|t.rows|] == before;
    AllRowsVisited(t, before, correct);
  }

  lemma AllRowsVisited(t: Table, before: seq<seq<CellV>>, correct: string -> string)
    requires RowsVisited(t, before, |t.rows|, correct)
    ensures t.Value() == CorrectedTable(TableV(t.style, before), correct)
  {
  }

  /** The state of the loop over the rows of `t` after `r` iterations. */
  ghost predicate RowsVisited(t: Table, before: seq<seq<CellV>>, r: int, correct: string -> string)
    reads t.Paras()
  {
    && |before| == |t.rows| && 0 <= r <= |t.rows|
    && (forall i :: 0 <= i < |t.rows| ==>
          assert RowParas(t.rows[i]) <= t.Paras();
          RowValue(t.rows[i]) == if i < r then CorrectedRow(before[i], correct) else before[i])
  }

  /** Iteration `r` of the loop over the rows of `t`. */
  method CorrectRowAt(t: Table, r: int, correct: string -> string, calls: seq<string>,
                      ghost before: seq<seq<CellV>>) returns (calls': seq<string>)
    requires t.Valid() && 0 <= r < |t.rows|
    requires RowsVisited(t, before, r, correct) && calls == NonBlankTexts(RowsParagraphs(before[..r]))
    modifies RowParas(t.rows[r])`runs
    ensures RowsVisited(t, before, r + 1, correct) && calls' == NonBlankTexts(RowsParagraphs(before[..r + 1]))
  {
    RowOfTable(t, r);
    var cs := CorrectRow(t.rows[r], correct, t.index, r);
    RowsParagraphsStep(before, r);
    calls' := calls + cs;
    forall i | 0 <= i < |t.rows| && i != r
      ensures RowValue(t.rows[i]) == old(RowValue(t.rows[i]))
    {
      RowOfTable(t, i);
    }
  }

  /** `for table in doc.tables: ...` */
  method CorrectTables(doc: Document, correct: string -> string) returns (calls: seq<string>)
    requires doc.Valid()
    modifies TablesParas(doc.tables)`runs
    ensures TableValues(doc.tables) == CorrectedTables(old(TableValues(doc.tables)), correct)
    ensures calls == NonBlankTexts(TablesParagraphs(old(TableValues(doc.tables))))
  {
    ghost var before := TableValues(doc.tables);
    calls := [];
    for j := 0 to |doc.tables|
      invariant TablesVisited(doc, before, j, correct)
      invariant calls == NonBlankTexts(TablesParagraphs(before[..j]))
    {
      calls := CorrectTableAt(doc, j, correct, calls, before);
    }
    assert before[..|doc.tables|] == before;
  }

  /** The state of the loop over the tables of `doc` after `j` iterations. */
  ghost predicate TablesVisited(doc: Document, before: seq<TableV>, j: int, correct: string -> string)
    reads (set t | t in doc.tables), TablesParas(doc.tables)
  {
    && |before| == |doc.tables| && 0 <= j <= |doc.tables|
    && (forall k :: 0 <= k < |doc.tables| ==>
          assert doc.tables[k].Paras() <= TablesParas(doc.tables);
          doc.tables[k].Value() == if k < j then CorrectedTable(before[k], correct) else before[k])
  }

  /** Iteration `j` of the loop over the tables of `doc`. */
  method CorrectTableAt(doc: Document, j: int, correct: string -> string, calls: seq<string>,
                        ghost before: seq<TableV>) returns (calls': seq<string>)
    requires doc.Valid() && 0 <= j < |doc.tables|
    requires TablesVisited(doc, before, j, correct) && calls == NonBlankTexts(TablesParagraphs(before[..j]))
    modifies doc.tables[j].Paras()`runs
    ensures TablesVisited(doc, before, j + 1, correct) && calls' == NonBlankTexts(TablesParagraphs(before[..j + 1]))
  {
    var cs := CorrectTable(doc.tables[j], correct);
    TablesParagraphsStep(before, j);
    calls' := calls + cs;
    forall k | 0 <= k < |doc.tables| && k != j
      ensures doc.tables[k].Value() == old(doc.tables[k].Value())
    {
      assert doc.tables[k].Paras() !! doc.tables[j].Paras();
    }
  }

  /** `correct_docx_paragraphs(doc)`: the body paragraphs, then the tables. The
      texts handed to the corrector are returned in the order of the calls. */
  method CorrectDocxParagraphs(doc: Document, correct: string -> string) returns (calls: seq<string>)
    requires doc.Valid()
    modifies doc.BodyParas()`runs, TablesParas(doc.tables)`runs
    ensures doc.Value() == CorrectedDoc(old(doc.Value()), correct)
    ensures calls == CorrectionCalls(old(doc.Value()))
  {
    TablesParasInCells(doc);
    var body := CorrectParagraphs(doc.paragraphs, correct);
    assert TableValues(doc.tables) == old(TableValues(doc.tables));
    var cells := CorrectTables(doc, correct);
    assert ParagraphValues(doc.paragraphs) == CorrectedSeq(old(ParagraphValues(doc.paragraphs)), correct);
    calls := body + cells;
    NonBlankTextsAppend(old(doc.Value()).paragraphs, TablesParagraphs(old(doc.Value()).tables));
  }
}
