/** main.py: the pipeline. When the input file exists, the document is
    loaded, its grammar is corrected, it is saved under the output path
    derived from the input path, the formatting pass rewrites that file in
    place, and the file is uploaded; when it does not, nothing happens. */
module Pipeline {
  import opened DocxTree
  import DocxProcessor
  import GrammarCorrector

  const Ext := ".docx"
  const Suffix := "_professional.docx"

  /** `pat` occurs in `s` at position `i`. */
  predicate OccursAt(s: string, pat: string, i: int)
  {
    0 <= i && i + |pat| <= |s| && s[i..i + |pat|] == pat
  }

  /** `pat in s` */
  predicate Contains(s: string, pat: string)
  {
    exists i :: 0 <= i <= |s| - |pat| && OccursAt(s, pat, i)
  }

  /** `s.replace(pat, rep)`: scanning from the left, every occurrence of `pat`
      that does not overlap one already replaced becomes `rep`. */
  function ReplaceAll(s: string, pat: string, rep: string): (r: string)
    requires |pat| > 0
    ensures Count(s, pat) == 0 ==> r == s
    decreases |s|
  {
    if |s| < |pat| then s
    else if s[..|pat|] == pat then rep + ReplaceAll(s[|pat|..], pat, rep)
    else [s[0]] + ReplaceAll(s[1..], pat, rep)
  }

  /** `s.count(pat)`: the occurrences `replace` rewrites. */
  function Count(s: string, pat: string): nat
    requires |pat| > 0
    decreases |s|
  {
    if |s| < |pat| then 0
    else if s[..|pat|] == pat then 1 + Count(s[|pat|..], pat)
    else Count(s[1..], pat)
  }

  /** `output_path = input_path.replace('.docx', '_professional.docx')` */
  function OutputPath(input: string): (output: string)
    ensures Count(input, Ext) == 0 ==> output == input
  {
    ReplaceAll(input, Ext, Suffix)
  }

  // ---------------------------------------------------------------------------
  // What `replace` promises

  /** Without an occurrence of `pat` there is nothing to replace. */
  lemma {:induction false} ReplaceAllAbsent(s: string, pat: string, rep: string)
    requires |pat| > 0 && !Contains(s, pat)
    ensures ReplaceAll(s, pat, rep) == s
    ensures Count(s, pat) == 0
    decreases |s|
  {
    if |s| >= |pat| {
      assert !OccursAt(s, pat, 0);
      ContainsShift(s, pat);
      ReplaceAllAbsent(s[1..], pat, rep);
    }
  }

  /** An occurrence in the tail of `s` is an occurrence in `s`. */
  lemma ContainsShift(s: string, pat: string)
    requires |s| > 0
    ensures Contains(s[1..], pat) ==> Contains(s, pat)
  {
    if Contains(s[1..], pat) {
      var i :| 0 <= i <= |s| - 1 - |pat| && OccursAt(s[1..], pat, i);
      assert s[i + 1..i + 1 + |pat|] == s[1..][i..i + |pat|];
      assert OccursAt(s, pat, i + 1);
    }
  }

  /** The output path is the input path with 13 more characters for every
      ".docx" replaced. */
  lemma {:induction false} OutputPathLength(input: string)
    ensures |OutputPath(input)| == |input| + 13 * Count(input, Ext)
    decreases |input|
  {
    if |input| >= 5 {
      if input[..5] == Ext {
        OutputPathLength(input[5..]);
      } else {
        OutputPathLength(input[1..]);
      }
    }
  }

  /** A path without ".docx" is its own output path: the saved and formatted
      file then overwrites the input file. */
  lemma OutputPathWithoutExt(input: string)
    requires !Contains(input, Ext)
    ensures OutputPath(input) == input
  {
    ReplaceAllAbsent(input, Ext, Suffix);
  }

  /** `P + ".docx"`, with no ".docx" in P, becomes `P + "_professional.docx"`. */
  lemma {:induction false} OutputPathOfDocx(p: string)
    requires !Contains(p, Ext)
    ensures OutputPath(p + Ext) == p + Suffix
    decreases |p|
  {
    var s := p + Ext;
    if p == [] {
      assert s == Ext && s[5..] == [];
      assert ReplaceAll(s, Ext, Suffix) == Suffix + ReplaceAll([], Ext, Suffix);
    } else {
      if |p| >= 5 {
        assert p[..5] == s[..5];
        assert !OccursAt(p, Ext, 0);
      } else {
        assert s[..5][|p|] == s[|p|] == '.' != Ext[|p|];
      }
      ContainsShift(p, Ext);
      OutputPathOfDocx(p[1..]);
      assert s[1..] == p[1..] + Ext;
      assert [p[0]] + (p[1..] + Suffix) == p + Suffix;
    }
  }

  /** The output path contains ".docx" exactly when the input path does. */
  lemma OutputPathContainsExt(input: string)
    ensures Contains(OutputPath(input), Ext) <==> Contains(input, Ext)
  {
    if Contains(input, Ext) {
      ReplacedContainsRep(input);
    } else {
      OutputPathWithoutExt(input);
    }
  }

  lemma {:induction false} ReplacedContainsRep(s: string)
    requires Contains(s, Ext)
    ensures Contains(ReplaceAll(s, Ext, Suffix), Ext)
    decreases |s|
  {
    if s[..5] == Ext {
      SuffixHeadContainsExt(ReplaceAll(s[5..], Ext, Suffix));
    } else {
      TailContains(s);
      ReplacedContainsRep(s[1..]);
      ConsContains(s[0], ReplaceAll(s[1..], Ext, Suffix));
    }
  }

  /** "_professional.docx" ends in ".docx", so whatever follows it, the result contains ".docx". */
  lemma SuffixHeadContainsExt(rest: string)
    ensures Contains(Suffix + rest, Ext)
  {
    var r := Suffix + rest;
    assert r[13..18] == Ext;
    assert OccursAt(r, Ext, 13);
  }

  /** An occurrence of ".docx" that is not at the start of `s` is one in its tail. */
  lemma TailContains(s: string)
    requires Contains(s, Ext) && s[..5] != Ext
    ensures Contains(s[1..], Ext)
  {
    var i :| 0 <= i <= |s| - 5 && OccursAt(s, Ext, i);
    assert i != 0;
    assert s[1..][i - 1..i - 1 + 5] == s[i..i + 5];
    assert OccursAt(s[1..], Ext, i - 1);
  }

  /** Putting a character in front keeps an occurrence of ".docx". */
  lemma ConsContains(c: char, rest: string)
    requires Contains(rest, Ext)
    ensures Contains([c] + rest, Ext)
  {
    var r := [c] + rest;
    var k :| 0 <= k <= |rest| - 5 && OccursAt(rest, Ext, k);
    assert r[k + 1..k + 6] == rest[k..k + 5];
    assert OccursAt(r, Ext, k + 1);
  }

  // ---------------------------------------------------------------------------
  // The stages of `main`

  /** One side effect of `main`, in the order they happen. */
  datatype Stage =
    | Load(path: string)
    | CorrectGrammar
    | Save(path: string)
    | Format(input: string, output: string)
    | Upload(path: string)

  /** `main(input_path)`. `fileExists` is `os.path.exists(input_path)` and
      `doc` is the document `load_docx(input_path)` returns. The formatting
      stage reloads the file just saved; the model lets it work on the saved
      document itself. `stages` records the side effects in order and `calls`
      the texts handed to the corrector. */
  method RunPipeline(inputPath: string, fileExists: bool, doc: Document, correct: string -> string)
      returns (stages: seq<Stage>, calls: seq<string>)
    requires doc.Valid()
    modifies doc.BodyParas(), (set t | t in doc.tables)`style, TablesParas(doc.tables)`runs
    ensures !fileExists ==> stages == [] && calls == [] && doc.Value() == old(doc.Value())
    ensures fileExists ==>
      var out := OutputPath(inputPath);
      && stages == [Load(inputPath), CorrectGrammar, Save(out), Format(out, out), Upload(out)]
      && calls == GrammarCorrector.CorrectionCalls(old(doc.Value()))
      && doc.Value() == DocxProcessor.FormatDoc(GrammarCorrector.CorrectedDoc(old(doc.Value()), correct))
  {
    stages := [];
    calls := [];
    if !fileExists {
      return;
    }
    stages := stages + [Load(inputPath)];
    calls := GrammarCorrector.CorrectDocxParagraphs(doc, correct);
    stages := stages + [CorrectGrammar];
    var outputPath := OutputPath(inputPath);
    stages := stages + [Save(outputPath)];
    DocxProcessor.ProcessDocx(doc);
    stages := stages + [Format(outputPath, outputPath), Upload(outputPath)];
  }
}
