/** The OCR refiner: paragraph-by-paragraph correction through a hosted grammar model, with
    fallbacks, change detection, a confidence score and a markdown diff. The model call is the
    oracle `api(token, input)`: `None` when the request raises (a status other than 200, a
    timeout), otherwise the generated text. */
module OcrRefiner {
  import opened Wrappers
  import opened Text

  /** A change between a paragraph and its refinement. */
  datatype Change =
    | Structure(severity: string, originalWords: nat, refinedWords: nat)
    | TextEdit(original: string, refined: string)

  datatype RefineResult = RefineResult(original: string, refined: string, changes: seq<Change>, confidence: real, usedAi: bool, error: Option<string>)

  const SystemPrompt := "Corrige uniquement les fautes d'orthographe, de ponctuation et les erreurs typiques d'OCR.\n\nNe reformule pas les phrases.\nNe modifie pas le sens.\nNe supprime aucune information juridique.\nNe résume pas.\n\nTexte :\n"

  const ParagraphBreak := "\n\n"

  /** OCRTextRefiner(): the token read from the environment and the fixed prompt. */
  function NewRefiner(apiToken: string): (r: Refiner)
    ensures r.apiToken == apiToken && r.systemPrompt == SystemPrompt
  {
    Refiner(apiToken, SystemPrompt)
  }

  /** _detect_changes: nothing for equal texts; otherwise a high-severity structure entry when
      the word counts differ, then one text entry with the first 100 characters of both. */
  function DetectChanges(original: string, refined: string): (r: seq<Change>)
    ensures r == [] <==> original == refined
    ensures |r| <= 2
    ensures r != [] ==> r[|r| - 1] == TextEdit(SliceTo(original, 100), SliceTo(refined, 100))
    ensures r != [] ==> |r[|r| - 1].original| <= 100 && r[|r| - 1].original <= original && r[|r| - 1].refined <= refined
  {
    if original == refined then []
    else
      var originalWords := Words(original);
      var refinedWords := Words(refined);
      (if |originalWords| != |refinedWords| then [Structure("high", |originalWords|, |refinedWords|)] else [])
        + [TextEdit(SliceTo(original, 100), SliceTo(refined, 100))]
  }

  /** A structure entry appears exactly when the word counts differ, it is the first entry and
      it is high severity with both counts. */
  lemma DetectChangesEntries(original: string, refined: string)
    ensures var r := DetectChanges(original, refined);
      && ((exists k :: 0 <= k < |r| && r[k].Structure?) <==> original != refined && |Words(original)| != |Words(refined)|)
      && (forall k :: 0 <= k < |r| && r[k].Structure? ==> k == 0 && r[k] == Structure("high", |Words(original)|, |Words(refined)|))
  {
    if original != refined {
      var edit := TextEdit(SliceTo(original, 100), SliceTo(refined, 100));
      StructureFirst(DetectChanges(original, refined), |Words(original)|, |Words(refined)|, edit);
    }
  }

  /** In an optional structure entry followed by a text entry, a structure entry is present
      exactly when the counts differ, and it comes first. */
  lemma StructureFirst(r: seq<Change>, a: nat, b: nat, edit: Change)
    requires edit.TextEdit? && r == (if a != b then [Structure("high", a, b)] else []) + [edit]
    ensures (exists k :: 0 <= k < |r| && r[k].Structure?) <==> a != b
    ensures forall k :: 0 <= k < |r| && r[k].Structure? ==> k == 0 && r[k] == Structure("high", a, b)
  {
    if a != b {
      assert r[0].Structure?;
    } else {
      assert r == [edit];
    }
  }

  /** _calculate_confidence: 1.0 for equal texts, otherwise 0.5 when the shorter length is
      below 90% of the longer one (min/max < 0.9, stated without the division), else 0.8. */
  function Confidence(original: string, refined: string): (r: real)
    ensures r == 1.0 <==> original == refined
    ensures r == 1.0 || r == 0.8 || r == 0.5
    ensures original != refined && |original| == |refined| ==> r == 0.8
    ensures original != refined ==> (r == 0.5 <==> 10 * |original| < 9 * |refined| || 10 * |refined| < 9 * |original|)
    ensures original != refined && 10 * |original| >= 9 * |refined| && 10 * |refined| >= 9 * |original| ==> r == 0.8
  {
    if original == refined then 1.0
    else
      var originalLen := |original|;
      var refinedLen := |refined|;
      if 10 * Min(originalLen, refinedLen) < 9 * Max(originalLen, refinedLen) then 0.5 else 0.8
  }

  function Min(a: nat, b: nat): nat {
    if a < b then a else b
  }

  function Max(a: nat, b: nat): nat {
    if a < b then b else a
  }

  /** _fallback_response. */
  function Fallback(text: string, error: Option<string>): (r: RefineResult)
    ensures r.refined == r.original == text && r.changes == [] && r.confidence == 0.0 && !r.usedAi
  {
    RefineResult(text, text, [], 0.0, false, error)
  }

  /** The refiner with its API token (empty when none is configured) and the prompt put in
      front of every paragraph. */
  datatype Refiner = Refiner(apiToken: string, systemPrompt: string) {

    /** What the loop of refine_text does with paragraph i: blank paragraphs, paragraphs from
        the sixth on without a token, and paragraphs whose request fails are kept; otherwise
        the model's text replaces the paragraph and its changes are recorded. */
    function ParagraphOutcome(i: nat, para: string, api: (string, string) -> Option<string>): (r: (string, seq<Change>))
      ensures Strip(para) == [] ==> r == (para, [])
      ensures i >= 5 && apiToken == [] ==> r == (para, [])
      ensures api(apiToken, systemPrompt + "\n" + para).None? ==> r == (para, [])
      ensures r.1 == [] <==> r.0 == para
      ensures r.0 != para ==> api(apiToken, systemPrompt + "\n" + para) == Some(r.0)
      ensures Strip(para) != [] && (i < 5 || apiToken != []) && api(apiToken, systemPrompt + "\n" + para).Some?
        ==> r.0 == api(apiToken, systemPrompt + "\n" + para).value && r.1 == DetectChanges(para, r.0)
    {
      if Strip(para) == [] then (para, [])
      else if i >= 5 && apiToken == [] then (para, [])
      else
        match api(apiToken, systemPrompt + "\n" + para)
        case None => (para, [])
        case Some(refined) => (refined, DetectChanges(para, refined))
    }

    /** The outcome of each paragraph by its index. */
    function Outcome(api: (string, string) -> Option<string>): (nat, string) -> (string, seq<Change>) {
      (i: nat, para: string) => ParagraphOutcome(i, para, api)
    }

    /** The result of refine_text. */
    function Refined(text: string, api: (string, string) -> Option<string>): RefineResult {
      if apiToken == [] && |text| > 1000 then Fallback(text, None)
      else
        var done := RefinedParagraphs(SplitOn(text, ParagraphBreak), Outcome(api));
        var refinedText := Join(done.0, ParagraphBreak);
        RefineResult(text, refinedText, done.1, Confidence(text, refinedText), |done.1| > 0, None)
    }

    /** The body of the loop of refine_text for paragraph i: the blank and free-tier skips,
        and the fallback to the paragraph when _refine_paragraph raises. */
    method RefineAt(i: nat, para: string, api: (string, string) -> Option<string>) returns (refinedPara: string, changes: seq<Change>)
      ensures (refinedPara, changes) == Outcome(api)(i, para)
    {
      if Strip(para) == [] {
        return para, [];
      }
      if i >= 5 && apiToken == [] {
        return para, [];
      }
      var response := api(apiToken, systemPrompt + "\n" + para);
      if response.Some? {
        refinedPara := response.value;
        changes := DetectChanges(para, refinedPara);
      } else {
        refinedPara, changes := para, [];
      }
    }

    /** The loop of refine_text over the paragraphs. */
    method RefineParagraphs(paragraphs: seq<string>, api: (string, string) -> Option<string>)
      returns (refinedParagraphs: seq<string>, allChanges: seq<Change>)
      ensures refinedParagraphs == RefinedParagraphs(paragraphs, Outcome(api)).0
      ensures allChanges == RefinedParagraphs(paragraphs, Outcome(api)).1
    {
      refinedParagraphs := [];
      allChanges := [];
      for i := 0 to |paragraphs|
        invariant refinedParagraphs == RefinedParagraphs(paragraphs[..i], Outcome(api)).0
        invariant allChanges == RefinedParagraphs(paragraphs[..i], Outcome(api)).1
      {
        assert paragraphs[..i + 1][..i] == paragraphs[..i] && paragraphs[..i + 1][i] == paragraphs[i];
        var refinedPara, changes := RefineAt(i, paragraphs[i], api);
        refinedParagraphs := refinedParagraphs + [refinedPara];
        allChanges := allChanges + changes;
      }
      assert paragraphs[..|paragraphs|] == paragraphs;
    }

    /** refine_text. */
    method RefineText(text: string, api: (string, string) -> Option<string>) returns (r: RefineResult)
      ensures r == Refined(text, api)
    {
      if apiToken == [] && |text| > 1000 {
        return Fallback(text, None);
      }
      var paragraphs := SplitOn(text, ParagraphBreak);
      var refinedParagraphs, allChanges := RefineParagraphs(paragraphs, api);
      var refinedText := Join(refinedParagraphs, ParagraphBreak);
      r := RefineResult(text, refinedText, allChanges, Confidence(text, refinedText), |allChanges| > 0, None);
    }
  }

  /** The refined paragraphs and all changes after the loop over `paras`, where `outcome`
      gives the text and the changes for a paragraph and its index. */
  function RefinedParagraphs(paras: seq<string>, outcome: (nat, string) -> (string, seq<Change>)): (r: (seq<string>, seq<Change>))
    ensures |r.0| == |paras|
  {
    if paras == [] then ([], [])
    else
      var before := RefinedParagraphs(paras[..|paras| - 1], outcome);
      var last := outcome(|paras| - 1, paras[|paras| - 1]);
      (before.0 + [last.0], before.1 + last.1)
  }

  /** Each output paragraph is that paragraph's outcome. */
  lemma {:induction false} RefinedParagraphsAt(paras: seq<string>, outcome: (nat, string) -> (string, seq<Change>))
    ensures forall k :: 0 <= k < |paras| ==> RefinedParagraphs(paras, outcome).0[k] == outcome(k, paras[k]).0
  {
    if paras != [] {
      var init := paras[..|paras| - 1];
      RefinedParagraphsAt(init, outcome);
      assert forall k :: 0 <= k < |paras| - 1 ==> init[k] == paras[k];
    }
  }

  /** When an outcome records changes exactly when it alters its paragraph, changes are
      recorded exactly when some paragraph was altered. */
  lemma {:induction false} RefinedParagraphsChanged(paras: seq<string>, outcome: (nat, string) -> (string, seq<Change>))
    requires forall i: nat, p :: outcome(i, p).1 == [] <==> outcome(i, p).0 == p
    ensures RefinedParagraphs(paras, outcome).1 == [] <==> forall k :: 0 <= k < |paras| ==> RefinedParagraphs(paras, outcome).0[k] == paras[k]
  {
    if paras != [] {
      var init := paras[..|paras| - 1];
      RefinedParagraphsChanged(init, outcome);
      var r := RefinedParagraphs(paras, outcome);
      var before := RefinedParagraphs(init, outcome);
      assert forall k :: 0 <= k < |paras| - 1 ==> r.0[k] == before.0[k] && init[k] == paras[k];
    }
  }

  /** There is one output paragraph per input paragraph; blank paragraphs, paragraphs from the
      sixth on without a token and paragraphs whose request fails are kept; changes are recorded
      exactly when some paragraph changed. */
  lemma ParagraphsSpec(refiner: Refiner, paras: seq<string>, api: (string, string) -> Option<string>)
    ensures var r := RefinedParagraphs(paras, refiner.Outcome(api));
      && |r.0| == |paras|
      && (forall k :: 0 <= k < |paras| && Strip(paras[k]) == [] ==> r.0[k] == paras[k])
      && (forall k :: 5 <= k < |paras| && refiner.apiToken == [] ==> r.0[k] == paras[k])
      && (forall k :: 0 <= k < |paras| && api(refiner.apiToken, refiner.systemPrompt + "\n" + paras[k]).None? ==> r.0[k] == paras[k])
      && (forall k :: 0 <= k < |paras| && r.0[k] != paras[k] ==> api(refiner.apiToken, refiner.systemPrompt + "\n" + paras[k]) == Some(r.0[k]))
      && (forall k :: 0 <= k < |paras| && Strip(paras[k]) != [] && (k < 5 || refiner.apiToken != [])
            && api(refiner.apiToken, refiner.systemPrompt + "\n" + paras[k]).Some?
            ==> r.0[k] == api(refiner.apiToken, refiner.systemPrompt + "\n" + paras[k]).value)
      && (r.1 == [] <==> forall k :: 0 <= k < |paras| ==> r.0[k] == paras[k])
  {
    var outcome := refiner.Outcome(api);
    assert forall i: nat, p :: outcome(i, p) == refiner.ParagraphOutcome(i, p, api);
    RefinedParagraphsAt(paras, outcome);
    RefinedParagraphsChanged(paras, outcome);
  }

  /** Without a token a text over 1000 characters is returned as is, with confidence 0 and the
      model not used; otherwise the text is the refined paragraphs joined again, the model is
      reported as used exactly when some paragraph changed, and the confidence compares the
      whole texts. */
  lemma RefinedSpec(refiner: Refiner, text: string, api: (string, string) -> Option<string>)
    ensures var r := refiner.Refined(text, api);
      && r.original == text
      && (refiner.apiToken == [] && |text| > 1000 ==> r.refined == text && r.changes == [] && r.confidence == 0.0 && !r.usedAi)
      && (refiner.apiToken != [] || |text| <= 1000 ==>
          var paras := SplitOn(text, ParagraphBreak);
          var out := RefinedParagraphs(paras, refiner.Outcome(api)).0;
          && r.refined == Join(out, ParagraphBreak)
          && (r.usedAi <==> exists k :: 0 <= k < |paras| && out[k] != paras[k])
          && r.confidence == Confidence(text, r.refined))
  {
    if refiner.apiToken != [] || |text| <= 1000 {
      ParagraphsSpec(refiner, SplitOn(text, ParagraphBreak), api);
    }
  }

  // ---------------------------------------------------------------- generate_diff

  const DiffHeader := "### \U{1F4DD} Modifications apportées\n"
  const NoChangeLine := "✅ Aucune modification nécessaire\n"

  /** The five lines shown for differing line pair i. */
  function DiffBlock(i: nat, orig: string, ref: string): seq<string> {
    ["**Ligne " + NatToString(i + 1) + " :**", "```diff", "- " + orig, "+ " + ref, "```\n"]
  }

  /** The blocks for the first n line pairs. */
  function DiffBlocks(originalLines: seq<string>, refinedLines: seq<string>, n: nat): (r: seq<string>)
    requires n <= |originalLines| && n <= |refinedLines|
  {
    if n == 0 then []
    else
      DiffBlocks(originalLines, refinedLines, n - 1)
        + (if originalLines[n - 1] != refinedLines[n - 1] then DiffBlock(n - 1, originalLines[n - 1], refinedLines[n - 1]) else [])
  }

  /** The number of differing pairs among the first n. */
  function DifferingPairs(originalLines: seq<string>, refinedLines: seq<string>, n: nat): (c: nat)
    requires n <= |originalLines| && n <= |refinedLines|
    ensures c <= n
    ensures c == 0 <==> forall k :: 0 <= k < n ==> originalLines[k] == refinedLines[k]
  {
    if n == 0 then 0
    else DifferingPairs(originalLines, refinedLines, n - 1) + (if originalLines[n - 1] != refinedLines[n - 1] then 1 else 0)
  }

  /** One five-line block per differing pair. */
  lemma {:induction false} DiffBlocksCount(originalLines: seq<string>, refinedLines: seq<string>, n: nat)
    requires n <= |originalLines| && n <= |refinedLines|
    ensures |DiffBlocks(originalLines, refinedLines, n)| == 5 * DifferingPairs(originalLines, refinedLines, n)
  {
    if n > 0 {
      DiffBlocksCount(originalLines, refinedLines, n - 1);
    }
  }

  /** The blocks of the first k pairs begin the blocks of the first n. */
  lemma {:induction false} DiffBlocksPrefix(originalLines: seq<string>, refinedLines: seq<string>, k: nat, n: nat)
    requires k <= n <= |originalLines| && n <= |refinedLines|
    ensures DiffBlocks(originalLines, refinedLines, k) <= DiffBlocks(originalLines, refinedLines, n)
    decreases n
  {
    if k < n {
      DiffBlocksPrefix(originalLines, refinedLines, k, n - 1);
    }
  }

  /** The block of a differing pair k follows the blocks of the differing pairs before it: it
      gives the line number k + 1, then the original line and the refined line. */
  lemma DiffBlocksAt(originalLines: seq<string>, refinedLines: seq<string>, n: nat, k: nat)
    requires k < n <= |originalLines| && n <= |refinedLines|
    requires originalLines[k] != refinedLines[k]
    ensures var d := DifferingPairs(originalLines, refinedLines, k);
      var blocks := DiffBlocks(originalLines, refinedLines, n);
      && 5 * d + 5 <= |blocks|
      && blocks[5 * d..5 * d + 5] == ["**Ligne " + NatToString(k + 1) + " :**", "```diff", "- " + originalLines[k], "+ " + refinedLines[k], "```\n"]
  {
    var d := DifferingPairs(originalLines, refinedLines, k);
    DiffBlocksCount(originalLines, refinedLines, k);
    DiffBlocksPrefix(originalLines, refinedLines, k + 1, n);
    var before := DiffBlocks(originalLines, refinedLines, k);
    var upTo := DiffBlocks(originalLines, refinedLines, k + 1);
    assert upTo == before + DiffBlock(k, originalLines[k], refinedLines[k]);
    var blocks := DiffBlocks(originalLines, refinedLines, n);
    assert blocks[5 * d..5 * d + 5] == upTo[5 * d..5 * d + 5];
  }

  /** The number of line pairs compared: at most five. */
  function ComparedPairs(originalLines: seq<string>, refinedLines: seq<string>): (n: nat)
    ensures n <= 5 && n <= |originalLines| && n <= |refinedLines|
  {
    Min(5, Min(|originalLines|, |refinedLines|))
  }

  /** The lines of the markdown diff. */
  function DiffLines(original: string, refined: string): seq<string> {
    if original == refined then [DiffHeader, NoChangeLine]
    else
      var originalLines := SplitOn(original, "\n");
      var refinedLines := SplitOn(refined, "\n");
      [DiffHeader] + DiffBlocks(originalLines, refinedLines, ComparedPairs(originalLines, refinedLines))
  }

  /** Equal texts give the header and the no-change line; otherwise the header is followed by
      one five-line block per differing pair among the first five, so there are at most 26
      lines, and only the header when those pairs agree. */
  lemma DiffLinesSpec(original: string, refined: string)
    ensures original == refined ==> DiffLines(original, refined) == [DiffHeader, NoChangeLine]
    ensures original != refined ==>
      var originalLines := SplitOn(original, "\n");
      var refinedLines := SplitOn(refined, "\n");
      var n := ComparedPairs(originalLines, refinedLines);
      && DiffLines(original, refined)[0] == DiffHeader
      && |DiffLines(original, refined)| == 1 + 5 * DifferingPairs(originalLines, refinedLines, n)
      && |DiffLines(original, refined)| <= 26
      && (|DiffLines(original, refined)| == 1 <==> forall k :: 0 <= k < n ==> originalLines[k] == refinedLines[k])
  {
    if original != refined {
      var originalLines := SplitOn(original, "\n");
      var refinedLines := SplitOn(refined, "\n");
      DiffBlocksCount(originalLines, refinedLines, ComparedPairs(originalLines, refinedLines));
    }
  }

  /** generate_diff. */
  method GenerateDiff(original: string, refined: string) returns (r: string)
    ensures r == Join(DiffLines(original, refined), "\n")
  {
    var lines := [DiffHeader];
    if original == refined {
      lines := lines + [NoChangeLine];
      return Join(lines, "\n");
    }
    var originalLines := SplitOn(original, "\n");
    var refinedLines := SplitOn(refined, "\n");
    var n := ComparedPairs(originalLines, refinedLines);
    for i := 0 to n
      invariant lines == [DiffHeader] + DiffBlocks(originalLines, refinedLines, i)
    {
      var orig := originalLines[i];
      var ref := refinedLines[i];
      ghost var before := lines;
      if orig != ref {
        var title := "**Ligne " + NatToString(i + 1) + " :**";
        lines := lines + [title];
        lines := lines + ["```diff"];
        lines := lines + ["- " + orig];
        lines := lines + ["+ " + ref];
        lines := lines + ["```\n"];
        assert DiffBlock(i, orig, ref) == [title, "```diff", "- " + orig, "+ " + ref, "```\n"];
        assert lines == before + DiffBlock(i, orig, ref);
      }
    }
    r := Join(lines, "\n");
  }
}
