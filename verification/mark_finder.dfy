/**
 * The mark finder: the shipped configuration, the orientation search over
 * the photograph, rectification of the winning candidate, the 60/40 cut of
 * the rectified sheet and the grid scorer on the two slices.
 */
module MarkFinder {
  import opened Outcomes
  import opened Raster
  import opened AnswerKey
  import opened ContourSearch
  import opened GridScorer

  /** Size of the rectified sheet, in pixels. */
  const WidthImg: nat := 600
  const HeightImg: nat := 780

  const MarksPerQuestion: int := 1
  const Choices: nat := 4

  /** The layout the evaluation system is configured with. */
  function ShippedLayout(): Layout {
    Layout(Questions, Choices, MarksPerQuestion)
  }

  /** A rectified sheet: the perspective warp always produces a 780 x 600 image. */
  type Sheet = img: Image<nat> | img.Valid() && img.width == WidthImg && img.Height() == HeightImg
    witness Image(WidthImg, seq(HeightImg, _ => seq(WidthImg, _ => 0)))

  /** Either no sheet was found, or the scorer's outcome on the rectified sheet. */
  datatype Verdict = NoSheet | Graded(result: Result<Grading, ScoreError>)

  /**
   * Finds and grades the sheet in a photograph. The orientation search picks
   * the working image and its candidate list; no candidate, or no corner
   * points for the first candidate, means no sheet. Otherwise the corners
   * are rectified, the rectified sheet is cut at 60 percent of its height
   * and the two slices are handed to the scorer, which stacks them again.
   * Contour extraction, the quadrilateral filter, corner extraction and the
   * perspective warp are parameters.
   */
  method FindMarks<C, Q, P>(photo: Image<nat>, detect: Image<nat> -> seq<C>, filter: (seq<C>, int) -> seq<Q>,
                            corners: Q -> seq<P>, rectify: (Image<nat>, seq<P>) -> Sheet,
                            l: Layout, key: seq<seq<Answer>>)
    returns (v: Verdict)
    requires photo.Valid()
    ensures var o := Orient(photo, detect, filter, Angles, Thresholds);
            v == NoSheet <==> o.candidates == [] || corners(o.candidates[0]) == []
    ensures var o := Orient(photo, detect, filter, Angles, Thresholds);
            v.Graded? ==> v.result == Score(rectify(o.image, corners(o.candidates[0])), l, key)
  {
    var o := Orient(photo, detect, filter, Angles, Thresholds);
    if |o.candidates| == 0 {
      return NoSheet;
    }
    var pts := corners(o.candidates[0]);
    if |pts| == 0 {
      return NoSheet;
    }
    var warped := rectify(o.image, pts);
    var parts := SplitSheet(warped);
    SplitThenStack(warped);
    var r := Upper(parts.0, parts.1, l, key);
    return Graded(r);
  }

  /**
   * With the shipped key and layout a rectified 780 x 600 sheet always
   * grades, into one score per subject.
   */
  lemma ShippedConfigurationGrades(sheet: Image<nat>, key: seq<seq<Answer>>)
    requires sheet.Valid() && sheet.Height() == HeightImg && sheet.width == WidthImg
    requires BuildKey(RawKey) == Success(key)
    ensures var g := Score(sheet, ShippedLayout(), key);
            g.Success? && |g.value.scores| == |Questions| == 5
  {
    ShippedSubjectsClean(sheet, key);
    ScoreSucceeds(sheet, ShippedLayout(), key);
  }

  lemma ShippedSubjectsClean(sheet: Image<nat>, key: seq<seq<Answer>>)
    requires sheet.Valid() && sheet.Height() == HeightImg && sheet.width == WidthImg
    requires BuildKey(RawKey) == Success(key)
    ensures forall i :: 0 <= i < |Questions| ==> SubjectError(sheet, ShippedLayout(), key, i).None?
  {
    ShippedKeyLengths(key);
    FullKeyClean(sheet, key);
  }

  /** Any key of twenty answers per subject passes the shipped layout's checks. */
  lemma FullKeyClean(sheet: Image<nat>, key: seq<seq<Answer>>)
    requires sheet.Valid() && sheet.Height() == HeightImg && sheet.width == WidthImg
    requires |key| == 5 && forall i :: 0 <= i < 5 ==> |key[i]| == 20
    ensures forall i :: 0 <= i < |Questions| ==> SubjectError(sheet, ShippedLayout(), key, i).None?
  {
    ShippedGeometry(sheet);
    QuestionsAreTwenty();
  }

  /** The parsed shipped key holds twenty answers for each of the five subjects. */
  lemma ShippedKeyLengths(key: seq<seq<Answer>>)
    requires BuildKey(RawKey) == Success(key)
    ensures |key| == 5 && forall i :: 0 <= i < 5 ==> |key[i]| == 20
  {
    ShippedKeyShape();
    QuestionsAreTwenty();
  }

  /**
   * The shipped layout on a 780 x 600 sheet: five subject blocks of 156
   * rows, question rows of 7 rows and choice columns of 150 pixels, so that
   * a cell is marked above 262 ink pixels and the last 16 rows of every
   * block are never read.
   */
  lemma ShippedGeometry(sheet: Image<nat>)
    requires sheet.Valid() && sheet.Height() == HeightImg && sheet.width == WidthImg
    ensures BlockHeight(sheet, ShippedLayout()) == 156 && ColWidth(sheet, ShippedLayout()) == 150
    ensures forall i :: 0 <= i < |Questions| ==>
              && RowHeight(sheet, ShippedLayout(), i) == 7
              && BlockHeight(sheet, ShippedLayout()) - Questions[i] * RowHeight(sheet, ShippedLayout(), i) == 16
              && (RowHeight(sheet, ShippedLayout(), i) * ColWidth(sheet, ShippedLayout())) / 4 == 262
  {
    QuestionsAreTwenty();
    var l := ShippedLayout();
    assert BlockHeight(sheet, l) == 156;
    assert ColWidth(sheet, l) == 150;
    forall i | 0 <= i < |l.questions|
      ensures RowHeight(sheet, l, i) == 7
    {
      assert l.questions[i] == 20;
    }
  }

  /** The sixteenth Python entry of the shipped key accepts all four choices. */
  lemma ShippedPythonSixteenth(key: seq<seq<Answer>>)
    requires BuildKey(RawKey) == Success(key)
    ensures |key| > 0 && |key[0]| > 15 && key[0][15] == Multi([0, 1, 2, 3])
  {
    ShippedKeyLengths(key);
    PythonSixteenthEntry();
    QuadrupleParses();
    KeyEntryParsed(RawKey, key, 0, 15);
  }

  /**
   * Credit for a list answer is additive: the sixteenth Python question
   * accepts all four choices, so with every choice marked it earns four
   * cells, and the Python subject can score more than its 20 questions.
   */
  lemma ShippedListQuestionEarnsFour(sheet: Image<nat>, key: seq<seq<Answer>>)
    requires sheet.Valid() && sheet.Height() == HeightImg && sheet.width == WidthImg
    requires BuildKey(RawKey) == Success(key)
    requires forall c :: 0 <= c < Choices ==> Marked(sheet, ShippedLayout(), 0, 15, c)
    ensures QuestionHits(sheet, ShippedLayout(), key, 0, 15, Choices) == 4
  {
    ShippedPythonSixteenth(key);
    var l := ShippedLayout();
    assert AnswerAt(key, 0, 15) == Some(Multi([0, 1, 2, 3]));
    MultiAnswerRange(sheet, l, key, 0, 15);
    FourColumnsAccepted();
  }

  lemma FourColumnsAccepted()
    ensures |KeyColumns([0, 1, 2, 3], 4)| == 4
  {
    var columns := KeyColumns([0, 1, 2, 3], 4);
    assert 0 in columns && 1 in columns && 2 in columns && 3 in columns;
    forall x | x in columns ensures x in {0, 1, 2, 3} { }
    assert columns == {0, 1, 2, 3};
  }
}
