/**
 * The grid scorer. The stacked sheet is cut into one horizontal block per
 * subject, each block into one row per question and the full width into one
 * column per choice; a cell is marked when more than a quarter of it (by the
 * floor of the area over four) is ink, and marks are awarded per marked cell
 * whose column the key expects.
 */
module GridScorer {
  import opened Outcomes
  import opened Raster
  import opened AnswerKey

  /** Question counts per subject, choices per question and marks per awarded cell. */
  datatype Layout = Layout(questions: seq<nat>, choices: nat, marksPerQuestion: int)

  /**
   * Why grading aborts: a zero divisor in the partition, an empty cell
   * handed to the grayscale conversion, or a key entry that is not there.
   */
  datatype ScoreError = DivisionByZero | EmptyCell | MissingAnswer

  /**
   * A rectangle of the stacked sheet with corners (left, top) and
   * (right, bottom): a cell covers columns [left, right) and rows
   * [top, bottom), and a highlight is drawn with the same corners.
   */
  datatype Box = Box(left: nat, top: nat, right: nat, bottom: nat)

  /** The stacked sheet, one score per subject and one list of highlights per subject. */
  datatype Grading = Grading(sheet: Image<nat>, scores: seq<int>, highlights: seq<seq<Box>>)

  // ---------------------------------------------------------------------------
  // Partition of the sheet

  /** Rows per subject block; the last `h mod n` rows of the sheet belong to no block. */
  function BlockHeight(sheet: Image<nat>, l: Layout): nat {
    if |l.questions| == 0 then 0 else sheet.Height() / |l.questions|
  }

  /** Rows per question in block `i` (zero when that subject has no questions). */
  function RowHeight(sheet: Image<nat>, l: Layout, i: nat): nat
    requires i < |l.questions|
  {
    if l.questions[i] == 0 then 0 else BlockHeight(sheet, l) / l.questions[i]
  }

  /** Columns per choice (zero when there are no choices). */
  function ColWidth(sheet: Image<nat>, l: Layout): nat {
    if l.choices == 0 then 0 else sheet.width / l.choices
  }

  /** The cell of subject `i`, question `q`, choice `c`, in stacked-sheet coordinates. */
  function CellBox(sheet: Image<nat>, l: Layout, i: nat, q: nat, c: nat): Box
    requires i < |l.questions|
  {
    var rh, cw := RowHeight(sheet, l, i), ColWidth(sheet, l);
    var top := i * BlockHeight(sheet, l) + q * rh;
    Box(c * cw, top, c * cw + cw, top + rh)
  }

  predicate BoxInside(sheet: Image<nat>, b: Box) {
    b.left <= b.right <= sheet.width && b.top <= b.bottom <= sheet.Height()
  }

  lemma {:induction false} MulLeft(a: nat, b: nat, m: nat)
    requires a <= b
    ensures a * m <= b * m
  {
  }

  /** The first `parts` pieces of width `total / parts` fit inside `total`. */
  lemma PiecesFit(total: nat, parts: nat, k: nat)
    requires 0 < parts && k < parts
    ensures k * (total / parts) + total / parts <= parts * (total / parts) <= total
    ensures total - parts * (total / parts) == total % parts
  {
    var p := total / parts;
    MulLeft(k + 1, parts, p);
    assert (k + 1) * p == k * p + p;
  }

  /**
   * Subject block `i` spans rows [i*bh, (i+1)*bh), and all blocks end at
   * `h - h mod n`: the last `h mod n` rows are never scanned.
   */
  lemma SubjectBlock(sheet: Image<nat>, l: Layout, i: nat)
    requires i < |l.questions|
    ensures i * BlockHeight(sheet, l) + BlockHeight(sheet, l) <= |l.questions| * BlockHeight(sheet, l)
    ensures |l.questions| * BlockHeight(sheet, l) == sheet.Height() - sheet.Height() % |l.questions|
  {
    PiecesFit(sheet.Height(), |l.questions|, i);
  }

  /** Block `i` lies above every later block `j`: the blocks are disjoint and in order. */
  lemma SubjectBlocksDisjoint(sheet: Image<nat>, l: Layout, i: nat, j: nat)
    requires i < j
    ensures i * BlockHeight(sheet, l) + BlockHeight(sheet, l) <= j * BlockHeight(sheet, l)
  {
    var bh := BlockHeight(sheet, l);
    MulLeft(i + 1, j, bh);
    assert (i + 1) * bh == i * bh + bh;
  }

  /**
   * Every cell lies inside its question row band, its subject block and the
   * sheet: `q*rh + rh <= bh` and `c*cw + cw <= w`.
   */
  lemma CellInside(sheet: Image<nat>, l: Layout, i: nat, q: nat, c: nat)
    requires i < |l.questions| && q < l.questions[i] && c < l.choices
    ensures q * RowHeight(sheet, l, i) + RowHeight(sheet, l, i) <= BlockHeight(sheet, l)
    ensures c * ColWidth(sheet, l) + ColWidth(sheet, l) <= sheet.width
    ensures i * BlockHeight(sheet, l) + BlockHeight(sheet, l) <= sheet.Height()
    ensures BoxInside(sheet, CellBox(sheet, l, i, q, c))
    ensures i * BlockHeight(sheet, l) <= CellBox(sheet, l, i, q, c).top
    ensures CellBox(sheet, l, i, q, c).bottom <= i * BlockHeight(sheet, l) + BlockHeight(sheet, l)
  {
    var bh, rh, cw := BlockHeight(sheet, l), RowHeight(sheet, l, i), ColWidth(sheet, l);
    PiecesFit(bh, l.questions[i], q);
    assert q * rh + rh <= bh;
    PiecesFit(sheet.width, l.choices, c);
    assert c * cw + cw <= sheet.width;
    PiecesFit(sheet.Height(), |l.questions|, i);
    assert i * bh + bh <= sheet.Height();
    var cell := CellBox(sheet, l, i, q, c);
    assert cell.top == i * bh + q * rh && cell.bottom == cell.top + rh;
  }

  // ---------------------------------------------------------------------------
  // Ink measurement

  /** Number of non-zero pixels in a run. */
  function NonZero(run: seq<nat>): (r: nat)
    ensures r <= |run|
    ensures r == 0 <==> forall x :: 0 <= x < |run| ==> run[x] == 0
  {
    if |run| == 0 then 0
    else (if run[0] != 0 then 1 else 0) + NonZero(run[1..])
  }

  /** Columns [lo, hi) of a pixel row, clipped to the row the way an array slice is. */
  function Clip(run: seq<nat>, lo: nat, hi: nat): (r: seq<nat>)
    ensures lo <= hi ==> |r| <= hi - lo
    ensures lo <= hi <= |run| ==> r == run[lo..hi]
  {
    var from := if lo < |run| then lo else |run|;
    var to := if hi < from then from else if hi < |run| then hi else |run|;
    run[from..to]
  }

  /** Number of non-zero pixels inside a box, clipped to the sheet. */
  function Ink(sheet: Image<nat>, b: Box): nat
    requires sheet.Valid()
    decreases b.bottom - b.top
  {
    if b.bottom <= b.top || sheet.Height() <= b.top then 0
    else NonZero(Clip(sheet.rows[b.top], b.left, b.right)) + Ink(sheet, b.(top := b.top + 1))
  }

  /** A box never holds more ink than its area. */
  lemma {:induction false} InkWithinArea(sheet: Image<nat>, b: Box)
    requires sheet.Valid() && b.top <= b.bottom && b.left <= b.right
    ensures Ink(sheet, b) <= (b.bottom - b.top) * (b.right - b.left)
    decreases b.bottom - b.top
  {
    if b.top < b.bottom && b.top < sheet.Height() {
      var rest := b.(top := b.top + 1);
      InkWithinArea(sheet, rest);
      InkStep(sheet, b);
      AreaStep(NonZero(Clip(sheet.rows[b.top], b.left, b.right)), Ink(sheet, rest), rest, b);
    }
  }

  /** A row of at most the box's width on top of the rows below fits the box's area. */
  lemma AreaStep(first: nat, below: nat, rest: Box, b: Box)
    requires b.top < b.bottom && b.left <= b.right && rest == b.(top := b.top + 1)
    requires first <= b.right - b.left && below <= (rest.bottom - rest.top) * (rest.right - rest.left)
    ensures first + below <= (b.bottom - b.top) * (b.right - b.left)
  {
    MulStepLeft(rest.bottom - rest.top, b.right - b.left);
  }

  /** One row of the ink count: the row's slice, then the rows below. */
  lemma InkStep(sheet: Image<nat>, b: Box)
    requires sheet.Valid() && b.top < b.bottom && b.top < sheet.Height()
    ensures Ink(sheet, b) == NonZero(Clip(sheet.rows[b.top], b.left, b.right)) + Ink(sheet, b.(top := b.top + 1))
    ensures NonZero(Clip(sheet.rows[b.top], b.left, b.right)) <= b.right - b.left || b.right < b.left
  {
  }

  /** Every pixel of the box is zero. */
  predicate Blank(sheet: Image<nat>, b: Box)
    requires sheet.Valid() && BoxInside(sheet, b)
  {
    forall y, x :: b.top <= y < b.bottom && b.left <= x < b.right ==> sheet.rows[y][x] == 0
  }

  /**
   * Inside the sheet, the ink of a box is the non-zero count of its first
   * row slice plus the ink of the rows below.
   */
  lemma InkFirstRow(sheet: Image<nat>, b: Box)
    requires sheet.Valid() && BoxInside(sheet, b) && b.top < b.bottom
    ensures Ink(sheet, b) == NonZero(sheet.rows[b.top][b.left..b.right]) + Ink(sheet, b.(top := b.top + 1))
  {
  }

  /** A row slice has no ink exactly when all its pixels are zero. */
  lemma RowSliceBlank(sheet: Image<nat>, b: Box)
    requires sheet.Valid() && BoxInside(sheet, b) && b.top < b.bottom
    ensures NonZero(sheet.rows[b.top][b.left..b.right]) == 0 <==>
              forall x :: b.left <= x < b.right ==> sheet.rows[b.top][x] == 0
  {
    var row := sheet.rows[b.top][b.left..b.right];
    assert forall x :: b.left <= x < b.right ==> row[x - b.left] == sheet.rows[b.top][x];
  }

  /** A box inside the sheet has no ink exactly when it is blank. */
  lemma {:induction false} InkZeroIffBlank(sheet: Image<nat>, b: Box)
    requires sheet.Valid() && BoxInside(sheet, b)
    ensures Ink(sheet, b) == 0 <==> Blank(sheet, b)
    decreases b.bottom - b.top
  {
    if b.top < b.bottom {
      var rest := b.(top := b.top + 1);
      InkFirstRow(sheet, b);
      RowSliceBlank(sheet, b);
      InkZeroIffBlank(sheet, rest);
      if Ink(sheet, b) == 0 {
        forall y, x | b.top <= y < b.bottom && b.left <= x < b.right ensures sheet.rows[y][x] == 0 {
          if y > b.top { assert rest.top <= y < rest.bottom; }
        }
      }
    }
  }

  /** The fill rule: more ink than the floor of a quarter of the cell's area. */
  predicate Filled(ink: nat, area: nat) {
    ink > area / 4
  }

  /**
   * The fill rule is exactly the strict 25 percent rule: since ink is a
   * whole count, rounding the quarter down changes nothing, so strictly more
   * than a quarter of the area marks a cell and exactly a quarter never does.
   */
  lemma FillThreshold(ink: nat, area: nat)
    ensures Filled(ink, area) <==> 4 * ink > area
    ensures 4 * ink > area ==> Filled(ink, area)
    ensures 4 * ink == area ==> !Filled(ink, area)
  {
  }

  // ---------------------------------------------------------------------------
  // Answer matching and awarded cells

  /** Whether an answer accepts column `c`: the one index, or any index of the list. */
  predicate Expects(a: Answer, c: int) {
    match a
    case Single(k) => c == k
    case Multi(ks) => c in ks
  }

  /** The key's answer for subject `i`, question `q`, if the key has one. */
  function AnswerAt(key: seq<seq<Answer>>, i: nat, q: nat): Option<Answer> {
    if i < |key| && q < |key[i]| then Some(key[i][q]) else None
  }

  /** Whether the cell of subject `i`, question `q`, choice `c` is marked. */
  predicate Marked(sheet: Image<nat>, l: Layout, i: nat, q: nat, c: nat)
    requires sheet.Valid() && i < |l.questions| && q < l.questions[i] && c < l.choices
  {
    Filled(Ink(sheet, CellBox(sheet, l, i, q, c)), RowHeight(sheet, l, i) * ColWidth(sheet, l))
  }

  /**
   * The fill test on one cell, in terms of its pixels: a marked cell holds
   * ink and never more than its area, a blank cell is never marked, a cell
   * inked over more than a quarter of its area is marked and one inked over
   * exactly a quarter is not.
   */
  lemma MarkedCell(sheet: Image<nat>, l: Layout, i: nat, q: nat, c: nat)
    requires sheet.Valid() && i < |l.questions| && q < l.questions[i] && c < l.choices
    ensures var b, area := CellBox(sheet, l, i, q, c), RowHeight(sheet, l, i) * ColWidth(sheet, l);
            && BoxInside(sheet, b)
            && (Marked(sheet, l, i, q, c) ==> 0 < Ink(sheet, b) <= area)
            && (Blank(sheet, b) ==> !Marked(sheet, l, i, q, c))
            && (4 * Ink(sheet, b) > area ==> Marked(sheet, l, i, q, c))
            && (4 * Ink(sheet, b) == area ==> !Marked(sheet, l, i, q, c))
  {
    var b := CellBox(sheet, l, i, q, c);
    CellInside(sheet, l, i, q, c);
    InkWithinArea(sheet, b);
    assert (b.bottom - b.top) * (b.right - b.left) == RowHeight(sheet, l, i) * ColWidth(sheet, l);
    InkZeroIffBlank(sheet, b);
    FillThreshold(Ink(sheet, b), RowHeight(sheet, l, i) * ColWidth(sheet, l));
  }

  /** A cell earns marks when it is marked and the key expects its column. */
  predicate Awarded(sheet: Image<nat>, l: Layout, key: seq<seq<Answer>>, i: nat, q: nat, c: nat)
    requires sheet.Valid() && i < |l.questions| && q < l.questions[i] && c < l.choices
  {
    && AnswerAt(key, i, q).Some?
    && Expects(AnswerAt(key, i, q).value, c)
    && Marked(sheet, l, i, q, c)
  }

  /** Awarded cells of question `q` among the columns [0, c). */
  function QuestionHits(sheet: Image<nat>, l: Layout, key: seq<seq<Answer>>, i: nat, q: nat, c: nat): nat
    requires sheet.Valid() && i < |l.questions| && q < l.questions[i] && c <= l.choices
  {
    if c == 0 then 0
    else QuestionHits(sheet, l, key, i, q, c - 1) + (if Awarded(sheet, l, key, i, q, c - 1) then 1 else 0)
  }

  /** Awarded cells of subject `i` among the questions [0, q). */
  function SubjectHits(sheet: Image<nat>, l: Layout, key: seq<seq<Answer>>, i: nat, q: nat): nat
    requires sheet.Valid() && i < |l.questions| && q <= l.questions[i]
  {
    if q == 0 then 0
    else SubjectHits(sheet, l, key, i, q - 1) + QuestionHits(sheet, l, key, i, q - 1, l.choices)
  }

  /** Highlights of question `q` among the columns [0, c), in column order. */
  function QuestionBoxes(sheet: Image<nat>, l: Layout, key: seq<seq<Answer>>, i: nat, q: nat, c: nat): seq<Box>
    requires sheet.Valid() && i < |l.questions| && q < l.questions[i] && c <= l.choices
  {
    if c == 0 then []
    else
      QuestionBoxes(sheet, l, key, i, q, c - 1) +
      (if Awarded(sheet, l, key, i, q, c - 1) then [CellBox(sheet, l, i, q, c - 1)] else [])
  }

  /** Highlights of subject `i` among the questions [0, q), in drawing order. */
  function SubjectBoxes(sheet: Image<nat>, l: Layout, key: seq<seq<Answer>>, i: nat, q: nat): seq<Box>
    requires sheet.Valid() && i < |l.questions| && q <= l.questions[i]
  {
    if q == 0 then []
    else SubjectBoxes(sheet, l, key, i, q - 1) + QuestionBoxes(sheet, l, key, i, q - 1, l.choices)
  }

  // ---------------------------------------------------------------------------
  // Errors and the grading result

  /** The error grading raises while working on subject `i`, if any. */
  function SubjectError(sheet: Image<nat>, l: Layout, key: seq<seq<Answer>>, i: nat): Option<ScoreError>
    requires i < |l.questions|
  {
    if l.questions[i] == 0 || l.choices == 0 then Some(DivisionByZero)
    else if RowHeight(sheet, l, i) == 0 || ColWidth(sheet, l) == 0 then Some(EmptyCell)
    else if i >= |key| || |key[i]| < l.questions[i] then Some(MissingAnswer)
    else None
  }

  /** The error of the first subject from `i` on that raises one. */
  function FirstError(sheet: Image<nat>, l: Layout, key: seq<seq<Answer>>, i: nat): (r: Option<ScoreError>)
    requires i <= |l.questions|
    ensures r.None? <==> forall j :: i <= j < |l.questions| ==> SubjectError(sheet, l, key, j).None?
    decreases |l.questions| - i
  {
    if i == |l.questions| then None
    else if SubjectError(sheet, l, key, i).Some? then SubjectError(sheet, l, key, i)
    else FirstError(sheet, l, key, i + 1)
  }

  /** The error found is the error of the first failing subject from `i` on. */
  lemma {:induction false} FirstErrorIsFirst(sheet: Image<nat>, l: Layout, key: seq<seq<Answer>>, i: nat)
    requires i <= |l.questions|
    ensures var r := FirstError(sheet, l, key, i);
            r.Some? ==>
              exists j :: && i <= j < |l.questions|
                          && SubjectError(sheet, l, key, j) == r
                          && forall k :: i <= k < j ==> SubjectError(sheet, l, key, k).None?
    decreases |l.questions| - i
  {
    if i < |l.questions| && SubjectError(sheet, l, key, i).None? {
      FirstErrorIsFirst(sheet, l, key, i + 1);
    }
  }

  /** Each subject's marks per question times its awarded cells, in subject order. */
  function SubjectScores(sheet: Image<nat>, l: Layout, key: seq<seq<Answer>>): seq<int>
    requires sheet.Valid()
  {
    seq(|l.questions|, j requires 0 <= j < |l.questions| =>
          l.marksPerQuestion * SubjectHits(sheet, l, key, j, l.questions[j]))
  }

  /** Each subject's highlights, in subject order. */
  function SubjectHighlights(sheet: Image<nat>, l: Layout, key: seq<seq<Answer>>): seq<seq<Box>>
    requires sheet.Valid()
  {
    seq(|l.questions|, j requires 0 <= j < |l.questions| => SubjectBoxes(sheet, l, key, j, l.questions[j]))
  }

  /**
   * Grading of a stacked sheet: the first error raised, in subject order,
   * or one score and one highlight list per subject.
   */
  function Score(sheet: Image<nat>, l: Layout, key: seq<seq<Answer>>): (r: Result<Grading, ScoreError>)
    requires sheet.Valid()
    ensures r.Success? ==>
              && r.value.sheet == sheet
              && |r.value.scores| == |l.questions|
              && |r.value.highlights| == |l.questions|
  {
    match FirstError(sheet, l, key, 0)
    case Some(e) => Failure(e)
    case None => Success(Grading(sheet, SubjectScores(sheet, l, key), SubjectHighlights(sheet, l, key)))
  }

  // ---------------------------------------------------------------------------
  // Properties of the grading

  /**
   * Grading fails exactly when some subject has no questions, there are no
   * choices, some cell would be empty, or the key lacks an answer the grid
   * asks for; an empty subject list grades to an empty score list.
   */
  lemma ScoreFailsIff(sheet: Image<nat>, l: Layout, key: seq<seq<Answer>>)
    requires sheet.Valid()
    ensures Score(sheet, l, key).Failure? <==>
              exists i :: && 0 <= i < |l.questions|
                          && (|| l.questions[i] == 0 || l.choices == 0
                              || RowHeight(sheet, l, i) == 0 || ColWidth(sheet, l) == 0
                              || i >= |key| || |key[i]| < l.questions[i])
    ensures |l.questions| > 0 && l.choices == 0 ==> Score(sheet, l, key) == Failure(DivisionByZero)
  {
    forall i | 0 <= i < |l.questions|
      ensures SubjectError(sheet, l, key, i).Some? <==>
              (|| l.questions[i] == 0 || l.choices == 0
               || RowHeight(sheet, l, i) == 0 || ColWidth(sheet, l) == 0
               || i >= |key| || |key[i]| < l.questions[i])
    {
    }
    if |l.questions| > 0 && l.choices == 0 {
      assert SubjectError(sheet, l, key, 0) == Some(DivisionByZero);
    }
  }

  /** When no subject raises an error the sheet grades, one score per subject. */
  lemma ScoreSucceeds(sheet: Image<nat>, l: Layout, key: seq<seq<Answer>>)
    requires sheet.Valid()
    requires forall i :: 0 <= i < |l.questions| ==> SubjectError(sheet, l, key, i).None?
    ensures Score(sheet, l, key).Success? && |Score(sheet, l, key).value.scores| == |l.questions|
  {
  }

  /**
   * A single-answer question earns at most one cell, and it earns one
   * exactly when the expected column is a real column and its cell is marked.
   */
  lemma {:induction false} SingleAnswerHits(sheet: Image<nat>, l: Layout, key: seq<seq<Answer>>,
                                            i: nat, q: nat, c: nat)
    requires sheet.Valid() && i < |l.questions| && q < l.questions[i] && c <= l.choices
    requires AnswerAt(key, i, q).Some? && AnswerAt(key, i, q).value.Single?
    ensures var k := AnswerAt(key, i, q).value.index;
            QuestionHits(sheet, l, key, i, q, c) == if 0 <= k < c && Marked(sheet, l, i, q, k) then 1 else 0
  {
    if c > 0 {
      SingleAnswerHits(sheet, l, key, i, q, c - 1);
    }
  }

  /** Columns below `c` that a list answer accepts and whose cells are marked. */
  function MarkedKeyColumns(sheet: Image<nat>, l: Layout, i: nat, q: nat, ks: seq<int>, c: nat): set<int>
    requires sheet.Valid() && i < |l.questions| && q < l.questions[i] && c <= l.choices
  {
    set x | x in ks && 0 <= x < c && Marked(sheet, l, i, q, x as nat)
  }

  /** Columns below `c` that a list answer accepts. */
  function KeyColumns(ks: seq<int>, c: nat): set<int> {
    set x | x in ks && 0 <= x < c
  }

  /**
   * A list answer earns one cell for each distinct accepted column whose cell
   * is marked: credit is additive over the marked correct choices.
   */
  lemma {:induction false} MultiAnswerHits(sheet: Image<nat>, l: Layout, key: seq<seq<Answer>>,
                                           i: nat, q: nat, c: nat)
    requires sheet.Valid() && i < |l.questions| && q < l.questions[i] && c <= l.choices
    requires AnswerAt(key, i, q).Some? && AnswerAt(key, i, q).value.Multi?
    ensures QuestionHits(sheet, l, key, i, q, c) ==
            |MarkedKeyColumns(sheet, l, i, q, AnswerAt(key, i, q).value.indices, c)|
  {
    var ks := AnswerAt(key, i, q).value.indices;
    if c > 0 {
      MultiAnswerHits(sheet, l, key, i, q, c - 1);
      var last := c - 1;
      assert Awarded(sheet, l, key, i, q, last) <==> last in ks && Marked(sheet, l, i, q, last);
      MarkedKeyColumnsStep(sheet, l, i, q, ks, c);
    }
  }

  lemma MarkedKeyColumnsStep(sheet: Image<nat>, l: Layout, i: nat, q: nat, ks: seq<int>, c: nat)
    requires sheet.Valid() && i < |l.questions| && q < l.questions[i] && 0 < c <= l.choices
    ensures var before, after := MarkedKeyColumns(sheet, l, i, q, ks, c - 1), MarkedKeyColumns(sheet, l, i, q, ks, c);
            if c - 1 in ks && Marked(sheet, l, i, q, c - 1) then |after| == |before| + 1 else after == before
  {
    var before := MarkedKeyColumns(sheet, l, i, q, ks, c - 1);
    var after := MarkedKeyColumns(sheet, l, i, q, ks, c);
    var last := c - 1;
    forall x | x in after ensures x in before || x == last { }
    forall x | x in before ensures x in after { }
    if last in ks && Marked(sheet, l, i, q, last) {
      assert last in after && last !in before;
      assert after == before + {last};
    } else {
      assert last !in after;
      assert after == before;
    }
  }


  /**
   * A list answer earns between none and all of its accepted columns, and
   * all of them when every accepted column is marked.
   */
  lemma MultiAnswerRange(sheet: Image<nat>, l: Layout, key: seq<seq<Answer>>, i: nat, q: nat)
    requires sheet.Valid() && i < |l.questions| && q < l.questions[i]
    requires AnswerAt(key, i, q).Some? && AnswerAt(key, i, q).value.Multi?
    ensures var ks := AnswerAt(key, i, q).value.indices;
            QuestionHits(sheet, l, key, i, q, l.choices) <= |KeyColumns(ks, l.choices)|
    ensures var ks := AnswerAt(key, i, q).value.indices;
            (forall x :: 0 <= x < l.choices && x in ks ==> Marked(sheet, l, i, q, x)) ==>
              QuestionHits(sheet, l, key, i, q, l.choices) == |KeyColumns(ks, l.choices)|
  {
    var ks := AnswerAt(key, i, q).value.indices;
    MultiAnswerHits(sheet, l, key, i, q, l.choices);
    var marked := MarkedKeyColumns(sheet, l, i, q, ks, l.choices);
    var accepted := KeyColumns(ks, l.choices);
    assert marked <= accepted by {
      forall x | x in marked ensures x in accepted { }
    }
    SubsetCardinality(marked, accepted);
    if forall x :: 0 <= x < l.choices && x in ks ==> Marked(sheet, l, i, q, x) {
      forall x | x in accepted ensures x in marked { }
      assert marked == accepted;
    }
  }

  lemma SubsetCardinality(a: set<int>, b: set<int>)
    requires a <= b
    ensures |a| <= |b|
  {
    assert b == a + (b - a);
  }

  /** Whether `b` is the box of an awarded cell of subject `i` among questions [0, q). */
  predicate AwardedBox(sheet: Image<nat>, l: Layout, key: seq<seq<Answer>>, i: nat, q: nat, b: Box)
    requires sheet.Valid() && i < |l.questions| && q <= l.questions[i]
  {
    exists qq: nat, c: nat :: qq < q && c < l.choices && Awarded(sheet, l, key, i, qq, c) && b == CellBox(sheet, l, i, qq, c)
  }

  /** One highlight per awarded cell of a question, each the box of an awarded cell. */
  lemma {:induction false} QuestionBoxesAwarded(sheet: Image<nat>, l: Layout, key: seq<seq<Answer>>,
                                                i: nat, q: nat, c: nat)
    requires sheet.Valid() && i < |l.questions| && q < l.questions[i] && c <= l.choices
    ensures |QuestionBoxes(sheet, l, key, i, q, c)| == QuestionHits(sheet, l, key, i, q, c)
    ensures forall b :: b in QuestionBoxes(sheet, l, key, i, q, c) ==>
              exists x: nat :: x < c && Awarded(sheet, l, key, i, q, x) && b == CellBox(sheet, l, i, q, x)
  {
    if c > 0 {
      QuestionBoxesAwarded(sheet, l, key, i, q, c - 1);
    }
  }

  /**
   * One highlight per awarded cell of a subject, each the box of an awarded
   * cell: the box at column `c*cw` and row `i*bh + q*rh`, inside block `i`.
   */
  lemma {:induction false} SubjectBoxesAwarded(sheet: Image<nat>, l: Layout, key: seq<seq<Answer>>, i: nat, q: nat)
    requires sheet.Valid() && i < |l.questions| && q <= l.questions[i]
    ensures |SubjectBoxes(sheet, l, key, i, q)| == SubjectHits(sheet, l, key, i, q)
    ensures forall b :: b in SubjectBoxes(sheet, l, key, i, q) ==> AwardedBox(sheet, l, key, i, q, b)
  {
    if q > 0 {
      SubjectBoxesAwarded(sheet, l, key, i, q - 1);
      QuestionBoxesAwarded(sheet, l, key, i, q - 1, l.choices);
      forall b | b in SubjectBoxes(sheet, l, key, i, q)
        ensures AwardedBox(sheet, l, key, i, q, b)
      {
        if b in SubjectBoxes(sheet, l, key, i, q - 1) {
          var qq: nat, c: nat :| qq < q - 1 && c < l.choices && Awarded(sheet, l, key, i, qq, c) &&
                                b == CellBox(sheet, l, i, qq, c);
        } else {
          assert b in QuestionBoxes(sheet, l, key, i, q - 1, l.choices);
        }
      }
    }
  }

  /** The boxes of awarded cells of subject `i` lie inside its block and inside the sheet. */
  lemma AwardedBoxInside(sheet: Image<nat>, l: Layout, key: seq<seq<Answer>>, i: nat, q: nat, b: Box)
    requires sheet.Valid() && i < |l.questions| && q <= l.questions[i]
    requires AwardedBox(sheet, l, key, i, q, b)
    ensures BoxInside(sheet, b)
    ensures i * BlockHeight(sheet, l) <= b.top
    ensures b.bottom <= i * BlockHeight(sheet, l) + BlockHeight(sheet, l)
  {
    var qq: nat, c: nat :| qq < q && c < l.choices && Awarded(sheet, l, key, i, qq, c) &&
                          b == CellBox(sheet, l, i, qq, c);
    CellInside(sheet, l, i, qq, c);
  }

  lemma ScoreValue(sheet: Image<nat>, l: Layout, key: seq<seq<Answer>>)
    requires sheet.Valid() && Score(sheet, l, key).Success?
    ensures Score(sheet, l, key).value == Grading(sheet, SubjectScores(sheet, l, key), SubjectHighlights(sheet, l, key))
  {
  }

  /**
   * On success each subject's score is the marks per question times its
   * number of highlights, every highlight is the box of an awarded cell of
   * that subject, and that box lies inside the subject's block and the sheet.
   */
  lemma ScoreMatchesHighlights(sheet: Image<nat>, l: Layout, key: seq<seq<Answer>>, i: nat)
    requires sheet.Valid() && Score(sheet, l, key).Success? && i < |l.questions|
    ensures var g := Score(sheet, l, key).value;
            g.scores[i] == l.marksPerQuestion * |g.highlights[i]|
    ensures var g := Score(sheet, l, key).value;
            forall b :: b in g.highlights[i] ==>
              && AwardedBox(sheet, l, key, i, l.questions[i], b)
              && BoxInside(sheet, b)
              && i * BlockHeight(sheet, l) <= b.top
              && b.bottom <= i * BlockHeight(sheet, l) + BlockHeight(sheet, l)
  {
    ScoreValue(sheet, l, key);
    var boxes := SubjectBoxes(sheet, l, key, i, l.questions[i]);
    SubjectBoxesAwarded(sheet, l, key, i, l.questions[i]);
    forall b | b in boxes
      ensures BoxInside(sheet, b)
      ensures i * BlockHeight(sheet, l) <= b.top
      ensures b.bottom <= i * BlockHeight(sheet, l) + BlockHeight(sheet, l)
    {
      AwardedBoxInside(sheet, l, key, i, l.questions[i], b);
    }
  }

  // ---------------------------------------------------------------------------
  // The scorer as the program runs it

  /** The scorer's cell arithmetic produces the cell of the partition, which lies on the sheet. */
  lemma CellAt(sheet: Image<nat>, l: Layout, i: nat, q: nat, c: nat, blockTop: nat, rowHeight: nat, colWidth: nat)
    requires i < |l.questions| && q < l.questions[i] && c < l.choices
    requires blockTop == i * BlockHeight(sheet, l)
    requires rowHeight == RowHeight(sheet, l, i) && colWidth == ColWidth(sheet, l)
    ensures var cell := Box(c * colWidth, blockTop + q * rowHeight, c * colWidth + colWidth,
                            blockTop + q * rowHeight + rowHeight);
            cell == CellBox(sheet, l, i, q, c) && BoxInside(sheet, cell)
  {
    CellInside(sheet, l, i, q, c);
  }

  /** With the key entry present, a cell is awarded when its column is expected and it is filled. */
  lemma AwardedCell(sheet: Image<nat>, l: Layout, key: seq<seq<Answer>>, i: nat, q: nat, c: nat, filled: bool)
    requires sheet.Valid() && i < |l.questions| && q < l.questions[i] && c < l.choices
    requires i < |key| && q < |key[i]|
    requires filled == Marked(sheet, l, i, q, c)
    ensures Awarded(sheet, l, key, i, q, c) <==> Expects(key[i][q], c) && filled
  {
  }

  lemma MulStep(m: int, k: nat)
    ensures m * (k + 1) == m * k + m
  {
  }

  lemma MulStepLeft(k: nat, m: int)
    ensures (k + 1) * m == k * m + m
  {
  }

  /** Grading stops with the error of the first subject that raises one. */
  lemma ScoreStopsAt(sheet: Image<nat>, l: Layout, key: seq<seq<Answer>>, i: nat)
    requires sheet.Valid() && i < |l.questions|
    requires forall j :: 0 <= j < i ==> SubjectError(sheet, l, key, j).None?
    requires SubjectError(sheet, l, key, i).Some?
    ensures Score(sheet, l, key) == Failure(SubjectError(sheet, l, key, i).value)
  {
    FirstErrorSkips(sheet, l, key, 0, i);
  }

  /** Subjects without error are passed over by the search for the first error. */
  lemma {:induction false} FirstErrorSkips(sheet: Image<nat>, l: Layout, key: seq<seq<Answer>>, from: nat, i: nat)
    requires from <= i <= |l.questions|
    requires forall j :: from <= j < i ==> SubjectError(sheet, l, key, j).None?
    ensures FirstError(sheet, l, key, from) == FirstError(sheet, l, key, i)
    decreases i - from
  {
    if from < i {
      FirstErrorSkips(sheet, l, key, from + 1, i);
    }
  }

  lemma PrefixGrows<T>(s: seq<T>, i: nat)
    requires i < |s|
    ensures s[..i + 1] == s[..i] + [s[i]]
  {
  }

  lemma MulAdd(m: int, a: nat, b: nat)
    ensures m * (a + b) == m * a + m * b
  {
  }

  /**
   * One cell of the choice loop: raises the empty-cell error when the cell
   * has no rows or columns and the missing-answer error when the key has no
   * entry for the question; otherwise whether the cell earns marks, and its
   * rectangle.
   */
  method MarkCell(sheet: Image<nat>, l: Layout, key: seq<seq<Answer>>, i: nat, q: nat, c: nat, blockTop: nat,
                  rowHeight: nat, colWidth: nat)
    returns (r: Result<(bool, Box), ScoreError>)
    requires sheet.Valid() && i < |l.questions| && q < l.questions[i] && c < l.choices
    requires blockTop == i * BlockHeight(sheet, l)
    requires rowHeight == RowHeight(sheet, l, i) && colWidth == ColWidth(sheet, l)
    ensures r.Failure? <==> rowHeight == 0 || colWidth == 0 || i >= |key| || q >= |key[i]|
    ensures r.Failure? ==> r.error == (if rowHeight == 0 || colWidth == 0 then EmptyCell else MissingAnswer)
    ensures r.Success? ==> r.value == (Awarded(sheet, l, key, i, q, c), CellBox(sheet, l, i, q, c))
  {
    var x, y := c * colWidth, q * rowHeight;
    if rowHeight == 0 || colWidth == 0 {
      return Failure(EmptyCell);
    }
    var cell := Box(x, blockTop + y, x + colWidth, blockTop + y + rowHeight);
    CellAt(sheet, l, i, q, c, blockTop, rowHeight, colWidth);
    var ink := Ink(sheet, cell);
    if i >= |key| || q >= |key[i]| {
      return Failure(MissingAnswer);
    }
    var filled := ink > (rowHeight * colWidth) / 4;
    var hit := match key[i][q]
      case Multi(ks) => c in ks && filled
      case Single(k) => c == k && filled;
    AwardedCell(sheet, l, key, i, q, c, filled);
    return Success((hit, cell));
  }

  /**
   * The choice loop of one question: the first failing cell aborts it;
   * otherwise it adds the marks of each awarded column, in column order, and
   * records its highlight.
   */
  method ScoreQuestion(sheet: Image<nat>, l: Layout, key: seq<seq<Answer>>, i: nat, q: nat, blockTop: nat,
                       rowHeight: nat, colWidth: nat)
    returns (r: Result<(int, seq<Box>), ScoreError>)
    requires sheet.Valid() && i < |l.questions| && q < l.questions[i] && 0 < l.choices
    requires blockTop == i * BlockHeight(sheet, l)
    requires rowHeight == RowHeight(sheet, l, i) && colWidth == ColWidth(sheet, l)
    ensures r.Failure? <==> rowHeight == 0 || colWidth == 0 || i >= |key| || q >= |key[i]|
    ensures r.Failure? ==> r.error == (if rowHeight == 0 || colWidth == 0 then EmptyCell else MissingAnswer)
    ensures r.Success? ==>
              && r.value.0 == l.marksPerQuestion * QuestionHits(sheet, l, key, i, q, l.choices)
              && r.value.1 == QuestionBoxes(sheet, l, key, i, q, l.choices)
  {
    var score := 0;
    var boxes: seq<Box> := [];
    var c := 0;
    while c < l.choices
      invariant 0 <= c <= l.choices
      invariant c > 0 ==> rowHeight > 0 && colWidth > 0 && i < |key| && q < |key[i]|
      invariant score == l.marksPerQuestion * QuestionHits(sheet, l, key, i, q, c)
      invariant boxes == QuestionBoxes(sheet, l, key, i, q, c)
    {
      var cellResult := MarkCell(sheet, l, key, i, q, c, blockTop, rowHeight, colWidth);
      if cellResult.Failure? {
        return Failure(cellResult.error);
      }
      var (hit, cell) := cellResult.value;
      if hit {
        MulStep(l.marksPerQuestion, QuestionHits(sheet, l, key, i, q, c));
        score := score + l.marksPerQuestion;
        boxes := boxes + [cell];
      }
      c := c + 1;
    }
    return Success((score, boxes));
  }

  /**
   * The question loop of one subject: raises the division error for a
   * subject without questions or a layout without choices, then the first
   * error of its questions; otherwise the subject's score and highlights.
   */
  method ScoreSubject(sheet: Image<nat>, l: Layout, key: seq<seq<Answer>>, i: nat, blockTop: nat)
    returns (r: Result<(int, seq<Box>), ScoreError>)
    requires sheet.Valid() && i < |l.questions| && blockTop == i * BlockHeight(sheet, l)
    ensures r.Failure? <==> SubjectError(sheet, l, key, i).Some?
    ensures r.Failure? ==> SubjectError(sheet, l, key, i) == Some(r.error)
    ensures r.Success? ==>
              && r.value.0 == l.marksPerQuestion * SubjectHits(sheet, l, key, i, l.questions[i])
              && r.value.1 == SubjectBoxes(sheet, l, key, i, l.questions[i])
  {
    var qCount := l.questions[i];
    if qCount == 0 {
      return Failure(DivisionByZero);
    }
    var rowHeight := BlockHeight(sheet, l) / qCount;
    if l.choices == 0 {
      return Failure(DivisionByZero);
    }
    var colWidth := sheet.width / l.choices;
    var score := 0;
    var boxes: seq<Box> := [];
    var q := 0;
    while q < qCount
      invariant 0 <= q <= qCount
      invariant q > 0 ==> rowHeight > 0 && colWidth > 0 && i < |key| && q <= |key[i]|
      invariant score == l.marksPerQuestion * SubjectHits(sheet, l, key, i, q)
      invariant boxes == SubjectBoxes(sheet, l, key, i, q)
    {
      var row := ScoreQuestion(sheet, l, key, i, q, blockTop, rowHeight, colWidth);
      if row.Failure? {
        return Failure(row.error);
      }
      MulAdd(l.marksPerQuestion, SubjectHits(sheet, l, key, i, q), QuestionHits(sheet, l, key, i, q, l.choices));
      score := score + row.value.0;
      boxes := boxes + row.value.1;
      q := q + 1;
    }
    return Success((score, boxes));
  }

  /**
   * Stacks the two slices and grades subject by subject, in order: the
   * first error raised, or one score and one highlight list per subject.
   * The outcome is the grading of the stacked sheet.
   */
  method Upper(top: Image<nat>, bottom: Image<nat>, l: Layout, key: seq<seq<Answer>>)
    returns (r: Result<Grading, ScoreError>)
    requires top.Valid() && bottom.Valid() && top.width == bottom.width
    ensures r == Score(Stack(top, bottom), l, key)
    ensures r.Success? ==> |r.value.scores| == |l.questions| && r.value.sheet.rows == top.rows + bottom.rows
  {
    var sheet := Stack(top, bottom);
    var n := |l.questions|;
    var scores: seq<int> := [];
    var highlights: seq<seq<Box>> := [];
    var startRow: nat := 0;
    var i := 0;
    while i < n
      invariant 0 <= i <= n
      invariant startRow == i * BlockHeight(sheet, l)
      invariant forall j :: 0 <= j < i ==> SubjectError(sheet, l, key, j).None?
      invariant scores == SubjectScores(sheet, l, key)[..i]
      invariant highlights == SubjectHighlights(sheet, l, key)[..i]
    {
      var blockHeight := sheet.Height() / n;
      var subject := ScoreSubject(sheet, l, key, i, startRow);
      if subject.Failure? {
        ScoreStopsAt(sheet, l, key, i);
        return Failure(subject.error);
      }
      var allScores, allHighlights := SubjectScores(sheet, l, key), SubjectHighlights(sheet, l, key);
      assert allScores[i] == subject.value.0 && allHighlights[i] == subject.value.1;
      PrefixGrows(allScores, i);
      PrefixGrows(allHighlights, i);
      scores := scores + [subject.value.0];
      highlights := highlights + [subject.value.1];
      MulStepLeft(i, blockHeight);
      startRow := startRow + blockHeight;
      i := i + 1;
    }
    assert scores == SubjectScores(sheet, l, key);
    assert highlights == SubjectHighlights(sheet, l, key);
    return Success(Grading(sheet, scores, highlights));
  }
}
