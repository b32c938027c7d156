# OMR sheet evaluation — a Dafny model of its core

The evaluation system takes a photograph of an optical-mark-recognition answer sheet and
scores it. It has five subjects (Python, EDA, SQL, PowerBI, Statistics) with
twenty questions each and four choices per question. This project models the
part of the system that turns a photograph into per-subject scores:

- **Answer key** (`answer_key.dfy`, module `AnswerKey`). The shipped key is a
  table of letter strings, one per question. The key parser strips spaces,
  lower-cases the string and maps letters `a`–`d` to choices 0–3. A string
  with a comma becomes a list of indices; anything else must be one letter.
  The key is built subject by subject from the table.
- **Orientation search** (`contour_search.dfy`, module `ContourSearch`). The
  photograph is rotated by 0, 90, 180 and 270 degrees in turn. For each
  rotation, the contour filter is tried at the area thresholds 50000, 30000
  and 10000, in that order. The first rotation whose threshold search finds
  candidates wins, and its rotated image becomes the working image.
- **Rotation and cut** (`raster.dfy`, module `Raster`). The angle dispatch of
  the rotation helper, the three quarter-turn rotations, the cut of the
  rectified sheet at 60 % of its height, and the vertical stacking that
  rejoins the two slices.
- **Grid scorer** (`grid_scorer.dfy`, module `GridScorer`):
  - The stacked sheet is divided into one block of `h // n` rows per subject,
    one band of `bh // q_count` rows per question, and one column of
    `w // choices` pixels per choice.
  - A cell counts as marked when its non-zero pixel count exceeds
    `(rh * cw) // 4`.
  - Marks are added for every marked cell whose column the key expects, and
    the cell's rectangle is recorded as a highlight.
  - The model also covers the error paths: a zero divisor, an empty cell
    handed to the grayscale conversion, and a key entry that is missing.
- **Mark finder** (`mark_finder.dfy`, module `MarkFinder`). The shipped constants and
  the top-level flow:
  1. Search for an orientation.
  2. Take the corner points of the first candidate and rectify them.
  3. Cut the sheet.
  4. Score it.

  This module also holds facts about the shipped configuration. A 780 x 600
  sheet always grades with the shipped key. The geometry it then uses is
  blocks of 156 rows, question rows of 7 rows, columns of 150 pixels, and a
  fill threshold of 262. The sixteenth Python question accepts all four
  choices, so it can earn four marks.

`outcomes.dfy` (module `Outcomes`) defines `Option` and `Result`.

Pixels are natural numbers on a single channel. Contour extraction, the
quadrilateral filter, corner extraction and the perspective warp are function
parameters: the model states what the program does with their results, not how
they compute them.

## Model

| member | source | states |
|---|---|---|
| Raster.Rotate | functions.py:17-28 | 90 turns clockwise, 180 turns half-way, 270 turns counter-clockwise (with the width and height swapped for the quarter turns); every other angle, 0 included, returns the image unchanged |
| Raster.RotateClockwise | functions.py:21-22 | the clockwise quarter turn: pixel (y, x) of the result is pixel (h-1-x, y) of the input, and width and height swap |
| Raster.RotateHalf | functions.py:23-24 | the half turn: pixel (y, x) of the result is pixel (h-1-y, w-1-x) of the input |
| Raster.RotateCounterClockwise | functions.py:25-26 | the counter-clockwise quarter turn: pixel (y, x) of the result is pixel (x, w-1-y) of the input |
| Raster.RotateClockwiseUndone | functions.py:21-26 | a counter-clockwise turn after a clockwise turn gives back the image |
| Raster.RotateCounterClockwiseUndone | functions.py:21-26 | a clockwise turn after a counter-clockwise turn gives back the image |
| Raster.TwoQuarterTurnsMakeHalfTurn | functions.py:21-24 | two clockwise quarter turns equal the half turn |
| Raster.FourQuarterTurnsIdentity | functions.py:21-22 | four clockwise quarter turns give back the image |
| Raster.RotateQuarterRoundTrip | functions.py:17-28 | the dispatch's 90 and 270 rotations undo each other, in both orders |
| Raster.CutRow | main.py:85 | the cut row is 60 % of the height rounded down: `100*cut <= 60*h < 100*cut + 100`, and never past the last row |
| Raster.SplitSheet | main.py:84-87 | the top slice has `cut` rows and the bottom slice the rest, both as wide as the sheet |
| Raster.Stack | functions.py:39 | stacking puts the top slice's rows first and the bottom slice's rows after them |
| Raster.SplitThenStack | main.py:84-87 | stacking the two slices of the cut restores the rectified sheet exactly |
| AnswerKey.LetterIndex | main.py:33 | the mapping is defined exactly on the one-letter strings a–d, and maps each letter to its position |
| AnswerKey.StripSpaces | main.py:34 | the result holds no space, is shorter than the input by exactly its number of spaces, and keeps every other character |
| AnswerKey.StripSpacesAppend | main.py:34 | removing spaces distributes over concatenation, so with the one-character cases the kept characters stay in input order |
| AnswerKey.Lower | main.py:34 | lower-casing keeps the length and maps every character through the ASCII lower-case map |
| AnswerKey.Split | main.py:36 | a string with k separators splits into k+1 pieces, none of which holds the separator, and joining them restores the string |
| AnswerKey.LetterIndices | main.py:36 | succeeds exactly when every token is a letter, with one index per token in order; otherwise it fails on an unknown token |
| AnswerKey.NormalizeIdempotent | main.py:34 | stripping spaces and lower-casing twice is the same as doing it once |
| AnswerKey.ParseIgnoresSpacesAndCase | main.py:32-34 | an entry parses like its normal form: spaces and letter case do not matter |
| AnswerKey.ParseAnswer | main.py:32-38 | a successful parse is a single index exactly when the normal form has no comma, and then that form is the index's letter; a list has one index per comma-separated token, in order, each naming its token's letter; a failure names a token the letter mapping lacks |
| AnswerKey.ParseSingleIff | main.py:35-38 | an entry parses to the single index k exactly when its normal form is the k-th letter |
| AnswerKey.ParseLetter | main.py:32-38 | every letter a–d, upper or lower case and with the same run of spaces on each side, parses to its own index |
| AnswerKey.ParseMultiIff | main.py:35-36 | an entry parses to a list exactly when its normal form holds a comma and each comma-separated token is a letter; the list holds one index per token, in order |
| AnswerKey.ParseFailsIff | main.py:33-38 | an entry fails to parse exactly when one of its tokens is not a letter; there is no default index |
| AnswerKey.MultiHasTwoIndices | main.py:35-36 | a list answer always holds at least two indices |
| AnswerKey.ListEntryParses | main.py:35-36 | a space-free, lower-case, comma-separated string of letters parses to the list of their indices |
| AnswerKey.ParseSubject | main.py:40 | a subject's entries parse exactly when each does, giving one answer per entry, in order |
| AnswerKey.BuildKey | main.py:40 | the key builds exactly when every entry of every subject parses, giving one answer list per subject, entry for entry |
| AnswerKey.RawKeyEntriesParse | main.py:19-30 | every entry of the shipped table parses |
| AnswerKey.ShippedKeyShape | main.py:14-40 | the shipped key builds, with one list per subject and as many answers as that subject has questions |
| ContourSearch.BiggestContour | main.py:43-48 | the result is the filter's output at the first threshold, in order, whose output is non-empty; it is empty exactly when every threshold gives nothing, and then all thresholds were tried |
| ContourSearch.OrientFromFails | main.py:58-65 | the rotation search fails exactly when no remaining angle yields candidates; the image is then left unrotated, and every angle and every threshold were tried |
| ContourSearch.OrientFromFinds | main.py:58-65 | a successful search returns the candidates and rotated image of the first angle that yields candidates; every earlier angle yielded none |
| ContourSearch.OrientFromBounded | main.py:43-65 | whatever the outcome, the search from an angle runs at most one filter call per threshold for each remaining angle |
| ContourSearch.Orient | main.py:57-65 | the search over all four angles: the working image is the winning rotation or, on failure, the input, after one filter call per angle and threshold on failure, and no more than that on success |
| GridScorer.SubjectBlock | functions.py:44-48 | every subject block ends by row `h - h mod n`, so the last rows are never read |
| GridScorer.SubjectBlocksDisjoint | functions.py:44-48 | an earlier subject block ends before a later one starts: the blocks are disjoint and in order |
| GridScorer.CellInside | functions.py:51-59 | every cell lies inside its question band, its subject block and the sheet |
| GridScorer.Clip | functions.py:59 | a slice inside the row is the row's sub-sequence, and it is never wider than asked for |
| GridScorer.InkWithinArea | functions.py:59-60 | a cell never counts more non-zero pixels than its area |
| GridScorer.InkZeroIffBlank | functions.py:59-60 | a cell counts no ink exactly when every pixel in it is zero |
| GridScorer.MarkedCell | functions.py:57-62 | a marked cell holds some ink and no more than its area, a blank cell is never marked, more than a quarter of the area inked marks it and exactly a quarter does not |
| GridScorer.FillThreshold | functions.py:62 | the fill rule is exactly the strict quarter rule `4 * ink > area`: rounding the quarter down changes nothing for a whole pixel count, so ink above a quarter marks a cell and exactly a quarter does not |
| GridScorer.SingleAnswerHits | functions.py:65-68 | a single-answer question earns one cell when the expected column exists and is marked, and none otherwise |
| GridScorer.MultiAnswerHits | functions.py:61-64 | a list answer earns one cell per distinct accepted column that is marked |
| GridScorer.MultiAnswerRange | functions.py:61-64 | a list answer earns at most as many cells as it has accepted columns, and exactly that many when every accepted column is marked |
| GridScorer.ScoreFailsIff | functions.py:44-61 | grading fails exactly when some subject has no questions, there are no choices, some cell would be empty, or the key lacks an entry the grid reads; zero choices is a division error |
| GridScorer.FirstErrorIsFirst | functions.py:44-61 | the error grading reports is the error of the first subject, in order, that raises one; every earlier subject raises none |
| GridScorer.ScoreSucceeds | functions.py:44-69 | when no subject raises an error, the sheet grades with one score per subject |
| GridScorer.QuestionBoxesAwarded | functions.py:61-68 | a question has one highlight per awarded cell, and each highlight is the box of an awarded cell |
| GridScorer.SubjectBoxesAwarded | functions.py:55-68 | a subject has one highlight per awarded cell, and each highlight is the box of an awarded cell |
| GridScorer.AwardedBoxInside | functions.py:64-68 | a highlight lies inside its subject's block and inside the sheet |
| GridScorer.ScoreMatchesHighlights | functions.py:61-69 | a subject's score is the marks per question times its number of highlights, and each highlight frames an awarded cell of that subject's block |
| GridScorer.MarkCell | functions.py:57-68 | one cell: an empty-cell error before the key is read, a missing-answer error next, or else whether the cell is awarded together with its box |
| GridScorer.ScoreQuestion | functions.py:56-68 | the choice loop yields the marks times the awarded cells of the question and their boxes in column order, or the first error raised |
| GridScorer.ScoreSubject | functions.py:46-69 | the question loop raises the subject's error, if it has one; otherwise it yields the marks times the subject's awarded cells, and their boxes in drawing order |
| GridScorer.Upper | functions.py:30-72 | the scorer returns the grading of the stacked sheet: the first subject's error, or one score and one highlight list per subject |
| MarkFinder.FindMarks | main.py:50-95 | no sheet exactly when the search finds no candidate or the first candidate has no corner points; otherwise the grading of the rectified sheet |
| MarkFinder.ShippedConfigurationGrades | main.py:10-40 | with the shipped key and layout, every 780 x 600 sheet grades into five scores |
| MarkFinder.ShippedGeometry | main.py:10-14 | the shipped layout on a 780 x 600 sheet: blocks of 156 rows, question rows of 7, columns of 150, a fill threshold of 262, and 16 rows per block never read |
| MarkFinder.ShippedPythonSixteenth | main.py:21 | the sixteenth Python question of the shipped key accepts all four choices |
| MarkFinder.ShippedListQuestionEarnsFour | functions.py:61-63 | with all four cells of that question marked, it earns four cells |

## Left out

- Image loading, the colour-space conversions, the resize to 600 x 780, and
  the Streamlit page are not modelled. The photograph enters as an image of
  single-channel pixels. The grayscale conversion of a cell is taken to keep
  its non-zero pixels.
- The pre-processing (blur and adaptive threshold), `cv2.findContours`,
  `util.rectContours`, `util.getCornerPoints`, `util.reorder`, and the
  perspective warp are OpenCV or helper code that is not part of this model.
  They are function parameters: `detect`, `filter`, `corners` and
  `rectify`.
- The only thing modelled about `rectify` is that it returns a 780 x 600
  image.
- MarkFinder.FindMarks: drawing contours and highlights into the display images
  is not modelled. The highlights are returned as boxes instead.
- GridScorer.Upper: in the program, a highlight is drawn into the stacked image
  while the scan is still going. `sub_img` is a view of that image, so the
  frame of a highlight can add ink to cells read later. The model reads every
  cell from the stacked sheet as it was before any drawing.
- GridScorer.ScoreQuestion: the choice loop reads every cell from the undrawn
  sheet. In the program, the frame drawn for an awarded column is drawn into
  the image the loop is still reading, so it can add ink to the next column
  of the same question before that column is read.
- GridScorer.ScoreSubject: the question loop reads every question from the
  undrawn sheet. In the program, the frames of one question's awarded cells
  already overlap the first row of the next question when it is read.
- GridScorer.Upper: the requirement that both slices have the same width
  stands in for the stacking error the program would raise otherwise. The two
  slices of the cut always satisfy it.
- GridScorer.Upper: the unused parameters `imgContours` and
  `questions_per_subject` are dropped. So is `return_scores` with its `False`
  default, which returns only the image: the model always returns the scores
  too, and the one caller in main.py passes `True`.
- AnswerKey.Lower: only ASCII letters are lower-cased. Python's `lower()`
  also changes other letters, but the key uses only a–d.
- AnswerKey.ParseAnswer: the mapping's `KeyError` is modelled as a
  `Failure(UnknownLetter(token))` outcome rather than an exception.
- Question counts are natural numbers. A negative count would make
  `range(q_count)` empty, and the model does not represent it.
- Layout: `choices` is a natural number. With a negative `choices` the
  program computes a negative `w // choices` without error, `range(choices)`
  is empty, and every subject scores 0. The model does not represent that
  layout.
- Scores are sums of the marks per question, with no cap. A list answer earns
  marks for every marked accepted column (see
  MarkFinder.ShippedListQuestionEarnsFour), so a subject can score more than its
  number of questions. The model keeps this behaviour of the program.
