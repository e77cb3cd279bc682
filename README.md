# iFocus focus analytics — a Dafny model

iFocus records where a student looks on screen while working on an assignment. Each
gaze sample carries x/y screen coordinates, a flag saying whether the gaze fell outside
the screen, and a timestamp. A batch job summarises one student's samples for an
assignment, and also all students' samples for an assignment together, in the order the
database returns them. Each summary is built from these metrics:

- the total duration,
- the distraction time and the focus time,
- the share of samples in each screen quadrant,
- the hotspot grid cell,
- the number of focus transitions.

The job combines them into a textual summary. The web routes carry a second copy of the
distraction and focus computations. They also take the YouTube video id out of an
assignment's URL and the file name out of its PDF path. The data model refuses to create
an assignment with neither a PDF nor a video, and never lets both fields hold a non-empty
value. Clearing a field later is allowed. Grades are kept in [0, 100].

This project models those pieces and proves what they compute:

- `wrappers.dfy`: `Option` and `Result`.
- `sorting.dfy`: `sorted(key=...)`, shown sorted and a permutation of its input.
- `counting.dfy`: `collections.Counter` and `most_common(1)`.
- `splitting.dfy`: `str.split` on a non-empty separator. It is proved to round-trip with
  `join`, and its first and last pieces are characterised.
- `models.dfy`: the gaze sample and the `Assignment` class, with its validators as
  state-changing methods, plus the grade validator.
- `cron_utils.dfy`: the metrics and the summary.
- `routes.dfy`: the routes' distraction and focus time, the video id and the PDF file name.

Timestamps and durations are whole microseconds. A sample's timestamp is an `int` `t`, and
`timedelta.total_seconds()` is modelled as exact division by 10^6 where the summary
reports seconds. The summary is a sequence of structured `Line` values, one per line of
text, holding the unformatted numbers that the text prints.

## Model

| member | source | states |
|---|---|---|
| CronUtils.TotalDuration | cron_utils.py:6-23 | The sort-then-sum loop returns the batch's span: latest minus earliest timestamp, or 0 below two samples. It is never negative. |
| CronUtils.SortedSpan | cron_utils.py:16-21 | The sum of neighbour gaps in the sorted copy is its last minus its first timestamp, which equals the span of the unsorted batch. |
| CronUtils.DurationIgnoresOrder | cron_utils.py:15-16 | Two batches holding the same samples in any order have the same total duration. |
| CronUtils.SpanZeroIff | cron_utils.py:12-13 | The total duration is 0 exactly when there are fewer than two samples or all timestamps are equal. |
| CronUtils.SameSamplesSameBounds | cron_utils.py:16 | A permutation keeps the earliest and latest timestamps. |
| CronUtils.DistractionTime | cron_utils.py:25-39 | The pass with the `previous_time` cursor returns `Distraction(data)`: each outside sample adds the time since the sample just before it in the batch, and the first sample adds nothing. |
| CronUtils.NoOutsideNoDistraction | cron_utils.py:33-37 | With no outside sample the distraction time is 0. |
| CronUtils.OrderedDistractionBounds | cron_utils.py:33-37 | On a time-ordered batch the distraction time lies between 0 and last minus first timestamp. |
| CronUtils.OrderedDistractionWithinDuration | cron_utils.py:25-39 | On a time-ordered batch the distraction time lies between 0 and the total duration. |
| CronUtils.FocusTime | cron_utils.py:42-49 | Focus time plus distraction time equals the given total duration. |
| CronUtils.OrderedFocusWithinDuration | cron_utils.py:42-49 | On a time-ordered batch the focus time lies between 0 and the total duration. |
| CronUtils.UnorderedFocusCanBeNegative | cron_utils.py:33-37 | On a batch out of timestamp order the focus time can be negative. A concrete batch gives −10 s. |
| CronUtils.CountWhere | cron_utils.py:63-66 | A `sum(1 for ... if ...)` count never exceeds the batch size. |
| CronUtils.QuadrantsPartition | cron_utils.py:63-66 | The four quadrant tests split every batch: their counts add up to its size. |
| CronUtils.Share | cron_utils.py:69-72 | A count divided by the batch size is that fraction and lies in [0, 1]. |
| CronUtils.FocusDistribution | cron_utils.py:52-73 | All four shares are 0 for an empty batch. Otherwise each share is its quadrant's count over the batch size, and the four shares add up to 1. |
| CronUtils.SharesOfPartition | cron_utils.py:68-73 | Four counts that add up to n, each divided by n, add up to 1. |
| CronUtils.Trunc | cron_utils.py:86 | `int()` truncates toward zero: the result lies within 1 of its argument, on the zero side. |
| CronUtils.Cells | cron_utils.py:86 | The focus points list the grid cell of each sample, in batch order. |
| Counting.Occurrences | cron_utils.py:89 | A count is at most the length and is positive exactly when the element occurs. |
| Counting.CountAllCounts | cron_utils.py:89 | The counter holds each distinct element once, in order of first appearance, with its number of occurrences. |
| Counting.MostCommon | cron_utils.py:92 | Returns an element of the sequence with its count. No element occurs more often, and among elements with the largest count it appears first. |
| Sorting.Insert | cron_utils.py:16 | Inserting into a key-sorted sequence keeps it sorted and adds exactly that element. |
| Sorting.Sorted | cron_utils.py:16 | The result is sorted by the key and a permutation of the input. |
| CronUtils.IdentifyHotspot | cron_utils.py:76-98 | Returns `None` exactly for an empty batch. Otherwise the cell holds the most samples, and is the first such cell in order of first appearance. Its intensity is that cell's sample count, `total_points` is the batch size and the ratio is intensity over size. |
| CronUtils.UniformBatchHotspot | cron_utils.py:86-97 | When every sample falls in one cell, that cell is the hotspot with every sample and ratio 1. |
| CronUtils.CountTransitions | cron_utils.py:101-117 | The pass returns `Transitions(data, threshold)`, the number of consecutive pairs in batch order whose x or y changes by more than the threshold. |
| CronUtils.TransitionsBound | cron_utils.py:106-116 | A non-empty batch has at most `len - 1` transitions, with exactly that many iff every step jumps. |
| CronUtils.TransitionsZeroIff | cron_utils.py:106-116 | There are no transitions iff no step jumps. |
| CronUtils.TransitionsIgnoreTime | cron_utils.py:110-115 | Only coordinates matter: timestamps and outside flags do not change the count. |
| CronUtils.Narrative | cron_utils.py:134-155 | Ten lines when there is a hotspot and nine otherwise, with the focus, distraction and four quadrant lines at fixed places. |
| CronUtils.BuildSummary | cron_utils.py:134-155 | Builds the `try` block's lines, then appends the hotspot line when there is a hotspot, then the transitions line. |
| CronUtils.Summary | cron_utils.py:133-147 | There is no summary exactly when the total duration is 0, because the percentages divide by it. |
| CronUtils.SummarizeFocusBehavior | cron_utils.py:120-157 | Computing the six metrics with the methods above and assembling them yields `Report(data)`, the summary of the metrics' specification functions. |
| CronUtils.NoReportIff | cron_utils.py:126-147 | No summary exactly when the batch has fewer than two samples or all its timestamps are equal. |
| CronUtils.SummaryShape | cron_utils.py:134-155 | The total duration line is first, the transitions line last, and the hotspot line, when present, comes just before it. |
| CronUtils.SummaryPercents | cron_utils.py:136-142 | The focus and distraction percentages add up to 100, and so do the quadrant percentages when the shares add up to 1. |
| CronUtils.SummaryFocusPercent | cron_utils.py:136 | When distraction lies within the total, the focus percentage lies in [0, 100]. |
| CronUtils.ReportShape | cron_utils.py:149-155 | Every summary has ten lines, because a batch with a non-zero duration has a hotspot. Line 9 holds the hotspot intensity and line 10 the transition count. |
| CronUtils.ReportPercents | cron_utils.py:136-142 | In every summary the focus and distraction percentages add up to 100, and so do the four quadrant percentages. |
| CronUtils.OrderedFocusPercent | cron_utils.py:136 | For a time-ordered batch the focus percentage lies in [0, 100]. |
| Routes.DistractionTime | routes.py:583-596 | The routes' copy computes the same distraction time as the batch job, `Distraction(data)`. |
| Routes.FocusTime | routes.py:599-605 | Focus time plus distraction time equals the given total. |
| Splitting.FindSpec | routes.py:247 | `Find` returns no index iff the separator does not occur. Otherwise the index is an occurrence of the separator and no occurrence comes before it, so it is the first. |
| Splitting.Split | routes.py:247 | `str.split` always returns at least one piece. |
| Splitting.JoinSplit | routes.py:247 | Joining the pieces with the separator gives the original string back. |
| Splitting.SplitPartsFree | routes.py:247 | No piece contains the separator. |
| Splitting.FirstPieceIsPrefix | routes.py:247 | The first piece is a prefix free of the separator. It ends at the end of the string or where the separator occurs. |
| Splitting.SecondPiece | routes.py:247 | There is a second piece iff the separator occurs. It is the first piece of what follows the first occurrence. |
| Routes.VideoId | routes.py:247 | The lookup `[1]` fails with `IndexError` exactly when the URL has no `v=`. |
| Routes.VideoIdIsParameter | routes.py:247 | The id is the text right after the first `v=`, up to the next `&`, the next `v=` or the end of the URL, and contains neither. |
| Splitting.LastPieceOfSplit | routes.py:163 | The last piece of `split` is the text after the last occurrence of the separator. |
| Splitting.LastPieceIsSuffix | routes.py:163 | The last piece is a suffix of the string, preceded by the separator unless it is the whole string. |
| Splitting.LastPieceFree | routes.py:163 | The last piece does not contain the separator. |
| Splitting.LastPieceWhole | routes.py:163 | The last piece is the whole string iff the separator does not occur. |
| Routes.PdfFilename | routes.py:163 | There is a file name exactly when the PDF path is truthy. |
| Routes.PdfFilenameIsBaseName | routes.py:163 | The file name is the part of the path after its last `/`. It is a suffix without `/`, and it is the whole path iff the path has no `/`. |
| Models.Assignment.constructor | models.py:29-36 | A fresh row has both columns NULL and satisfies the "not both" invariant. |
| Models.Assignment.SetPdfPath | models.py:50-53 | Setting a truthy PDF path while a truthy video is set raises, and the fields are then unchanged. Otherwise the value is stored. The "not both" invariant is preserved. |
| Models.Assignment.SetYoutubeUrl | models.py:50-56 | Symmetric to SetPdfPath for the video URL. |
| Models.NewAssignment | models.py:45-56 | Construction succeeds iff exactly one of PDF and video is truthy. Both truthy fails in the video validator, and neither fails in `__init__`. A success is fresh, satisfies the invariant and is a PDF or a video assignment. |
| Models.Assignment.IsPdfAssignment | models.py:59-60 | Holds iff the PDF path is not `None`: a None test, unlike the validators' truthiness test. So it holds for every truthy path and also for an empty one. |
| Models.Assignment.IsVideoAssignment | models.py:62-63 | Holds iff the video URL is not `None`, the same None test, so every truthy URL makes a video assignment. |
| Models.ClearedPdfLeavesNeither | models.py:45-56 | A PDF assignment whose path is then set to `None` passes the validator and ends with neither a PDF nor a video, because only `__init__` checks for neither. |
| Models.EmptyPdfBesideVideo | models.py:59-63 | An empty PDF path next to a video passes every check, and then the assignment is both a PDF and a video assignment. |
| Models.ValidateGrade | models.py:75-79 | Accepts exactly `None` and grades in [0, 100] and returns them unchanged. Anything else is a `ValueError`. |

## Left out

- Timestamps are integer microseconds, so the model does not capture floating-point seconds or their rounding. It also does not capture the `%.2f` formatting or the text of the summary, which is a sequence of `Line` values.
- The `except` branch of `summarize_focus_behavior` prints to the console. That I/O is not modelled; the branch is modelled as returning `None`. Only the division by a zero total duration can raise there.
- The numpy and scipy imports of the analytics module are unused and not modelled.
- Not modelled: the web routes' request handling, the database and its queries, the heatmap rendering, the OpenAI summarisation, the YouTube transcript fetch (only the id extraction is modelled), PDF text extraction, the cron scheduler and the other models' columns and relationships.
- CronUtils.CountTransitions, CronUtils.Cells, CronUtils.FocusDistribution, CronUtils.ReportPercents: coordinates, the threshold, shares and percentages are exact reals. Float rounding is not modelled at the transition threshold, at cell boundaries or in percentage sums. For example, a step from x = 0.3 to x = 0.4 is a transition in floating point (`abs(0.4 - 0.3)` exceeds 0.1) but not here.
- CronUtils.UnorderedFocusCanBeNegative: batches that mix several students' samples for one assignment, as the batch job builds, are not time-ordered in general, so the negative focus time shown there can occur on ordinary input.
- Sorting.Sorted: stability of Python's `sorted` is not proved. Only sortedness by timestamp and permutation are, and the total duration depends on nothing else.
- CronUtils.IdentifyHotspot: cells use `int()` truncation toward zero, as the code does. Negative coordinates therefore share cell 0 with small positive ones, unlike a floor.
- Models.ValidateGrade: NaN grades are not modelled (a real has no NaN), nor are infinities.
- Models.Assignment: the "PDF or video" requirement is not an invariant of the class, because only `__init__` checks it and the validators accept clearing a field. The invariant kept is only "never both truthy", as in the source.
- Models.NewAssignment: the keyword arguments are taken as assigned in the order `pdf_path` then `youtube_url`. Given the other order, both-truthy fails with the PDF message instead.
- Splitting.Split: only non-empty separators are modelled (Python raises on an empty one; the code only splits on `v=`, `&` and `/`).
- Routes.FocusTime and CronUtils.FocusTime take the total duration in microseconds, like the rest of the model, rather than in float seconds.
