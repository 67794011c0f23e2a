# Teacher hour tracker: the rules behind the dashboard card

The teacher hour tracker is a dashboard card of the scheduler. It takes a
mapping from teacher name to weekly teaching hours. It shows the total, the
average and the number of teachers, a summary bar that counts teachers in
four hour ranges, and a grid of teacher cards that the user can expand or
collapse. This project models the rules that produce those figures and
proves properties about them:

- **Status bands** (`status.dfy`, module `HourStatus`). The weekly limit is
  15 hours and the "near limit" threshold is 12. Together they split the
  hours into three bands. The band decides the label, the icon, the badge
  gradient, the card border and the caption colour. Also here: the progress
  bar, clamped at 100 percent, and the remaining-hours caption.
- **Priority teachers** (`priority.dfy`, module `Priority`). A name is a
  priority name when one of seven fixed first names occurs in it. The match
  is a case-sensitive substring match, written out as a string `includes`
  and an array `some`.
- **Roster** (`roster.dfy`, module `Roster`). This lists the mapping's
  entries and sorts them in place on an array with the source's comparator:
  priority teachers first, then more hours first. The sort is specified by
  its result: a permutation of the input in comparator order. The lemmas
  prove what that order means, and that it is unique when no two entries
  tie.
- **Aggregates** (`aggregates.dfy`, module `Aggregates`). The total (a left
  fold), the average and the four range counts. Lemmas prove that the ranges
  partition the roster and that none of the figures depends on entry order.
- **Tracker** (`tracker.dfy`, module `Tracker`). The card and view
  functions, plus the class `TeacherHourTracker`. Its one field,
  `showTeacherCards`, starts false and is flipped by `ToggleTeacherCards`.
  `Render` lists, sorts and derives the view. The view is empty for an empty
  mapping, and it holds cards only while the field is true.

Hours are modelled as mathematical reals. Text formatting with one or zero
decimals is not modelled.

Two points about the order of the roster follow from the comparator
(`Compare`):

- Priority teachers are ordered by their hours, most first, the same as
  other teachers. Which of the seven names a teacher matches plays no part.
- The comparator returns 0 for two teachers of the same class with equal
  hours. JavaScript's `Array.prototype.sort` is stable, so such teachers keep
  their `Object.entries` order. The model leaves their order open.

## Model

| member | source | states |
|---|---|---|
| HourStatus.StatusOf | src/components/TeacherHourTracker.tsx:13-29 | The three bands are total and mutually exclusive: Exceeded iff hours >= 15, Near iff 12 <= hours < 15, Available iff hours < 12 |
| HourStatus.StatusText | src/components/TeacherHourTracker.tsx:25-29 | The label is the band's label; "Limit Exceeded" iff hours >= 15, "Near Limit" iff 12 <= hours < 15, "Available" iff hours < 12 |
| HourStatus.StatusIcon | src/components/TeacherHourTracker.tsx:19-23 | The icon depends only on the band; the warning icon appears iff hours >= 12 (shared by Exceeded and Near), the check icon iff hours < 12 |
| HourStatus.StatusColor | src/components/TeacherHourTracker.tsx:13-17 | The badge and bar gradient is a function of the band alone |
| HourStatus.CardBorder | src/components/TeacherHourTracker.tsx:120-124 | The card border and background are a function of the band alone |
| HourStatus.StatusTextColour | src/components/TeacherHourTracker.tsx:164-168 | The status label colour is a function of the band alone |
| HourStatus.Progress | src/components/TeacherHourTracker.tsx:115 | Progress never exceeds 100; it is 100 iff hours >= 15; below 100 it is hours as a percentage of 15; it is non-negative for non-negative hours |
| HourStatus.ProgressMonotone | src/components/TeacherHourTracker.tsx:115 | More hours never give a shorter progress bar |
| HourStatus.RemainingCaption | src/components/TeacherHourTracker.tsx:171-175 | "Over limit" iff hours >= 15; otherwise the caption carries 15 - hours, which is positive, labelled "left" iff 12 <= hours < 15 and "available" iff hours < 12 |
| HourStatus.CaptionFollowsStatus | src/components/TeacherHourTracker.tsx:164-175 | The caption kind and the status label always name the same band |
| HourStatus.ThresholdExamples | src/components/TeacherHourTracker.tsx:115-174 | At 15 hours: "Limit Exceeded", 100 percent, "Over limit"; at 12 hours: "Near Limit", 80 percent, 3 hours left |
| Priority.Includes | src/components/TeacherHourTracker.tsx:34-35 | The left-to-right `includes` search succeeds iff the searched name occurs at some position of the string |
| Priority.SomeIncluded | src/components/TeacherHourTracker.tsx:34-35 | `some` over the name list holds iff some listed name is included |
| Priority.IsPriority | src/components/TeacherHourTracker.tsx:31-35 | A name is priority iff one of the seven fixed names occurs in it as a substring (case-sensitive, anywhere in the name) |
| Priority.EmbeddedNameIsPriority | src/components/TeacherHourTracker.tsx:114 | Any name that embeds one of the seven, with anything around it, is priority (no word boundaries) |
| Priority.ExampleNames | src/components/TeacherHourTracker.tsx:31 | "Anisha" and "Rohan" are priority; "Maya", "Zara" and the lower-case "anisha" are not (the match is case-sensitive) |
| Roster.EntriesOf | src/components/TeacherHourTracker.tsx:32 | Lists every entry of the mapping exactly once, in an unspecified order |
| Roster.EntriesAreFromMap | src/components/TeacherHourTracker.tsx:32 | Every listed entry is a name of the mapping with its hours, and no name is listed twice |
| Roster.EntriesPermutation | src/components/TeacherHourTracker.tsx:32 | Any two listings of the same mapping are permutations of each other |
| Roster.Compare | src/components/TeacherHourTracker.tsx:33-40 | Negative iff `a` is priority and `b` is not, or both are in the same class and `a` has more hours; positive in the mirrored cases; zero iff same class and equal hours |
| Roster.CompareAntisymmetric | src/components/TeacherHourTracker.tsx:33-40 | Swapping the comparator's arguments flips its sign |
| Roster.PrecedesTotalPreorder | src/components/TeacherHourTracker.tsx:33-40 | The comparator is consistent: "may come first" is total and transitive |
| Roster.SortedIff | src/components/TeacherHourTracker.tsx:32-40 | A roster is in comparator order iff every priority entry precedes every non-priority entry and hours never increase within each class |
| Roster.SortedOrderUnique | src/components/TeacherHourTracker.tsx:32-40 | When no two entries tie under the comparator, the sorted permutation is unique |
| Roster.SortRoster | src/components/TeacherHourTracker.tsx:32-40 | The in-place sort leaves a permutation of its input in comparator order |
| Aggregates.Total | src/components/TeacherHourTracker.tsx:46 | The total of non-negative hours is non-negative |
| Aggregates.Average | src/components/TeacherHourTracker.tsx:47 | The average times the number of teachers is the total; it is non-negative for non-negative hours |
| Aggregates.TotalPermutation | src/components/TeacherHourTracker.tsx:46 | The total does not depend on the order of the entries |
| Aggregates.NotAllAboveAverage | src/components/TeacherHourTracker.tsx:47 | In a non-empty roster at least one teacher is not above the average |
| Aggregates.RangesPartition | src/components/TeacherHourTracker.tsx:93-105 | Every hours value satisfies exactly one of the four range filters |
| Aggregates.RangesRefineStatus | src/components/TeacherHourTracker.tsx:93-105 | The 12-15 and over-15 ranges are the Near and Exceeded bands; the two lower ranges together are the Available band |
| Aggregates.CountIn | src/components/TeacherHourTracker.tsx:93-105 | A range count never exceeds the roster size; it is 0 iff no entry is in range, and equals the roster size iff every entry is |
| Aggregates.HistogramOf | src/components/TeacherHourTracker.tsx:91-107 | Each of the four summary-bar figures is the count of entries in its range, and the four add up to the roster size |
| Aggregates.RangeCountsSum | src/components/TeacherHourTracker.tsx:93-105 | Under-9, 9-12, 12-15 and over-15 counts sum to the number of entries |
| Aggregates.CountPermutation | src/components/TeacherHourTracker.tsx:93-105 | Each range count does not depend on the order of the entries |
| Tracker.CardOf | src/components/TeacherHourTracker.tsx:113-178 | A card shows its entry's name and hours; the badge iff one of the seven names occurs in the name; label, icon, gradient, border and label colour of the entry's band; its progress and caption; the above-average marker iff the hours exceed the average |
| Tracker.CardsOf | src/components/TeacherHourTracker.tsx:113 | There is one card per roster entry, in roster order, each built from its entry |
| Tracker.ViewOf | src/components/TeacherHourTracker.tsx:42-47 | No view iff the roster is empty; otherwise count = number of entries, total and average of the roster, the roster's range counts, and, only while the cards are shown, one card per entry in roster order, each marked above average iff its hours exceed total / count |
| Tracker.SomeCardNotAboveAverage | src/components/TeacherHourTracker.tsx:178 | When the cards are shown, at least one card lacks the above-average marker |
| Tracker.FiguresIndependentOfOrder | src/components/TeacherHourTracker.tsx:46-47 | Total, average, count and histogram are the same for every listing order of the same mapping |
| Tracker.CardsShowMapEntries | src/components/TeacherHourTracker.tsx:113-146 | Each card shows a name of the mapping together with that name's hours |
| Tracker.WorkedExample | src/components/TeacherHourTracker.tsx:31-47 | Anisha 10, Rohan 16, Zara 8, Maya 13 always sort to Rohan, Anisha, Maya, Zara; total 47, average 11.75, one teacher in each range |
| Tracker.TeacherHourTracker.constructor | src/components/TeacherHourTracker.tsx:11 | The cards start hidden |
| Tracker.TeacherHourTracker.ToggleTeacherCards | src/components/TeacherHourTracker.tsx:79-80 | The button flips whether the cards are shown |
| Tracker.TeacherHourTracker.Render | src/components/TeacherHourTracker.tsx:32-47 | The roster lists the mapping's entries, priority first then by descending hours; the view is empty iff the mapping is empty, counts the mapping's entries, holds cards only while they are shown, and each card shows a mapped name with its hours |

## Left out

- The markup and the style classes that do not depend on hours: layout, the
  dark-mode colours and the header texts. Only the class strings chosen by
  the hour bands are modelled.
- The icon library and React's state hook. The icon is a two-value datatype.
  The hook is a plain field with a toggle method.
- Number formatting (`toFixed(1)`, `toFixed(0)`, the `{hours}h` badge) and
  IEEE-754 rounding. Hours are exact reals, so NaN, infinities and rounding
  in the sum, the division and `15 - hours` are not modelled.
- Roster.SortRoster: the JavaScript engine's sort algorithm is not modelled.
  An insertion sort stands in for it, and it promises only a permutation in
  comparator order. JavaScript's sort is stable, so same-class entries with
  equal hours keep their `Object.entries` order; the model leaves that order
  open, because it leaves the `Object.entries` order open too.
- Roster.EntriesOf: the key order of `Object.entries` is not modelled. The
  order is left open, and the lemmas show that no figure depends on it.
- How the name-to-hours mapping is produced upstream. The `TeacherHours`
  type module is not part of this model, and the mapping is a parameter of
  `Render`.
