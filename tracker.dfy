/**
 The hour tracker itself: one object whose only state is whether the grid of
 teacher cards is shown, and a render step that turns the name-to-hours
 mapping into the header figures, the summary bar and (when shown) one card
 per teacher.
 */
module Tracker {
  import opened HourStatus
  import opened Priority
  import opened Roster
  import opened Aggregates

  datatype Option<T> = None | Some(value: T)

  /** What one teacher card shows. */
  datatype Card = Card(
    name: string,
    hours: real,
    isPriority: bool,
    border: string,
    gradient: string,
    icon: Icon,
    progress: real,
    statusText: string,
    statusColour: string,
    caption: Caption,
    aboveAverage: bool)

  /** What the tracker shows for a non-empty roster. */
  datatype Summary = Summary(
    total: real,
    average: real,
    count: nat,
    histogram: Histogram,
    cards: seq<Card>)

  /** The card of one entry, given the roster's average. */
  function CardOf(e: Entry, average: real): (card: Card)
    ensures card.name == e.0 && card.hours == e.1
    ensures card.isPriority <==>
      exists k, i :: 0 <= k < |PriorityTeachers| && OccursAt(e.0, PriorityTeachers[k], i)
    ensures card.statusText == LabelOf(StatusOf(e.1)) && card.icon == IconOf(StatusOf(e.1))
    ensures card.gradient == GradientOf(StatusOf(e.1)) && card.border == BorderOf(StatusOf(e.1))
    ensures card.statusColour == TextColourOf(StatusOf(e.1))
    ensures card.progress == Progress(e.1) && card.caption == RemainingCaption(e.1)
    ensures card.aboveAverage <==> e.1 > average
  {
    var (teacherName, hours) := e;
    Card(
      teacherName,
      hours,
      IsPriority(teacherName),
      CardBorder(hours),
      StatusColor(hours),
      StatusIcon(hours),
      Progress(hours),
      StatusText(hours),
      StatusTextColour(hours),
      RemainingCaption(hours),
      hours > average)
  }

  /** The cards of the roster, in roster order. */
  function CardsOf(teachers: seq<Entry>, average: real): (cards: seq<Card>)
    ensures |cards| == |teachers|
    ensures forall i :: 0 <= i < |teachers| ==> cards[i] == CardOf(teachers[i], average)
  {
    if teachers == [] then []
    else [CardOf(teachers[0], average)] + CardsOf(teachers[1..], average)
  }

  /** Everything the tracker shows for the sorted roster `teachers`: nothing
      at all for an empty roster, the cards only when they are switched on. */
  function ViewOf(teachers: seq<Entry>, showCards: bool): (view: Option<Summary>)
    ensures view.None? <==> teachers == []
    ensures view.Some? ==> view.value.count == |teachers|
    ensures view.Some? ==> view.value.total == Total(teachers) && view.value.average == Average(teachers)
    ensures view.Some? ==> view.value.histogram == HistogramOf(teachers)
    ensures view.Some? ==> |view.value.cards| == if showCards then |teachers| else 0
    ensures view.Some? && showCards ==> view.value.cards == CardsOf(teachers, view.value.average)
    ensures view.Some? && showCards ==>
      forall i :: 0 <= i < |teachers| ==>
        view.value.cards[i].name == teachers[i].0 && view.value.cards[i].hours == teachers[i].1
        && (view.value.cards[i].aboveAverage <==> teachers[i].1 > Total(teachers) / (|teachers| as real))
  {
    if |teachers| == 0 then None
    else
      var totalHours := Total(teachers);
      var averageHours := Average(teachers);
      var cards := if showCards then CardsOf(teachers, averageHours) else [];
      Some(Summary(totalHours, averageHours, |teachers|, HistogramOf(teachers), cards))
  }

  /** At least one card never carries the above-average marker. */
  lemma SomeCardNotAboveAverage(teachers: seq<Entry>)
    requires teachers != []
    ensures ViewOf(teachers, true).Some?
    ensures exists i :: 0 <= i < |teachers| && !ViewOf(teachers, true).value.cards[i].aboveAverage
  {
    NotAllAboveAverage(teachers);
    var i :| 0 <= i < |teachers| && !(teachers[i].1 > Average(teachers));
    assert !ViewOf(teachers, true).value.cards[i].aboveAverage;
  }

  /** The figures in the header and the summary bar are the same for every
      listing of the same mapping: they do not depend on key order. */
  lemma FiguresIndependentOfOrder(s: seq<Entry>, t: seq<Entry>, m: map<string, real>, showCards: bool)
    requires IsEntriesOf(s, m) && IsEntriesOf(t, m)
    ensures ViewOf(s, showCards).None? <==> ViewOf(t, showCards).None?
    ensures ViewOf(s, showCards).Some? ==>
      var v, w := ViewOf(s, showCards).value, ViewOf(t, showCards).value;
      v.total == w.total && v.average == w.average && v.count == w.count && v.histogram == w.histogram
  {
    EntriesPermutation(s, t, m);
    TotalPermutation(s, t);
    CountPermutation(s, t, Under9);
    CountPermutation(s, t, From9To12);
    CountPermutation(s, t, From12To15);
    CountPermutation(s, t, From15);
  }

  /** Each card shows a name of the mapping with that name's hours. */
  lemma CardsShowMapEntries(teachers: seq<Entry>, m: map<string, real>, showCards: bool)
    requires IsEntriesOf(teachers, m)
    ensures ViewOf(teachers, showCards).Some? ==>
      var cards := ViewOf(teachers, showCards).value.cards;
      forall i :: 0 <= i < |cards| ==> cards[i].name in m && m[cards[i].name] == cards[i].hours
  {
    EntriesAreFromMap(teachers, m);
  }

  /** The worked example: Anisha 10, Rohan 16, Zara 8 and Maya 13 hours. */
  const ExampleHours: map<string, real> :=
    map["Anisha" := 10.0, "Rohan" := 16.0, "Zara" := 8.0, "Maya" := 13.0]

  /** Its roster: the priority teachers Rohan and Anisha, more hours first,
      then Maya and Zara. */
  const ExampleRoster: seq<Entry> :=
    [("Rohan", 16.0), ("Anisha", 10.0), ("Maya", 13.0), ("Zara", 8.0)]

  /** Every render of the worked example sorts it into the one order above;
      the header shows 47 hours in total and 11.75 on average, and each range
      of the summary bar holds one teacher. */
  lemma WorkedExample(teachers: seq<Entry>)
    requires IsEntriesOf(teachers, ExampleHours) && Sorted(teachers)
    ensures teachers == ExampleRoster
    ensures ViewOf(teachers, false) == Some(Summary(47.0, 11.75, 4, Histogram(1, 1, 1, 1), []))
  {
    ExampleRosterStrictlySorted();
    ExampleRosterListsExampleHours();
    EntriesPermutation(ExampleRoster, teachers, ExampleHours);
    SortedOrderUnique(ExampleRoster, teachers);
    ExampleFigures();
  }

  lemma ExampleRosterStrictlySorted()
    ensures StrictlySorted(ExampleRoster)
  {
    ExampleNames();
    TwoByTwoStrictlySorted(ExampleRoster[0], ExampleRoster[1], ExampleRoster[2], ExampleRoster[3]);
  }

  /** Two priority entries with falling hours, then two others with falling
      hours, are strictly in comparator order. */
  lemma TwoByTwoStrictlySorted(a: Entry, b: Entry, c: Entry, d: Entry)
    requires IsPriority(a.0) && IsPriority(b.0) && !IsPriority(c.0) && !IsPriority(d.0)
    requires a.1 > b.1 && c.1 > d.1
    ensures StrictlySorted([a, b, c, d])
  {
  }

  lemma ExampleRosterListsExampleHours()
    ensures IsEntriesOf(ExampleRoster, ExampleHours)
  {
    var r, m := ExampleRoster, ExampleHours;
    assert multiset(r) == multiset{r[0], r[1], r[2], r[3]} by {
      assert r == [r[0]] + [r[1]] + [r[2]] + [r[3]];
    }
    forall e ensures multiset(r)[e] == if e in m.Items then 1 else 0 {
      if e in m.Items {
        assert e.0 in m && m[e.0] == e.1;
      }
    }
  }

  lemma ExampleFigures()
    ensures ViewOf(ExampleRoster, false) == Some(Summary(47.0, 11.75, 4, Histogram(1, 1, 1, 1), []))
  {
    var r := ExampleRoster;
    assert r[..3][..2] == r[..2] && r[..2][..1] == r[..1] && r[..1][..0] == [];
    assert Total(r[..1]) == 16.0;
    assert Total(r[..2]) == 26.0;
    assert Total(r[..3]) == 39.0;
    assert Total(r) == 47.0;
    forall rg: Range ensures CountIn(r, rg) == 1 {
      assert CountIn(r[..1], rg) == if rg == From15 then 1 else 0;
      assert CountIn(r[..2], rg) == if rg == From15 || rg == From9To12 then 1 else 0;
      assert CountIn(r[..3], rg) == if rg == Under9 then 0 else 1;
    }
  }

  /** The tracker widget; its one piece of state is whether the teacher
      cards are shown. */
  class TeacherHourTracker {
    var showTeacherCards: bool

    /** A new tracker starts with the cards hidden. */
    constructor ()
      ensures !showTeacherCards
    {
      showTeacherCards := false;
    }

    /** The "Teacher Cards" button: shows hidden cards, hides shown ones. */
    method ToggleTeacherCards()
      modifies this
      ensures showTeacherCards == !old(showTeacherCards)
    {
      showTeacherCards := !showTeacherCards;
    }

    /** One render: list the mapping's entries, sort them, and derive the
        view. Returns the sorted roster beside the view. */
    method Render(teacherHours: map<string, real>) returns (teachers: seq<Entry>, view: Option<Summary>)
      ensures IsEntriesOf(teachers, teacherHours)
      ensures PriorityFirst(teachers) && HoursDescendWithinClass(teachers)
      ensures view == ViewOf(teachers, showTeacherCards)
      ensures view.None? <==> |teacherHours| == 0
      ensures view.Some? ==> view.value.count == |teacherHours|
      ensures view.Some? && showTeacherCards ==>
        forall i :: 0 <= i < |view.value.cards| ==>
          view.value.cards[i].name in teacherHours
          && teacherHours[view.value.cards[i].name] == view.value.cards[i].hours
    {
      var entries := EntriesOf(teacherHours);
      var a := new Entry[|entries|](i requires 0 <= i < |entries| => entries[i]);
      assert a[..] == entries;
      SortRoster(a);
      teachers := a[..];
      assert multiset(teachers) == multiset(entries);
      assert |teachers| == |multiset(teachers)| == |entries|;
      SortedIff(teachers);
      CardsShowMapEntries(teachers, teacherHours, showTeacherCards);
      view := ViewOf(teachers, showTeacherCards);
    }
  }
}
