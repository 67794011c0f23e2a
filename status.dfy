/**
 The per-teacher status rules of the hour tracker: every displayed choice
 (label, icon, gradient, card border, caption colour, progress bar and the
 remaining-hours caption) is decided by comparing the weekly hours with two
 thresholds, 12 ("near the limit") and 15 (the weekly limit).
 */
module HourStatus {

  /** The weekly limit of teaching hours per teacher. */
  const WeeklyLimit: real := 15.0
  /** From this many hours on, a teacher is "near the limit". */
  const NearThreshold: real := 12.0

  /** The three bands that the thresholds cut the hour axis into. */
  datatype Band = Exceeded | Near | Available

  /** The single classification every presentation helper follows. */
  function StatusOf(hours: real): (b: Band)
    ensures b.Exceeded? <==> hours >= WeeklyLimit
    ensures b.Near? <==> NearThreshold <= hours < WeeklyLimit
    ensures b.Available? <==> hours < NearThreshold
  {
    if hours >= WeeklyLimit then Exceeded
    else if hours >= NearThreshold then Near
    else Available
  }

  // What each band is displayed as.

  function LabelOf(b: Band): string {
    match b
    case Exceeded => "Limit Exceeded"
    case Near => "Near Limit"
    case Available => "Available"
  }

  datatype Icon = AlertTriangle | CheckCircle

  function IconOf(b: Band): Icon {
    match b
    case Exceeded => AlertTriangle
    case Near => AlertTriangle
    case Available => CheckCircle
  }

  function GradientOf(b: Band): string {
    match b
    case Exceeded => "from-red-500 to-red-600"
    case Near => "from-yellow-500 to-orange-500"
    case Available => "from-green-500 to-emerald-500"
  }

  function BorderOf(b: Band): string {
    match b
    case Exceeded => "border-red-500/50 bg-red-500/10"
    case Near => "border-yellow-500/50 bg-yellow-500/10"
    case Available => "border-green-500/50 bg-green-500/10"
  }

  function TextColourOf(b: Band): string {
    match b
    case Exceeded => "text-red-300"
    case Near => "text-yellow-300"
    case Available => "text-green-300"
  }

  // The source's helpers, each its own if-chain over the hours; their
  // contracts say that each one is a function of the band alone.

  /** The status label of a card. */
  function StatusText(hours: real): (text: string)
    ensures text == LabelOf(StatusOf(hours))
    ensures text == "Limit Exceeded" <==> hours >= WeeklyLimit
    ensures text == "Near Limit" <==> NearThreshold <= hours < WeeklyLimit
    ensures text == "Available" <==> hours < NearThreshold
  {
    if hours >= 15.0 then "Limit Exceeded"
    else if hours >= 12.0 then "Near Limit"
    else "Available"
  }

  /** The status icon: one warning icon for both upper bands. */
  function StatusIcon(hours: real): (icon: Icon)
    ensures icon == IconOf(StatusOf(hours))
    ensures icon == AlertTriangle <==> hours >= NearThreshold
    ensures icon == CheckCircle <==> hours < NearThreshold
  {
    if hours >= 15.0 then AlertTriangle
    else if hours >= 12.0 then AlertTriangle
    else CheckCircle
  }

  /** The gradient of the hours badge and of the progress bar. */
  function StatusColor(hours: real): (gradient: string)
    ensures gradient == GradientOf(StatusOf(hours))
  {
    if hours >= 15.0 then "from-red-500 to-red-600"
    else if hours >= 12.0 then "from-yellow-500 to-orange-500"
    else "from-green-500 to-emerald-500"
  }

  /** The border and background of a teacher card. */
  function CardBorder(hours: real): (border: string)
    ensures border == BorderOf(StatusOf(hours))
  {
    if hours >= 15.0 then "border-red-500/50 bg-red-500/10"
    else if hours >= 12.0 then "border-yellow-500/50 bg-yellow-500/10"
    else "border-green-500/50 bg-green-500/10"
  }

  /** The colour of the status label under the progress bar. */
  function StatusTextColour(hours: real): (colour: string)
    ensures colour == TextColourOf(StatusOf(hours))
  {
    if hours >= 15.0 then "text-red-300"
    else if hours >= 12.0 then "text-yellow-300"
    else "text-green-300"
  }

  /** The width of the progress bar, in percent of the weekly limit,
      clamped at 100. */
  function Progress(hours: real): (percent: real)
    ensures percent <= 100.0
    ensures percent == 100.0 <==> hours >= WeeklyLimit
    ensures percent < 100.0 ==> percent * WeeklyLimit == hours * 100.0
    ensures hours >= 0.0 ==> percent >= 0.0
  {
    Min(hours / 15.0 * 100.0, 100.0)
  }

  function Min(x: real, y: real): real {
    if x <= y then x else y
  }

  /** More hours never shorten the progress bar. */
  lemma ProgressMonotone(h1: real, h2: real)
    requires h1 <= h2
    ensures Progress(h1) <= Progress(h2)
  {
    if h2 < WeeklyLimit {
      assert Progress(h1) * WeeklyLimit == h1 * 100.0;
      assert Progress(h2) * WeeklyLimit == h2 * 100.0;
    }
  }

  /** The caption at the bottom right of a card. The number carried is the
      hours still available before the weekly limit. */
  datatype Caption = OverLimit | HoursLeft(remaining: real) | HoursAvailable(remaining: real)

  function RemainingCaption(hours: real): (c: Caption)
    ensures c.OverLimit? <==> hours >= WeeklyLimit
    ensures c.HoursLeft? <==> NearThreshold <= hours < WeeklyLimit
    ensures c.HoursAvailable? <==> hours < NearThreshold
    ensures !c.OverLimit? ==> c.remaining > 0.0 && hours + c.remaining == WeeklyLimit
    ensures c.HoursLeft? ==> c.remaining <= WeeklyLimit - NearThreshold
  {
    if hours >= 15.0 then OverLimit
    else if hours >= 12.0 then HoursLeft(15.0 - hours)
    else HoursAvailable(15.0 - hours)
  }

  /** The caption follows the same three bands as the status label. */
  lemma CaptionFollowsStatus(hours: real)
    ensures RemainingCaption(hours).OverLimit? <==> StatusText(hours) == "Limit Exceeded"
    ensures RemainingCaption(hours).HoursLeft? <==> StatusText(hours) == "Near Limit"
    ensures RemainingCaption(hours).HoursAvailable? <==> StatusText(hours) == "Available"
  {
  }

  /** The worked examples: 15 hours are over the limit with a full bar, 12
      hours are near the limit at 80 percent with 3 hours left. */
  lemma ThresholdExamples()
    ensures StatusText(15.0) == "Limit Exceeded" && Progress(15.0) == 100.0
    ensures RemainingCaption(15.0) == OverLimit
    ensures StatusText(12.0) == "Near Limit" && Progress(12.0) == 80.0
    ensures RemainingCaption(12.0) == HoursLeft(3.0)
  {
  }
}
