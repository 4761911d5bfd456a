/** What the dashboard's table and cards show for a dustbin: the badge
    variant of its status, the colour of its fill bar, the age of its last
    reading, and the fullest-first order of the table rows. The clock is
    the parameter `now`, in milliseconds. */
module Display {
  import opened DustbinTypes
  import Sorting
  import Normalise
  import Text

  const MinuteMillis: int := 60000
  const HourMillis: int := 3600000
  const DayMillis: int := 86400000

  /** `getStatusColor`: the badge variant for a status text. */
  function BadgeVariant(status: string): (v: string)
    ensures v == "destructive" <==> status == "critical"
    ensures v == "warning" <==> status == "warning"
    ensures v == "secondary" <==> status != "critical" && status != "warning"
  {
    if status == "critical" then "destructive"
    else if status == "warning" then "warning"
    else "secondary"
  }

  /** `getProgressColor`: the colour of the fill bar. */
  function ProgressColor(fill: real): (c: string)
    ensures c == "bg-red-500" <==> fill >= 80.0
    ensures c == "bg-yellow-500" <==> 60.0 <= fill < 80.0
    ensures c == "bg-green-500" <==> fill < 60.0
  {
    if fill >= 80.0 then "bg-red-500"
    else if fill >= 60.0 then "bg-yellow-500"
    else "bg-green-500"
  }

  /** The tint behind a card's icon, chosen by status text. */
  function CardBackground(status: string): (c: string)
    ensures c == "bg-red-100" <==> status == "critical"
    ensures c == "bg-yellow-100" <==> status == "warning"
    ensures c == "bg-green-100" <==> status != "critical" && status != "warning"
  {
    if status == "critical" then "bg-red-100"
    else if status == "warning" then "bg-yellow-100"
    else "bg-green-100"
  }

  /** The fill bar's colour bands are the status bands: red exactly for a
      critical bin, yellow for a warning, green for a normal one. */
  lemma ProgressMatchesStatus(fill: real)
    ensures ProgressColor(fill) == "bg-red-500" <==> Normalise.StatusOf(fill) == Critical
    ensures ProgressColor(fill) == "bg-yellow-500" <==> Normalise.StatusOf(fill) == Warning
    ensures ProgressColor(fill) == "bg-green-500" <==> Normalise.StatusOf(fill) == Normal
  {
    var c := ProgressColor(fill);
    var s := Normalise.StatusOf(fill);
    assert Normalise.CriticalLevel == 80.0 && Normalise.WarningLevel == 60.0;
    assert c == "bg-red-500" <==> s == Critical;
  }

  /** On a card whose status was derived from its fill, the badge, the icon
      tint and the fill bar tell the same story. */
  lemma CardIndicatorsAgree(fill: real)
    ensures var status := StatusName(Normalise.StatusOf(fill));
      && (BadgeVariant(status) == "destructive" <==> ProgressColor(fill) == "bg-red-500")
      && (BadgeVariant(status) == "warning" <==> ProgressColor(fill) == "bg-yellow-500")
      && (BadgeVariant(status) == "secondary" <==> ProgressColor(fill) == "bg-green-500")
      && (CardBackground(status) == "bg-red-100" <==> BadgeVariant(status) == "destructive")
      && (CardBackground(status) == "bg-yellow-100" <==> BadgeVariant(status) == "warning")
  {
    ProgressMatchesStatus(fill);
  }

  /** The age of a reading in the unit `formatTime` picks. */
  datatype Age = MinutesAgo(minutes: int) | HoursAgo(hours: int) | DaysAgo(days: int)

  /** The age band of a reading taken at `timestamp`, seen at `now`: whole
      minutes below an hour, whole hours below a day, else whole days. The
      count is always rounded down, also for a reading from the future. */
  function Elapsed(now: int, timestamp: int): (a: Age)
    ensures var diff := now - timestamp;
      && (a.MinutesAgo? <==> diff < HourMillis)
      && (a.HoursAgo? <==> HourMillis <= diff < DayMillis)
      && (a.DaysAgo? <==> DayMillis <= diff)
    ensures var diff := now - timestamp;
      a.MinutesAgo? ==> a.minutes * MinuteMillis <= diff < (a.minutes + 1) * MinuteMillis && a.minutes < 60
    ensures var diff := now - timestamp;
      a.HoursAgo? ==> a.hours * HourMillis <= diff < (a.hours + 1) * HourMillis && 1 <= a.hours < 24
    ensures var diff := now - timestamp;
      a.DaysAgo? ==> a.days * DayMillis <= diff < (a.days + 1) * DayMillis && a.days >= 1
  {
    var minutes := (now - timestamp) / MinuteMillis;
    if minutes < 60 then MinutesAgo(minutes)
    else
      var hours := minutes / 60;
      if hours < 24 then HoursAgo(hours) else DaysAgo(hours / 24)
  }

  /** The text of an age: "Nm ago", "Nh ago" or "Nd ago". */
  function AgeText(a: Age): string
  {
    match a
    case MinutesAgo(m) => Text.IntToString(m) + "m ago"
    case HoursAgo(h) => Text.IntToString(h) + "h ago"
    case DaysAgo(d) => Text.IntToString(d) + "d ago"
  }

  /** `formatTime`: the age text of a reading. */
  function FormatTime(now: int, timestamp: int): (s: string)
    ensures now - timestamp < HourMillis ==> s == AgeText(MinutesAgo(Elapsed(now, timestamp).minutes))
    ensures HourMillis <= now - timestamp < DayMillis ==> s == AgeText(HoursAgo(Elapsed(now, timestamp).hours))
    ensures DayMillis <= now - timestamp ==> s == AgeText(DaysAgo(Elapsed(now, timestamp).days))
  {
    AgeText(Elapsed(now, timestamp))
  }

  /** The text names its unit in the suffix, and the digits before it read
      back as the count. */
  lemma AgeTextReadsBack(a: Age, n: nat)
    requires n == (match a case MinutesAgo(m) => m case HoursAgo(h) => h case DaysAgo(d) => d)
    ensures var s := AgeText(a);
      && |s| > 5
      && (a.MinutesAgo? <==> s[|s| - 5..] == "m ago")
      && (a.HoursAgo? <==> s[|s| - 5..] == "h ago")
      && (a.DaysAgo? <==> s[|s| - 5..] == "d ago")
      && Text.IsDigits(s[..|s| - 5])
      && Text.DigitsValue(s[..|s| - 5]) == n
  {
    var digits := Text.NatToString(n);
    var s := AgeText(a);
    var suffix := match a case MinutesAgo(_) => "m ago" case HoursAgo(_) => "h ago" case DaysAgo(_) => "d ago";
    assert s == digits + suffix;
    assert s[..|s| - 5] == digits;
    assert s[|s| - 5..] == suffix;
    Text.NatToStringRoundTrip(n);
  }

  /** The table rows: a copy of the bins ordered fullest first. The input
      sequence itself is a value and is not reordered. */
  lemma TableRowsFullestFirst(bins: seq<Dustbin>)
    ensures var rows := Sorting.ByFillDescending(bins);
      && multiset(rows) == multiset(bins) && |rows| == |bins|
      && (forall i, j :: 0 <= i < j < |rows| ==> rows[i].fill >= rows[j].fill)
      && (|bins| > 0 ==> forall m :: 0 <= m < |bins| ==> bins[m].fill <= rows[0].fill)
  {
    if |bins| > 0 {
      Sorting.FullestFirst(bins);
    }
  }
}
