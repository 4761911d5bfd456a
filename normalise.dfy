/** Turning the raw per-bin records of the realtime database into `Dustbin`s:
    the status bands, clamping of fill levels, second-to-millisecond
    timestamp repair, the 24 latest history entries, and the defaults for
    missing fields.

    A raw record is what the database holds under one key. Values the
    source tests with `typeof x === 'number'` are `RawValue`s; fields it
    tests for truthiness are `Option`s, `None` standing for a falsy value.
    The current time is the parameter `now`. */
module Normalise {
  import opened DustbinTypes
  import Sorting

  /** Year 2000 in milliseconds: smaller timestamps are taken to be seconds. */
  const MillisThreshold: int := 946684800000
  const MaxHistory: nat := 24
  const CriticalLevel: real := 80.0
  const WarningLevel: real := 60.0
  const DefaultCapacity: real := 100.0
  const FallbackLocation: string := "Pune, India"

  datatype RawValue = Num(n: real) | NotNumber

  datatype RawCoords = RawCoords(lat: RawValue, lng: RawValue)

  /** One `timestamp: percentage` pair of the raw history object, in the
      object's enumeration order. */
  datatype RawReading = RawReading(key: int, value: RawValue)

  datatype RawBin = RawBin(
    latest: RawValue,
    history: Option<seq<RawReading>>,
    coordinates: Option<RawCoords>,
    name: Option<string>,
    location: Option<string>,
    capacity: RawValue)

  /** `calculateStatus`. */
  function StatusOf(fill: real): (s: Status)
    ensures s == Critical <==> fill >= CriticalLevel
    ensures s == Warning <==> WarningLevel <= fill < CriticalLevel
    ensures s == Normal <==> fill < WarningLevel
  {
    if fill >= CriticalLevel then Critical
    else if fill >= WarningLevel then Warning
    else Normal
  }

  /** `Math.max(0, Math.min(100, x))`. */
  function Clamp(x: real): (r: real)
    ensures 0.0 <= r <= 100.0
    ensures 0.0 <= x <= 100.0 ==> r == x
    ensures x < 0.0 ==> r == 0.0
    ensures x > 100.0 ==> r == 100.0
  {
    if x > 100.0 then 100.0 else if x < 0.0 then 0.0 else x
  }

  /** A reading's fill: clamped when it is a number, 0 otherwise. */
  function ReadingFill(v: RawValue): (r: real)
    ensures 0.0 <= r <= 100.0
  {
    match v
    case Num(x) => Clamp(x)
    case NotNumber => 0.0
  }

  /** A timestamp before year 2000 in milliseconds is read as seconds. */
  function ToMillis(ts: int): int
  {
    if ts < MillisThreshold then ts * 1000 else ts
  }

  /** A timestamp from year 2000 on, in seconds or milliseconds, lands at
      or after year 2000 in milliseconds; earlier ones land before it. */
  lemma ToMillisThreshold(ts: int)
    ensures ToMillis(ts) >= MillisThreshold <==> ts >= MillisThreshold / 1000
  {
  }

  /** Repairing a timestamp that is already from year 2000 on changes nothing more. */
  lemma ToMillisIdempotent(ts: int)
    requires ts >= MillisThreshold / 1000
    ensures ToMillis(ToMillis(ts)) == ToMillis(ts)
  {
    ToMillisThreshold(ts);
  }

  function ToEntry(r: RawReading): HistoryEntry
  {
    HistoryEntry(ToMillis(r.key), ReadingFill(r.value))
  }

  /** The readings converted one by one, in enumeration order. */
  function Converted(readings: seq<RawReading>): seq<HistoryEntry>
  {
    seq(|readings|, k requires 0 <= k < |readings| => ToEntry(readings[k]))
  }

  function Timestamp(e: HistoryEntry): real
  {
    e.timestamp as real
  }

  /** The last `n` elements (all of them when there are fewer), as `slice(-n)`. */
  function LastN<T>(s: seq<T>, n: nat): (r: seq<T>)
    ensures |r| == if |s| <= n then |s| else n
    ensures s == s[..|s| - |r|] + r
  {
    if |s| <= n then s else s[|s| - n..]
  }

  /** The history entries sorted by timestamp, before the last 24 are kept. */
  function SortedReadings(readings: seq<RawReading>): (r: seq<HistoryEntry>)
    ensures Sorting.SortedBy(r, Timestamp)
    ensures multiset(r) == multiset(Converted(readings))
    ensures |r| == |readings|
  {
    Sorting.SortByKey(Converted(readings), Timestamp)
  }

  /** The history array: entries converted, sorted ascending by timestamp,
      and the last 24 kept. */
  function NormalizedHistory(readings: seq<RawReading>): seq<HistoryEntry>
  {
    LastN(SortedReadings(readings), MaxHistory)
  }

  /** The history is ascending and exactly min(24, number of readings) long;
      each entry is a reading with its timestamp repaired and its fill
      clamped, and with at most 24 readings every reading is there. */
  lemma NormalizedHistoryProperties(readings: seq<RawReading>)
    ensures var h := NormalizedHistory(readings);
      (|readings| <= MaxHistory ==> |h| == |readings|)
      && (|readings| > MaxHistory ==> |h| == MaxHistory)
      && (forall i, j :: 0 <= i < j < |h| ==> h[i].timestamp <= h[j].timestamp)
      && (forall k :: 0 <= k < |h| ==> exists m :: 0 <= m < |readings| && h[k] == ToEntry(readings[m]))
      && (forall k :: 0 <= k < |h| ==> 0.0 <= h[k].fill <= 100.0)
      && (|readings| <= MaxHistory ==> multiset(h) == multiset(Converted(readings)))
  {
    HistoryAscending(readings);
    HistoryFromReadings(readings);
  }

  lemma HistoryAscending(readings: seq<RawReading>)
    ensures var h := NormalizedHistory(readings);
      forall i, j :: 0 <= i < j < |h| ==> h[i].timestamp <= h[j].timestamp
  {
    SuffixSorted(SortedReadings(readings), Timestamp, MaxHistory);
  }

  lemma HistoryFromReadings(readings: seq<RawReading>)
    ensures var h := NormalizedHistory(readings);
      forall k :: 0 <= k < |h| ==> exists m :: 0 <= m < |readings| && h[k] == ToEntry(readings[m])
  {
    var h := NormalizedHistory(readings);
    var mapped := Converted(readings);
    SuffixElements(SortedReadings(readings), MaxHistory);
    forall k | 0 <= k < |h|
      ensures exists m :: 0 <= m < |readings| && h[k] == ToEntry(readings[m])
    {
      assert h[k] in multiset(mapped);
      var m :| 0 <= m < |mapped| && mapped[m] == h[k];
    }
  }

  /** The last `n` elements of a sorted sequence are sorted. */
  lemma SuffixSorted<T>(s: seq<T>, key: T -> real, n: nat)
    requires Sorting.SortedBy(s, key)
    ensures Sorting.SortedBy(LastN(s, n), key)
  {
    var r := LastN(s, n);
    var d := |s| - |r|;
    assert r == s[d..];
    forall i, j | 0 <= i < j < |r| ensures key(r[i]) <= key(r[j]) {
      assert key(s[d + i]) <= key(s[d + j]);
    }
  }

  /** Every one of the last `n` elements is an element. */
  lemma SuffixElements<T>(s: seq<T>, n: nat)
    ensures forall k :: 0 <= k < |LastN(s, n)| ==> LastN(s, n)[k] in multiset(s)
  {
    var r := LastN(s, n);
    var d := |s| - |r|;
    assert r == s[d..];
    forall k | 0 <= k < |r| ensures r[k] in multiset(s) {
      assert r[k] == s[d + k];
    }
  }

  /** Only entries no later than every kept one are dropped. */
  lemma NormalizedHistoryKeepsLatest(readings: seq<RawReading>)
    ensures var all := SortedReadings(readings);
      var h := NormalizedHistory(readings);
      all == all[..|all| - |h|] + h
      && forall i, j :: 0 <= i < |all| - |h| && 0 <= j < |h| ==> all[i].timestamp <= h[j].timestamp
  {
    var all := SortedReadings(readings);
    var h := NormalizedHistory(readings);
    assert h == all[|all| - |h|..];
    forall i, j | 0 <= i < |all| - |h| && 0 <= j < |h|
      ensures all[i].timestamp <= h[j].timestamp
    {
      assert h[j] == all[|all| - |h| + j];
    }
  }

  /** The key as the source sorts it for the fill: the raw number. */
  function RawKey(r: RawReading): int
  {
    r.key
  }

  /** The key as the history sorts it: the repaired millisecond timestamp. */
  function ReadingTime(r: RawReading): int
  {
    ToMillis(r.key)
  }

  /** Index of the first of the first `t` readings whose `time` is largest. */
  function LatestIndex(readings: seq<RawReading>, time: RawReading -> int, t: nat): (k: nat)
    requires 0 < t <= |readings|
    ensures k < t
    ensures forall m :: 0 <= m < t ==> time(readings[m]) <= time(readings[k])
    ensures forall m :: 0 <= m < k ==> time(readings[m]) < time(readings[k])
  {
    if t == 1 then 0
    else
      var k := LatestIndex(readings, time, t - 1);
      if time(readings[t - 1]) > time(readings[k]) then t - 1 else k
  }

  /** The fill as the source computes it: the clamped numeric `latest`, else
      the clamped value under the largest raw history key, else 0. */
  function InitialFillAsWritten(raw: RawBin): (f: real)
    ensures 0.0 <= f <= 100.0
    ensures raw.latest.Num? ==> f == Clamp(raw.latest.n)
    ensures raw.latest.NotNumber? && (raw.history.None? || |raw.history.value| == 0) ==> f == 0.0
    ensures raw.latest.NotNumber? && raw.history.Some? && |raw.history.value| > 0 ==>
      var h := raw.history.value;
      exists m :: 0 <= m < |h| && f == ReadingFill(h[m].value)
        && forall k :: 0 <= k < |h| ==> h[k].key <= h[m].key
  {
    match raw.latest
    case Num(x) => Clamp(x)
    case NotNumber =>
      match raw.history
      case Some(readings) =>
        if |readings| > 0 then ReadingFill(readings[LatestIndex(readings, RawKey, |readings|)].value) else 0.0
      case None => 0.0
  }

  /** The fill level: the clamped numeric `latest`, else the clamped value of
      the reading that ends the sorted history, whose repaired timestamp is
      the latest, else 0. */
  function InitialFill(raw: RawBin): (f: real)
    ensures 0.0 <= f <= 100.0
    ensures raw.latest.Num? ==> f == Clamp(raw.latest.n)
    ensures raw.latest.NotNumber? && (raw.history.None? || |raw.history.value| == 0) ==> f == 0.0
    ensures raw.latest.NotNumber? && raw.history.Some? && |raw.history.value| > 0 ==>
      var h := raw.history.value;
      exists m :: 0 <= m < |h| && f == ReadingFill(h[m].value)
        && forall k :: 0 <= k < |h| ==> ToMillis(h[k].key) <= ToMillis(h[m].key)
  {
    match raw.latest
    case Num(x) => Clamp(x)
    case NotNumber =>
      match raw.history
      case Some(readings) => if |readings| > 0 then LatestFill(readings) else 0.0
      case None => 0.0
  }

  /** The fill of the last entry of the sorted history: a reading whose
      repaired timestamp no other reading exceeds. */
  function LatestFill(readings: seq<RawReading>): (f: real)
    requires |readings| > 0
    ensures exists m ::
      && 0 <= m < |readings|
      && f == ReadingFill(readings[m].value)
      && forall k :: 0 <= k < |readings| ==> ReadingTime(readings[k]) <= ReadingTime(readings[m])
  {
    SortedLastIsLatest(readings);
    var all := SortedReadings(readings);
    all[|all| - 1].fill
  }

  /** The history the record gets: the normalised entries, or one entry at
      `now` carrying a positive fill when there are none. */
  function HistoryOf(raw: RawBin, fill: real, now: int): (h: seq<HistoryEntry>)
    ensures raw.history.Some? && |raw.history.value| > 0 ==> h == NormalizedHistory(raw.history.value) && |h| > 0
    ensures raw.history.None? || |raw.history.value| == 0 ==>
      h == if fill > 0.0 then [HistoryEntry(now, fill)] else []
    ensures |h| <= MaxHistory
    ensures forall i, j :: 0 <= i < j < |h| ==> h[i].timestamp <= h[j].timestamp
    ensures fill > 0.0 ==> |h| > 0
  {
    if raw.history.Some? then
      HistoryAscending(raw.history.value);
      var history := NormalizedHistory(raw.history.value);
      if |history| == 0 && fill > 0.0 then [HistoryEntry(now, fill)] else history
    else if fill > 0.0 then [HistoryEntry(now, fill)] else []
  }

  /** The timestamp of the last history entry, or `now` without one. */
  function LastUpdated(history: seq<HistoryEntry>, now: int): int
  {
    if |history| > 0 then history[|history| - 1].timestamp else now
  }

  /** `getDefaultLocation`: only the three known ids have a location of
      their own. */
  function DefaultLocation(id: string): (l: string)
    ensures l != ""
    ensures l == FallbackLocation <==> id != "bin1" && id != "bin2" && id != "bin3"
  {
    if id == "bin1" then "FC Road, Pune"
    else if id == "bin2" then "Shivajinagar, Pune"
    else if id == "bin3" then "Koregaon Park, Pune"
    else FallbackLocation
  }

  const FcRoad: Coord := Coord(18.5204, 73.8567)

  /** The per-id coordinate table, FC Road for any other id. */
  function DefaultCoordinates(id: string): Coord
  {
    if id == "bin1" then FcRoad
    else if id == "bin2" then Coord(18.5304, 73.8446)
    else if id == "bin3" then Coord(18.5362, 73.8958)
    else FcRoad
  }

  /** `x || 0` for a coordinate component. */
  function OrZero(v: RawValue): real
  {
    match v
    case Num(x) => x
    case NotNumber => 0.0
  }

  /** `data.coordinates || defaultCoordinates[id] || FC Road`, each
      component `|| 0`. */
  function CoordinatesOf(raw: RawBin, id: string): (c: Coord)
    ensures raw.coordinates.Some? ==>
      c == Coord(OrZero(raw.coordinates.value.lat), OrZero(raw.coordinates.value.lng))
    ensures raw.coordinates.None? ==> c == DefaultCoordinates(id)
  {
    match raw.coordinates
    case Some(c) => Coord(OrZero(c.lat), OrZero(c.lng))
    case None => DefaultCoordinates(id)
  }

  /** `id.replace('bin', '')`: the first occurrence of "bin" removed. */
  function RemoveFirstBin(s: string): (r: string)
    ensures r == s || |r| == |s| - 3
  {
    if |s| < 3 then s
    else if BinAt(s, 0) then s[3..]
    else [s[0]] + RemoveFirstBin(s[1..])
  }

  /** The occurrence removed is the first one: "dustbin1" becomes "dust1". */
  lemma {:induction false} RemoveFirstBinFirst(s: string, i: nat)
    requires BinAt(s, i)
    requires forall k :: 0 <= k < i ==> !BinAt(s, k)
    ensures RemoveFirstBin(s) == s[..i] + s[i + 3..]
    decreases i
  {
    if i > 0 {
      assert !BinAt(s, 0);
      var t := s[1..];
      assert BinAt(t, i - 1);
      forall k | 0 <= k < i - 1 ensures !BinAt(t, k) {
        assert !BinAt(s, k + 1);
      }
      RemoveFirstBinFirst(t, i - 1);
      assert [s[0]] + (t[..i - 1] + t[i + 2..]) == s[..i] + s[i + 3..];
    }
  }

  /** "bin" occurs in `s` at position `i`. */
  predicate BinAt(s: string, i: int)
  {
    0 <= i <= |s| - 3 && s[i] == 'b' && s[i + 1] == 'i' && s[i + 2] == 'n'
  }

  ghost predicate ContainsBin(s: string)
  {
    exists i :: BinAt(s, i)
  }

  /** An id of the form "bin" + rest loses exactly that prefix. */
  lemma RemoveBinPrefix(rest: string)
    ensures RemoveFirstBin("bin" + rest) == rest
  {
    assert BinAt("bin" + rest, 0);
    assert ("bin" + rest)[3..] == rest;
  }

  /** An id without "bin" is left as it is. */
  lemma {:induction false} RemoveFirstBinAbsent(s: string)
    requires !ContainsBin(s)
    ensures RemoveFirstBin(s) == s
    decreases |s|
  {
    if |s| >= 3 {
      assert !BinAt(s, 0);
      assert !ContainsBin(s[1..]) by {
        forall i | BinAt(s[1..], i) ensures BinAt(s, i + 1) {
        }
      }
      RemoveFirstBinAbsent(s[1..]);
      assert s == [s[0]] + s[1..];
    }
  }

  /** `data.name || \`Dustbin ${id.replace('bin', '')}\``. */
  function NameOf(raw: RawBin, id: string): (n: string)
    ensures n != ""
    ensures raw.name.Some? && raw.name.value != "" ==> n == raw.name.value
    ensures raw.name.None? || raw.name == Some("") ==> n == "Dustbin " + RemoveFirstBin(id)
  {
    match raw.name
    case Some(name) => if name != "" then name else "Dustbin " + RemoveFirstBin(id)
    case None => "Dustbin " + RemoveFirstBin(id)
  }

  /** `data.location || getDefaultLocation(id)`. */
  function LocationOf(raw: RawBin, id: string): (l: string)
    ensures l != ""
    ensures raw.location.Some? && raw.location.value != "" ==> l == raw.location.value
    ensures raw.location.None? || raw.location == Some("") ==> l == DefaultLocation(id)
  {
    match raw.location
    case Some(location) => if location != "" then location else DefaultLocation(id)
    case None => DefaultLocation(id)
  }

  /** `data.capacity || 100`: a non-zero number is kept. */
  function CapacityOf(raw: RawBin): (c: real)
    ensures c != 0.0
    ensures raw.capacity.Num? && raw.capacity.n != 0.0 ==> c == raw.capacity.n
    ensures raw.capacity.NotNumber? || raw.capacity == Num(0.0) ==> c == DefaultCapacity
  {
    match raw.capacity
    case Num(x) => if x != 0.0 then x else DefaultCapacity
    case NotNumber => DefaultCapacity
  }

  /** `transformFirebaseData`: `None` for a falsy record. */
  function Transform(id: string, data: Option<RawBin>, now: int): (r: Option<Dustbin>)
    ensures r.None? <==> data.None?
  {
    match data
    case None => None
    case Some(raw) =>
      var fill := InitialFill(raw);
      var history := HistoryOf(raw, fill, now);
      Some(Dustbin(
        id,
        NameOf(raw, id),
        LocationOf(raw, id),
        fill,
        CoordinatesOf(raw, id),
        LastUpdated(history, now),
        StatusOf(fill),
        CapacityOf(raw),
        history))
  }

  /** The record a present raw value becomes: its fill and that fill's
      status; the normalised history when the raw history has entries, else
      the single entry `(now, fill)` for a positive fill and none for 0; and
      `lastUpdated` read off the history. */
  lemma TransformProperties(id: string, raw: RawBin, now: int)
    ensures var d := Transform(id, Some(raw), now).value;
      d.id == id
      && d.fill == InitialFill(raw)
      && d.status == StatusOf(d.fill)
      && (raw.history.Some? && |raw.history.value| > 0 ==> d.history == NormalizedHistory(raw.history.value))
      && ((raw.history.None? || |raw.history.value| == 0) ==>
            d.history == if d.fill > 0.0 then [HistoryEntry(now, d.fill)] else [])
      && |d.history| <= MaxHistory
      && (forall i, j :: 0 <= i < j < |d.history| ==> d.history[i].timestamp <= d.history[j].timestamp)
      && (d.fill > 0.0 ==> |d.history| > 0)
      && (|d.history| > 0 ==> d.lastUpdated == d.history[|d.history| - 1].timestamp)
      && (|d.history| == 0 ==> d.lastUpdated == now)
  {
    var fill := InitialFill(raw);
    var h := HistoryOf(raw, fill, now);
    assert Transform(id, Some(raw), now).value.history == h;
  }

  /** The fill and `lastUpdated` describe the same reading when the fill is
      taken from the history: the entry that ends the history. */
  lemma FillMatchesLastUpdated(id: string, raw: RawBin, now: int)
    requires raw.latest.NotNumber? && raw.history.Some? && |raw.history.value| > 0
    ensures var d := Transform(id, Some(raw), now).value;
      |d.history| > 0
      && d.fill == d.history[|d.history| - 1].fill
      && d.lastUpdated == d.history[|d.history| - 1].timestamp
    ensures var d := Transform(id, Some(raw), now).value;
      var h := raw.history.value;
      exists m :: 0 <= m < |h| && d.fill == ReadingFill(h[m].value) && d.lastUpdated == ToMillis(h[m].key)
  {
    var d := Transform(id, Some(raw), now).value;
    var h := raw.history.value;
    var all := SortedReadings(h);
    TransformProperties(id, raw, now);
    assert d.history == LastN(all, MaxHistory);
    SuffixLast(all, MaxHistory);
    assert d.fill == LatestFill(h) == all[|all| - 1].fill;
    SortedLastIsLatest(h);
    var m :| 0 <= m < |h| && all[|all| - 1] == ToEntry(h[m]);
    assert d.fill == ReadingFill(h[m].value) && d.lastUpdated == ToMillis(h[m].key);
  }

  /** The last of the sorted entries is a converted reading whose repaired
      timestamp is the latest. */
  lemma SortedLastIsLatest(readings: seq<RawReading>)
    requires |readings| > 0
    ensures var all := SortedReadings(readings);
      exists q :: 0 <= q < |readings| && all[|all| - 1] == ToEntry(readings[q])
        && forall k :: 0 <= k < |readings| ==> ReadingTime(readings[k]) <= ReadingTime(readings[q])
  {
    var all := SortedReadings(readings);
    var mapped := Converted(readings);
    var last := |all| - 1;
    assert all[last] in multiset(mapped);
    var q :| 0 <= q < |mapped| && mapped[q] == all[last];
    forall k | 0 <= k < |readings| ensures ReadingTime(readings[k]) <= ReadingTime(readings[q]) {
      assert mapped[k] in multiset(all);
      SortedLastIsMax(all, Timestamp, mapped[k]);
    }
  }

  /** No element of a sorted sequence has a larger key than its last one. */
  lemma SortedLastIsMax<T>(s: seq<T>, key: T -> real, x: T)
    requires Sorting.SortedBy(s, key) && x in multiset(s)
    ensures key(x) <= key(s[|s| - 1])
  {
    var p :| 0 <= p < |s| && s[p] == x;
    if p < |s| - 1 {
      assert key(s[p]) <= key(s[|s| - 1]);
    }
  }

  /** A non-empty suffix ends where the sequence ends. */
  lemma SuffixLast<T>(s: seq<T>, n: nat)
    requires |s| > 0 && n > 0
    ensures |LastN(s, n)| > 0 && LastN(s, n)[|LastN(s, n)| - 1] == s[|s| - 1]
  {
  }

  /** As written, the fill can come from an older reading than the one
      `lastUpdated` shows: with a millisecond key from 2020 and a seconds key
      from 2023, the largest raw key is the 2020 one. */
  lemma FillAsWrittenFromOlderReading()
    ensures var readings := [RawReading(1600000000000, Num(10.0)), RawReading(1700000000, Num(90.0))];
      var raw := RawBin(NotNumber, Some(readings), None, None, None, NotNumber);
      && InitialFillAsWritten(raw) == 10.0
      && NormalizedHistory(readings) == [HistoryEntry(1600000000000, 10.0), HistoryEntry(1700000000000, 90.0)]
      && InitialFill(raw) == 90.0
  {
    var readings := [RawReading(1600000000000, Num(10.0)), RawReading(1700000000, Num(90.0))];
    var e0 := HistoryEntry(1600000000000, 10.0);
    var e1 := HistoryEntry(1700000000000, 90.0);
    assert LatestIndex(readings, RawKey, 2) == 0;
    assert LatestIndex(readings, ReadingTime, 2) == 1;
    assert Converted(readings) == [e0, e1];
    assert [e0, e1][1..] == [e1];
    assert Sorting.SortByKey([e1], Timestamp) == [e1];
    assert Sorting.SortByKey([e0, e1], Timestamp) == [e0, e1];
  }

  /** Two keys can repair to the same timestamp, a seconds key and its
      millisecond twin. The sort keeps their enumeration order, and the fill
      comes from the later one, which is the entry `lastUpdated` shows. */
  lemma FillFromLastOfTiedReadings()
    ensures var readings := [RawReading(1700000000, Num(90.0)), RawReading(1700000000000, Num(10.0))];
      var raw := RawBin(NotNumber, Some(readings), None, None, None, NotNumber);
      && NormalizedHistory(readings) == [HistoryEntry(1700000000000, 90.0), HistoryEntry(1700000000000, 10.0)]
      && InitialFill(raw) == 10.0
  {
    var readings := [RawReading(1700000000, Num(90.0)), RawReading(1700000000000, Num(10.0))];
    TiedReadingsSorted(readings);
    assert LatestFill(readings) == 10.0;
  }

  /** The sorted entries of that example: equal timestamps keep their order. */
  lemma TiedReadingsSorted(readings: seq<RawReading>)
    requires readings == [RawReading(1700000000, Num(90.0)), RawReading(1700000000000, Num(10.0))]
    ensures SortedReadings(readings) == [HistoryEntry(1700000000000, 90.0), HistoryEntry(1700000000000, 10.0)]
  {
    var e0 := HistoryEntry(1700000000000, 90.0);
    var e1 := HistoryEntry(1700000000000, 10.0);
    assert ToMillis(1700000000) == 1700000000000;
    assert Converted(readings) == [e0, e1];
    assert [e0, e1][1..] == [e1];
    assert Sorting.SortByKey([e1], Timestamp) == [e1];
  }

  /** Missing fields fall back to the per-id tables and then to the fixed
      defaults; present ones are kept. */
  lemma TransformDefaults(id: string, raw: RawBin, now: int)
    ensures var d := Transform(id, Some(raw), now).value;
      (raw.coordinates.Some? ==> d.coordinates == Coord(OrZero(raw.coordinates.value.lat), OrZero(raw.coordinates.value.lng)))
      && (raw.coordinates.None? ==> d.coordinates == DefaultCoordinates(id))
      && (raw.coordinates.None? && id != "bin2" && id != "bin3" ==> d.coordinates == FcRoad)
      && (raw.location.Some? && raw.location.value != "" ==> d.location == raw.location.value)
      && ((raw.location.None? || raw.location == Some("")) ==> d.location == DefaultLocation(id))
      && (raw.capacity.Num? && raw.capacity.n != 0.0 ==> d.capacity == raw.capacity.n)
      && (raw.capacity.NotNumber? || raw.capacity == Num(0.0) ==> d.capacity == DefaultCapacity)
      && (raw.name.Some? && raw.name.value != "" ==> d.name == raw.name.value)
      && ((raw.name.None? || raw.name == Some("")) ==> d.name == "Dustbin " + RemoveFirstBin(id))
  {
  }

  /** Every id other than the second and third known ones sits at FC Road
      by default. */
  lemma DefaultTables(id: string)
    ensures DefaultCoordinates(id) == FcRoad <==> id != "bin2" && id != "bin3"
  {
  }

  /** `f` applied to each element of `s` in order, the results concatenated. */
  function FlatMap<A, B>(f: A -> seq<B>, s: seq<A>): seq<B>
  {
    if s == [] then [] else FlatMap(f, s[..|s| - 1]) + f(s[|s| - 1])
  }

  lemma {:induction false} FlatMapAppend<A, B>(f: A -> seq<B>, s1: seq<A>, s2: seq<A>)
    ensures FlatMap(f, s1 + s2) == FlatMap(f, s1) + FlatMap(f, s2)
    decreases |s2|
  {
    if s2 == [] {
      assert s1 + s2 == s1;
    } else {
      var s := s1 + s2;
      var init := s2[..|s2| - 1];
      assert s[..|s| - 1] == s1 + init;
      assert s[|s| - 1] == s2[|s2| - 1];
      FlatMapAppend(f, s1, init);
      assert FlatMap(f, s1 + init) + f(s2[|s2| - 1]) == FlatMap(f, s1) + (FlatMap(f, init) + f(s2[|s2| - 1]));
    }
  }

  /** What one entry contributes: its transform, if any. */
  function Kept(key: string, data: Option<RawBin>, now: int): seq<Dustbin>
  {
    match Transform(key, data, now)
    case Some(d) => [d]
    case None => []
  }

  /** The transforms of the entries that are present, in key order. */
  function Collect(entries: seq<(string, Option<RawBin>)>, now: int): seq<Dustbin>
  {
    FlatMap((e: (string, Option<RawBin>)) => Kept(e.0, e.1, now), entries)
  }

  /** Collecting consecutive runs of entries concatenates their results. */
  lemma CollectAppend(e1: seq<(string, Option<RawBin>)>, e2: seq<(string, Option<RawBin>)>, now: int)
    ensures Collect(e1 + e2, now) == Collect(e1, now) + Collect(e2, now)
  {
    FlatMapAppend((e: (string, Option<RawBin>)) => Kept(e.0, e.1, now), e1, e2);
  }

  /** One entry contributes its transform exactly when the record is present. */
  lemma CollectOne(key: string, data: Option<RawBin>, now: int)
    ensures Collect([(key, data)], now) == if data.Some? then [Transform(key, data, now).value] else []
  {
    var f := (e: (string, Option<RawBin>)) => Kept(e.0, e.1, now);
    assert [(key, data)][..0] == [];
    assert FlatMap(f, [(key, data)]) == FlatMap(f, []) + f((key, data));
  }

  /** Each kept record comes from the entry with its key. */
  lemma {:induction false} CollectFromEntries(entries: seq<(string, Option<RawBin>)>, now: int)
    ensures |Collect(entries, now)| <= |entries|
    ensures forall d :: d in Collect(entries, now) ==>
      exists k :: 0 <= k < |entries| && entries[k].0 == d.id && entries[k].1.Some?
        && Transform(entries[k].0, entries[k].1, now) == Some(d)
    decreases |entries|
  {
    if entries != [] {
      var prefix := entries[..|entries| - 1];
      CollectFromEntries(prefix, now);
      forall d | d in Collect(entries, now)
        ensures exists k :: (0 <= k < |entries| && entries[k].0 == d.id && entries[k].1.Some?
          && Transform(entries[k].0, entries[k].1, now) == Some(d))
      {
        if d in Collect(prefix, now) {
          var k :| 0 <= k < |prefix| && prefix[k].0 == d.id && prefix[k].1.Some?
            && Transform(prefix[k].0, prefix[k].1, now) == Some(d);
          assert entries[k] == prefix[k];
        } else {
          var last := |entries| - 1;
          assert Transform(entries[last].0, entries[last].1, now) == Some(d);
        }
      }
    }
  }

  /** What the database listener delivers: no data, or the records by key. */
  datatype Snapshot = NoData | Records(entries: seq<(string, Option<RawBin>)>)

  const NoDataMessage: string := "No dustbin data found in Firebase"
  const NoValidDataMessage: string := "No valid dustbin data found in Firebase"
  const ConnectionFailedMessage: string := "Failed to connect to Firebase"

  /** The state `useDustbinData` exposes. */
  class DustbinFeed {
    var dustbins: seq<Dustbin>
    var loading: bool
    var error: Option<string>

    constructor ()
      ensures dustbins == [] && loading && error == None
    {
      dustbins := [];
      loading := true;
      error := None;
    }

    /** The value callback: no data clears the list with an error; otherwise
        the present records are transformed in key order. */
    method OnSnapshot(snapshot: Snapshot, now: int)
      modifies this
      ensures !loading
      ensures snapshot.NoData? ==> dustbins == [] && error == Some(NoDataMessage)
      ensures snapshot.Records? ==> dustbins == Collect(snapshot.entries, now)
      ensures snapshot.Records? ==> (error == Some(NoValidDataMessage) <==> dustbins == [])
      ensures snapshot.Records? && dustbins != [] ==> error == None
    {
      if snapshot.NoData? {
        dustbins := [];
        loading := false;
        error := Some(NoDataMessage);
        return;
      }
      var entries := snapshot.entries;
      var transformed: seq<Dustbin> := [];
      for i := 0 to |entries|
        invariant transformed == Collect(entries[..i], now)
      {
        assert entries[..i + 1][..i] == entries[..i];
        var (key, data) := entries[i];
        var t := Transform(key, data, now);
        if t.Some? {
          transformed := transformed + [t.value];
        }
      }
      assert entries[..|entries|] == entries;
      if |transformed| == 0 {
        error := Some(NoValidDataMessage);
      } else {
        error := None;
      }
      dustbins := transformed;
      loading := false;
    }

    /** The cancel callback: the error's message, or a fixed one when it is empty. */
    method OnError(message: string)
      modifies this
      ensures dustbins == [] && !loading
      ensures error == Some(if message != "" then message else ConnectionFailedMessage)
    {
      error := Some(if message != "" then message else ConnectionFailedMessage);
      loading := false;
      dustbins := [];
    }
  }
}
