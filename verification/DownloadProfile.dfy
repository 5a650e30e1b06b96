/** How the bytes of each download are spread over discrete time intervals. Times and rates are
    exact real numbers here. */
module DownloadProfile {
  import opened Text

  datatype Event = Event(bytes: int, start: real, end: real)

  /** One interval's share of a download. */
  datatype Part = Part(index: int, bytes: real, duty: real)

  function Min(a: real, b: real): real {
    if a <= b then a else b
  }

  function Max(a: real, b: real): real {
    if a >= b then a else b
  }

  function Ceil(x: real): int {
    -((-x).Floor)
  }

  // ---- what an interval's share should be

  /** How much of the interval [i, i + 1] lies inside [lo, hi]. */
  function Overlap(lo: real, hi: real, i: int): real {
    Max(0.0, Min(hi, (i + 1) as real) - Max(lo, i as real))
  }

  /** The average rate per interval of an event that takes time. */
  function Rate(e: Event, interval: real): real
    requires interval > 0.0 && e.start != e.end
  {
    e.bytes as real / (e.end / interval - e.start / interval)
  }

  function DutySum(parts: seq<Part>): real {
    if parts == [] then 0.0 else DutySum(parts[..|parts| - 1]) + parts[|parts| - 1].duty
  }

  function ByteSum(parts: seq<Part>): real {
    if parts == [] then 0.0 else ByteSum(parts[..|parts| - 1]) + parts[|parts| - 1].bytes
  }

  /** Consecutive intervals from the one holding lo to the one holding hi, each with its overlap. */
  predicate Covers(parts: seq<Part>, lo: real, hi: real) {
    forall k :: 0 <= k < |parts| ==>
      && parts[k].index == lo.Floor + k
      && 0.0 < parts[k].duty <= 1.0
      && parts[k].duty == Overlap(lo, hi, parts[k].index)
  }

  /** Each part's bytes are its time at the given rate. */
  predicate Rated(parts: seq<Part>, rate: real) {
    forall k :: 0 <= k < |parts| ==> parts[k].bytes == Times(parts[k].duty, rate)
  }

  function Times(a: real, b: real): real {
    a * b
  }

  lemma {:induction false} BytesAreDutyTimesRate(parts: seq<Part>, rate: real)
    requires Rated(parts, rate)
    ensures ByteSum(parts) == DutySum(parts) * rate
  {
    if parts != [] {
      var n := |parts| - 1;
      BytesAreDutyTimesRate(parts[..n], rate);
    }
  }

  /** Where the cursor stands after some parts. */
  predicate At(lo: real, hi: real, parts: seq<Part>, cursor: real) {
    if parts == [] then cursor == lo
    else cursor == Min((lo.Floor + |parts|) as real, hi) && ((lo.Floor + |parts| - 1) as real) < hi
  }

  /** One round of the loop: the next interval's part. */
  lemma NextPart(lo: real, hi: real, parts: seq<Part>, cursor: real)
    requires lo < hi && At(lo, hi, parts, cursor) && cursor < hi
    ensures var next := Min((cursor.Floor + 1) as real, hi);
            && cursor.Floor == lo.Floor + |parts|
            && 0.0 < next - cursor <= 1.0
            && next - cursor == Overlap(lo, hi, cursor.Floor)
            && next == Min((lo.Floor + |parts| + 1) as real, hi) && (cursor.Floor as real) < hi
    ensures lo.Floor + |parts| < Ceil(hi)
  {
  }

  lemma AtEnd(lo: real, hi: real, parts: seq<Part>, cursor: real)
    requires lo < hi && At(lo, hi, parts, cursor) && cursor >= hi
    ensures parts != [] && lo.Floor + |parts| == Ceil(hi) && cursor == hi
  {
  }

  lemma {:induction false} CoversMore(parts: seq<Part>, lo: real, hi: real, p: Part)
    requires Covers(parts, lo, hi)
    requires p.index == lo.Floor + |parts| && 0.0 < p.duty <= 1.0
    requires p.duty == Overlap(lo, hi, p.index)
    ensures Covers(parts + [p], lo, hi)
    ensures DutySum(parts + [p]) == DutySum(parts) + p.duty
  {
  }

  /** The body of the loop: the part of the interval under the cursor. */
  method OnePart(lo: real, hi: real, rate: real, ghost parts: seq<Part>, cursor: real)
    returns (part: Part, next: real)
    requires lo < hi && At(lo, hi, parts, cursor) && cursor < hi
    requires Covers(parts, lo, hi) && Rated(parts, rate)
    ensures Covers(parts + [part], lo, hi) && Rated(parts + [part], rate)
    ensures DutySum(parts + [part]) == DutySum(parts) + (next - cursor)
    ensures At(lo, hi, parts + [part], next) && lo.Floor + |parts| < Ceil(hi)
  {
    NextPart(lo, hi, parts, cursor);
    var index := cursor.Floor;
    next := Min((index + 1) as real, hi);
    var duty := next - cursor;
    part := Part(index, Times(duty, rate), duty);
    CoversMore(parts, lo, hi, part);
  }

  /** The loop of `distribute_over_intervals`. */
  method Walk(lo: real, hi: real, rate: real) returns (parts: seq<Part>)
    ensures lo > hi ==> parts == []
    ensures lo < hi ==> parts != [] && lo.Floor + |parts| == Ceil(hi)
    ensures lo < hi ==> Covers(parts, lo, hi) && Rated(parts, rate) && DutySum(parts) == hi - lo
  {
    var cursor := lo;
    parts := [];
    while cursor < hi
      invariant lo < hi ==> At(lo, hi, parts, cursor) && Covers(parts, lo, hi) && Rated(parts, rate)
      invariant lo < hi ==> DutySum(parts) == cursor - lo
      invariant lo >= hi ==> parts == [] && cursor == lo
      decreases Ceil(hi) - lo.Floor - |parts|
    {
      var part, next := OnePart(lo, hi, rate, parts, cursor);
      parts := parts + [part];
      cursor := next;
    }
    if lo < hi { AtEnd(lo, hi, parts, cursor); }
  }

  /** `distribute_over_intervals`; an event that takes no time is a division by zero. */
  method DistributeOverIntervals(e: Event, interval: real) returns (r: Result<seq<Part>>)
    requires interval > 0.0
    ensures r.Err? <==> e.start == e.end
    ensures e.start > e.end ==> r.Ok? && r.value == []
    ensures e.start < e.end ==> r.Ok? && r.value != []
    ensures e.start < e.end ==> Covers(r.value, e.start / interval, e.end / interval)
    ensures e.start < e.end ==> Rated(r.value, Rate(e, interval))
    ensures e.start < e.end ==> (e.start / interval).Floor + |r.value| == Ceil(e.end / interval)
    ensures e.start < e.end ==> DutySum(r.value) == e.end / interval - e.start / interval
    ensures e.start < e.end ==> ByteSum(r.value) == e.bytes as real
  {
    if e.start == e.end {
      return Err("division by zero");
    }
    var lo, hi := e.start / interval, e.end / interval;
    var rate := e.bytes as real / (hi - lo);
    var parts := Walk(lo, hi, rate);
    if lo < hi {
      BytesAreDutyTimesRate(parts, rate);
    }
    return Ok(parts);
  }

  // ---- many events

  /** What an event should add to interval i: its overlap with the interval, and that time's bytes. */
  function DutyShare(e: Event, interval: real, i: int): real
    requires interval > 0.0
  {
    if e.start < e.end then Overlap(e.start / interval, e.end / interval, i) else 0.0
  }

  function ByteShare(e: Event, interval: real, i: int): real
    requires interval > 0.0
  {
    if e.start < e.end then Times(DutyShare(e, interval, i), Rate(e, interval)) else 0.0
  }

  function DutyTotal(events: seq<Event>, interval: real, i: int): real
    requires interval > 0.0
  {
    if events == [] then 0.0
    else DutyTotal(events[..|events| - 1], interval, i) + DutyShare(events[|events| - 1], interval, i)
  }

  function ByteTotal(events: seq<Event>, interval: real, i: int): real
    requires interval > 0.0
  {
    if events == [] then 0.0
    else ByteTotal(events[..|events| - 1], interval, i) + ByteShare(events[|events| - 1], interval, i)
  }

  /** The bytes of the events that end after they start; the others are not distributed. */
  function ForwardBytes(events: seq<Event>): int {
    if events == [] then 0
    else
      var e := events[|events| - 1];
      ForwardBytes(events[..|events| - 1]) + if e.start < e.end then e.bytes else 0
  }

  function AllBytes(events: seq<Event>): int {
    if events == [] then 0 else AllBytes(events[..|events| - 1]) + events[|events| - 1].bytes
  }

  /** The bytes of the events that end before they start. */
  function BackwardBytes(events: seq<Event>): int {
    if events == [] then 0
    else
      var e := events[|events| - 1];
      BackwardBytes(events[..|events| - 1]) + if e.start > e.end then e.bytes else 0
  }

  /** What is distributed is everything exactly when the events that run backwards hold no bytes. */
  lemma {:induction false} ConservedIff(events: seq<Event>)
    requires forall e :: e in events ==> e.start != e.end
    ensures ForwardBytes(events) + BackwardBytes(events) == AllBytes(events)
    ensures ForwardBytes(events) == AllBytes(events) <==> BackwardBytes(events) == 0
  {
    if events != [] {
      assert events[|events| - 1] in events;
      ConservedIff(events[..|events| - 1]);
    }
  }

  function Sum(s: seq<real>): real {
    if s == [] then 0.0 else Sum(s[..|s| - 1]) + s[|s| - 1]
  }

  lemma {:induction false} SumUpdate(s: seq<real>, i: nat, x: real)
    requires i < |s|
    ensures Sum(s[i := s[i] + x]) == Sum(s) + x
  {
    var n := |s| - 1;
    var t := s[i := s[i] + x];
    if i == n {
      assert t[..n] == s[..n];
    } else {
      assert t[..n] == s[..n][i := s[..n][i] + x];
      SumUpdate(s[..n], i, x);
    }
  }

  lemma {:induction false} SumOfZeros(s: seq<real>)
    requires forall i :: 0 <= i < |s| ==> s[i] == 0.0
    ensures Sum(s) == 0.0
  {
    if s != [] { SumOfZeros(s[..|s| - 1]); }
  }

  /** Parts of one event: consecutive indices that are in range. */
  predicate Fit(parts: seq<Part>, first: int, n: nat) {
    && (forall k :: 0 <= k < |parts| ==> parts[k].index == first + k)
    && (parts != [] ==> 0 <= first && first + |parts| <= n)
  }

  /** What interval i gets from the first k parts. */
  function BytesAt(parts: seq<Part>, first: int, k: nat, i: int): real
    requires k <= |parts|
  {
    if first <= i < first + k then parts[i - first].bytes else 0.0
  }

  function DutyAt(parts: seq<Part>, first: int, k: nat, i: int): real
    requires k <= |parts|
  {
    if first <= i < first + k then parts[i - first].duty else 0.0
  }

  /** The inner loop: one event's parts added to the two arrays in place. */
  method AddParts(bytesPer: array<real>, dutyPer: array<real>, parts: seq<Part>, ghost first: int)
    requires bytesPer != dutyPer && bytesPer.Length == dutyPer.Length
    requires Fit(parts, first, bytesPer.Length)
    modifies bytesPer, dutyPer
    ensures forall i :: 0 <= i < bytesPer.Length ==>
                          bytesPer[i] == old(bytesPer[i]) + BytesAt(parts, first, |parts|, i)
    ensures forall i :: 0 <= i < dutyPer.Length ==>
                          dutyPer[i] == old(dutyPer[i]) + DutyAt(parts, first, |parts|, i)
    ensures Sum(bytesPer[..]) == old(Sum(bytesPer[..])) + ByteSum(parts)
  {
    for k := 0 to |parts|
      invariant forall i :: 0 <= i < bytesPer.Length ==>
                              bytesPer[i] == old(bytesPer[i]) + BytesAt(parts, first, k, i)
      invariant forall i :: 0 <= i < dutyPer.Length ==>
                              dutyPer[i] == old(dutyPer[i]) + DutyAt(parts, first, k, i)
      invariant Sum(bytesPer[..]) == old(Sum(bytesPer[..])) + ByteSum(parts[..k])
    {
      var part := parts[k];
      ghost var before := bytesPer[..];
      SumUpdate(before, part.index, part.bytes);
      bytesPer[part.index] := bytesPer[part.index] + part.bytes;
      dutyPer[part.index] := dutyPer[part.index] + part.duty;
      assert bytesPer[..] == before[part.index := before[part.index] + part.bytes];
      assert parts[..k + 1][..k] == parts[..k];
    }
    assert parts[..|parts|] == parts;
  }

  /** One event's parts give every interval exactly its share. */
  lemma {:induction false} PartsAreShares(e: Event, interval: real, parts: seq<Part>, i: int)
    requires interval > 0.0 && e.start < e.end
    requires Covers(parts, e.start / interval, e.end / interval) && Rated(parts, Rate(e, interval))
    requires (e.start / interval).Floor + |parts| == Ceil(e.end / interval)
    ensures BytesAt(parts, (e.start / interval).Floor, |parts|, i) == ByteShare(e, interval, i)
    ensures DutyAt(parts, (e.start / interval).Floor, |parts|, i) == DutyShare(e, interval, i)
  {
  }

  lemma InRange(e: Event, total: real, interval: real)
    requires interval > 0.0 && 0.0 <= e.start && e.end <= total
    ensures 0 <= (e.start / interval).Floor
    ensures Ceil(e.end / interval) <= Ceil(total / interval)
  {
    assert 0.0 / interval == 0.0;
    CeilMonotone(e.end / interval, total / interval);
  }

  lemma CeilMonotone(a: real, b: real)
    requires a <= b
    ensures Ceil(a) <= Ceil(b)
  {
  }

  /** The number of intervals; a negative count makes an empty list. */
  function IntervalCount(total: real, interval: real): nat
    requires interval > 0.0
  {
    var n := Ceil(total / interval) + 1;
    if n < 0 then 0 else n
  }

  function BytesColumn(rows: seq<(real, real)>): seq<real> {
    seq(|rows|, i requires 0 <= i < |rows| => rows[i].0)
  }

  /** The arrays hold the totals of the first m events. */
  ghost predicate Tallied(bytesPer: seq<real>, dutyPer: seq<real>, events: seq<Event>, interval: real)
    requires interval > 0.0
  {
    && |bytesPer| == |dutyPer|
    && (forall i :: 0 <= i < |bytesPer| ==> bytesPer[i] == ByteTotal(events, interval, i))
    && (forall i :: 0 <= i < |dutyPer| ==> dutyPer[i] == DutyTotal(events, interval, i))
    && Sum(bytesPer) == ForwardBytes(events) as real
  }

  /** The body of the outer loop. */
  method AddEvent(bytesPer: array<real>, dutyPer: array<real>, e: Event, total: real, interval: real,
                  ghost earlier: seq<Event>)
    returns (ok: bool)
    requires interval > 0.0 && bytesPer != dutyPer
    requires bytesPer.Length == dutyPer.Length == IntervalCount(total, interval)
    requires e.start < e.end ==> 0.0 <= e.start && e.end <= total
    requires Tallied(bytesPer[..], dutyPer[..], earlier, interval)
    modifies bytesPer, dutyPer
    ensures ok <==> e.start != e.end
    ensures ok ==> Tallied(bytesPer[..], dutyPer[..], earlier + [e], interval)
  {
    var parts := DistributeOverIntervals(e, interval);
    if parts.Err? {
      return false;
    }
    ghost var first := (e.start / interval).Floor;
    if e.start < e.end {
      InRange(e, total, interval);
      forall i: int
        ensures BytesAt(parts.value, first, |parts.value|, i) == ByteShare(e, interval, i)
        ensures DutyAt(parts.value, first, |parts.value|, i) == DutyShare(e, interval, i)
      {
        PartsAreShares(e, interval, parts.value, i);
      }
    }
    AddParts(bytesPer, dutyPer, parts.value, first);
    assert (earlier + [e])[..|earlier|] == earlier;
    return true;
  }

  /** Every interval has the sum of the events' shares of it. */
  ghost predicate Shared(rows: seq<(real, real)>, events: seq<Event>, interval: real)
    requires interval > 0.0
  {
    forall i :: 0 <= i < |rows| ==> rows[i] == (ByteTotal(events, interval, i), DutyTotal(events, interval, i))
  }

  /** `distribute_bytes_downloaded_over_time`: every interval gets the sum of the events' shares of it, and no
      byte of an event that takes time is lost. */
  method DistributeBytesDownloadedOverTime(total: real, interval: real, events: seq<Event>)
    returns (r: Result<seq<(real, real)>>)
    requires interval > 0.0
    requires forall e :: e in events && e.start < e.end ==> 0.0 <= e.start && e.end <= total
    ensures r.Err? <==> exists e :: e in events && e.start == e.end
    ensures r.Ok? ==> |r.value| == IntervalCount(total, interval)
    ensures r.Ok? ==> Shared(r.value, events, interval)
    ensures r.Ok? ==> Sum(BytesColumn(r.value)) == ForwardBytes(events) as real
  {
    var n := IntervalCount(total, interval);
    var bytesPer := new real[n](i => 0.0);
    var dutyPer := new real[n](i => 0.0);
    SumOfZeros(bytesPer[..]);
    for k := 0 to |events|
      invariant fresh(bytesPer) && fresh(dutyPer)
      invariant Tallied(bytesPer[..], dutyPer[..], events[..k], interval)
      invariant forall e :: e in events[..k] ==> e.start != e.end
    {
      assert events[..k + 1] == events[..k] + [events[k]];
      var ok := AddEvent(bytesPer, dutyPer, events[k], total, interval, events[..k]);
      if !ok {
        return Err("division by zero");
      }
    }
    assert events[..|events|] == events;
    var rows := seq(n, i requires 0 <= i < n reads bytesPer, dutyPer => (bytesPer[i], dutyPer[i]));
    assert BytesColumn(rows) == bytesPer[..];
    return Ok(rows);
  }

  // ---- the log

  datatype Span = Span(begin: real, finish: real)

  /** The remote part of a log record: the times of its events, and how much was downloaded. */
  datatype Metadata = Metadata(eventTimes: map<string, Span>, bytesDownloaded: int)

  datatype Record = Record(remote: Option<Metadata>)

  const DOWNLOAD := "DownloadResults"

  ghost predicate HasSpan(records: seq<Record>, s: Span) {
    exists r, name :: r in records && r.remote.Some? && name in r.remote.value.eventTimes &&
                      r.remote.value.eventTimes[name] == s
  }

  /** The earliest start and the latest end, over the spans seen so far. */
  ghost predicate Bounds(spans: iset<Span>, r: Option<(real, real)>) {
    match r
    case None => forall s :: s !in spans
    case Some((lo, hi)) =>
      && (forall s :: s in spans ==> lo <= s.begin && s.finish <= hi)
      && (exists s :: s in spans && s.begin == lo)
      && (exists s :: s in spans && s.finish == hi)
  }

  ghost function Spans(records: seq<Record>): iset<Span> {
    iset s | HasSpan(records, s)
  }

  /** `_min_max_event_times`, one event. */
  function Widen(r: Option<(real, real)>, s: Span): Option<(real, real)> {
    match r
    case None => Some((s.begin, s.finish))
    case Some((lo, hi)) => Some((Min(lo, s.begin), Max(hi, s.finish)))
  }

  ghost function SpansOf(times: map<string, Span>, names: set<string>): iset<Span> {
    iset n | n in names && n in times :: times[n]
  }

  /** The inner loop: the events of one record. */
  method WidenAll(times: map<string, Span>, soFar: Option<(real, real)>, ghost seen: iset<Span>)
    returns (r: Option<(real, real)>)
    requires Bounds(seen, soFar)
    ensures Bounds(seen + SpansOf(times, times.Keys), r)
  {
    r := soFar;
    var names := times.Keys;
    ghost var done: set<string> := {};
    assert seen + SpansOf(times, done) == seen;
    while names != {}
      invariant done + names == times.Keys
      invariant Bounds(seen + SpansOf(times, done), r)
      decreases names
    {
      var name :| name in names;
      assert seen + SpansOf(times, done) + iset{times[name]} == seen + SpansOf(times, done + {name});
      r := Widen(r, times[name]);
      names := names - {name};
      done := done + {name};
    }
    assert done == times.Keys;
  }

  method MinMaxEventTimes(records: seq<Record>) returns (r: Option<(real, real)>)
    ensures Bounds(Spans(records), r)
  {
    r := None;
    assert Spans(records[..0]) == iset{};
    for k := 0 to |records|
      invariant Bounds(Spans(records[..k]), r)
    {
      var record := records[k];
      SpansOfOneMore(records, k);
      if record.remote.Some? {
        r := WidenAll(record.remote.value.eventTimes, r, Spans(records[..k]));
      }
    }
    assert records[..|records|] == records;
  }

  lemma SpansOfOneMore(records: seq<Record>, k: nat)
    requires k < |records|
    ensures var m := records[k].remote;
            Spans(records[..k + 1]) ==
            Spans(records[..k]) +
            if m.Some? then SpansOf(m.value.eventTimes, m.value.eventTimes.Keys) else iset{}
    ensures records[k].remote.None? ==> Spans(records[..k + 1]) == Spans(records[..k])
  {
  }

  /** `_download_events`: the downloads, timed from `minTime`. */
  function DownloadEvents(records: seq<Record>, minTime: real): seq<Event> {
    if records == [] then []
    else
      var m := records[|records| - 1].remote;
      DownloadEvents(records[..|records| - 1], minTime) +
      if m.Some? && DOWNLOAD in m.value.eventTimes then
        var s := m.value.eventTimes[DOWNLOAD];
        [Event(m.value.bytesDownloaded, s.begin - minTime, s.finish - minTime)]
      else []
  }

  lemma {:induction false} DownloadIsLogged(records: seq<Record>, minTime: real, e: Event)
    requires e in DownloadEvents(records, minTime)
    ensures HasSpan(records, Span(e.start + minTime, e.end + minTime))
  {
    var n := |records| - 1;
    var init, last := records[..n], records[n];
    if e in DownloadEvents(init, minTime) {
      DownloadIsLogged(init, minTime, e);
      var r, name :| r in init && r.remote.Some? && name in r.remote.value.eventTimes &&
                     r.remote.value.eventTimes[name] == Span(e.start + minTime, e.end + minTime);
      assert r in records;
    } else {
      assert last in records && last.remote.value.eventTimes[DOWNLOAD] == Span(e.start + minTime, e.end + minTime);
    }
  }

  lemma DownloadsAreInRange(records: seq<Record>, lo: real, hi: real)
    requires Bounds(Spans(records), Some((lo, hi)))
    ensures forall e :: e in DownloadEvents(records, lo) ==> 0.0 <= e.start && e.end <= hi - lo
  {
    forall e | e in DownloadEvents(records, lo)
      ensures 0.0 <= e.start && e.end <= hi - lo
    {
      DownloadIsLogged(records, lo, e);
      assert Span(e.start + lo, e.end + lo) in Spans(records);
    }
  }

  /** What a profile of the downloads of a log says, timed from `start`: every interval has its share of every
      download, and all of them together have exactly the bytes of the downloads that take time. */
  ghost predicate IsProfile(r: Result<seq<(real, real)>>, records: seq<Record>, interval: real, start: real)
    requires interval > 0.0
  {
    var events := DownloadEvents(records, start);
    if r.Err? then exists e :: e in events && e.start == e.end
    else
      && (forall e :: e in events ==> e.start != e.end)
      && Shared(r.value, events, interval)
      && Sum(BytesColumn(r.value)) == ForwardBytes(events) as real
  }

  /** The profile between the earliest start and the latest end, or nothing where the log has no times. */
  ghost predicate ProfileOf(
    r: Result<seq<(real, real)>>, records: seq<Record>, interval: real, bounds: Option<(real, real)>)
    requires interval > 0.0
  {
    match bounds
    case None => r == Ok([])
    case Some((lo, hi)) =>
      IsProfile(r, records, interval, lo) && (r.Ok? ==> |r.value| == IntervalCount(hi - lo, interval))
  }

  /** The second half of `download_profile`: no index leaves the arrays. */
  method ProfileBetween(records: seq<Record>, interval: real, bounds: Option<(real, real)>)
    returns (r: Result<seq<(real, real)>>)
    requires interval > 0.0 && bounds.Some? && Bounds(Spans(records), bounds)
    ensures ProfileOf(r, records, interval, bounds)
  {
    var (lo, hi) := bounds.value;
    DownloadsAreInRange(records, lo, hi);
    r := DistributeBytesDownloadedOverTime(hi - lo, interval, DownloadEvents(records, lo));
  }

  method Profile(records: seq<Record>, interval: real) returns (r: Result<seq<(real, real)>>)
    requires interval > 0.0
    ensures exists bounds :: Bounds(Spans(records), bounds) && ProfileOf(r, records, interval, bounds)
  {
    var times := MinMaxEventTimes(records);
    if times.None? {
      r := Ok([]);
      assert ProfileOf(r, records, interval, times);
    } else {
      r := ProfileBetween(records, interval, times);
    }
  }
}
