/** Progress streams: throttled events that end at 100%. */
module Progress {
  const MAX_U64: nat := 0xFFFF_FFFF_FFFF_FFFF

  function SaturatingAdd(a: nat, b: nat): nat { if a + b <= MAX_U64 then a + b else MAX_U64 }

  /** `throttled` is false for the first event and the one at the end. */
  datatype Event = Event(progress: nat, total: nat, time: nat, throttled: bool)

  /** Restoring takes no notice of empty chunks and does not accept an empty total. */
  datatype Kind = Creating | Restoring

  datatype State = State(total: nat, progress: nat, lastProgress: nat, lastTime: nat, events: seq<Event>)

  // ---- what calls do ----

  function Started(total: nat, now: nat): State {
    State(total, 0, 0, now, [Event(0, total, now, false)])
  }

  /** Nothing is sent within the interval, but progress is counted. */
  function Progressed(s: State, kind: Kind, interval: nat, len: nat, now: nat): State {
    if kind.Restoring? && len == 0 then s
    else
      var progress := SaturatingAdd(s.progress, len);
      if now > s.lastTime + interval then
        State(s.total, progress, progress, now, s.events + [Event(progress, s.total, now, true)])
      else s.(progress := progress)
  }

  function Finished(s: State, now: nat): State {
    if s.lastProgress < s.total then
      s.(lastProgress := s.total, lastTime := now, events := s.events + [Event(s.total, s.total, now, false)])
    else s
  }

  /** Some chunks, each at its time. */
  function Reported(s: State, kind: Kind, interval: nat, chunks: seq<nat>, times: seq<nat>): State
    requires |times| == |chunks|
  {
    if chunks == [] then s
    else
      var n := |chunks| - 1;
      Progressed(Reported(s, kind, interval, chunks[..n], times[..n]), kind, interval, chunks[n], times[n])
  }

  /** A stream that comes to its end; the first and last times are those of the start and
      the end. */
  function Stream(kind: Kind, interval: nat, total: nat, chunks: seq<nat>, times: seq<nat>): State
    requires |times| == |chunks| + 2
  {
    Finished(Reported(Started(total, times[0]), kind, interval, chunks, times[1..|times| - 1]), times[|times| - 1])
  }

  // ---- what holds of all streams ----

  /** Progress never goes back, and throttled events come more than an interval after the
      one before. */
  ghost predicate WellPaced(events: seq<Event>, total: nat, interval: nat) {
    && (forall i :: 0 <= i < |events| ==> events[i].total == total)
    && (forall i, j :: 0 <= i < j < |events| ==> events[i].progress <= events[j].progress)
    && (forall i :: 0 < i < |events| && events[i].throttled ==> events[i].time > events[i - 1].time + interval)
  }

  /** Progress never goes past 100%. */
  ghost predicate Within(events: seq<Event>, total: nat) {
    forall i :: 0 <= i < |events| ==> events[i].progress <= total
  }

  /** The last event is the one remembered, and progress has not fallen behind it. */
  ghost predicate Inv(s: State, interval: nat) {
    && s.events != [] && s.events[|s.events| - 1].progress == s.lastProgress <= s.progress <= MAX_U64
    && s.events[|s.events| - 1].time == s.lastTime
    && s.events[0].progress == 0 && WellPaced(s.events, s.total, interval)
  }

  function Sum(chunks: seq<nat>): nat {
    if chunks == [] then 0 else Sum(chunks[..|chunks| - 1]) + chunks[|chunks| - 1]
  }

  /** The bytes of some chunks, as far as 64 bits count. */
  function Counted(chunks: seq<nat>): nat { SaturatingAdd(0, Sum(chunks)) }

  lemma ProgressedKeeps(s: State, kind: Kind, interval: nat, len: nat, now: nat)
    requires Inv(s, interval)
    ensures var t := Progressed(s, kind, interval, len, now);
      Inv(t, interval) && t.total == s.total && t.progress == SaturatingAdd(s.progress, len) && s.events <= t.events
  {
  }

  lemma {:induction false} ReportedCounts(s: State, kind: Kind, interval: nat, chunks: seq<nat>, times: seq<nat>)
    requires |times| == |chunks| && Inv(s, interval) && s.progress == 0
    ensures var t := Reported(s, kind, interval, chunks, times);
      Inv(t, interval) && t.total == s.total && t.progress == Counted(chunks) && s.events <= t.events
  {
    if chunks != [] {
      var n := |chunks| - 1;
      ReportedCounts(s, kind, interval, chunks[..n], times[..n]);
      ProgressedKeeps(Reported(s, kind, interval, chunks[..n], times[..n]), kind, interval, chunks[n], times[n]);
    }
  }

  lemma FinishedPaced(s: State, interval: nat, now: nat)
    requires Inv(s, interval)
    ensures var t := Finished(s, now);
      && t.events != [] && t.events[0].progress == 0 && WellPaced(t.events, s.total, interval)
      && t.events[|t.events| - 1].progress == (if s.lastProgress < s.total then s.total else s.lastProgress)
  {
  }

  /** For every total, every way of reporting and every clock, events are paced and the last
      one is at 100%, unless more has been counted than that. */
  lemma StreamPaced(kind: Kind, interval: nat, total: nat, chunks: seq<nat>, times: seq<nat>)
    requires |times| == |chunks| + 2
    ensures var events := Stream(kind, interval, total, chunks, times).events;
      && events != [] && events[0].progress == 0 && WellPaced(events, total, interval)
      && events[|events| - 1].progress >= total
      && (Within(events, total) <==> events[|events| - 1].progress == total)
      && (Counted(chunks) <= total ==> Within(events, total))
  {
    var s, during := Started(total, times[0]), times[1..|times| - 1];
    ReportedCounts(s, kind, interval, chunks, during);
    FinishedPaced(Reported(s, kind, interval, chunks, during), interval, times[|times| - 1]);
  }

  /** More than an interval lies between any two times. */
  ghost predicate Spaced(times: seq<nat>, interval: nat) {
    forall i, j :: 0 <= i < j < |times| ==> times[i] + interval < times[j]
  }

  ghost predicate Ordered(times: seq<nat>) {
    forall i, j :: 0 <= i < j < |times| ==> times[i] <= times[j]
  }

  function SpacedTimes(n: nat, interval: nat): (times: seq<nat>)
    ensures |times| == n && Spaced(times, interval)
  {
    if n == 0 then [] else
      var before := SpacedTimes(n - 1, interval);
      before + [if n == 1 then 0 else before[n - 2] + interval + 1]
  }

  /** With time between the chunks, the last event sent says how much was counted. */
  lemma {:induction false} SpacedIsSent(s: State, kind: Kind, interval: nat, chunks: seq<nat>, times: seq<nat>)
    requires |times| == |chunks| && Spaced([s.lastTime] + times, interval) && s.progress == s.lastProgress
    ensures var t := Reported(s, kind, interval, chunks, times);
      t.progress == t.lastProgress && (t.lastTime == s.lastTime || t.lastTime in times)
  {
    if chunks != [] {
      var n := |chunks| - 1;
      var all, before := [s.lastTime] + times, [s.lastTime] + times[..n];
      assert before == all[..n + 1];
      SpacedIsSent(s, kind, interval, chunks[..n], times[..n]);
      assert all[n + 1] == times[n] && all[0] == s.lastTime;
      forall t | t in times[..n] ensures t + interval < times[n] {
        var i :| 0 <= i < n && times[i] == t;
        assert all[i + 1] == t;
      }
    }
  }

  /** No clock can make a stream go past 100% if and only if the chunks together do not. */
  lemma NeverPastTotal(kind: Kind, interval: nat, total: nat, chunks: seq<nat>)
    ensures (forall times | |times| == |chunks| + 2
      && Ordered(times) :: Within(Stream(kind, interval, total, chunks, times).events, total))
      <==> Counted(chunks) <= total
  {
    if Counted(chunks) <= total {
      forall times: seq<nat> | |times| == |chunks| + 2
        ensures Within(Stream(kind, interval, total, chunks, times).events, total) {
        StreamPaced(kind, interval, total, chunks, times);
      }
    } else {
      var times := SpacedTimes(|chunks| + 2, interval);
      var s, during := Started(total, times[0]), times[1..|times| - 1];
      assert [s.lastTime] + during == times[..|times| - 1];
      SpacedIsSent(s, kind, interval, chunks, during);
      ReportedCounts(s, kind, interval, chunks, during);
      FinishedPaced(Reported(s, kind, interval, chunks, during), interval, times[|times| - 1]);
      StreamPaced(kind, interval, total, chunks, times);
      assert Ordered(times) && !Within(Stream(kind, interval, total, chunks, times).events, total);
    }
  }

  // ---- never silent ----

  lemma {:induction false} EarlierEventsStay(s: State, kind: Kind, interval: nat, chunks: seq<nat>, times: seq<nat>,
                                             k: nat)
    requires |times| == |chunks| && k <= |chunks|
    ensures Reported(s, kind, interval, chunks[..k], times[..k]).events <= Reported(s, kind, interval, chunks,
      times).events
  {
    if k == |chunks| {
      assert chunks[..k] == chunks && times[..k] == times;
    } else {
      var n := |chunks| - 1;
      assert chunks[..n][..k] == chunks[..k] && times[..n][..k] == times[..k];
      EarlierEventsStay(s, kind, interval, chunks[..n], times[..n], k);
    }
  }

  lemma ChunkReported(s: State, kind: Kind, interval: nat, len: nat, now: nat)
    requires Inv(s, interval) && (kind.Restoring? ==> len > 0)
    ensures var before, after := s.events, Progressed(s, kind, interval, len, now).events;
      && after != [] && before <= after && now <= after[|after| - 1].time + interval
      && (now > before[|before| - 1].time + interval ==>
            after == before + [Event(SaturatingAdd(s.progress, len), s.total, now, true)])
  {
  }

  lemma ReportedStep(s: State, kind: Kind, interval: nat, chunks: seq<nat>, times: seq<nat>, k: nat)
    requires |times| == |chunks| && k < |chunks|
    ensures Reported(s, kind, interval, chunks[..k + 1], times[..k + 1]) ==
      Progressed(Reported(s, kind, interval, chunks[..k], times[..k]), kind, interval, chunks[k], times[k])
  {
    assert chunks[..k + 1][..k] == chunks[..k] && times[..k + 1][..k] == times[..k];
  }

  lemma StreamExtends(kind: Kind, interval: nat, total: nat, chunks: seq<nat>, times: seq<nat>, k: nat)
    requires |times| == |chunks| + 2 && k <= |chunks|
    ensures var during := times[1..|times| - 1];
      Reported(Started(total, times[0]), kind, interval, chunks[..k], during[..k]).events <=
      Stream(kind, interval, total, chunks, times).events
  {
    EarlierEventsStay(Started(total, times[0]), kind, interval, chunks, times[1..|times| - 1], k);
  }

  /** Whenever a chunk is reported more than the interval after the event before it, an event
      is sent for it, with all that has been counted; so no chunk is ever reported more than
      the interval after the latest event. */
  lemma NeverSilent(kind: Kind, interval: nat, total: nat, chunks: seq<nat>, times: seq<nat>, k: nat)
    requires |times| == |chunks| + 2 && k < |chunks| && (kind.Restoring? ==> chunks[k] > 0)
    ensures var during, s := times[1..|times| - 1], Started(total, times[0]);
      var before := Reported(s, kind, interval, chunks[..k], during[..k]).events;
      var after := Reported(s, kind, interval, chunks[..k + 1], during[..k + 1]).events;
      && before != [] && after != [] && before <= after
      && after <= Stream(kind, interval, total, chunks, times).events
      && (times[k + 1] > before[|before| - 1].time + interval ==>
            after == before + [Event(Counted(chunks[..k + 1]), total, times[k + 1], true)])
      && times[k + 1] <= after[|after| - 1].time + interval
  {
    var during, s := times[1..|times| - 1], Started(total, times[0]);
    ReportedCounts(s, kind, interval, chunks[..k], during[..k]);
    ReportedStep(s, kind, interval, chunks, during, k);
    ChunkReported(Reported(s, kind, interval, chunks[..k], during[..k]), kind, interval, chunks[k], during[k]);
    StreamExtends(kind, interval, total, chunks, times, k + 1);
    assert chunks[..k + 1][..k] == chunks[..k];
  }

  // ---- the handlers ----

  class EventHandler {
    const kind: Kind
    const interval: nat
    var total: nat
    var progress: nat
    var lastProgress: nat
    var lastTime: nat
    var events: seq<Event>

    ghost function Now(): State
      reads this
    {
      State(total, progress, lastProgress, lastTime, events)
    }

    constructor (kind: Kind, interval: nat)
      ensures Now() == State(0, 0, 0, 0, []) && this.kind == kind && this.interval == interval
    {
      this.kind, this.interval := kind, interval;
      total, progress, lastProgress, lastTime, events := 0, 0, 0, 0, [];
    }

    method OnStart(total: nat, now: nat)
      requires events == [] && progress == 0
      modifies this
      ensures Now() == Started(total, now)
    {
      this.total := total;
      lastProgress, lastTime := 0, now;
      events := [Event(0, total, now, false)];
    }

    /** Restoring panics when the total is empty, even for an empty chunk. */
    method OnProgress(len: nat, now: nat) returns (panicked: bool)
      modifies this
      ensures panicked <==> kind.Restoring? && old(total) == 0
      ensures Now() == if panicked then old(Now()) else Progressed(old(Now()), kind, interval, len, now)
    {
      if kind.Restoring? && total == 0 { return true; }
      if kind.Restoring? && len == 0 { return false; }
      progress := SaturatingAdd(progress, len);
      if now > lastTime + interval {
        lastProgress, lastTime := progress, now;
        events := events + [Event(progress, total, now, true)];
      }
      return false;
    }

    method OnFinished(now: nat)
      modifies this
      ensures Now() == Finished(old(Now()), now)
    {
      if lastProgress < total {
        lastProgress, lastTime := total, now;
        events := events + [Event(total, total, now, false)];
      }
    }

    /** Chunks as they are read or written. */
    method OnChunks(chunks: seq<nat>, times: seq<nat>) returns (panicked: bool)
      requires |times| == |chunks|
      modifies this
      ensures panicked <==> kind.Restoring? && old(total) == 0 && chunks != []
      ensures Now() == if panicked then old(Now()) else Reported(old(Now()), kind, interval, chunks, times)
    {
      for i := 0 to |chunks|
        invariant Now() == Reported(old(Now()), kind, interval, chunks[..i], times[..i]) && total == old(total)
        invariant i > 0 ==> !(kind.Restoring? && total == 0)
      {
        assert chunks[..i + 1][..i] == chunks[..i] && times[..i + 1][..i] == times[..i];
        panicked := OnProgress(chunks[i], times[i]);
        if panicked { return; }
      }
      assert chunks[..|chunks|] == chunks && times[..|times|] == times;
      return false;
    }
  }

  /** Creating a backup: the total is an estimate of the archive's size.  It ends at 100%,
      without going past it before, if the archive is no larger than that. */
  method CreateStream(handler: EventHandler, expected: nat, chunks: seq<nat>, times: seq<nat>)
    requires |times| == |chunks| + 2 && handler.kind.Creating? && handler.events == [] && handler.progress == 0
    modifies handler
    ensures handler.Now() == Stream(Creating, handler.interval, expected, chunks, times)
    ensures WellPaced(handler.events, expected, handler.interval) && handler.events != []
    ensures handler.events[0].progress == 0
    ensures Within(handler.events, expected) <==> handler.events[|handler.events| - 1].progress == expected
    ensures Counted(chunks) <= expected ==> Within(handler.events, expected)
  {
    handler.OnStart(expected, times[0]);
    var panicked := handler.OnChunks(chunks, times[1..|times| - 1]);
    handler.OnFinished(times[|times| - 1]);
    StreamPaced(Creating, handler.interval, expected, chunks, times);
  }

  /** The additional data counts for a tenth of the backup. */
  function WithAdditionalData(size: nat): (total: nat)
    requires size <= MAX_U64
    ensures size <= total <= MAX_U64
  {
    SaturatingAdd(size, size / 10)
  }

  /** All that is reported: the file's chunks, then the additional data if there is any. */
  function AllChunks(size: nat, chunks: seq<nat>, additional: bool): seq<nat> {
    chunks + if additional then [size / 10] else []
  }

  lemma FileFits(size: nat, chunks: seq<nat>, additional: bool)
    requires size <= MAX_U64 && Sum(chunks) <= size
    ensures Counted(AllChunks(size, chunks, additional)) <= WithAdditionalData(size)
  {
    var all := AllChunks(size, chunks, additional);
    if additional { assert all[..|chunks|] == chunks; } else { assert all == chunks; }
  }

  /** Restoring a backup that has been verified and extracted.  An empty file panics as soon
      as it is read, with nothing sent but the first event; otherwise, if no
      more is read than the file's size, the stream ends at 100% without going past it
      before, even where a tenth more does not fit 64 bits. */
  method RestoreStream(handler: EventHandler, size: nat, chunks: seq<nat>, additional: bool, times: seq<nat>)
    returns (panicked: bool)
    requires size <= MAX_U64 && |times| == |AllChunks(size, chunks, additional)| + 2
    requires handler.kind.Restoring? && handler.events == [] && handler.progress == 0
    modifies handler
    ensures panicked <==> size == 0 && AllChunks(size, chunks, additional) != []
    ensures panicked ==> handler.events == [Event(0, 0, times[0], false)]
    ensures !panicked ==>
      && handler.Now() == Stream(Restoring, handler.interval, WithAdditionalData(size),
          AllChunks(size, chunks, additional), times)
      && WellPaced(handler.events, WithAdditionalData(size), handler.interval)
      && handler.events != [] && handler.events[0].progress == 0
      && handler.events[0].total ==
           if size + size / 10 <= 0xFFFF_FFFF_FFFF_FFFF then size + size / 10 else 0xFFFF_FFFF_FFFF_FFFF
    ensures !panicked && Sum(chunks) <= size ==>
      && Within(handler.events, WithAdditionalData(size))
      && handler.events[|handler.events| - 1].progress == WithAdditionalData(size)
  {
    var all, total := AllChunks(size, chunks, additional), WithAdditionalData(size);
    handler.OnStart(total, times[0]);
    panicked := handler.OnChunks(all, times[1..|times| - 1]);
    if panicked { return; }
    handler.OnFinished(times[|times| - 1]);
    if Sum(chunks) <= size { FileFits(size, chunks, additional); }
    StreamPaced(Restoring, handler.interval, total, all, times);
  }
}
