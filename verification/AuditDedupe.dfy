/** The audit dedupe window: an evicting map against the full history of events. */
module AuditDedupe {

  const WINDOW := 5 * 10_000_000  // five seconds in ticks

  /** An event as the window sees it: its hash and the moment it is looked at. */
  datatype Event = Event(hash: string, now: int)

  /** An audit event's id, user and timestamp as texts; the timestamp is formatted to the second. */
  datatype AuditEvent = AuditEvent(eventId: string, username: string, timestamp: string)

  /** `GetEventHash`. */
  function EventHash(evt: AuditEvent): string {
    evt.eventId + "_" + evt.username + "_" + evt.timestamp
  }

  function Evicted(recent: map<string, int>, now: int): map<string, int> {
    map h | h in recent && now - recent[h] <= WINDOW :: recent[h]
  }

  /** The map after one event, and whether the event counts as a duplicate. */
  function Look(recent: map<string, int>, e: Event): (map<string, int>, bool) {
    var kept := Evicted(recent, e.now);
    if e.hash in kept then (kept, true) else (kept[e.hash := e.now], false)
  }

  class AuditManager {
    var recentEventHashes: map<string, int>

    constructor ()
      ensures recentEventHashes == map[]
    {
      recentEventHashes := map[];
    }

    method IsDuplicate(evt: AuditEvent, now: int) returns (duplicate: bool)
      modifies this
      ensures (recentEventHashes, duplicate) == Look(old(recentEventHashes), Event(EventHash(evt), now))
    {
      var e := Event(EventHash(evt), now);
      var expiredHashes := set h | h in recentEventHashes && e.now - recentEventHashes[h] > WINDOW;
      while expiredHashes != {}
        invariant forall h :: h in expiredHashes ==> h in recentEventHashes && e.now - recentEventHashes[h] > WINDOW
        invariant forall h :: h in recentEventHashes ==>
          h in old(recentEventHashes) && recentEventHashes[h] == old(recentEventHashes)[h]
        invariant forall h :: h in old(recentEventHashes) && h !in recentEventHashes ==>
          e.now - old(recentEventHashes)[h] > WINDOW
        invariant forall h :: h in recentEventHashes && e.now - recentEventHashes[h] > WINDOW ==> h in expiredHashes
        decreases expiredHashes
      {
        var expiredHash :| expiredHash in expiredHashes;
        recentEventHashes := map h | h in recentEventHashes && h != expiredHash :: recentEventHashes[h];
        expiredHashes := expiredHashes - {expiredHash};
      }
      assert recentEventHashes == Evicted(old(recentEventHashes), e.now);
      if e.hash in recentEventHashes {
        return true;
      }
      recentEventHashes := recentEventHashes[e.hash := e.now];
      return false;
    }
  }

  /** The map and the answers after all the events. */
  function Answers(events: seq<Event>): (r: (map<string, int>, seq<bool>))
    ensures |r.1| == |events|
  {
    if |events| == 0 then (map[], [])
    else
      var (recent, answers) := Answers(events[..|events| - 1]);
      var (recent', duplicate) := Look(recent, events[|events| - 1]);
      (recent', answers + [duplicate])
  }

  lemma {:induction false} AnswersSnoc(events: seq<Event>, e: Event)
    ensures Answers(events + [e]) == (Look(Answers(events).0, e).0, Answers(events).1 + [Look(Answers(events).0, e).1])
  {
    assert (events + [e])[..|events|] == events;
  }

  /** Event `j` has this hash and was accepted. */
  ghost predicate AcceptedAs(events: seq<Event>, answers: seq<bool>, j: int, hash: string)
    requires |answers| == |events|
  {
    0 <= j < |events| && !answers[j] && events[j].hash == hash
  }

  /** Whenever the window was looked at after event `j` and before event `n`, `j` was at most five
      seconds old. */
  ghost predicate Kept(events: seq<Event>, j: int, n: int)
    requires 0 <= j && n <= |events|
  {
    forall k :: j < k < n ==> events[k].now - events[j].now <= 50_000_000
  }

  /** The map holds, of each hash, the accepted event that was never found too old. */
  ghost predicate MapIsKeptHistory(events: seq<Event>) {
    var (recent, answers) := Answers(events);
    && (forall h :: h in recent ==>
          exists j :: AcceptedAs(events, answers, j, h) && events[j].now == recent[h] && Kept(events, j, |events|))
    && (forall j, h :: AcceptedAs(events, answers, j, h) && Kept(events, j, |events|) ==>
          h in recent && events[j].now == recent[h])
  }

  lemma {:induction false} KeptSnoc(events: seq<Event>, e: Event, j: int)
    requires 0 <= j < |events|
    ensures Kept(events + [e], j, |events| + 1) <==> Kept(events, j, |events|) && e.now - events[j].now <= 50_000_000
  {
    var all := events + [e];
    assert forall k :: 0 <= k < |events| ==> all[k] == events[k];
    if Kept(all, j, |events| + 1) {
      assert all[|events|].now - all[j].now <= 50_000_000;
      forall k | j < k < |events| ensures events[k].now - events[j].now <= 50_000_000 {
        assert all[k].now - all[j].now <= 50_000_000;
      }
    }
  }

  /** The answer to the next event, from the map and from the history. */
  lemma {:induction false} AnswerFromHistory(events: seq<Event>, e: Event)
    requires MapIsKeptHistory(events)
    ensures var (recent, answers) := Answers(events);
      Look(recent, e).1 <==>
      exists j :: AcceptedAs(events, answers, j, e.hash) && Kept(events + [e], j, |events| + 1)
  {
    var (recent, answers) := Answers(events);
    forall j | 0 <= j < |events|
      ensures Kept(events + [e], j, |events| + 1) <==> Kept(events, j, |events|) && e.now - events[j].now <= 50_000_000
    {
      KeptSnoc(events, e, j);
    }
  }

  /** What one more event does to an older one. */
  lemma {:induction false} OlderEvent(events: seq<Event>, e: Event, j: int, h: string)
    requires 0 <= j < |events|
    ensures var all := events + [e];
      && all[j] == events[j]
      && (AcceptedAs(all, Answers(all).1, j, h) <==> AcceptedAs(events, Answers(events).1, j, h))
      && (Kept(all, j, |all|) <==> Kept(events, j, |events|) && e.now - events[j].now <= 50_000_000)
  {
    AnswersSnoc(events, e);
    KeptSnoc(events, e, j);
  }

  lemma {:induction false} EntryHasEvent(events: seq<Event>, e: Event, h: string)
    requires MapIsKeptHistory(events)
    requires h in Answers(events + [e]).0
    ensures var all := events + [e];
      exists j :: AcceptedAs(all, Answers(all).1, j, h) && all[j].now == Answers(all).0[h] && Kept(all, j, |all|)
  {
    var all, n := events + [e], |events|;
    AnswersSnoc(events, e);
    if h == e.hash && !Answers(all).1[n] {
      assert AcceptedAs(all, Answers(all).1, n, h) && all[n].now == Answers(all).0[h] && Kept(all, n, |all|);
    } else {
      var (recent, answers) := Answers(events);
      var j :| AcceptedAs(events, answers, j, h) && events[j].now == recent[h] && Kept(events, j, n);
      OlderEvent(events, e, j, h);
    }
  }

  lemma {:induction false} EventHasEntry(events: seq<Event>, e: Event, j: int, h: string)
    requires MapIsKeptHistory(events)
    requires AcceptedAs(events + [e], Answers(events + [e]).1, j, h) && Kept(events + [e], j, |events| + 1)
    ensures h in Answers(events + [e]).0 && (events + [e])[j].now == Answers(events + [e]).0[h]
  {
    AnswersSnoc(events, e);
    if j < |events| {
      OlderEvent(events, e, j, h);
    }
  }

  lemma {:induction false} MapStep(events: seq<Event>, e: Event)
    requires MapIsKeptHistory(events)
    ensures MapIsKeptHistory(events + [e])
  {
    var all := events + [e];
    var (recent, answers) := Answers(all);
    forall h | h in recent
      ensures exists j :: AcceptedAs(all, answers, j, h) && all[j].now == recent[h] && Kept(all, j, |all|)
    {
      EntryHasEvent(events, e, h);
    }
    forall j, h | AcceptedAs(all, answers, j, h) && Kept(all, j, |all|) ensures h in recent && all[j].now == recent[h] {
      EventHasEntry(events, e, j, h);
    }
  }

  lemma {:induction false} MapAgrees(events: seq<Event>)
    ensures MapIsKeptHistory(events)
  {
    if |events| > 0 {
      var n := |events| - 1;
      MapAgrees(events[..n]);
      MapStep(events[..n], events[n]);
      assert events == events[..n] + [events[n]];
    }
  }

  lemma {:induction false} AnswersPrefix(events: seq<Event>, n: nat)
    requires n <= |events|
    ensures Answers(events[..n]).1 == Answers(events).1[..n]
  {
    if n < |events| {
      AnswersPrefix(events[..|events| - 1], n);
      assert events[..|events| - 1][..n] == events[..n];
    } else {
      assert events[..n] == events;
    }
  }

  lemma {:induction false} AnswerAt(events: seq<Event>, i: nat)
    requires i < |events|
    ensures Answers(events[..i]).1 == Answers(events).1[..i]
    ensures Answers(events).1[i] == Look(Answers(events[..i]).0, events[i]).1
  {
    AnswersPrefix(events, i);
    AnswersPrefix(events, i + 1);
    assert events[..i + 1][..i] == events[..i];
    assert Answers(events).1[i] == Answers(events[..i + 1]).1[i];
  }

  lemma {:induction false} KeptPrefix(a: seq<Event>, b: seq<Event>, j: nat, n: nat)
    requires j < n <= |a| && n <= |b| && a[..n] == b[..n]
    ensures Kept(a, j, n) <==> Kept(b, j, n)
  {
    forall k | 0 <= k < n ensures a[k] == b[k] {
      assert a[..n][k] == b[..n][k];
    }
  }

  /** Exactly when an event is a duplicate, under any clock: some earlier event with its hash was
      accepted and has been at most five seconds old at every look since. */
  lemma {:induction false} DuplicateIffKept(events: seq<Event>, i: nat)
    requires i < |events|
    ensures var answers := Answers(events).1;
      answers[i] <==> exists j :: 0 <= j < i && AcceptedAs(events, answers, j, events[i].hash) && Kept(events, j, i + 1)
  {
    var answers, before, e := Answers(events).1, events[..i], events[i];
    var earlier := Answers(before).1;
    AnswerAt(events, i);
    MapAgrees(before);
    AnswerFromHistory(before, e);
    assert before + [e] == events[..i + 1];
    forall j | 0 <= j < i
      ensures AcceptedAs(before, earlier, j, e.hash) <==> AcceptedAs(events, answers, j, e.hash)
      ensures Kept(before + [e], j, i + 1) <==> Kept(events, j, i + 1)
    {
      assert forall k :: 0 <= k <= i ==> (before + [e])[k] == events[k];
      KeptPrefix(before + [e], events, j, i + 1);
    }
  }

  // ---- Against the full history -------------------------------------------------------------

  /** Some event with this hash was accepted before event `i`, at most five seconds earlier. */
  ghost predicate InHistory(events: seq<Event>, i: nat)
    requires i < |events|
  {
    exists j :: 0 <= j < i && AcceptedAs(events, Answers(events).1, j, events[i].hash)
                && events[i].now - events[j].now <= 50_000_000
  }

  /** A clock that does not come back within five seconds of a moment it had left by more. */
  ghost predicate Steady(clock: seq<int>) {
    forall j, k, i :: 0 <= j < k < i < |clock| && clock[k] - clock[j] > 50_000_000 ==> clock[i] - clock[j] > 50_000_000
  }

  function ClockOf(events: seq<Event>): (r: seq<int>)
    ensures |r| == |events| && forall i :: 0 <= i < |r| ==> r[i] == events[i].now
  {
    seq(|events|, i requires 0 <= i < |events| => events[i].now)
  }

  /** When eviction is invisible for one event: the answer differs from the full history exactly when
      the history has the event, but each accepted event in it had been found too old in between. */
  lemma {:induction false} DiffersIffAllEvicted(events: seq<Event>, i: nat)
    requires i < |events|
    ensures var answers := Answers(events).1;
      (answers[i] <==> InHistory(events, i)) <==>
      !(InHistory(events, i)
        && forall j :: 0 <= j < i && AcceptedAs(events, answers, j, events[i].hash) ==> !Kept(events, j, i + 1))
  {
    DuplicateIffKept(events, i);
    var answers := Answers(events).1;
    if answers[i] {
      var j :| 0 <= j < i && AcceptedAs(events, answers, j, events[i].hash) && Kept(events, j, i + 1);
      assert events[i].now - events[j].now <= 50_000_000;
    }
  }

  /** Under a steady clock, such as one that never goes back, eviction is invisible: an event is a
      duplicate exactly when the full history has it. */
  lemma {:induction false} DuplicateIffInHistory(events: seq<Event>, i: nat)
    requires Steady(ClockOf(events)) && i < |events|
    ensures Answers(events).1[i] <==> InHistory(events, i)
  {
    DiffersIffAllEvicted(events, i);
    var answers, clock := Answers(events).1, ClockOf(events);
    if InHistory(events, i) {
      var j :| 0 <= j < i && AcceptedAs(events, answers, j, events[i].hash)
                && events[i].now - events[j].now <= 50_000_000;
      forall k | j < k < i + 1 ensures events[k].now - events[j].now <= 50_000_000 {
        assert clock[k] == events[k].now && clock[j] == events[j].now && clock[i] == events[i].now;
      }
      assert Kept(events, j, i + 1);
    }
  }

  lemma {:induction false} NonDecreasingIsSteady(clock: seq<int>)
    requires forall i, j :: 0 <= i < j < |clock| ==> clock[i] <= clock[j]
    ensures Steady(clock)
  {
  }

  /** So with a clock that never goes back, an event is a duplicate exactly when an accepted event with
      its hash happened at most five seconds earlier. */
  lemma {:induction false} DuplicateIffRecentlyAccepted(events: seq<Event>, i: nat)
    requires forall m, n :: 0 <= m < n < |events| ==> events[m].now <= events[n].now
    requires i < |events|
    ensures var answers := Answers(events).1;
      answers[i] <==> exists j :: 0 <= j < i && AcceptedAs(events, answers, j, events[i].hash)
                                  && events[i].now - events[j].now <= 50_000_000
  {
    NonDecreasingIsSteady(ClockOf(events));
    DuplicateIffInHistory(events, i);
  }

  /** Between two accepted events with one hash the first was found over five seconds old; under a
      steady clock the two are more than five seconds apart. */
  lemma {:induction false} AcceptedFarApart(events: seq<Event>, i: nat, j: nat)
    requires i < j < |events| && events[i].hash == events[j].hash
    requires !Answers(events).1[i] && !Answers(events).1[j]
    ensures exists k :: i < k <= j && events[k].now - events[i].now > 50_000_000
    ensures Steady(ClockOf(events)) ==> events[j].now - events[i].now > 50_000_000
  {
    DuplicateIffKept(events, j);
    assert AcceptedAs(events, Answers(events).1, i, events[j].hash);
    if Steady(ClockOf(events)) {
      DuplicateIffInHistory(events, j);
    }
  }

  /** Events with these hashes at these moments. */
  function Stamped(hashes: seq<string>, clock: seq<int>): (r: seq<Event>)
    requires |hashes| == |clock|
    ensures |r| == |clock| && forall i :: 0 <= i < |r| ==> r[i] == Event(hashes[i], clock[i])
  {
    seq(|clock|, i requires 0 <= i < |clock| => Event(hashes[i], clock[i]))
  }

  ghost predicate AgreesWithHistory(events: seq<Event>) {
    forall i :: 0 <= i < |events| ==> (Answers(events).1[i] <==> InHistory(events, i))
  }

  /** On an unsteady clock some events go wrong: one hash at `j` and `i`, another everywhere else. */
  lemma {:induction false} UnsteadyGoesWrong(clock: seq<int>, j: nat, k: nat, i: nat) returns (hashes: seq<string>)
    requires j < k < i < |clock| && clock[k] - clock[j] > 50_000_000 && clock[i] - clock[j] <= 50_000_000
    ensures |hashes| == |clock| && !AgreesWithHistory(Stamped(hashes, clock))
  {
    hashes := seq(|clock|, n => if n == j || n == i then "a" else "b");
    var events := Stamped(hashes, clock);
    var answers := Answers(events).1;
    DuplicateIffKept(events, j);
    assert !answers[j];
    DuplicateIffKept(events, i);
    assert !Kept(events, j, i + 1) by { assert events[k].now - events[j].now > 50_000_000; }
    assert !answers[i];
    assert AcceptedAs(events, answers, j, events[i].hash);
    assert InHistory(events, i);
  }

  /** Which clocks will do: the window agrees with the full history, for all events that may come at
      these moments, exactly when the clock is steady. */
  lemma {:induction false} AgreesIffSteady(clock: seq<int>)
    ensures Steady(clock) <==>
      forall hashes: seq<string> :: |hashes| == |clock| ==> AgreesWithHistory(Stamped(hashes, clock))
  {
    if Steady(clock) {
      forall hashes: seq<string> | |hashes| == |clock| ensures AgreesWithHistory(Stamped(hashes, clock)) {
        var events := Stamped(hashes, clock);
        assert ClockOf(events) == clock;
        forall i | 0 <= i < |events| ensures Answers(events).1[i] <==> InHistory(events, i) {
          DuplicateIffInHistory(events, i);
        }
      }
    } else {
      var j, k, i :| 0 <= j < k < i < |clock| && clock[k] - clock[j] > 50_000_000 && clock[i] - clock[j] <= 50_000_000;
      var hashes := UnsteadyGoesWrong(clock, j, k, i);
    }
  }

  /** The clock must not go back: at 10 s, then 20 s for another event, then 12 s, the repetition
      two seconds after an accepted event is accepted again. */
  lemma {:induction false} ClockGoingBackMissesDuplicate()
    ensures var events := [Event("a", 100_000_000), Event("b", 200_000_000), Event("a", 120_000_000)];
      Answers(events).1 == [false, false, false]
  {
    var a, b, c := Event("a", 100_000_000), Event("b", 200_000_000), Event("a", 120_000_000);
    AnswersSnoc([], a);
    AnswersSnoc([a], b);
    AnswersSnoc([a, b], c);
    assert [] + [a] == [a] && [a] + [b] == [a, b] && [a, b] + [c] == [a, b, c];
    assert Evicted(map[], a.now) == map[];
    assert Evicted(map["a" := a.now], b.now) == map[];
    assert "a" !in Evicted(map["b" := b.now], c.now);
  }

  // ---- Which events share a hash ------------------------------------------------------------

  predicate HasNoUnderscore(text: string) {
    forall i :: 0 <= i < |text| ==> text[i] != '_'
  }

  /** Event ids are numbers, and timestamps formatted to the second have one length. */
  predicate IsProper(evt: AuditEvent, timestampLength: nat) {
    HasNoUnderscore(evt.eventId) && |evt.timestamp| == timestampLength
  }

  /** Proper events share a hash exactly when they have the same id, user and second, whatever
      underscores the user's name contains. */
  lemma {:induction false} SameHashIffSameEvent(a: AuditEvent, b: AuditEvent, n: nat)
    requires IsProper(a, n) && IsProper(b, n)
    ensures EventHash(a) == EventHash(b) <==>
      a.eventId == b.eventId && a.username == b.username && a.timestamp == b.timestamp
  {
    if EventHash(a) == EventHash(b) {
      assert EventHash(a) == a.eventId + "_" + (a.username + "_" + a.timestamp);
      assert EventHash(b) == b.eventId + "_" + (b.username + "_" + b.timestamp);
      FirstUnderscore(a.eventId, a.username + "_" + a.timestamp, b.eventId, b.username + "_" + b.timestamp);
      LastPart(a.username + "_", a.timestamp, b.username + "_", b.timestamp);
      assert a.username == (a.username + "_")[..|a.username|] && b.username == (b.username + "_")[..|b.username|];
    }
  }

  /** The first underscore ends the first part. */
  lemma {:induction false} FirstUnderscore(a: string, s: string, b: string, t: string)
    requires HasNoUnderscore(a) && HasNoUnderscore(b)
    requires a + "_" + s == b + "_" + t
    ensures a == b && s == t
  {
    var x, y := a + "_" + s, b + "_" + t;
    assert x[|a|] == '_' && y[|b|] == '_';
    assert forall i :: 0 <= i < |a| ==> x[i] == a[i];
    assert forall i :: 0 <= i < |b| ==> y[i] == b[i];
    assert |a| == |b|;
    assert a == x[..|a|] && b == y[..|b|];
    assert s == x[|a| + 1..] && t == y[|b| + 1..];
  }

  lemma {:induction false} LastPart(a: string, s: string, b: string, t: string)
    requires a + s == b + t && |s| == |t|
    ensures a == b && s == t
  {
    assert a == (a + s)[..|a|] && b == (b + t)[..|b|];
    assert s == (a + s)[|a|..] && t == (b + t)[|b|..];
  }

  /** With an underscore in an id two different events can share a hash. */
  lemma {:induction false} UnderscoreConfuses()
    ensures var a, b := AuditEvent("1", "2_3", "20240101120000"), AuditEvent("1_2", "3", "20240101120000");
      a != b && EventHash(a) == EventHash(b) == "1_2_3_20240101120000"
  {
  }

  /** An audit event and the moment it is looked at. */
  datatype Arrival = Arrival(evt: AuditEvent, now: int)

  function Hashed(arrivals: seq<Arrival>): (r: seq<Event>)
    ensures |r| == |arrivals|
    ensures forall i :: 0 <= i < |r| ==> r[i] == Event(EventHash(arrivals[i].evt), arrivals[i].now)
  {
    seq(|arrivals|, i requires 0 <= i < |arrivals| => Event(EventHash(arrivals[i].evt), arrivals[i].now))
  }

  /** Arrival `j` was accepted before `i`, is of the same id, user and second, and at every look since,
      up to that of `i`, was at most five seconds old. */
  ghost predicate TwinKept(arrivals: seq<Arrival>, answers: seq<bool>, j: int, i: int)
    requires |answers| == |arrivals| && i < |arrivals|
  {
    && 0 <= j < i && !answers[j]
    && arrivals[j].evt.eventId == arrivals[i].evt.eventId
    && arrivals[j].evt.username == arrivals[i].evt.username
    && arrivals[j].evt.timestamp == arrivals[i].evt.timestamp
    && forall k :: j < k <= i ==> arrivals[k].now - arrivals[j].now <= 50_000_000
  }

  /** What is dropped, in terms of the events themselves: an event is a duplicate exactly when an
      accepted one with the same id, user and second was kept. */
  lemma {:induction false} DuplicateIffTwinKept(arrivals: seq<Arrival>, i: nat, n: nat)
    requires i < |arrivals| && forall k :: 0 <= k < |arrivals| ==> IsProper(arrivals[k].evt, n)
    ensures var answers := Answers(Hashed(arrivals)).1;
      answers[i] <==> exists j :: TwinKept(arrivals, answers, j, i)
  {
    var events, answers := Hashed(arrivals), Answers(Hashed(arrivals)).1;
    DuplicateIffKept(events, i);
    forall j | 0 <= j < i
      ensures AcceptedAs(events, answers, j, events[i].hash) && Kept(events, j, i + 1)
         <==> TwinKept(arrivals, answers, j, i)
    {
      SameHashIffSameEvent(arrivals[j].evt, arrivals[i].evt, n);
      assert forall k :: 0 <= k <= i ==> events[k].now == arrivals[k].now;
    }
  }
}
