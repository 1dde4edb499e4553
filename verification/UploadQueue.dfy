/** The upload queue, its tracking set, and the receives its five-second timeout abandons. */
module UploadQueue {

  /** Where the processing loop stands. `Delivered` is a receive that completed but was not looked at yet. */
  datatype Phase = Idle | Waiting | Delivered(path: string) | Processing(path: string)

  /** `abandoned` receives are still pending in the queue; each will swallow one path into `lost`.
      A path the queue would not accept (a cancelled token, a completing queue) is in `refused`. */
  datatype State = State(
    queue: seq<string>, tracked: set<string>, phase: Phase, abandoned: nat, lost: set<string>, refused: set<string>)

  const EMPTY := State([], {}, Idle, 0, {}, {})

  datatype Outcome = Uploaded | Failed | Cancelled

  datatype Event = Enqueue(path: string, accepted: bool) | StartReceive | TimeOut | TakeItem | Finish(outcome: Outcome)

  /** A posted path goes to the oldest pending receive, or into the buffer when there is none. */
  function Posted(s: State, path: string): State {
    if s.abandoned > 0 then s.(abandoned := s.abandoned - 1, lost := s.lost + {path})
    else if s.phase == Waiting then s.(phase := Delivered(path))
    else s.(queue := s.queue + [path])
  }

  /** One step; an event that is not possible in the present phase changes nothing. */
  function Step(s: State, e: Event): State {
    match e
    case Enqueue(path, accepted) =>
      if path in s.tracked then s
      else if accepted then Posted(s.(tracked := s.tracked + {path}), path)
      else s.(tracked := s.tracked + {path}, refused := s.refused + {path})
    case StartReceive =>
      if s.phase != Idle then s
      else if |s.queue| > 0 then s.(phase := Delivered(s.queue[0]), queue := s.queue[1..])
      else s.(phase := Waiting)
    case TimeOut =>
      if s.phase == Waiting then s.(phase := Idle, abandoned := s.abandoned + 1)
      else if s.phase.Delivered? then s.(phase := Idle, lost := s.lost + {s.phase.path})
      else s
    case TakeItem =>
      if s.phase.Delivered? then s.(phase := Processing(s.phase.path)) else s
    case Finish(_) =>
      if s.phase.Processing? then s.(phase := Idle, tracked := s.tracked - {s.phase.path}) else s
  }

  class UploadQueueProcessor {
    var uploadQueue: seq<string>
    var queuedFiles: set<string>
    var phase: Phase
    var pendingReceives: nat
    ghost var lost: set<string>
    ghost var refused: set<string>

    ghost function Now(): State
      reads this
    {
      State(uploadQueue, queuedFiles, phase, pendingReceives, lost, refused)
    }

    constructor ()
      ensures Now() == EMPTY
    {
      uploadQueue, queuedFiles, phase, pendingReceives := [], {}, Idle, 0;
      lost, refused := {}, {};
    }

    /** `EnqueueFileAsync` on an open queue; `accepted` is what `SendAsync` answers. */
    method EnqueueFile(path: string, accepted: bool)
      modifies this
      ensures Now() == Step(old(Now()), Enqueue(path, accepted))
    {
      if path in queuedFiles {
        return;
      }
      queuedFiles := queuedFiles + {path};
      if !accepted {
        refused := refused + {path};
      } else if pendingReceives > 0 {
        pendingReceives := pendingReceives - 1;
        lost := lost + {path};
      } else if phase == Waiting {
        phase := Delivered(path);
      } else {
        uploadQueue := uploadQueue + [path];
      }
    }

    /** `ReceiveAsync`, racing against the timeout. */
    method BeginReceive()
      requires phase == Idle
      modifies this
      ensures Now() == Step(old(Now()), StartReceive)
    {
      if |uploadQueue| > 0 {
        phase := Delivered(uploadQueue[0]);
        uploadQueue := uploadQueue[1..];
      } else {
        phase := Waiting;
      }
    }

    /** The race ends. When the timeout wins, the loop goes round and the receive stays behind. */
    method EndReceive(timeoutWins: bool)
      requires phase.Delivered? || (phase == Waiting && timeoutWins)
      modifies this
      ensures Now() == Step(old(Now()), if timeoutWins then TimeOut else TakeItem)
    {
      if !timeoutWins {
        phase := Processing(phase.path);
      } else if phase == Waiting {
        pendingReceives := pendingReceives + 1;
        phase := Idle;
      } else {
        lost := lost + {phase.path};
        phase := Idle;
      }
    }

    /** The end of an upload: all three ways out remove the path from the tracking set. */
    method FinishUpload(outcome: Outcome)
      requires phase.Processing?
      modifies this
      ensures Now() == Step(old(Now()), Finish(outcome))
    {
      queuedFiles := queuedFiles - {phase.path};
      phase := Idle;
    }
  }

  // ---- Invariant ----------------------------------------------------------------------------

  function InFlight(p: Phase): set<string> {
    match p
    case Delivered(path) => {path}
    case Processing(path) => {path}
    case _ => {}
  }

  ghost predicate NoDuplicates(s: seq<string>) {
    forall i, j :: 0 <= i < j < |s| ==> s[i] != s[j]
  }

  /** The tracking set is the disjoint union of queued, in-flight, lost and refused paths; the queue
      repeats none; and a non-empty queue has nobody waiting at it. */
  ghost predicate Inv(s: State) {
    && NoDuplicates(s.queue)
    && (forall p :: p in s.tracked <==> p in s.queue || p in InFlight(s.phase) || p in s.lost || p in s.refused)
    && (forall p :: p in s.queue ==> p !in InFlight(s.phase) && p !in s.lost && p !in s.refused)
    && (forall p :: p in InFlight(s.phase) ==> p !in s.lost && p !in s.refused)
    && s.lost !! s.refused
    && (|s.queue| > 0 ==> s.abandoned == 0 && s.phase != Waiting)
  }

  lemma {:induction false} StepKeepsInv(s: State, e: Event)
    requires Inv(s)
    ensures Inv(Step(s, e))
  {
    var s' := Step(s, e);
    if e == StartReceive && s.phase == Idle && |s.queue| > 0 {
      assert s.queue == [s.queue[0]] + s'.queue;
    }
  }

  function Run(s: State, events: seq<Event>): State
    decreases |events|
  {
    if |events| == 0 then s else Run(Step(s, events[0]), events[1..])
  }

  /** Under any interleaving of events. */
  lemma {:induction false} RunKeepsInv(s: State, events: seq<Event>)
    requires Inv(s)
    ensures Inv(Run(s, events))
    decreases |events|
  {
    if |events| > 0 {
      StepKeepsInv(s, events[0]);
      RunKeepsInv(Step(s, events[0]), events[1..]);
    }
  }

  lemma {:induction false} EveryRunKeepsInv(events: seq<Event>)
    ensures Inv(Run(EMPTY, events))
  {
    RunKeepsInv(EMPTY, events);
  }

  // ---- What becomes of a path ---------------------------------------------------------------

  /** Enqueueing tracks the path in any case: a new one is then in exactly one of the places, refused
      when the queue would not have it, and a tracked one changes nothing. */
  lemma {:induction false} EnqueueTracks(s: State, path: string, accepted: bool)
    requires Inv(s)
    ensures var s' := Step(s, Enqueue(path, accepted));
      && s'.tracked == s.tracked + {path}
      && (path in s.tracked ==> s' == s)
      && (path !in s.tracked && !accepted ==> s' == s.(tracked := s'.tracked, refused := s.refused + {path}))
      && (path !in s.tracked && accepted ==>
            && s'.refused == s.refused
            && (path in s'.queue || s'.phase == Delivered(path) || path in s'.lost))
  {
    assert path in s.tracked ==> s.tracked + {path} == s.tracked;
    assert (s.queue + [path])[|s.queue|] == path;
  }

  /** A finished path, however it finished, is untracked, and queueing it again reaches the queue
      unless an abandoned receive is waiting for it. */
  lemma {:induction false} FinishedCanBeQueuedAgain(s: State, outcome: Outcome)
    requires Inv(s) && s.phase.Processing?
    ensures var path, done := s.phase.path, Step(s, Finish(outcome));
      && path !in done.tracked
      && var again := Step(done, Enqueue(path, true));
         && path in again.tracked
         && (s.abandoned == 0 <==> again.queue == done.queue + [path])
         && (s.abandoned > 0 <==> path in again.lost)
  {
  }

  /** The two ways an event loses a path: a new one goes to an abandoned receive, or the timeout wins
      the race although the path was already delivered. */
  predicate Loses(s: State, e: Event, path: string) {
    || (e == Enqueue(path, true) && path !in s.tracked && s.abandoned > 0)
    || (e == TimeOut && s.phase == Delivered(path))
  }

  lemma {:induction false} LostGrows(s: State, events: seq<Event>)
    ensures s.lost <= Run(s, events).lost
    decreases |events|
  {
    if |events| > 0 {
      LostGrows(Step(s, events[0]), events[1..]);
    }
  }

  lemma {:induction false} RunPrefix(s: State, events: seq<Event>, i: nat)
    requires i < |events|
    ensures Run(s, events[..i + 1]) == Run(Step(s, events[0]), events[1..][..i])
  {
    var prefix := events[..i + 1];
    assert prefix[0] == events[0] && prefix[1..] == events[1..][..i];
  }

  /** Over every run from any state of the queue, a path is lost exactly when some event of the run
      lost it. */
  lemma {:induction false} LostIffSomeEventLosesIt(s: State, path: string, events: seq<Event>)
    requires Inv(s) && path !in s.lost
    ensures path in Run(s, events).lost
       <==> exists i :: 0 <= i < |events| && Loses(Run(s, events[..i]), events[i], path)
    decreases |events|
  {
    if |events| > 0 {
      var s', rest := Step(s, events[0]), events[1..];
      StepKeepsInv(s, events[0]);
      assert events[..0] == [] && Run(s, events[..0]) == s;
      forall i | 0 <= i < |rest| ensures Run(s, events[..i + 1]) == Run(s', rest[..i]) {
        RunPrefix(s, events, i);
      }
      if Loses(s, events[0], path) {
        assert Loses(Run(s, events[..0]), events[0], path);
        LostGrows(s', rest);
      } else {
        LostIffSomeEventLosesIt(s', path, rest);
        if i :| 0 <= i < |events| && Loses(Run(s, events[..i]), events[i], path) {
          assert i > 0 && events[i] == rest[i - 1];
        }
        if i :| 0 <= i < |rest| && Loses(Run(s', rest[..i]), rest[i], path) {
          assert rest[i] == events[i + 1] && Loses(Run(s, events[..i + 1]), events[i + 1], path);
        }
      }
    }
  }

  /** A lost or refused path is never processed and can never be enqueued again. */
  lemma {:induction false} LostForever(s: State, path: string, events: seq<Event>)
    requires Inv(s) && path in s.lost + s.refused
    ensures var s' := Run(s, events);
      && path in s'.lost + s'.refused && path in s'.tracked
      && path !in s'.queue && path !in InFlight(s'.phase)
      && forall accepted :: Step(s', Enqueue(path, accepted)) == s'
    decreases |events|
  {
    RunKeepsInv(s, events);
    if |events| > 0 {
      StepKeepsInv(s, events[0]);
      LostForever(Step(s, events[0]), path, events[1..]);
    }
  }

  function EnqueueAll(paths: seq<string>): (r: seq<Event>)
    ensures |r| == |paths|
  {
    if |paths| == 0 then [] else [Enqueue(paths[0], true)] + EnqueueAll(paths[1..])
  }

  /** Every abandoned wait costs one file: the next that many new files are all lost. */
  lemma {:induction false} EachTimeoutCostsOneFile(s: State, paths: seq<string>)
    requires Inv(s) && NoDuplicates(paths) && |paths| <= s.abandoned
    requires forall p :: p in paths ==> p !in s.tracked
    ensures var s' := Run(s, EnqueueAll(paths));
      s'.lost == s.lost + (set p | p in paths) && s'.abandoned == s.abandoned - |paths| && s'.queue == s.queue
    decreases |paths|
  {
    if |paths| > 0 {
      var next := Step(s, Enqueue(paths[0], true));
      StepKeepsInv(s, Enqueue(paths[0], true));
      assert paths == [paths[0]] + paths[1..];
      forall p | p in paths[1..] ensures p !in next.tracked {
        var i :| 0 <= i < |paths[1..]| && paths[1..][i] == p;
        assert paths[0] != paths[i + 1];
      }
      EachTimeoutCostsOneFile(next, paths[1..]);
    }
  }

  // ---- Order --------------------------------------------------------------------------------

  /** The path an event adds, if it adds one. */
  function Accepted(s: State, e: Event): seq<string> {
    if e.Enqueue? && e.accepted && e.path !in s.tracked then [e.path] else []
  }

  /** The path that reached some receive between two states: the loop's own, or an abandoned one. */
  function Handed(s: State, s': State, e: Event): seq<string> {
    if s'.phase.Delivered? && !s.phase.Delivered? then [s'.phase.path]
    else if e.Enqueue? && e.path in s'.lost && e.path !in s.lost then [e.path]
    else []
  }

  function AllAccepted(s: State, events: seq<Event>): seq<string>
    decreases |events|
  {
    if |events| == 0 then [] else Accepted(s, events[0]) + AllAccepted(Step(s, events[0]), events[1..])
  }

  function AllHanded(s: State, events: seq<Event>): seq<string>
    decreases |events|
  {
    if |events| == 0 then []
    else Handed(s, Step(s, events[0]), events[0]) + AllHanded(Step(s, events[0]), events[1..])
  }

  lemma {:induction false} StepKeepsOrder(s: State, e: Event)
    requires Inv(s)
    ensures s.queue + Accepted(s, e) == Handed(s, Step(s, e), e) + Step(s, e).queue
  {
  }

  /** First in, first out, over every run: what was queued before and accepted since has been handed
      to a receive in that order, and the rest is still in the queue. */
  lemma {:induction false} FirstInFirstOut(s: State, events: seq<Event>)
    requires Inv(s)
    ensures s.queue + AllAccepted(s, events) == AllHanded(s, events) + Run(s, events).queue
    decreases |events|
  {
    if |events| > 0 {
      var s', rest := Step(s, events[0]), events[1..];
      StepKeepsInv(s, events[0]);
      StepKeepsOrder(s, events[0]);
      FirstInFirstOut(s', rest);
      Chain(s.queue, Accepted(s, events[0]), AllAccepted(s', rest),
            Handed(s, s', events[0]), s'.queue, AllHanded(s', rest), Run(s', rest).queue);
    }
  }

  // ---- Which receive gets which file --------------------------------------------------------

  /** How an event ends a receive: `true` when the five seconds were over, `false` when it was taken. */
  function Ended(s: State, e: Event): seq<bool> {
    if e.TimeOut? && (s.phase == Waiting || s.phase.Delivered?) then [true]
    else if e.TakeItem? && s.phase.Delivered? then [false]
    else []
  }

  /** The path whose processing an event begins. */
  function Taken(s: State, e: Event): seq<string> {
    if e.TakeItem? && s.phase.Delivered? then [s.phase.path] else []
  }

  /** How the receives of a run ended, in the order they were started. */
  function AllEnded(s: State, events: seq<Event>): seq<bool>
    decreases |events|
  {
    if |events| == 0 then [] else Ended(s, events[0]) + AllEnded(Step(s, events[0]), events[1..])
  }

  function AllTaken(s: State, events: seq<Event>): seq<string>
    decreases |events|
  {
    if |events| == 0 then [] else Taken(s, events[0]) + AllTaken(Step(s, events[0]), events[1..])
  }

  /** How many receives a run starts. */
  function Starts(s: State, events: seq<Event>): nat
    decreases |events|
  {
    if |events| == 0 then 0
    else (if events[0] == StartReceive && s.phase == Idle then 1 else 0) + Starts(Step(s, events[0]), events[1..])
  }

  predicate Receiving(p: Phase) {
    p == Waiting || p.Delivered?
  }

  /** Every receive that was started has ended, except the one the loop is at. */
  lemma {:induction false} StartsAndEnds(s: State, events: seq<Event>)
    ensures Starts(s, events) + (if Receiving(s.phase) then 1 else 0)
         == |AllEnded(s, events)| + if Receiving(Run(s, events).phase) then 1 else 0
    decreases |events|
  {
    if |events| > 0 {
      StartsAndEnds(Step(s, events[0]), events[1..]);
    }
  }

  /** The loop goes round: a timeout always leaves it idle, an item is processed until its upload ends,
      and an idle loop can always start the next receive. */
  lemma {:induction false} LoopGoesRound(s: State, outcome: Outcome)
    ensures Receiving(s.phase) ==> Step(s, TimeOut).phase == Idle
    ensures s.phase.Delivered? ==> Step(s, TakeItem).phase == Processing(s.phase.path)
    ensures s.phase.Processing? ==> Step(s, Finish(outcome)).phase == Idle
    ensures s.phase == Idle ==> Receiving(Step(s, StartReceive).phase)
    ensures s.phase == Idle && |s.queue| > 0 ==> Step(s, StartReceive).phase == Delivered(s.queue[0])
  {
  }

  function Min(a: nat, b: nat): nat {
    if a < b then a else b
  }

  /** Of the first `n` accepted paths, those whose own receive ended this way. */
  function Chosen(accepted: seq<string>, ended: seq<bool>, n: nat, timedOut: bool): seq<string>
    requires n <= |accepted| && n <= |ended|
  {
    if n == 0 then []
    else Chosen(accepted, ended, n - 1, timedOut) + if ended[n - 1] == timedOut then [accepted[n - 1]] else []
  }

  lemma {:induction false} ChosenPrefix(
    accepted: seq<string>, ended: seq<bool>, n: nat, timedOut: bool, a: seq<string>, e: seq<bool>)
    requires n <= |accepted| && n <= |ended|
    ensures Chosen(accepted + a, ended + e, n, timedOut) == Chosen(accepted, ended, n, timedOut)
  {
    if n > 0 {
      ChosenPrefix(accepted, ended, n - 1, timedOut, a, e);
    }
  }

  lemma {:induction false} ChosenMore(accepted: seq<string>, ended: seq<bool>, n: nat, a: seq<string>, e: seq<bool>)
    requires n <= |accepted| && n <= |ended|
    ensures forall timedOut ::
      Chosen(accepted + a, ended + e, n, timedOut) == Chosen(accepted, ended, n, timedOut)
  {
    ChosenPrefix(accepted, ended, n, true, a, e);
    ChosenPrefix(accepted, ended, n, false, a, e);
  }

  /** The `k`-th accepted path belongs to the `k`-th receive. Either receives are ahead, all those
      without a path having timed out, or paths are ahead, and they are the queue. */
  ghost predicate Paired(s: State, accepted: seq<string>, ended: seq<bool>, taken: seq<string>) {
    var open := if s.phase == Waiting || s.phase.Delivered? then 1 else 0;
    var n := Min(|accepted|, |ended|);
    && (if s.abandoned > 0 || s.phase == Waiting
        then s.queue == [] && |accepted| + s.abandoned == |ended| && (s.phase == Idle || s.phase == Waiting)
        else |ended| + open <= |accepted| && s.queue == accepted[|ended| + open..])
    && (s.phase.Delivered? ==> |ended| < |accepted| && accepted[|ended|] == s.phase.path)
    && (forall i :: |accepted| <= i < |ended| ==> ended[i])
    && taken == Chosen(accepted, ended, n, false)
    && s.lost == (set p | p in Chosen(accepted, ended, n, true))
  }

  lemma {:induction false} AcceptKeepsPaired(
    s: State, path: string, accepted: seq<string>, ended: seq<bool>, taken: seq<string>)
    requires Inv(s) && Paired(s, accepted, ended, taken) && path !in s.tracked
    ensures Paired(Step(s, Enqueue(path, true)), accepted + [path], ended, taken)
  {
    var n, more := Min(|accepted|, |ended|), accepted + [path];
    ChosenMore(accepted, ended, n, [path], []);
    assert ended + [] == ended;
    assert more[|accepted|] == path;
  }

  lemma {:induction false} EndKeepsPaired(
    s: State, e: Event, accepted: seq<string>, ended: seq<bool>, taken: seq<string>)
    requires Inv(s) && Paired(s, accepted, ended, taken) && Ended(s, e) != []
    ensures Paired(Step(s, e), accepted, ended + Ended(s, e), taken + Taken(s, e))
  {
    var n, more := Min(|accepted|, |ended|), ended + Ended(s, e);
    ChosenMore(accepted, ended, n, [], Ended(s, e));
    assert accepted + [] == accepted;
    assert more[|ended|] == e.TimeOut?;
    assert more[..|ended|] == ended;
  }

  lemma {:induction false} StepKeepsPaired(
    s: State, e: Event, accepted: seq<string>, ended: seq<bool>, taken: seq<string>)
    requires Inv(s) && Paired(s, accepted, ended, taken)
    ensures Paired(Step(s, e), accepted + Accepted(s, e), ended + Ended(s, e), taken + Taken(s, e))
  {
    assert accepted + [] == accepted && ended + [] == ended && taken + [] == taken;
    if Ended(s, e) != [] {
      EndKeepsPaired(s, e, accepted, ended, taken);
    } else if e.Enqueue? && e.accepted && e.path !in s.tracked {
      AcceptKeepsPaired(s, e.path, accepted, ended, taken);
    }
  }

  lemma {:induction false} Associates<T>(a: seq<T>, b: seq<T>, c: seq<T>)
    ensures (a + b) + c == a + (b + c)
  {
  }

  lemma {:induction false} RunKeepsPaired(
    s: State, events: seq<Event>, accepted: seq<string>, ended: seq<bool>, taken: seq<string>)
    requires Inv(s) && Paired(s, accepted, ended, taken)
    ensures Paired(Run(s, events),
                   accepted + AllAccepted(s, events), ended + AllEnded(s, events), taken + AllTaken(s, events))
    decreases |events|
  {
    if |events| > 0 {
      var e, s', rest := events[0], Step(s, events[0]), events[1..];
      var a, d, t := accepted + Accepted(s, e), ended + Ended(s, e), taken + Taken(s, e);
      StepKeepsInv(s, e);
      StepKeepsPaired(s, e, accepted, ended, taken);
      assert Paired(Run(s', rest), a + AllAccepted(s', rest), d + AllEnded(s', rest), t + AllTaken(s', rest)) by {
        RunKeepsPaired(s', rest, a, d, t);
      }
      Associates(accepted, Accepted(s, e), AllAccepted(s', rest));
      Associates(ended, Ended(s, e), AllEnded(s', rest));
      Associates(taken, Taken(s, e), AllTaken(s', rest));
    } else {
      assert accepted + [] == accepted && ended + [] == ended && taken + [] == taken;
    }
  }

  /** The whole fate of every file, over every run of a new processor: the `k`-th accepted file belongs
      to the `k`-th receive, and every receive but the current one has ended. The files taken for upload
      are, in order, those whose receive was not given up after five seconds, and the files lost are
      exactly those whose receive was. */
  lemma {:induction false} EachReceiveDecides(events: seq<Event>)
    ensures var accepted, ended := AllAccepted(EMPTY, events), AllEnded(EMPTY, events);
      var n := Min(|accepted|, |ended|);
      && Starts(EMPTY, events) == |ended| + (if Receiving(Run(EMPTY, events).phase) then 1 else 0)
      && AllTaken(EMPTY, events) == Chosen(accepted, ended, n, false)
      && Run(EMPTY, events).lost == set p | p in Chosen(accepted, ended, n, true)
  {
    hide Run, AllAccepted, AllEnded, AllTaken;
    StartsAndEnds(EMPTY, events);
    RunKeepsPaired(EMPTY, events, [], [], []);
    var accepted, ended, taken := AllAccepted(EMPTY, events), AllEnded(EMPTY, events), AllTaken(EMPTY, events);
    assert [] + accepted == accepted && [] + ended == ended && [] + taken == taken;
  }

  lemma {:induction false} Chain<T>(q0: seq<T>, a0: seq<T>, a1: seq<T>, h0: seq<T>, q1: seq<T>, h1: seq<T>, q2: seq<T>)
    requires q0 + a0 == h0 + q1 && q1 + a1 == h1 + q2
    ensures q0 + (a0 + a1) == (h0 + h1) + q2
  {
    assert q0 + (a0 + a1) == (h0 + q1) + a1 == h0 + (h1 + q2);
  }
}
