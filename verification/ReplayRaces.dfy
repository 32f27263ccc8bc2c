/** The replay cache shared by the threads of the broker without a lock (auth/replay.py, broker/helper.py): looking an
    identifier up and recording it are two steps. Expiry is the subject of `Replay` and does not matter here. */
module ReplayRaces {
  /** Where a thread stands with the identifier it presents. */
  datatype Pc = Arrived | Passed | Refused | Recorded

  datatype Thread = Thread(id: string, pc: Pc)

  datatype System = System(seen: set<string>, threads: map<nat, Thread>)

  const INITIAL := System({}, map[])

  datatype Event = Arrive(thread: nat, id: string) | Proceed(thread: nat)

  predicate Enabled(s: System, e: Event) {
    match e
    case Arrive(t, _) => t !in s.threads
    case Proceed(t) => t in s.threads
  }

  /** One step: a request arrives, its identifier is looked up, or it is recorded. */
  function Apply(s: System, e: Event): System
    requires Enabled(s, e)
  {
    match e
    case Arrive(t, id) => s.(threads := s.threads[t := Thread(id, Arrived)])
    case Proceed(t) =>
      var Thread(id, pc) := s.threads[t];
      match pc
      case Arrived => s.(threads := s.threads[t := Thread(id, if id in s.seen then Refused else Passed)])
      case Passed => System(s.seen + {id}, s.threads[t := Thread(id, Recorded)])
      case _ => s
  }

  predicate Legal(s: System, events: seq<Event>)
    decreases |events|
  {
    events == [] || (Enabled(s, events[0]) && Legal(Apply(s, events[0]), events[1..]))
  }

  function After(s: System, events: seq<Event>): System
    requires Legal(s, events)
    decreases |events|
  {
    if events == [] then s else After(Apply(s, events[0]), events[1..])
  }

  predicate Both(s: System, pc: Pc, t: nat, u: nat) {
    t != u && t in s.threads && u in s.threads && s.threads[t].pc == s.threads[u].pc == pc && s.threads[t].id == s.threads[u].id
  }

  /** Two threads have looked one identifier up and neither has recorded it. */
  ghost predicate Raced(s: System) {
    exists t, u :: Both(s, Passed, t, u)
  }

  /** One identifier has been accepted twice. */
  ghost predicate Twice(s: System) {
    exists t, u :: Both(s, Recorded, t, u)
  }

  /** Somewhere in the run two threads race. */
  ghost predicate Races(s: System, events: seq<Event>)
    requires Legal(s, events)
    decreases |events|
  {
    Raced(s) || (events != [] && Races(Apply(s, events[0]), events[1..]))
  }

  predicate Finished(s: System) {
    forall t :: t in s.threads ==> s.threads[t].pc.Refused? || s.threads[t].pc.Recorded?
  }

  /** What holds as long as nobody races. */
  ghost predicate Inv(s: System) {
    && (forall t :: t in s.threads && s.threads[t].pc.Passed? ==> s.threads[t].id !in s.seen)
    && (forall t :: t in s.threads && s.threads[t].pc.Recorded? ==> s.threads[t].id in s.seen)
    && !Twice(s)
  }

  lemma StepKeepsInv(s: System, e: Event)
    requires Inv(s) && !Raced(s) && Enabled(s, e)
    ensures Inv(Apply(s, e))
  {
    var s' := Apply(s, e);
    forall t | t in s'.threads && s'.threads[t].pc.Passed? ensures s'.threads[t].id !in s'.seen {
      if e.Proceed? && t in s.threads && s.threads[t].pc.Passed? && s.threads[e.thread].pc.Passed? {
        assert !Both(s, Passed, t, e.thread);
      }
    }
    forall t, u ensures !Both(s', Recorded, t, u) {
      assert !Both(s, Recorded, t, u);
    }
  }

  lemma {:induction false} NoRaceKeepsInv(s: System, events: seq<Event>)
    requires Inv(s) && Legal(s, events) && !Races(s, events)
    ensures Inv(After(s, events))
    decreases |events|
  {
    if events != [] {
      StepKeepsInv(s, events[0]);
      NoRaceKeepsInv(Apply(s, events[0]), events[1..]);
    }
  }

  /** A thread that has looked its identifier up will record it. */
  lemma {:induction false} PassedIsRecorded(s: System, events: seq<Event>, t: nat)
    requires Legal(s, events) && Finished(After(s, events))
    requires t in s.threads && (s.threads[t].pc.Passed? || s.threads[t].pc.Recorded?)
    ensures t in After(s, events).threads && After(s, events).threads[t] == Thread(s.threads[t].id, Recorded)
    decreases |events|
  {
    if events != [] {
      PassedIsRecorded(Apply(s, events[0]), events[1..], t);
    }
  }

  lemma {:induction false} RaceAcceptsTwice(s: System, events: seq<Event>)
    requires Legal(s, events) && Races(s, events) && Finished(After(s, events))
    ensures Twice(After(s, events))
    decreases |events|
  {
    if Raced(s) {
      var t, u :| Both(s, Passed, t, u);
      PassedIsRecorded(s, events, t);
      PassedIsRecorded(s, events, u);
      assert Both(After(s, events), Recorded, t, u);
    } else {
      RaceAcceptsTwice(Apply(s, events[0]), events[1..]);
    }
  }

  /** When all threads are done, an identifier has been accepted twice if and only if at some moment two threads had
      both looked it up and neither had recorded it. */
  lemma AcceptedTwiceIffRaced(events: seq<Event>)
    requires Legal(INITIAL, events) && Finished(After(INITIAL, events))
    ensures Twice(After(INITIAL, events)) <==> Races(INITIAL, events)
  {
    if Races(INITIAL, events) {
      RaceAcceptsTwice(INITIAL, events);
    } else {
      NoRaceKeepsInv(INITIAL, events);
    }
  }

  /** And two threads can race on any identifier. */
  lemma TwoThreadsRace(id: string) returns (events: seq<Event>)
    ensures Legal(INITIAL, events) && Finished(After(INITIAL, events)) && Twice(After(INITIAL, events))
  {
    var e0, e1, look, look', keep, keep' := Arrive(0, id), Arrive(1, id), Proceed(0), Proceed(1), Proceed(0), Proceed(1);
    var s2 := Apply(Apply(INITIAL, e0), e1);
    var s4 := Apply(Apply(s2, look), look');
    assert s4 == System({}, map[0 := Thread(id, Passed), 1 := Thread(id, Passed)]);
    var s5 := Apply(s4, keep);
    var s6 := Apply(s5, keep');
    assert s6.threads == map[0 := Thread(id, Recorded), 1 := Thread(id, Recorded)];
    assert Both(s6, Recorded, 0, 1);
    assert Legal(s6, []) && After(s6, []) == s6;
    Prepend(s5, keep', []);
    Prepend(s4, keep, [keep']);
    Prepend(Apply(s2, look), look', [keep, keep']);
    Prepend(s2, look, [look', keep, keep']);
    Prepend(Apply(INITIAL, e0), e1, [look, look', keep, keep']);
    Prepend(INITIAL, e0, [e1, look, look', keep, keep']);
    events := [e0, e1, look, look', keep, keep'];
  }

  lemma Prepend(s: System, e: Event, rest: seq<Event>)
    requires Enabled(s, e) && Legal(Apply(s, e), rest)
    ensures Legal(s, [e] + rest) && After(s, [e] + rest) == After(Apply(s, e), rest)
  {
    assert ([e] + rest)[1..] == rest;
  }
}
