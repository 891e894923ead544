/** internal/state/state.go: the reminder counters kept between tool calls. Times are
    nanosecond counts and `now` is a parameter; loading and saving the state file are
    not part of this model. */
module ReminderState {
  import opened Config

  /** time.Minute, in nanoseconds. */
  const Minute: int := 60_000_000_000

  /** The per-reminder maps of `State`. */
  datatype Counters = Counters(lastChecked: map<string, int>, taskCounts: map<string, int>)

  /** Every counter one higher; no key added or removed. */
  function Incremented(m: map<string, int>): (r: map<string, int>)
    ensures r.Keys == m.Keys
    ensures forall k :: k in m ==> r[k] == m[k] + 1
  {
    map k | k in m :: m[k] + 1
  }

  /** The tracking a reminder has once it has been looked at: an untracked one starts at
      counter 0, last checked `now`. */
  function Tracked(c: Counters, name: string, now: int): (c': Counters)
    ensures name in c'.taskCounts
    ensures name !in c.taskCounts ==> name in c'.lastChecked && c'.taskCounts[name] == 0 && c'.lastChecked[name] == now
    ensures name in c.taskCounts ==> c' == c
  {
    if name in c.taskCounts then c
    else Counters(c.lastChecked[name := now], c.taskCounts[name := 0])
  }

  /** The trigger test on tracked counters. A missing last-checked time is Go's zero
      time, so long ago that any positive interval has passed. */
  predicate Due(c: Counters, r: ReminderConfig, now: int)
    requires r.name in c.taskCounts
  {
    (r.everyTasks > 0 && c.taskCounts[r.name] >= r.everyTasks)
    || (r.everyMinutes > 0 && (r.name !in c.lastChecked || now - c.lastChecked[r.name] >= r.everyMinutes * Minute))
  }

  /** One reminder: track it, test it, and reset it when it triggers. */
  function Step(c: Counters, r: ReminderConfig, now: int): (res: (Counters, bool))
  {
    var t := Tracked(c, r.name, now);
    if Due(t, r, now) then (Counters(t.lastChecked[r.name := now], t.taskCounts[r.name := 0]), true)
    else (t, false)
  }

  /** The reminders in order: the counters afterwards and the triggered messages. */
  function Run(c: Counters, rs: seq<ReminderConfig>, now: int): (res: (Counters, seq<string>))
    ensures |res.1| <= |rs|
  {
    if |rs| == 0 then (c, [])
    else
      var (c1, ms) := Run(c, rs[..|rs| - 1], now);
      var r := rs[|rs| - 1];
      var (c2, fired) := Step(c1, r, now);
      (c2, if fired then ms + [r.message] else ms)
  }

  /** The reminder manager: the fields of the `State` it owns. */
  class Manager {
    var taskCount: int
    var lastChecked: map<string, int>
    var taskCounts: map<string, int>

    constructor ()
      ensures taskCount == 0 && lastChecked == map[] && taskCounts == map[]
    {
      taskCount := 0;
      lastChecked := map[];
      taskCounts := map[];
    }

    function Snapshot(): Counters
      reads this
    {
      Counters(lastChecked, taskCounts)
    }

    /** IncrementTaskCount: the global counter and every existing per-reminder counter
        go up by one. */
    method IncrementTaskCount()
      modifies this
      ensures taskCount == old(taskCount) + 1
      ensures taskCounts == Incremented(old(taskCounts))
      ensures lastChecked == old(lastChecked)
    {
      taskCount := taskCount + 1;
      var todo := taskCounts.Keys;
      while todo != {}
        invariant todo <= taskCounts.Keys
        invariant taskCounts.Keys == old(taskCounts).Keys
        invariant forall k :: k in taskCounts ==> taskCounts[k] == old(taskCounts)[k] + (if k in todo then 0 else 1)
        invariant taskCount == old(taskCount) + 1 && lastChecked == old(lastChecked)
        decreases todo
      {
        var name :| name in todo;
        taskCounts := taskCounts[name := taskCounts[name] + 1];
        todo := todo - {name};
      }
    }

    /** CheckReminders: each reminder in order, tracking new ones and resetting those
        that trigger; the messages of the triggered ones are returned. */
    method CheckReminders(reminders: seq<ReminderConfig>, now: int) returns (triggered: seq<string>)
      modifies this
      ensures Snapshot() == Run(old(Snapshot()), reminders, now).0
      ensures triggered == Run(old(Snapshot()), reminders, now).1
      ensures taskCount == old(taskCount)
    {
      triggered := [];
      var i := 0;
      while i < |reminders|
        invariant 0 <= i <= |reminders|
        invariant (Snapshot(), triggered) == Run(old(Snapshot()), reminders[..i], now)
        invariant taskCount == old(taskCount)
      {
        var r := reminders[i];
        ghost var before := Snapshot();
        RunStep(old(Snapshot()), reminders, i, now);
        if r.name !in taskCounts {
          taskCounts := taskCounts[r.name := 0];
          lastChecked := lastChecked[r.name := now];
        }
        assert Snapshot() == Tracked(before, r.name, now);
        var shouldTrigger := false;
        if r.everyTasks > 0 && taskCounts[r.name] >= r.everyTasks {
          shouldTrigger := true;
        }
        if r.everyMinutes > 0 {
          if r.name !in lastChecked || now - lastChecked[r.name] >= r.everyMinutes * Minute {
            shouldTrigger := true;
          }
        }
        assert shouldTrigger == Due(Snapshot(), r, now);
        if shouldTrigger {
          triggered := triggered + [r.message];
          taskCounts := taskCounts[r.name := 0];
          lastChecked := lastChecked[r.name := now];
        }
        assert (Snapshot(), shouldTrigger) == Step(before, r, now);
        i := i + 1;
      }
      assert reminders[..i] == reminders;
    }
  }

  /** Run over one more reminder is one more Step. */
  lemma RunStep(c: Counters, rs: seq<ReminderConfig>, i: int, now: int)
    requires 0 <= i < |rs|
    ensures var (c1, ms) := Run(c, rs[..i], now);
      var (c2, fired) := Step(c1, rs[i], now);
      Run(c, rs[..i + 1], now) == (c2, if fired then ms + [rs[i].message] else ms)
  {
    assert rs[..i + 1][..i] == rs[..i];
  }

  /** A reminder seen for the first time cannot trigger on that call. */
  lemma UntrackedNeverTriggers(c: Counters, r: ReminderConfig, now: int)
    requires r.name !in c.taskCounts
    ensures !Step(c, r, now).1
    ensures Step(c, r, now).0.taskCounts[r.name] == 0 && Step(c, r, now).0.lastChecked[r.name] == now
  {
    var t := Tracked(c, r.name, now);
    assert t.lastChecked[r.name] == now;
  }

  /** A tracked reminder triggers exactly when its task count or its interval is due. */
  lemma TrackedTriggersIff(c: Counters, r: ReminderConfig, now: int)
    requires r.name in c.taskCounts && r.name in c.lastChecked
    ensures Step(c, r, now).1 <==>
      (r.everyTasks > 0 && c.taskCounts[r.name] >= r.everyTasks)
      || (r.everyMinutes > 0 && now - c.lastChecked[r.name] >= r.everyMinutes * Minute)
  {
  }

  /** A triggered reminder is reset; one that does not trigger leaves tracked counters
      as they were; other reminders' entries never change. */
  lemma StepEffect(c: Counters, r: ReminderConfig, now: int, other: string)
    requires other != r.name
    ensures Step(c, r, now).1 ==>
      Step(c, r, now).0.taskCounts[r.name] == 0 && Step(c, r, now).0.lastChecked[r.name] == now
    ensures r.name in c.taskCounts && !Step(c, r, now).1 ==> Step(c, r, now).0 == c
    ensures (other in Step(c, r, now).0.taskCounts <==> other in c.taskCounts)
    ensures other in c.taskCounts ==> Step(c, r, now).0.taskCounts[other] == c.taskCounts[other]
    ensures (other in Step(c, r, now).0.lastChecked <==> other in c.lastChecked)
    ensures other in c.lastChecked ==> Step(c, r, now).0.lastChecked[other] == c.lastChecked[other]
  {
  }

  /** The messages are those of the reminders that trigger, one each, in order: adding a
      reminder at the end adds its message at the end exactly when it triggers. */
  lemma RunAppend(c: Counters, rs: seq<ReminderConfig>, r: ReminderConfig, now: int)
    ensures var (c1, ms) := Run(c, rs, now);
      Run(c, rs + [r], now).1 == (if Step(c1, r, now).1 then ms + [r.message] else ms)
  {
    assert (rs + [r])[..|rs|] == rs;
  }

  /** Every message returned is the message of one of the reminders. */
  lemma {:induction false} MessagesFromReminders(c: Counters, rs: seq<ReminderConfig>, now: int)
    ensures forall i :: 0 <= i < |Run(c, rs, now).1| ==>
      exists j :: 0 <= j < |rs| && Run(c, rs, now).1[i] == rs[j].message
    decreases |rs|
  {
    if |rs| > 0 {
      var init := rs[..|rs| - 1];
      var last := rs[|rs| - 1];
      MessagesFromReminders(c, init, now);
      assert forall j :: 0 <= j < |init| ==> init[j] == rs[j];
      var ms := Run(c, init, now).1;
      var fired := Step(Run(c, init, now).0, last, now).1;
      assert Run(c, rs, now).1 == if fired then ms + [last.message] else ms;
      forall i | 0 <= i < |Run(c, rs, now).1|
        ensures exists j :: 0 <= j < |rs| && Run(c, rs, now).1[i] == rs[j].message
      {
        if i < |ms| {
          var j :| 0 <= j < |init| && ms[i] == init[j].message;
          assert Run(c, rs, now).1[i] == rs[j].message;
        } else {
          assert Run(c, rs, now).1[i] == rs[|rs| - 1].message;
        }
      }
    } else {
      assert Run(c, rs, now).1 == [];
    }
  }

  /** Counting tasks adds no new reminder to the tracking maps. */
  lemma IncrementAddsNoKeys(m: map<string, int>, name: string)
    requires name !in m
    ensures name !in Incremented(m)
  {
  }
}
