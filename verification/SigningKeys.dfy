/** Generating the composefs signing key pair, by any number of build tasks. */
module SigningKeys {
  import opened Options

  /** A secret key file holds the seed and the public key that belongs to it. */
  datatype Secret = Secret(seed: string, pub: string)
  datatype Keys = Keys(sec: Option<Secret>, pub: Option<string>) {
    predicate Both() {
      sec.Some? && pub.Some?
    }

    /** Whenever there are two files, they belong together. */
    predicate Paired() {
      Both() ==> pub.value == sec.value.pub
    }

    predicate Consistent() {
      pub.Some? ==> sec.Some? && pub.value == sec.value.pub
    }
  }

  /** The public key of a seed. */
  type Derive = string -> string

  function Generated(derive: Derive, seed: string): Keys {
    Keys(Some(Secret(seed, derive(seed))), Some(derive(seed)))
  }

  datatype Conf = Conf(keydir: string, keyname: string, generate: string) {
    predicate Complete() {
      keydir != "" && keyname != "" && generate != ""
    }
  }

  class KeyFiles {
    var sec: Option<Secret>
    var pub: Option<string>
    ghost var trace: seq<Keys>

    constructor (sec: Option<Secret>, pub: Option<string>)
      ensures this.sec == sec && this.pub == pub && trace == []
    {
      this.sec, this.pub, trace := sec, pub, [];
    }

    function Now(): Keys
      reads this
    {
      Keys(sec, pub)
    }

    /** `gen_cfs_keys0`: the secret file first. */
    method GenCfsKeys0(derive: Derive, seed: string)
      modifies this
      ensures Now() == Generated(derive, seed)
      ensures trace == old(trace) + [Keys(Some(Secret(seed, derive(seed))), old(pub)), Now()]
    {
      var public := derive(seed);
      sec := Some(Secret(seed, public));
      trace := trace + [Now()];
      pub := Some(public);
      trace := trace + [Now()];
    }

    /** `gen_cfs_keys`; false is `bbfatal`. */
    method GenCfsKeys(conf: Conf, derive: Derive, seed: string) returns (ok: bool)
      modifies this
      ensures ok <==>
              && conf.keydir != "" && conf.keyname != "" && conf.generate != ""
              && (conf.generate == "1" || old(sec).Some?)
      ensures Now() == if ok && conf.generate == "1" && !old(Now()).Both() then Generated(derive, seed) else old(Now())
      ensures ok && conf.generate == "1" && (old(sec).None? || old(pub).None?) ==>
                sec == Some(Secret(seed, derive(seed))) && pub == Some(derive(seed))
      ensures !ok || conf.generate != "1" || (old(sec).Some? && old(pub).Some?) ==> sec == old(sec) && pub == old(pub)
      ensures Now() != old(Now()) ==>
                trace == old(trace) + [Step(derive, OneTask(old(Now()), Decided(seed)), WriteSec(0)).keys, Now()]
      ensures ok && conf.generate == "1" ==>
                Now() == Run(derive, OneTask(old(Now()), Idle), [Begin(0, seed), WriteSec(0), WritePub(0)]).keys
    {
      if !conf.Complete() { return false; }
      OneTaskRun(derive, Now(), seed);
      if conf.generate == "1" {
        if pub.None? || sec.None? {
          GenCfsKeys0(derive, seed);
        }
      }
      ok := sec.Some?;
    }
  }

  // ----- Many tasks at once -----

  /** Where a task stands in generating: not at all, decided to, or between the two files. */
  datatype Phase = Idle | Decided(seed: string) | SecWritten(seed: string)

  /** A task and its lock file, the one in the deploy directory it uses. */
  datatype Task = Task(lock: string, phase: Phase)

  datatype Builds = Builds(keys: Keys, tasks: seq<Task>) {
    predicate Quiet() {
      forall i :: 0 <= i < |tasks| ==> tasks[i].phase.Idle?
    }

    predicate Free(lock: string) {
      forall i :: 0 <= i < |tasks| && tasks[i].lock == lock ==> tasks[i].phase.Idle?
    }

    predicate OneLock() {
      forall i, j :: 0 <= i < j < |tasks| ==> tasks[i].lock == tasks[j].lock
    }

    function Become(i: nat, phase: Phase): Builds
      requires i < |tasks|
    {
      Builds(keys, tasks[i := tasks[i].(phase := phase)])
    }
  }

  /** A task looks whether both files exist, writes one, writes the other, or is killed. */
  datatype Event =
    | Begin(task: nat, seed: string)
    | WriteSec(task: nat)
    | WritePub(task: nat)
    | Killed(task: nat)

  function OneTask(keys: Keys, phase: Phase): Builds {
    Builds(keys, [Task("", phase)])
  }

  /** One step; an event that cannot happen changes nothing.  A task begins only when no other holds its lock. */
  function Step(derive: Derive, s: Builds, e: Event): Builds {
    if e.task >= |s.tasks| then s
    else
      var t := s.tasks[e.task].phase;
      match e
      case Begin(i, seed) =>
        if t.Idle? && s.Free(s.tasks[i].lock) && !s.keys.Both() then s.Become(i, Decided(seed)) else s
      case WriteSec(i) =>
        if t.Decided? then
          s.(keys := s.keys.(sec := Some(Secret(t.seed, derive(t.seed))))).Become(i, SecWritten(t.seed))
        else s
      case WritePub(i) =>
        if t.SecWritten? then s.(keys := s.keys.(pub := Some(derive(t.seed)))).Become(i, Idle) else s
      case Killed(i) =>
        s.Become(i, Idle)
  }

  function Run(derive: Derive, s: Builds, events: seq<Event>): Builds
    decreases |events|
  {
    if events == [] then s
    else Run(derive, Step(derive, s, events[0]), events[1..])
  }

  lemma RunFrom(derive: Derive, s: Builds, e: Event, events: seq<Event>)
    ensures Run(derive, s, [e] + events) == Run(derive, Step(derive, s, e), events)
  {
    assert ([e] + events)[1..] == events;
  }

  /** A task that nothing interrupts, as steps. */
  lemma OneTaskRun(derive: Derive, keys: Keys, seed: string)
    ensures Run(derive, OneTask(keys, Idle), [Begin(0, seed), WriteSec(0), WritePub(0)]).keys
         == if keys.Both() then keys else Generated(derive, seed)
  {
    var s0 := OneTask(keys, Idle);
    var s1 := Step(derive, s0, Begin(0, seed));
    var s2 := Step(derive, s1, WriteSec(0));
    var s3 := Step(derive, s2, WritePub(0));
    RunFrom(derive, s0, Begin(0, seed), [WriteSec(0), WritePub(0)]);
    RunFrom(derive, s1, WriteSec(0), [WritePub(0)]);
    RunFrom(derive, s2, WritePub(0), []);
    assert [Begin(0, seed)] + [WriteSec(0), WritePub(0)] == [Begin(0, seed), WriteSec(0), WritePub(0)];
    assert [WriteSec(0)] + [WritePub(0)] == [WriteSec(0), WritePub(0)] && [WritePub(0)] + [] == [WritePub(0)];
  }

  // ----- One lock -----

  /** At most one task is under way; meanwhile there is no public key. */
  ghost predicate Safe(derive: Derive, s: Builds) {
    && s.keys.Consistent() && s.OneLock()
    && (forall i, j :: 0 <= i < j < |s.tasks| ==> s.tasks[i].phase.Idle? || s.tasks[j].phase.Idle?)
    && (forall i :: 0 <= i < |s.tasks| && !s.tasks[i].phase.Idle? ==> s.keys.pub.None?)
    && (forall i :: 0 <= i < |s.tasks| && s.tasks[i].phase.SecWritten? ==>
          s.keys.sec == Some(Secret(s.tasks[i].phase.seed, derive(s.tasks[i].phase.seed))))
  }

  lemma StepKeepsSafe(derive: Derive, s: Builds, e: Event)
    requires Safe(derive, s)
    ensures Safe(derive, Step(derive, s, e))
    ensures s.keys.Both() ==> Step(derive, s, e).keys == s.keys
  {
  }

  /**
    Where all tasks share one lock, over every interleaving of tasks, interrupted or not: a
    public key file always belongs to the secret one, and once both exist neither changes again.
   */
  lemma {:induction false} KeysStayPaired(derive: Derive, s: Builds, events: seq<Event>)
    requires Safe(derive, s)
    ensures Safe(derive, Run(derive, s, events))
    ensures s.keys.Both() ==> Run(derive, s, events).keys == s.keys
    decreases |events|
  {
    if events != [] {
      StepKeepsSafe(derive, s, events[0]);
      KeysStayPaired(derive, Step(derive, s, events[0]), events[1..]);
    }
  }

  // ----- Any locks -----

  /** Complete files found by tasks that all are at rest stay as they are, whatever the locks. */
  lemma {:induction false} CompleteStays(derive: Derive, s: Builds, events: seq<Event>)
    requires s.Quiet() && s.keys.Both()
    ensures Run(derive, s, events) == s
    decreases |events|
  {
    if events != [] {
      assert Step(derive, s, events[0]) == s;
      CompleteStays(derive, s, events[1..]);
    }
  }

  /** The secret key one task finds complete and the public key another finds later are one pair. */
  lemma TasksShareThePair(derive: Derive, s: Builds, before: seq<Event>, between: seq<Event>)
    requires s.Quiet() && s.keys.Consistent() && (s.keys.Both() || s.OneLock())
    requires Run(derive, s, before).keys.Both()
    ensures var signer := Run(derive, s, before);
            var installer := Run(derive, signer, between);
            installer.keys.Both() && installer.keys.pub.value == signer.keys.sec.value.pub
  {
    if s.keys.Both() {
      CompleteStays(derive, s, before);
      CompleteStays(derive, s, between);
    } else {
      KeysStayPaired(derive, s, before);
      KeysStayPaired(derive, Run(derive, s, before), between);
    }
  }

  /** A public key alone is joined by another pair's secret key, and a task killed there leaves them so. */
  lemma LonePublicKeyMixes(derive: Derive, s: Builds, seed: string) returns (events: seq<Event>)
    requires s.Quiet() && s.tasks != [] && s.keys.pub.Some? && s.keys.sec.None? && derive(seed) != s.keys.pub.value
    ensures !Run(derive, s, events).keys.Paired() && Run(derive, s, events).Quiet()
  {
    events := [Begin(0, seed)] + ([WriteSec(0)] + ([Killed(0)] + []));
    var s1 := Step(derive, s, Begin(0, seed));
    var s2 := Step(derive, s1, WriteSec(0));
    RunFrom(derive, s, Begin(0, seed), [WriteSec(0)] + ([Killed(0)] + []));
    RunFrom(derive, s1, WriteSec(0), [Killed(0)] + []);
    RunFrom(derive, s2, Killed(0), []);
  }

  /** Without a public key, two tasks under different locks can leave the files of different pairs. */
  lemma DifferentLocksMix(derive: Derive, s: Builds, i: nat, j: nat, a: string, b: string) returns (events: seq<Event>)
    requires s.Quiet() && s.keys.pub.None? && i < |s.tasks| && j < |s.tasks| && s.tasks[i].lock != s.tasks[j].lock
    requires derive(a) != derive(b)
    ensures !Run(derive, s, events).keys.Paired() && Run(derive, s, events).Quiet()
  {
    var last := [WritePub(i)] + ([Killed(j)] + []);
    events := [Begin(i, a)] + ([Begin(j, b)] + ([WriteSec(i)] + ([WriteSec(j)] + last)));
    var s1 := Step(derive, s, Begin(i, a));
    var s2 := Step(derive, s1, Begin(j, b));
    var s3 := Step(derive, s2, WriteSec(i));
    var s4 := Step(derive, s3, WriteSec(j));
    var s5 := Step(derive, s4, WritePub(i));
    RunFrom(derive, s, Begin(i, a), [Begin(j, b)] + ([WriteSec(i)] + ([WriteSec(j)] + last)));
    RunFrom(derive, s1, Begin(j, b), [WriteSec(i)] + ([WriteSec(j)] + last));
    RunFrom(derive, s2, WriteSec(i), [WriteSec(j)] + last);
    RunFrom(derive, s3, WriteSec(j), last);
    RunFrom(derive, s4, WritePub(i), [Killed(j)] + []);
    RunFrom(derive, s5, Killed(j), []);
    assert s5.keys == Keys(Some(Secret(b, derive(b))), Some(derive(a)));
  }

  /**
    No run of any tasks ends with two files that do not belong together exactly when the files
    found at the start are consistent, and are complete or all tasks share one lock.  The pairs
    that do not belong together are left with every task at rest, so no later task repairs them.
   */
  lemma PairedForeverIff(derive: Derive, s: Builds, a: string, b: string)
    requires s.Quiet() && s.tasks != []
    requires derive(a) != derive(b)
    ensures (forall events :: Run(derive, s, events).keys.Paired()) <==>
            s.keys.Consistent() && (s.keys.Both() || s.OneLock())
  {
    if s.keys.Consistent() && (s.keys.Both() || s.OneLock()) {
      forall events ensures Run(derive, s, events).keys.Paired() {
        if s.keys.Both() {
          CompleteStays(derive, s, events);
        } else {
          KeysStayPaired(derive, s, events);
        }
      }
    } else if s.keys.Both() {
      assert Run(derive, s, []) == s;
    } else if s.keys.pub.Some? {
      var events := LonePublicKeyMixes(derive, s, if derive(a) != s.keys.pub.value then a else b);
    } else {
      var i, j :| 0 <= i < j < |s.tasks| && s.tasks[i].lock != s.tasks[j].lock;
      var events := DifferentLocksMix(derive, s, i, j, a, b);
    }
  }

  /** Once mixed, and every task at rest, the files stay mixed through every later run. */
  lemma MixedStaysMixed(derive: Derive, s: Builds, events: seq<Event>)
    requires s.Quiet() && !s.keys.Paired()
    ensures !Run(derive, s, events).keys.Paired()
  {
    CompleteStays(derive, s, events);
  }
}
