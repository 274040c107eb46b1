/**
  Build machines that publish to one shared, versioned target list: each pulls, adds
  its target, signs and pushes, and starts over when the push is refused.
 */
module TargetPush {
  import opened Distinctness

  type Targets = map<string, string>

  /** Where a builder stands in one round; `Stopped` is a task that any other failing command ended. */
  datatype Phase =
    | Ready
    | Pulled(version: nat, local: Targets)
    | Signed(version: nat, local: Targets)
    | Done
    | Fatal
    | Stopped

  /** A builder publishes the hash `hash` under `name`, the target's name and version. */
  datatype Builder = Builder(name: string, hash: string, refusals: nat, phase: Phase)

  /** The server's list and version, the builders, and which of them were accepted, in order. */
  datatype System = System(version: nat, targets: Targets, builders: seq<Builder>, accepted: seq<nat>)

  datatype Event = Pull(i: nat) | Sign(i: nat) | Push(i: nat) | Stop(i: nat)

  function Become(s: System, i: nat, p: Phase): System
    requires i < |s.builders|
  {
    s.(builders := s.builders[i := s.builders[i].(phase := p)])
  }

  /** One command of one builder; a command that is not its next one has no effect. */
  function Step(s: System, e: Event, retries: nat): System {
    if e.i >= |s.builders| then s
    else
      var b := s.builders[e.i];
      match e
      case Pull(i) => if b.phase.Ready? then Become(s, i, Pulled(s.version, s.targets)) else s
      case Sign(i) =>
        if b.phase.Pulled? then Become(s, i, Signed(b.phase.version, b.phase.local[b.name := b.hash])) else s
      case Push(i) =>
        if !b.phase.Signed? then s
        else if b.phase.version == s.version then
          Become(s, i, Done).(version := s.version + 1, targets := b.phase.local, accepted := s.accepted + [i])
        else
          s.(builders := s.builders[i :=
            b.(refusals := b.refusals + 1, phase := if b.refusals + 1 == retries then Fatal else Ready)])
      case Stop(i) => if b.phase.Done? || b.phase.Fatal? then s else Become(s, i, Stopped)
  }

  function Run(s: System, es: seq<Event>, retries: nat): System {
    if es == [] then s else Step(Run(s, es[..|es| - 1], retries), es[|es| - 1], retries)
  }

  /** No push attempted yet; with no retries at all the loop never runs and the build fails at once. */
  predicate Initial(s: System, retries: nat) {
    && s.accepted == []
    && forall b :: b in s.builders ==> b.refusals == 0 && b.phase == if retries == 0 then Fatal else Ready
  }

  // ----- What every interleaving keeps -----

  /** The list after the accepted builders added their targets one after the other. */
  function Publish(t: Targets, bs: seq<Builder>, accepted: seq<nat>): Targets {
    if accepted == [] then t
    else
      var n := |accepted| - 1;
      var earlier := Publish(t, bs, accepted[..n]);
      if accepted[n] < |bs| then earlier[bs[accepted[n]].name := bs[accepted[n]].hash] else earlier
  }

  ghost predicate SameTargets(a: seq<Builder>, b: seq<Builder>) {
    |a| == |b| && forall i :: 0 <= i < |a| ==> a[i].name == b[i].name && a[i].hash == b[i].hash
  }

  /** A copy that is not outdated is the server's list; each refusal is matched by an acceptance since the start. */
  ghost predicate BuilderOk(s: System, start: nat, retries: nat, i: nat)
    requires i < |s.builders|
  {
    var b := s.builders[i];
    && (b.phase.Done? <==> i in s.accepted)
    && start + b.refusals <= s.version
    && (b.phase.Fatal? ==> b.refusals == retries)
    && (b.phase.Pulled? || b.phase.Signed? ==> start + b.refusals <= b.phase.version <= s.version)
    && (b.phase.Pulled? && b.phase.version == s.version ==> b.phase.local == s.targets)
    && (b.phase.Signed? && b.phase.version == s.version ==> b.phase.local == s.targets[b.name := b.hash])
  }

  ghost predicate Invariant(s0: System, s: System, retries: nat) {
    && SameTargets(s0.builders, s.builders)
    && (forall j :: j in s.accepted ==> j < |s.builders|)
    && Distinct(s.accepted)
    && s.version == s0.version + |s.accepted|
    && s.targets == Publish(s0.targets, s0.builders, s.accepted)
    && forall i :: 0 <= i < |s.builders| ==> BuilderOk(s, s0.version, retries, i)
  }

  lemma StepKeepsInvariant(s0: System, s: System, e: Event, retries: nat)
    requires Invariant(s0, s, retries)
    ensures Invariant(s0, Step(s, e, retries), retries)
  {
    var s' := Step(s, e, retries);
    if s'.accepted != s.accepted {
      AcceptKeepsInvariant(s0, s, e.i, retries);
    } else {
      forall i | 0 <= i < |s'.builders| ensures BuilderOk(s', s0.version, retries, i) {
        assert BuilderOk(s, s0.version, retries, i);
      }
    }
  }

  lemma AcceptKeepsInvariant(s0: System, s: System, i: nat, retries: nat)
    requires Invariant(s0, s, retries) && i < |s.builders|
    requires s.builders[i].phase.Signed? && s.builders[i].phase.version == s.version
    ensures Invariant(s0, Step(s, Push(i), retries), retries)
  {
    var s' := Step(s, Push(i), retries);
    assert BuilderOk(s, s0.version, retries, i);
    assert s'.accepted[..|s.accepted|] == s.accepted;
    DistinctNext(s.accepted, i);
    forall j | 0 <= j < |s'.builders| ensures BuilderOk(s', s0.version, retries, j) {
      assert BuilderOk(s, s0.version, retries, j);
    }
  }

  lemma {:induction false} RunKeepsInvariant(s0: System, es: seq<Event>, retries: nat)
    requires Initial(s0, retries)
    ensures Invariant(s0, Run(s0, es, retries), retries)
  {
    if es != [] {
      RunKeepsInvariant(s0, es[..|es| - 1], retries);
      StepKeepsInvariant(s0, Run(s0, es[..|es| - 1], retries), es[|es| - 1], retries);
    }
  }

  // ----- Retries -----

  lemma OthersOnly(accepted: seq<nat>, n: nat, i: nat)
    requires i < n && i !in accepted && forall j :: j in accepted ==> j < n
    requires Distinct(accepted)
    ensures |accepted| <= n - 1
  {
    UpToCount(n);
    UpToHas(n, i);
    forall j | j in accepted ensures j in UpTo(n) {
      UpToHas(n, j);
    }
    DistinctFits(accepted, UpTo(n) - {i});
  }

  function UpTo(n: nat): set<nat> {
    if n == 0 then {} else UpTo(n - 1) + {n - 1}
  }

  lemma {:induction false} UpToHas(n: nat, j: nat)
    ensures j in UpTo(n) <==> j < n
  {
    if n > 0 {
      UpToHas(n - 1, j);
    }
  }

  lemma {:induction false} UpToCount(n: nat)
    ensures |UpTo(n)| == n
  {
    if n > 0 {
      UpToCount(n - 1);
      UpToHas(n - 1, n - 1);
    }
  }

  /** Every refusal is charged to a different other builder, so one retry more than there are others suffices. */
  lemma RetriesSuffice(s0: System, es: seq<Event>, retries: nat, i: nat)
    requires Initial(s0, retries) && i < |s0.builders| && retries >= |s0.builders|
    ensures var b := Run(s0, es, retries).builders;
            |b| == |s0.builders| && !b[i].phase.Fatal? && b[i].refusals <= |s0.builders| - 1
  {
    RunKeepsInvariant(s0, es, retries);
    var s := Run(s0, es, retries);
    assert BuilderOk(s, s0.version, retries, i);
    if !s.builders[i].phase.Done? {
      OthersOnly(s.accepted, |s.builders|, i);
    } else {
      DoneCount(s.accepted, |s.builders|);
      RefusalsWhenDone(s0, es, retries, i);
    }
  }

  lemma DoneCount(accepted: seq<nat>, n: nat)
    requires forall j :: j in accepted ==> j < n
    requires Distinct(accepted)
    ensures |accepted| <= n
  {
    UpToCount(n);
    forall j | j in accepted ensures j in UpTo(n) {
      UpToHas(n, j);
    }
    DistinctFits(accepted, UpTo(n));
  }

  /** A builder that is through had met fewer refusals than pushes were accepted, its own included. */
  lemma {:induction false} RefusalsWhenDone(s0: System, es: seq<Event>, retries: nat, i: nat)
    requires Initial(s0, retries) && i < |s0.builders|
    ensures var s := Run(s0, es, retries);
            && |s.builders| == |s0.builders|
            && (s.builders[i].phase.Done? ==> s0.version + s.builders[i].refusals < s.version)
  {
    if es != [] {
      var before := Run(s0, es[..|es| - 1], retries);
      RefusalsWhenDone(s0, es[..|es| - 1], retries, i);
      RunKeepsInvariant(s0, es[..|es| - 1], retries);
      StepRefusals(s0, before, es[|es| - 1], retries, i);
    }
  }

  lemma StepRefusals(s0: System, s: System, e: Event, retries: nat, i: nat)
    requires Invariant(s0, s, retries) && i < |s.builders|
    requires s.builders[i].phase.Done? ==> s0.version + s.builders[i].refusals < s.version
    ensures var s' := Step(s, e, retries);
            && |s'.builders| == |s.builders|
            && (s'.builders[i].phase.Done? ==> s0.version + s'.builders[i].refusals < s'.version)
  {
    assert BuilderOk(s, s0.version, retries, i);
  }

  // ----- No lost target -----

  /** No two builders use one name for different hashes. */
  ghost predicate Compatible(bs: seq<Builder>) {
    forall i, j :: 0 <= i < |bs| && 0 <= j < |bs| && bs[i].name == bs[j].name ==> bs[i].hash == bs[j].hash
  }

  predicate Has(t: Targets, b: Builder) {
    b.name in t && t[b.name] == b.hash
  }

  lemma {:induction false} PublishedHas(t: Targets, bs: seq<Builder>, accepted: seq<nat>, i: nat)
    requires Compatible(bs) && i in accepted && forall j :: j in accepted ==> j < |bs|
    ensures Has(Publish(t, bs, accepted), bs[i])
  {
    var n := |accepted| - 1;
    if accepted[n] != i {
      assert accepted == accepted[..n] + [accepted[n]];
      assert i in accepted[..n] && forall j :: j in accepted[..n] ==> j in accepted;
      PublishedHas(t, bs, accepted[..n], i);
    }
    assert accepted[n] in accepted;
  }

  lemma {:induction false} DoneStays(s: System, es: seq<Event>, retries: nat, i: nat)
    requires i < |s.builders| && s.builders[i].phase.Done?
    ensures var s' := Run(s, es, retries); |s'.builders| == |s.builders| && s'.builders[i].phase.Done?
  {
    if es != [] {
      DoneStays(s, es[..|es| - 1], retries, i);
    }
  }

  lemma {:induction false} RunAppends(s: System, es: seq<Event>, more: seq<Event>, retries: nat)
    ensures Run(s, es + more, retries) == Run(Run(s, es, retries), more, retries)
  {
    if more == [] {
      assert es + more == es;
    } else {
      var all := es + more;
      assert all[..|all| - 1] == es + more[..|more| - 1];
      RunAppends(s, es, more[..|more| - 1], retries);
    }
  }

  /** Once a builder is through, its target is in the list for good, whatever the others do. */
  lemma NoTargetLost(s0: System, es: seq<Event>, more: seq<Event>, retries: nat, i: nat)
    requires Initial(s0, retries) && Compatible(s0.builders) && i < |s0.builders|
    ensures var now := Run(s0, es, retries);
            |now.builders| == |s0.builders|
            && (now.builders[i].phase.Done? ==> Has(Run(s0, es + more, retries).targets, s0.builders[i]))
  {
    RunKeepsInvariant(s0, es, retries);
    var now := Run(s0, es, retries);
    if now.builders[i].phase.Done? {
      RunAppends(s0, es, more, retries);
      DoneStays(now, more, retries, i);
      RunKeepsInvariant(s0, es + more, retries);
      var later := Run(s0, es + more, retries);
      assert BuilderOk(later, s0.version, retries, i);
      PublishedHas(s0.targets, s0.builders, later.accepted, i);
    }
  }

  predicate Keeps(s0: System, es: seq<Event>, more: seq<Event>, retries: nat, i: nat) {
    var now := Run(s0, es, retries).builders;
    i < |s0.builders| && i < |now| && now[i].phase.Done? ==> Has(Run(s0, es + more, retries).targets, s0.builders[i])
  }

  ghost predicate AllKeep(s0: System, retries: nat) {
    forall es, more, i :: Keeps(s0, es, more, retries, i)
  }

  lemma CompatibleKeep(s0: System, retries: nat)
    requires Initial(s0, retries) && Compatible(s0.builders)
    ensures AllKeep(s0, retries)
  {
    forall es, more, i: nat ensures Keeps(s0, es, more, retries, i) {
      if i < |s0.builders| {
        NoTargetLost(s0, es, more, retries, i);
      }
    }
  }

  lemma SharedNameNotKept(s0: System, retries: nat, i: nat, j: nat)
    requires Initial(s0, retries) && retries > 0 && i < |s0.builders| && j < |s0.builders|
    requires s0.builders[i].name == s0.builders[j].name && s0.builders[i].hash != s0.builders[j].hash
    ensures !AllKeep(s0, retries)
  {
    SharedNameLoses(s0, retries, i, j);
    RunAppends(s0, [Pull(i), Sign(i), Push(i)], [Pull(j), Sign(j), Push(j)], retries);
    assert !Keeps(s0, [Pull(i), Sign(i), Push(i)], [Pull(j), Sign(j), Push(j)], retries, i);
  }

  /** No interleaving loses a target exactly when no two builders use one name for different hashes. */
  lemma TargetsKeptIff(s0: System, retries: nat)
    requires Initial(s0, retries) && retries > 0
    ensures AllKeep(s0, retries) <==> Compatible(s0.builders)
  {
    if Compatible(s0.builders) {
      CompatibleKeep(s0, retries);
    } else {
      var i, j :| 0 <= i < |s0.builders| && 0 <= j < |s0.builders|
                  && s0.builders[i].name == s0.builders[j].name && s0.builders[i].hash != s0.builders[j].hash;
      SharedNameNotKept(s0, retries, i, j);
    }
  }

  /** The condition is needed: with one name for two hashes a later push replaces an earlier one. */
  lemma SharedNameLoses(s0: System, retries: nat, i: nat, j: nat)
    requires Initial(s0, retries) && retries > 0 && i < |s0.builders| && j < |s0.builders|
    requires s0.builders[i].name == s0.builders[j].name && s0.builders[i].hash != s0.builders[j].hash
    ensures var now := Run(s0, [Pull(i), Sign(i), Push(i)], retries);
            && i < |now.builders| && now.builders[i].phase.Done? && Has(now.targets, s0.builders[i])
            && !Has(Run(now, [Pull(j), Sign(j), Push(j)], retries).targets, s0.builders[i])
  {
    assert s0.builders[i] in s0.builders && s0.builders[j] in s0.builders;
    OneRound(s0, i, retries);
    OneRound(Run(s0, [Pull(i), Sign(i), Push(i)], retries), j, retries);
  }

  lemma OneRound(s: System, i: nat, retries: nat)
    requires i < |s.builders| && s.builders[i].phase.Ready?
    ensures var b := s.builders[i];
            var targets := s.targets[b.name := b.hash];
            Run(s, [Pull(i), Sign(i), Push(i)], retries)
            == Become(s, i, Done).(version := s.version + 1, targets := targets, accepted := s.accepted + [i])
  {
    var es := [Pull(i), Sign(i), Push(i)];
    assert es[..2] == [Pull(i), Sign(i)] && es[..2][..1] == [Pull(i)] && es[..2][..1][..0] == [];
    var s1 := Step(s, Pull(i), retries);
    var s2 := Step(s1, Sign(i), retries);
    assert Run(s, es[..2][..1], retries) == s1;
    assert Run(s, es[..2], retries) == s2;
    assert Run(s, es, retries) == Step(s2, Push(i), retries);
  }

  // ----- The bound is exact -----

  /** Builder 0 pulls, builder `j` gets in between, builder 0 is refused; for `j` from 1 to `rounds`. */
  function Overtaken(rounds: nat): seq<Event> {
    if rounds == 0 then []
    else Overtaken(rounds - 1) + [Pull(0), Sign(0)] + [Pull(rounds), Sign(rounds), Push(rounds)] + [Push(0)]
  }

  lemma {:induction false} OvertakenState(s0: System, rounds: nat, retries: nat)
    requires Initial(s0, retries) && rounds < |s0.builders| && rounds <= retries && retries > 0
    ensures var s := Run(s0, Overtaken(rounds), retries);
            && |s.builders| == |s0.builders|
            && s.builders[0].refusals == rounds
            && s.builders[0].phase == (if rounds == retries then Fatal else Ready)
            && forall j :: rounds < j < |s.builders| ==> s.builders[j].phase.Ready?
  {
    if rounds == 0 {
      assert s0.builders[0] in s0.builders;
      assert forall j :: 0 < j < |s0.builders| ==> s0.builders[j] in s0.builders;
    } else {
      OvertakenState(s0, rounds - 1, retries);
      OvertakeOnce(s0, Overtaken(rounds - 1), rounds, retries);
    }
  }

  lemma OvertakeOnce(s0: System, es: seq<Event>, j: nat, retries: nat)
    requires var s := Run(s0, es, retries);
             0 < j < |s.builders| && s.builders[0].phase.Ready? && s.builders[j].phase.Ready?
    ensures var s := Run(s0, es, retries);
            var s' := Run(s0, es + [Pull(0), Sign(0)] + [Pull(j), Sign(j), Push(j)] + [Push(0)], retries);
            && |s'.builders| == |s.builders|
            && s'.builders[0].refusals == s.builders[0].refusals + 1
            && s'.builders[0].phase == (if s.builders[0].refusals + 1 == retries then Fatal else Ready)
            && forall k :: 0 < k < |s.builders| && k != j ==> s'.builders[k] == s.builders[k]
  {
    var s := Run(s0, es, retries);
    var signed := Step(Step(s, Pull(0), retries), Sign(0), retries);
    OvertakenBySteps(s0, es, j, retries);
    OneRound(signed, j, retries);
  }

  lemma OvertakenBySteps(s0: System, es: seq<Event>, j: nat, retries: nat)
    ensures var signed := Step(Step(Run(s0, es, retries), Pull(0), retries), Sign(0), retries);
            Run(s0, es + [Pull(0), Sign(0)] + [Pull(j), Sign(j), Push(j)] + [Push(0)], retries)
            == Step(Run(signed, [Pull(j), Sign(j), Push(j)], retries), Push(0), retries)
  {
    var e1 := es + [Pull(0), Sign(0)];
    assert e1 == es + [Pull(0)] + [Sign(0)];
    RunOne(s0, es, Pull(0), retries);
    RunOne(s0, es + [Pull(0)], Sign(0), retries);
    RunAppends(s0, e1, [Pull(j), Sign(j), Push(j)], retries);
    RunOne(s0, e1 + [Pull(j), Sign(j), Push(j)], Push(0), retries);
  }

  ghost predicate SomeTaskFails(s0: System, es: seq<Event>, retries: nat) {
    exists b :: b in Run(s0, es, retries).builders && b.phase.Fatal?
  }

  /** No interleaving makes a task fail exactly when there are more retries than other builders. */
  lemma RetriesBoundIsExact(s0: System, retries: nat)
    requires Initial(s0, retries) && |s0.builders| > 0
    ensures (forall es :: !SomeTaskFails(s0, es, retries)) <==> retries >= |s0.builders|
  {
    if retries >= |s0.builders| {
      forall es ensures !SomeTaskFails(s0, es, retries) {
        RunKeepsInvariant(s0, es, retries);
        forall b | b in Run(s0, es, retries).builders ensures !b.phase.Fatal? {
          var i :| 0 <= i < |s0.builders| && Run(s0, es, retries).builders[i] == b;
          RetriesSuffice(s0, es, retries, i);
        }
      }
    } else if retries == 0 {
      assert s0.builders[0] in Run(s0, [], retries).builders;
      assert SomeTaskFails(s0, [], retries);
    } else {
      OvertakenState(s0, retries, retries);
      assert Run(s0, Overtaken(retries), retries).builders[0] in Run(s0, Overtaken(retries), retries).builders;
      assert SomeTaskFails(s0, Overtaken(retries), retries);
    }
  }

  // ----- The loop of one builder -----

  class TargetServer {
    var version: nat
    var targets: Targets

    constructor (targets: Targets)
      ensures this.targets == targets && version == 0
    {
      this.targets, version := targets, 0;
    }

    /** Accepts a list signed on the current version; any other push returns a non-zero code. */
    method Accept(signedOn: nat, list: Targets) returns (errcode: nat)
      modifies this
      ensures errcode == 0 <==> signedOn == old(version)
      ensures errcode == 0 ==> version == old(version) + 1 && targets == list
      ensures errcode != 0 ==> version == old(version) && targets == old(targets)
    {
      errcode := 1;
      if signedOn == version {
        version, targets, errcode := version + 1, list, 0;
      }
    }
  }

  /** What the working directories and the server hold, and the commands on them. */
  class Fleet {
    const server: TargetServer
    const retries: nat
    var builders: seq<Builder>
    ghost var accepted: seq<nat>

    constructor (server: TargetServer, builders: seq<Builder>, retries: nat)
      ensures this.server == server && this.retries == retries && this.builders == builders && accepted == []
    {
      this.server, this.retries, this.builders, accepted := server, retries, builders, [];
    }

    ghost function Now(): System
      reads this, server
    {
      System(server.version, server.targets, builders, accepted)
    }

    /** `targets pull` */
    method PullTargets(i: nat)
      requires i < |builders| && builders[i].phase.Ready?
      modifies this`builders
      ensures Now() == Step(old(Now()), Pull(i), retries)
    {
      builders := builders[i := builders[i].(phase := Pulled(server.version, server.targets))];
    }

    /** `targets add` and `targets sign` */
    method AddAndSign(i: nat)
      requires i < |builders| && builders[i].phase.Pulled?
      modifies this`builders
      ensures Now() == Step(old(Now()), Sign(i), retries)
    {
      var b := builders[i];
      var local := b.phase.local[b.name := b.hash];
      builders := builders[i := b.(phase := Signed(b.phase.version, local))];
    }

    /** `targets push`: a refused builder may try again, as far as the tool knows. */
    method PushTargets(i: nat) returns (errcode: nat)
      requires i < |builders| && builders[i].phase.Signed?
      modifies this, server
      ensures errcode == 0 <==> old(builders[i].phase.version == server.version)
      ensures errcode == 0 ==> Now() == Step(old(Now()), Push(i), retries)
      ensures errcode != 0 ==> Now() == Refused(old(Now()), i)
    {
      var b := builders[i];
      errcode := server.Accept(b.phase.version, b.phase.local);
      if errcode == 0 {
        builders, accepted := builders[i := b.(phase := Done)], accepted + [i];
      } else {
        builders := builders[i := b.(refusals := b.refusals + 1, phase := Ready)];
      }
    }

    /** One command of another builder. */
    method Command(e: Event)
      modifies this, server
      ensures Now() == Step(old(Now()), e, retries)
    {
      if e.i >= |builders| { return; }
      var phase := builders[e.i].phase;
      match e {
        case Pull(i) =>
          if phase.Ready? { PullTargets(i); }
        case Sign(i) =>
          if phase.Pulled? { AddAndSign(i); }
        case Push(i) =>
          if phase.Signed? {
            var errcode := PushTargets(i);
            if errcode != 0 && builders[i].refusals == retries {
              builders := builders[i := builders[i].(phase := Fatal)];
            }
          }
        case Stop(i) =>
          if !phase.Done? && !phase.Fatal? {
            builders := builders[i := builders[i].(phase := Stopped)];
          }
      }
    }

    /** Commands of other builders, in whatever order they come. */
    method Others(es: seq<Event>)
      modifies this, server
      ensures Now() == Run(old(Now()), es, retries)
    {
      for k := 0 to |es|
        invariant Now() == Run(old(Now()), es[..k], retries)
      {
        assert es[..k + 1][..k] == es[..k];
        Command(es[k]);
      }
      assert es[..|es|] == es;
    }

    /** One round up to its signature, with the other builders' commands in between; false if the pull fails. */
    method PullOrStop(i: nat, round: Round) returns (ready: bool)
      requires i < |builders| && builders[i].phase.Ready? && LeavesAlone(round, i)
      modifies this, server
      ensures ready <==> round.pulls
      ensures i < |builders| == |old(builders)| && server.version >= old(server.version)
      ensures !ready ==> builders[i].phase.Stopped? && Now() == Run(old(Now()), RoundEvents(i, round), retries)
      ensures ready ==> Now() == Run(old(Now()), ToSign(i, round), retries)
      ensures ready ==> PulledIn(old(Now()), Now(), i, round, retries)
    {
      RunLeavesAlone(Now(), round.before, i, retries);
      Others(round.before);
      if !round.pulls {
        RunOne(old(Now()), round.before, Stop(i), retries);
        Command(Stop(i));
        return false;
      }
      AtSign(old(Now()), i, round, retries);
      PullTargets(i);
      Others(round.between);
      ready := true;
    }

    /** From there to its push; false if adding or signing fails. */
    method SignOrStop(i: nat, round: Round, ghost s: System) returns (ready: bool)
      requires i < |builders| && round.pulls && NoneOf(round.late, i)
      requires Now() == Run(s, ToSign(i, round), retries) && i < |s.builders| && PulledIn(s, Now(), i, round, retries)
      modifies this, server
      ensures ready <==> round.signs
      ensures i < |builders| == |old(builders)| && server.version >= old(server.version)
      ensures !ready ==> builders[i].phase.Stopped? && Now() == Run(s, RoundEvents(i, round), retries)
      ensures ready ==> Now() == Run(s, UpToPush(i, round), retries) && ReadyToPush(s, Now(), i, round, retries)
    {
      if !round.signs {
        RunOne(s, ToSign(i, round), Stop(i), retries);
        Command(Stop(i));
        return false;
      }
      AtPush(s, i, round, retries);
      AddAndSign(i);
      Others(round.late);
      ready := true;
    }

    /** The body of the retry loop. */
    method TryOnce(i: nat, round: Round) returns (fate: Fate)
      requires i < |builders| && builders[i].phase.Ready? && LeavesAlone(round, i)
      modifies this, server
      ensures fate == FateOf(old(Now()), i, round, retries)
      ensures i < |builders| == |old(builders)|
      ensures EndsRound(old(Now()), Now(), i, round, fate, retries)
    {
      var ready := PullOrStop(i, round);
      if !ready {
        StopEnds(old(Now()), Now(), i, round, retries);
        return Broken;
      }
      ready := SignOrStop(i, round, old(Now()));
      if !ready {
        StopEnds(old(Now()), Now(), i, round, retries);
        return Broken;
      }
      PushEnds(old(Now()), Now(), i, round, retries);
      var errcode := PushTargets(i);
      fate := if errcode == 0 then Won else Lost;
    }

    /**
      The retry loop of `IMAGE_CMD:garagesign`, from its pull to its fatal error.  The other
      builders' commands come in any order at any point.  What happens is a run of this
      builder's commands interleaved with theirs; it ends at the first round that is not lost,
      or with the fatal error after every round was.
     */
    method GarageSign(i: nat, rounds: seq<Round>) returns (fate: Fate, ghost used: nat)
      requires i < |builders| && |rounds| == retries
      requires builders[i].refusals == 0 && builders[i].phase == if retries == 0 then Fatal else Ready
      requires forall r :: 0 <= r < |rounds| ==> LeavesAlone(rounds[r], i)
      modifies this, server
      ensures used <= retries && Now() == Run(old(Now()), Woven(i, rounds[..used]), retries)
      ensures i < |builders| && builders[i].phase == if fate.Lost? then Fatal else PhaseAfter(fate)
      ensures forall r :: 0 <= r < used && (r < used - 1 || fate.Lost?) ==>
                FateAt(old(Now()), i, rounds, r, retries) == Lost
      ensures fate.Lost? ==> used == retries
      ensures !fate.Lost? ==> used > 0 && FateAt(old(Now()), i, rounds, used - 1, retries) == fate
      ensures fate.Lost? ==> server.version >= old(server.version) + retries
      ensures Initial(old(Now()), retries) ==> Invariant(old(Now()), Now(), retries)
      ensures Initial(old(Now()), retries) && fate.Lost? ==> retries < |builders|
    {
      ghost var s0 := Now();
      var pushSuccess := false;
      used, fate := 0, Lost;
      for r := 0 to retries
        invariant !pushSuccess && fate.Lost? && used == r
        invariant i < |builders| && Underway(s0, Now(), i, rounds, r, retries)
      {
        ghost var before := Now();
        used := r + 1;
        fate := TryOnce(i, rounds[r]);
        RoundEnds(s0, before, Now(), i, rounds, r, fate, retries);
        RunKeepsIfInitial(s0, Woven(i, rounds[..used]), retries);
        if fate.Won? {
          pushSuccess := true;
          break;
        }
        if fate.Broken? { return; }
      }
      if !pushSuccess {
        AllLost(s0, Now(), i, rounds, retries);
        builders := builders[i := builders[i].(phase := Fatal)];
      }
    }
  }

  /** A refused push before the number of retries is looked at. */
  function Refused(s: System, i: nat): System
    requires i < |s.builders|
  {
    var b := s.builders[i];
    s.(builders := s.builders[i := b.(refusals := b.refusals + 1, phase := Ready)])
  }

  /** After the last refusal nothing is left but the fatal error. */
  function Settled(s: System, i: nat, retries: nat): System
    requires i < |s.builders|
  {
    if s.builders[i].refusals == retries then Become(s, i, Fatal) else s
  }

  /**
    One round: what other builders do before the pull, between pull and signature, and between
    signature and push, and whether the commands before the push succeed.
   */
  datatype Round = Round(before: seq<Event>, pulls: bool, between: seq<Event>, signs: bool, late: seq<Event>)

  /** How a round ends: pushed, refused, or stopped by another failing command. */
  datatype Fate = Won | Lost | Broken

  function PhaseAfter(fate: Fate): Phase {
    match fate
    case Won => Done
    case Lost => Ready
    case Broken => Stopped
  }

  predicate NoneOf(es: seq<Event>, i: nat) {
    forall e :: e in es ==> e.i != i
  }

  predicate LeavesAlone(round: Round, i: nat) {
    NoneOf(round.before, i) && NoneOf(round.between, i) && NoneOf(round.late, i)
  }

  function ToSign(i: nat, round: Round): seq<Event> {
    round.before + [Pull(i)] + round.between
  }

  function UpToPush(i: nat, round: Round): seq<Event> {
    ToSign(i, round) + [Sign(i)] + round.late
  }

  function RoundEvents(i: nat, round: Round): seq<Event> {
    if !round.pulls then round.before + [Stop(i)]
    else if !round.signs then ToSign(i, round) + [Stop(i)]
    else UpToPush(i, round) + [Push(i)]
  }

  function Woven(i: nat, rounds: seq<Round>): seq<Event> {
    if rounds == [] then [] else Woven(i, rounds[..|rounds| - 1]) + RoundEvents(i, rounds[|rounds| - 1])
  }

  /** A round is lost exactly when the server's list moved on between its pull and its push. */
  function FateOf(s: System, i: nat, round: Round, retries: nat): Fate {
    if !round.pulls || !round.signs then Broken
    else if Run(s, UpToPush(i, round), retries).version == Run(s, round.before, retries).version then Won
    else Lost
  }

  function FateAt(s0: System, i: nat, rounds: seq<Round>, r: nat, retries: nat): Fate
    requires r < |rounds|
  {
    FateOf(Run(s0, Woven(i, rounds[..r]), retries), i, rounds[r], retries)
  }

  lemma {:induction false} RunLeavesAlone(s: System, es: seq<Event>, i: nat, retries: nat)
    requires NoneOf(es, i) && i < |s.builders|
    ensures var s' := Run(s, es, retries);
            |s'.builders| == |s.builders| && s'.builders[i] == s.builders[i] && s'.version >= s.version
  {
    if es != [] {
      assert es[|es| - 1] in es;
      RunLeavesAlone(s, es[..|es| - 1], i, retries);
    }
  }

  lemma RunKeepsIfInitial(s0: System, es: seq<Event>, retries: nat)
    ensures Initial(s0, retries) ==> Invariant(s0, Run(s0, es, retries), retries)
  {
    if Initial(s0, retries) {
      RunKeepsInvariant(s0, es, retries);
    }
  }

  lemma RunOne(s: System, es: seq<Event>, e: Event, retries: nat)
    ensures Run(s, es + [e], retries) == Step(Run(s, es, retries), e, retries)
  {
    assert (es + [e])[..|es|] == es;
  }

  /** After its commands up to the push a builder holds a list on the version it pulled. */
  ghost predicate ReadyToPush(s: System, now: System, i: nat, round: Round, retries: nat)
    requires i < |s.builders| && i < |now.builders|
  {
    && now.builders[i].phase.Signed?
    && s.version <= Run(s, round.before, retries).version == now.builders[i].phase.version <= now.version
    && now.builders[i].refusals == s.builders[i].refusals
  }

  ghost predicate EndsRound(s: System, now: System, i: nat, round: Round, fate: Fate, retries: nat)
    requires i < |s.builders| && i < |now.builders|
  {
    && now.builders[i].phase == PhaseAfter(fate)
    && now.version >= s.version + (if fate.Lost? then 1 else 0)
    && (if fate.Lost? then Settled(now, i, retries) else now) == Run(s, RoundEvents(i, round), retries)
    && (fate.Lost? ==> now.builders[i].refusals == s.builders[i].refusals + 1)
  }

  lemma StopEnds(s: System, now: System, i: nat, round: Round, retries: nat)
    requires i < |s.builders| && i < |now.builders| && (!round.pulls || !round.signs)
    requires now.builders[i].phase.Stopped? && now == Run(s, RoundEvents(i, round), retries) && now.version >= s.version
    ensures FateOf(s, i, round, retries) == Broken && EndsRound(s, now, i, round, Broken, retries)
  {
  }

  lemma PushEnds(s: System, ready: System, i: nat, round: Round, retries: nat)
    requires i < |s.builders| && i < |ready.builders| && round.pulls && round.signs
    requires ready == Run(s, UpToPush(i, round), retries) && ReadyToPush(s, ready, i, round, retries)
    ensures var fate := FateOf(s, i, round, retries);
            && (fate == Won <==> ready.builders[i].phase.version == ready.version)
            && fate != Broken
            && (fate == Won ==> EndsRound(s, Step(ready, Push(i), retries), i, round, Won, retries))
            && (fate == Lost ==> EndsRound(s, Refused(ready, i), i, round, Lost, retries))
  {
    RunOne(s, UpToPush(i, round), Push(i), retries);
  }

  /** After `r` lost rounds. */
  ghost predicate Underway(s0: System, s: System, i: nat, rounds: seq<Round>, r: nat, retries: nat)
    requires i < |s.builders| && r <= |rounds|
  {
    && s.builders[i].refusals == r && s.builders[i].phase == (if retries == 0 then Fatal else Ready)
    && Settled(s, i, retries) == Run(s0, Woven(i, rounds[..r]), retries)
    && (forall q :: 0 <= q < r ==> FateAt(s0, i, rounds, q, retries) == Lost)
    && s.version >= s0.version + r
  }

  lemma WovenNext(s0: System, i: nat, rounds: seq<Round>, r: nat, retries: nat)
    requires r < |rounds|
    ensures Run(s0, Woven(i, rounds[..r + 1]), retries)
         == Run(Run(s0, Woven(i, rounds[..r]), retries), RoundEvents(i, rounds[r]), retries)
  {
    assert rounds[..r + 1][..r] == rounds[..r];
    RunAppends(s0, Woven(i, rounds[..r]), RoundEvents(i, rounds[r]), retries);
  }

  lemma RoundEnds(s0: System, s: System, now: System, i: nat, rounds: seq<Round>, r: nat, fate: Fate, retries: nat)
    requires r < |rounds| == retries && i < |s.builders| && i < |now.builders|
    requires Underway(s0, s, i, rounds, r, retries)
    requires fate == FateOf(s, i, rounds[r], retries) && EndsRound(s, now, i, rounds[r], fate, retries)
    ensures FateAt(s0, i, rounds, r, retries) == fate
    ensures fate.Lost? ==> Underway(s0, now, i, rounds, r + 1, retries)
    ensures !fate.Lost? ==> now == Run(s0, Woven(i, rounds[..r + 1]), retries)
  {
    assert Settled(s, i, retries) == s;
    WovenNext(s0, i, rounds, r, retries);
  }

  lemma AllLost(s0: System, s: System, i: nat, rounds: seq<Round>, retries: nat)
    requires i < |s.builders| && |rounds| == retries && Underway(s0, s, i, rounds, retries, retries)
    ensures Become(s, i, Fatal) == Run(s0, Woven(i, rounds[..retries]), retries)
    ensures Initial(s0, retries) ==> Invariant(s0, Become(s, i, Fatal), retries) && retries < |s.builders|
  {
    assert Become(s, i, Fatal).builders[i].phase.Fatal?;
    RunKeepsIfInitial(s0, Woven(i, rounds[..retries]), retries);
    if Initial(s0, retries) && retries >= |s0.builders| {
      RetriesSuffice(s0, Woven(i, rounds[..retries]), retries, i);
    }
  }

  /** What a builder holds once it pulled, whatever the others did meanwhile. */
  ghost predicate PulledIn(s: System, now: System, i: nat, round: Round, retries: nat)
    requires i < |s.builders| && i < |now.builders|
  {
    var pulled := Run(s, round.before, retries);
    && now.builders[i] == s.builders[i].(phase := Pulled(pulled.version, pulled.targets))
    && s.version <= pulled.version <= now.version
  }

  lemma RunAround(s: System, es: seq<Event>, e: Event, more: seq<Event>, retries: nat)
    ensures Run(s, es + [e] + more, retries) == Run(Step(Run(s, es, retries), e, retries), more, retries)
  {
    RunOne(s, es, e, retries);
    RunAppends(s, es + [e], more, retries);
  }

  /** A round as far as its signature. */
  lemma AtSign(s: System, i: nat, round: Round, retries: nat)
    requires i < |s.builders| && s.builders[i].phase.Ready? && NoneOf(round.before, i) && NoneOf(round.between, i)
    ensures var now := Run(s, ToSign(i, round), retries);
            && now == Run(Step(Run(s, round.before, retries), Pull(i), retries), round.between, retries)
            && |now.builders| == |s.builders| && PulledIn(s, now, i, round, retries)
  {
    RunAround(s, round.before, Pull(i), round.between, retries);
    RunLeavesAlone(s, round.before, i, retries);
    RunLeavesAlone(Step(Run(s, round.before, retries), Pull(i), retries), round.between, i, retries);
  }

  /** And as far as its push. */
  lemma AtPush(s: System, i: nat, round: Round, retries: nat)
    requires i < |s.builders| && NoneOf(round.late, i) && i < |Run(s, ToSign(i, round), retries).builders|
    requires PulledIn(s, Run(s, ToSign(i, round), retries), i, round, retries)
    ensures var before, now := Run(s, ToSign(i, round), retries), Run(s, UpToPush(i, round), retries);
            && now == Run(Step(before, Sign(i), retries), round.late, retries)
            && |now.builders| == |before.builders| && ReadyToPush(s, now, i, round, retries)
            && now.version >= before.version
  {
    RunAround(s, ToSign(i, round), Sign(i), round.late, retries);
    RunLeavesAlone(Step(Run(s, ToSign(i, round), retries), Sign(i), retries), round.late, i, retries);
  }
}
