/** The boot service that relabels /var when the SELinux policy changed. */
module VarRelabel {
  import opened Options

  type Hash = string -> string

  /** The policy all of /var is labelled with, if it is one, and the stamp file. */
  datatype Var = Var(labels: Option<string>, stamp: Option<string>)

  /** How far a boot gets: cut before, during or after the relabelling, with the stamp emptied, or to the end. */
  datatype Reach = Untouched | Relabelling | Relabelled | StampEmptied | Finished

  /** A boot into a system with this policy text, or with none it could read. */
  datatype Boot = Boot(policy: Option<string>, reach: Reach)

  predicate Relabels(hash: Hash, v: Var, b: Boot) {
    b.policy.Some? && v.stamp != Some(hash(b.policy.value))
  }

  function After(hash: Hash, v: Var, b: Boot): Var {
    if !Relabels(hash, v, b) then v
    else
      match b.reach
      case Untouched => v
      case Relabelling => v.(labels := None)
      case Relabelled => v.(labels := b.policy)
      case StampEmptied => Var(b.policy, Some(""))
      case Finished => Var(b.policy, Some(hash(b.policy.value)))
  }

  function Cat(files: seq<string>): string {
    if files == [] then "" else files[0] + Cat(files[1..])
  }

  /** File after file, each whole. */
  lemma {:induction false} CatConcat(a: seq<string>, b: seq<string>)
    ensures Cat(a + b) == Cat(a) + Cat(b)
  {
    if a == [] {
      assert a + b == b;
    } else {
      assert (a + b)[1..] == a[1..] + b;
      CatConcat(a[1..], b);
    }
  }

  lemma CatOne(file: string)
    ensures Cat([file]) == file && Cat([]) == ""
  {
  }

  /** What the checksum is taken of; none without a policy type or a policy file. */
  function PolicyText(policyType: string, policyFiles: seq<string>, contexts: seq<string>): Option<string> {
    if policyType == "" || policyFiles == [] then None else Some(Cat(policyFiles) + Cat(contexts))
  }

  ghost predicate MayLeave(hash: Hash, before: Var, policy: Option<string>, found: Var) {
    exists reach :: found == After(hash, before, Boot(policy, reach))
  }

  class VarTree {
    const hash: Hash
    var labels: Option<string>
    var stamp: Option<string>
    ghost var trace: seq<Var>

    constructor (hash: Hash, v: Var)
      ensures this.hash == hash && Now() == v && trace == []
    {
      this.hash, labels, stamp, trace := hash, v.labels, v.stamp, [];
    }

    function Now(): Var
      reads this
    {
      Var(labels, stamp)
    }

    /** The script: leaves /var alone, finishes, or stops where `restorecon` failed. */
    method Run(policyType: string, policyFiles: seq<string>, contexts: seq<string>, restoreconOk: bool)
      returns (status: nat)
      modifies this
      ensures Now() == After(hash, old(Now()), Boot(PolicyText(policyType, policyFiles, contexts),
                                                    if restoreconOk then Finished else Relabelling))
      ensures var boot := Boot(PolicyText(policyType, policyFiles, contexts), Finished);
              status == 0 <==> restoreconOk || !Relabels(hash, old(Now()), boot)
      ensures Now() != old(Now()) || status != 0 ==> policyType != "" && policyFiles != []
      ensures status == 0 && policyType != "" && policyFiles != [] ==>
                stamp == Some(hash(Cat(policyFiles) + Cat(contexts)))
      ensures old(trace) <= trace
      ensures forall i :: |old(trace)| <= i < |trace| ==>
                MayLeave(hash, old(Now()), PolicyText(policyType, policyFiles, contexts), trace[i])
    {
      if policyType == "" { return 0; }
      if policyFiles == [] { return 0; }
      var text := Cat(policyFiles) + Cat(contexts);
      var csum := hash(text);
      if stamp.Some? && stamp.value == csum {
        return 0;
      }
      ghost var before := Now();
      labels := None;
      trace := trace + [Now()];
      assert Now() == After(hash, before, Boot(Some(text), Relabelling));
      if !restoreconOk {
        return 1;
      }
      labels := Some(text);
      trace := trace + [Now()];
      assert Now() == After(hash, before, Boot(Some(text), Relabelled));
      stamp := Some("");
      trace := trace + [Now()];
      assert Now() == After(hash, before, Boot(Some(text), StampEmptied));
      stamp := Some(csum);
      trace := trace + [Now()];
      assert Now() == After(hash, before, Boot(Some(text), Finished));
      status := 0;
    }
  }

  // ----- What counts as a change of policy -----

  ghost predicate Checksum(hash: Hash) {
    (forall a, b :: hash(a) == hash(b) ==> a == b) && forall a :: hash(a) != ""
  }

  /** Without a policy type or a policy file nothing is relabelled; otherwise the stamp decides. */
  lemma RelabelsIff(hash: Hash, v: Var, policyType: string, policyFiles: seq<string>, contexts: seq<string>,
                    reach: Reach)
    ensures Relabels(hash, v, Boot(PolicyText(policyType, policyFiles, contexts), reach)) <==>
            policyType != "" && policyFiles != [] && v.stamp != Some(hash(Cat(policyFiles) + Cat(contexts)))
  {
  }

  /** A change of the file contexts, or of the policy, alone makes a finished system relabel. */
  lemma ChangeRelabels(hash: Hash, v: Var, policyType: string, policyFiles: seq<string>, contexts: seq<string>,
                       newFiles: seq<string>, newContexts: seq<string>, reach: Reach)
    requires Checksum(hash) && v.stamp == Some(hash(Cat(policyFiles) + Cat(contexts)))
    requires policyType != "" && newFiles != []
    requires (newFiles == policyFiles && Cat(newContexts) != Cat(contexts))
          || (newContexts == contexts && Cat(newFiles) != Cat(policyFiles))
    ensures Relabels(hash, v, Boot(PolicyText(policyType, newFiles, newContexts), reach))
  {
    FrontCancels(Cat(policyFiles), Cat(contexts), Cat(newContexts));
    BackCancels(Cat(policyFiles), Cat(newFiles), Cat(contexts));
  }

  lemma FrontCancels(a: string, b: string, c: string)
    ensures a + b == a + c ==> b == c
  {
    assert (a + b)[|a|..] == b && (a + c)[|a|..] == c;
  }

  lemma BackCancels(a: string, b: string, c: string)
    ensures a + c == b + c ==> a == b
  {
    assert (a + c)[..|a|] == a && (b + c)[..|b|] == b;
    assert |a + c| == |a| + |c| && |b + c| == |b| + |c|;
  }

  /** So does a change of any one file, whichever it is. */
  lemma OneFileRelabels(hash: Hash, v: Var, policyType: string, files: seq<string>, contexts: seq<string>, i: nat,
                        text: string, reach: Reach)
    requires Checksum(hash) && v.stamp == Some(hash(Cat(files) + Cat(contexts))) && policyType != "" && files != []
    ensures i < |files| && text != files[i] ==>
              Relabels(hash, v, Boot(PolicyText(policyType, files[i := text], contexts), reach))
    ensures i < |contexts| && text != contexts[i] ==>
              Relabels(hash, v, Boot(PolicyText(policyType, files, contexts[i := text]), reach))
  {
    if i < |files| && text != files[i] {
      CatDiffers(files, i, text);
      ChangeRelabels(hash, v, policyType, files, contexts, files[i := text], contexts, reach);
    }
    if i < |contexts| && text != contexts[i] {
      CatDiffers(contexts, i, text);
      ChangeRelabels(hash, v, policyType, files, contexts, files, contexts[i := text], reach);
    }
  }

  lemma {:induction false} CatDiffers(files: seq<string>, i: nat, text: string)
    requires i < |files| && text != files[i]
    ensures Cat(files[i := text]) != Cat(files)
  {
    if i == 0 {
      assert files[0 := text][1..] == files[1..];
      BackCancels(text, files[0], Cat(files[1..]));
    } else {
      assert files[i := text][1..] == files[1..][i - 1 := text];
      CatDiffers(files[1..], i - 1, text);
      FrontCancels(files[0], Cat(files[i := text][1..]), Cat(files[1..]));
    }
  }

  // ----- Over every history -----

  function Run(hash: Hash, v: Var, boots: seq<Boot>): Var {
    if boots == [] then v
    else After(hash, Run(hash, v, boots[..|boots| - 1]), boots[|boots| - 1])
  }

  /** Some relabelling began, and none since got as far as touching the stamp. */
  predicate Unfinished(hash: Hash, v: Var, boots: seq<Boot>) {
    boots != [] &&
    var n := |boots| - 1;
    if Relabels(hash, Run(hash, v, boots[..n]), boots[n]) && boots[n].reach != Untouched
    then boots[n].reach.Relabelling? || boots[n].reach.Relabelled?
    else Unfinished(hash, v, boots[..n])
  }

  /**
    Where the stamp says that the booted policy labelled /var, it did so exactly when no
    relabelling was left unfinished since.  Left unfinished, going back to the old policy
    skips the relabelling although the labels are not the old policy's.
   */
  lemma {:induction false} StampTellsIff(hash: Hash, v: Var, boots: seq<Boot>, policy: string)
    requires Checksum(hash)
    requires forall p :: v.stamp == Some(hash(p)) ==> v.labels == Some(p)
    requires Run(hash, v, boots).stamp == Some(hash(policy))
    ensures Run(hash, v, boots).labels == Some(policy) <==> !Unfinished(hash, v, boots)
    decreases |boots|
  {
    if boots != [] {
      var n := |boots| - 1;
      var before := Run(hash, v, boots[..n]);
      if before.stamp == Some(hash(policy)) {
        StampTellsIff(hash, v, boots[..n], policy);
      }
    }
  }

  /** Booting the new policy again and again, cut anywhere any number of times, the first finished boot settles it. */
  lemma {:induction false} SamePolicySettles(hash: Hash, v: Var, policy: string, boots: seq<Boot>)
    requires Checksum(hash) && v.stamp != Some(hash(policy))
    requires forall b :: b in boots ==> b.policy == Some(policy)
    ensures Run(hash, v, boots).stamp == Some(hash(policy)) <==>
            exists i :: 0 <= i < |boots| && boots[i].reach.Finished?
    ensures Run(hash, v, boots).stamp == Some(hash(policy)) ==> Run(hash, v, boots).labels == Some(policy)
  {
    if boots != [] {
      var n := |boots| - 1;
      SamePolicySettles(hash, v, policy, boots[..n]);
      assert boots[n] in boots;
      if i :| 0 <= i < n && boots[..n][i].reach.Finished? {
        assert boots[i].reach.Finished?;
      }
      if i :| 0 <= i < n && boots[i].reach.Finished? {
        assert boots[..n][i].reach.Finished?;
      }
    }
  }
}
