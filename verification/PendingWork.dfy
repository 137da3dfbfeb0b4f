/** What becomes of the work that is pending: which batches the hooks of a commit take, and whether one of
    them brings errors. This is told by the list of batches alone. */
module PendingWork {

  import opened TransactionState

  /** Errors came, or work is left. */
  datatype Progress = Erring | Going(rest: seq<Arrival>)

  predicate Clean(work: seq<Arrival>) {
    work == [] || (!work[0].error && Clean(work[1..]))
  }

  /** A hook takes one batch; what it brings is committed with hooks of its own. */
  function HookGoes(work: seq<Arrival>, generates: bool): (r: Progress)
    ensures r.Going? ==> |r.rest| <= |work|
    decreases |work|, 0
  {
    if work == [] then Going([])
    else if work[0].error then Erring
    else if work[0].decls == 0 then Going(work[1..])
    else CommitGoes(work[1..], generates)
  }

  /** The commit of a nested transaction in which everything nested is committed: one hook, and one more
      when code is generated. */
  function CommitGoes(work: seq<Arrival>, generates: bool): (r: Progress)
    ensures r.Going? ==> |r.rest| <= |work|
    decreases |work|, 2
  {
    Generates(HookGoes(work, generates), generates)
  }

  function Generates(p: Progress, generates: bool): (r: Progress)
    ensures r.Going? ==> p.Going? && |r.rest| <= |p.rest|
    decreases if p.Going? then |p.rest| else 0, 1
  {
    if p.Going? && generates then HookGoes(p.rest, true) else p
  }

  /** The commit of a top-level transaction: code generation has two hooks. */
  function TopGoes(work: seq<Arrival>, generates: bool): (r: Progress) {
    Generates(CommitGoes(work, generates), generates)
  }

  /** Hook by hook. */
  lemma TopGoesHookByHook(work: seq<Arrival>)
    ensures TopGoes(work, false) == HookGoes(work, false)
    ensures TopGoes(work, true) == match HookGoes(work, true)
                                   case Erring => Erring
                                   case Going(rest) => Generates(HookGoes(rest, true), true)
  {
    var one := HookGoes(work, true);
    assert CommitGoes(work, false) == Generates(HookGoes(work, false), false) == HookGoes(work, false);
    assert CommitGoes(work, true) == Generates(one, true);
    assert one.Going? ==> Generates(one, true) == HookGoes(one.rest, true);
  }

  lemma {:induction false} CleanGoes(work: seq<Arrival>, generates: bool)
    requires Clean(work)
    ensures HookGoes(work, generates).Going? && Clean(HookGoes(work, generates).rest)
    decreases |work|, 0
  {
    if work != [] && work[0].decls > 0 {
      CleanCommitGoes(work[1..], generates);
    }
  }

  /** Without errors in the work no commit raises any. */
  lemma {:induction false} CleanCommitGoes(work: seq<Arrival>, generates: bool)
    requires Clean(work)
    ensures CommitGoes(work, generates).Going? && Clean(CommitGoes(work, generates).rest)
    decreases |work|, 1
  {
    CleanGoes(work, generates);
    if generates {
      CleanGoes(HookGoes(work, generates).rest, true);
    }
  }
}
