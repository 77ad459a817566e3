/**
 What each answer of the datastore means: exactly when it is given, and exactly
 what has changed by then. Generations are written out as numbers here, past the
 running one and the medium's.
 */
module TransactionOutcomes {
  import opened Wrappers
  import opened Transaction

  function Max(a: nat, b: nat): nat { if a < b then b else a }

  function Min(a: nat, b: nat): nat { if a < b then a else b }

  /** The number the next configuration would carry, were the word unbounded. */
  function Past<M>(s: Store<M>): nat { Max(s.generation, s.durable) + 1 }

  lemma NextIsOnePast<M>(rules: Rules<M>, s: Store<M>)
    requires Inv(rules, s)
    ensures NextGeneration(s) == if Past(s) <= U32_MAX then Some(Past(s)) else None
  {
  }

  /** A candidate that may be published under the generation named. */
  predicate Committable<M>(rules: Rules<M>, s: Store<M>, named: nat) {
    named == Past(s) <= U32_MAX && s.candidate.Some? && rules.publishable(s.candidate.value)
  }

  /** The candidate hashes and reads as what is running. */
  predicate Same<M>(rules: Rules<M>, s: Store<M>)
    requires s.candidate.Some?
  {
    rules.hash(s.candidate.value) == rules.hash(s.model) && rules.same(s.candidate.value, s.model)
  }

  /** A commit is applied exactly to a publishable candidate that differs from what
      runs, under the next generation; it is then what runs, and what it displaced
      is kept. */
  lemma AppliedIff<M>(rules: Rules<M>, s: Store<M>, named: nat, g: nat)
    requires Inv(rules, s)
    ensures var (t, answer) := Serve(rules, s, Commit(named));
            && (answer == Applied(g) <==> g == named && Committable(rules, s, named) && !Same(rules, s))
            && (answer == Applied(g) ==>
                  && Some(t.model) == s.candidate && t.hash == rules.hash(t.model) && t.generation == g
                  && t.candidate.None? && t.durable == s.durable
                  && t.displaced == Some(Displaced(g, s.generation, s.hash, s.model)))
  {
    NextIsOnePast(rules, s);
  }

  /** It is unchanged exactly for one that does not differ, and clears it. */
  lemma UnchangedIff<M>(rules: Rules<M>, s: Store<M>, named: nat, g: nat)
    requires Inv(rules, s)
    ensures var (t, answer) := Serve(rules, s, Commit(named));
            && (answer == Unchanged(g) <==> g == s.generation && Committable(rules, s, named) && Same(rules, s))
            && (answer == Unchanged(g) ==> t.candidate.None? && t.(candidate := s.candidate) == s)
  {
    NextIsOnePast(rules, s);
  }

  /** Anything else is a refusal that changes nothing, and says the first reason. */
  lemma RefusedCommit<M>(rules: Rules<M>, s: Store<M>, named: nat)
    requires Inv(rules, s) && !Committable(rules, s, named)
    ensures var (t, answer) := Serve(rules, s, Commit(named));
            && t == s
            && (answer == Exhausted(s.generation) <==> Past(s) > U32_MAX)
            && (answer == GenerationMismatch(Past(s)) <==> named != Past(s) <= U32_MAX)
            && (answer == NoCandidate(s.generation) <==> named == Past(s) <= U32_MAX && s.candidate.None?)
            && (answer == Rejected(s.generation) <==> named == Past(s) <= U32_MAX && s.candidate.Some?)
  {
    NextIsOnePast(rules, s);
  }

  /** A confirmation settles what is outstanding exactly when it names the running
      generation, and otherwise changes nothing. */
  lemma ConfirmedIff<M>(rules: Rules<M>, s: Store<M>, named: nat)
    requires Inv(rules, s)
    ensures var (t, answer) := Serve(rules, s, Confirm(named));
            if s.displaced.Some? && named == s.generation then
              answer == Confirmed(named) && t.displaced.None? && t.(displaced := s.displaced) == s
            else
              && t == s
              && answer == if s.displaced.None? then NotProvisional(s.generation) else GenerationMismatch(s.generation)
  {
  }

  /** A revert is made exactly where a commit is outstanding and a generation is
      left; the candidate and the floor stay. */
  lemma RolledBackIff<M>(rules: Rules<M>, s: Store<M>)
    requires Inv(rules, s)
    ensures var (t, answer) := Serve(rules, s, Rollback);
            if s.displaced.Some? && Past(s) <= U32_MAX then
              var d := s.displaced.value;
              && answer == RolledBack(Past(s)) && t.generation == Past(s) && t.displaced.None?
              && t.model == d.model && t.hash == rules.hash(d.model)
              && t.candidate == s.candidate && t.durable == s.durable
            else answer == NotProvisional(s.generation) && t == s
  {
    NextIsOnePast(rules, s);
  }

  /** A staging answers with the number the next commit must name, or with the
      last there is. */
  lemma StagedIff<M>(rules: Rules<M>, s: Store<M>, read: Option<M>)
    requires Inv(rules, s)
    ensures var (t, answer) := Serve(rules, s, Stage(read));
            && t == s.(candidate := if read.Some? then read else s.candidate)
            && answer == if read.Some? && rules.publishable(read.value) then Staged(Min(Past(s), U32_MAX))
                         else Rejected(s.generation)
  {
  }

  // ------------------------------------------------------------------------ runs

  /** The last staging of a document that read. */
  function LastStaging<M>(ops: seq<Op<M>>): (at: Option<nat>)
    ensures at.Some? ==> at.value < |ops| && ops[at.value].Stage? && ops[at.value].read.Some?
    ensures var from := if at.Some? then at.value + 1 else 0;
            forall k :: from <= k < |ops| ==> !(ops[k].Stage? && ops[k].read.Some?)
  {
    if ops == [] then None
    else
      var last := ops[|ops| - 1];
      if last.Stage? && last.read.Some? then Some(|ops| - 1) else LastStaging(ops[..|ops| - 1])
  }

  lemma {:induction false} CandidateIsLastStaged<M>(rules: Rules<M>, s: Store<M>, ops: seq<Op<M>>)
    requires s.candidate.None?
    ensures var u := Run(rules, s, ops);
            u.candidate.Some? ==> LastStaging(ops).Some? && u.candidate == ops[LastStaging(ops).value].read
  {
    if ops != [] { CandidateIsLastStaged(rules, s, ops[..|ops| - 1]); }
  }

  /** Over every run: a commit that is applied puts in force the model of the last
      document that read, whatever was confirmed, reverted or refused between. */
  lemma AppliedRunsTheLastStaged<M>(rules: Rules<M>, s: Store<M>, ops: seq<Op<M>>, named: nat)
    requires Inv(rules, s) && s.candidate.None?
    requires Serve(rules, Run(rules, s, ops), Commit(named)).1.Applied?
    ensures var t := Step(rules, Run(rules, s, ops), Commit(named));
            && LastStaging(ops).Some?
            && Some(t.model) == ops[LastStaging(ops).value].read
            && t.hash == rules.hash(t.model) && t.generation == named
  {
    RunKeepsInv(rules, s, ops);
    CandidateIsLastStaged(rules, s, ops);
    AppliedIff(rules, Run(rules, s, ops), named, named);
  }
}
