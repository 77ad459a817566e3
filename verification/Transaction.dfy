/**
 A datastore that a management server steps: it stages, commits, confirms and
 reverts configurations in any order it likes. What a configuration
 is, how it is hashed, when two have the same content and whether one can be
 published are given as `Rules`; the store never looks inside one.
 */
module Transaction {
  import opened Wrappers

  const U32_MAX: nat := 0xffff_ffff

  datatype Rules<!M> = Rules(hash: M -> nat, same: (M, M) -> bool, publishable: M -> bool)

  datatype Displaced<M> = Displaced(provisional: nat, generation: nat, hash: nat, model: M)

  datatype Store<M> = Store(
    generation: nat, hash: nat, model: M, candidate: Option<M>, displaced: Option<Displaced<M>>, durable: nat)

  datatype Op<M> =
    | Stage(read: Option<M>)          // what reading the document yields
    | Commit(named: nat)
    | Confirm(named: nat)
    | Rollback
    | Submit
    | Read
    | Observe(recorded: nat)          // not the channel's: a medium records this version

  datatype Answer =
    | Staged(generation: nat) | Rejected(generation: nat) | Applied(generation: nat) | Unchanged(generation: nat)
    | NoCandidate(generation: nat) | Exhausted(generation: nat) | GenerationMismatch(generation: nat)
    | Confirmed(generation: nat) | NotProvisional(generation: nat) | RolledBack(generation: nat)
    | NoSuchOperation

  function Empty<M>(rules: Rules<M>, empty: M): Store<M> {
    Store(0, rules.hash(empty), empty, None, None, 0)
  }

  /** No generation is handed out at or below this. */
  function Latest<M>(s: Store<M>): nat { if s.durable > s.generation then s.durable else s.generation }

  function Successor(g: nat): nat { if g < U32_MAX then g + 1 else U32_MAX }

  function NextGeneration<M>(s: Store<M>): Option<nat> {
    if Successor(Latest(s)) == Latest(s) then None else Some(Successor(Latest(s)))
  }

  /** The document is the candidate before its model is tried for publication. */
  function StageAt<M>(rules: Rules<M>, s: Store<M>, read: Option<M>): (Store<M>, Answer) {
    match read
    case None => (s, Rejected(s.generation))
    case Some(model) =>
      var t := s.(candidate := Some(model));
      (t, if rules.publishable(model) then Staged(Successor(Latest(s))) else Rejected(s.generation))
  }

  /** The candidate becomes the running configuration, keeping what it displaces. */
  function ApplyAt<M>(rules: Rules<M>, s: Store<M>, next: M, generation: nat): Store<M> {
    var displaced := Displaced(generation, s.generation, s.hash, s.model);
    Store(generation, rules.hash(next), next, None, Some(displaced), s.durable)
  }

  predicate SameAsRunning<M>(rules: Rules<M>, s: Store<M>, next: M) {
    rules.hash(next) == s.hash && rules.same(next, s.model)
  }

  function CommitAt<M>(rules: Rules<M>, s: Store<M>, named: nat): (Store<M>, Answer) {
    var next := NextGeneration(s);
    if next.None? then (s, Exhausted(s.generation))
    else if next.value != named then (s, GenerationMismatch(next.value))
    else if s.candidate.None? then (s, NoCandidate(s.generation))
    else if !rules.publishable(s.candidate.value) then (s, Rejected(s.generation))
    else if SameAsRunning(rules, s, s.candidate.value) then (s.(candidate := None), Unchanged(s.generation))
    else (ApplyAt(rules, s, s.candidate.value, next.value), Applied(next.value))
  }

  function ConfirmAt<M>(s: Store<M>, named: nat): (Store<M>, Answer) {
    if s.displaced.None? then (s, NotProvisional(s.generation))
    else if s.displaced.value.provisional != named then (s, GenerationMismatch(s.displaced.value.provisional))
    else (s.(displaced := None), Confirmed(named))
  }

  /** The displaced configuration runs again, newly numbered; the candidate stays. */
  function RevertAt<M>(rules: Rules<M>, s: Store<M>): (Store<M>, Answer) {
    var next := NextGeneration(s);
    if s.displaced.None? || next.None? || !rules.publishable(s.displaced.value.model) then
      (s, NotProvisional(s.generation))
    else
      var d := s.displaced.value;
      (s.(generation := next.value, hash := d.hash, model := d.model, displaced := None), RolledBack(next.value))
  }

  /** One operation, and the answer to it. */
  function Serve<M>(rules: Rules<M>, s: Store<M>, op: Op<M>): (Store<M>, Answer) {
    match op
    case Stage(read) => StageAt(rules, s, read)
    case Commit(named) => CommitAt(rules, s, named)
    case Confirm(named) => ConfirmAt(s, named)
    case Rollback => RevertAt(rules, s)
    case Submit => (s, NoSuchOperation)
    case Read => (s, NoSuchOperation)
    case Observe(recorded) => (ObserveAt(s, recorded), NoSuchOperation)
  }

  /** Anything past the top of the word counts as the top. */
  function ObserveAt<M>(s: Store<M>, recorded: nat): Store<M> {
    if recorded > U32_MAX then s.(durable := U32_MAX)
    else if recorded <= s.durable then s
    else s.(durable := recorded)
  }

  function Step<M>(rules: Rules<M>, s: Store<M>, op: Op<M>): Store<M> { Serve(rules, s, op).0 }

  function Run<M>(rules: Rules<M>, s: Store<M>, ops: seq<Op<M>>): Store<M> {
    if ops == [] then s else Step(rules, Run(rules, s, ops[..|ops| - 1]), ops[|ops| - 1])
  }

  // ------------------------------------------------------------------ every state

  /** An outstanding commit is the running generation, everything in force or held
      to go back can be published, and the hash is the running model's. */
  predicate Inv<M>(rules: Rules<M>, s: Store<M>) {
    && s.generation <= U32_MAX && s.durable <= U32_MAX
    && rules.publishable(s.model) && s.hash == rules.hash(s.model)
    && (s.displaced.Some? ==>
          && s.displaced.value.provisional == s.generation
          && s.displaced.value.generation < s.generation
          && rules.publishable(s.displaced.value.model)
          && s.displaced.value.hash == rules.hash(s.displaced.value.model))
  }

  lemma StepKeepsInv<M>(rules: Rules<M>, s: Store<M>, op: Op<M>)
    requires Inv(rules, s)
    ensures Inv(rules, Step(rules, s, op)) && s.generation <= Step(rules, s, op).generation
  {
  }

  lemma {:induction false} RunKeepsInv<M>(rules: Rules<M>, s: Store<M>, ops: seq<Op<M>>)
    requires Inv(rules, s)
    ensures Inv(rules, Run(rules, s, ops)) && s.generation <= Run(rules, s, ops).generation
  {
    if ops != [] {
      RunKeepsInv(rules, s, ops[..|ops| - 1]);
      StepKeepsInv(rules, Run(rules, s, ops[..|ops| - 1]), ops[|ops| - 1]);
    }
  }

  /** A medium's reading raises the floor to itself, or to the top of the word, and
      never lowers it; the next generation is past it, and nothing else moves. */
  lemma FloorRises<M>(rules: Rules<M>, s: Store<M>, recorded: nat)
    requires Inv(rules, s)
    ensures var t := ObserveAt(s, recorded);
            && t.(durable := s.durable) == s
            && s.durable <= t.durable && (recorded <= U32_MAX ==> recorded <= t.durable)
            && (t.durable == s.durable || t.durable == recorded || t.durable == U32_MAX < recorded)
            && (recorded > U32_MAX ==> t.durable == U32_MAX)
            && (NextGeneration(t).Some? ==> NextGeneration(t).value > t.durable)
  {
  }

  // --------------------------------------------------------- what a revert restores

  /** A commit took effect. */
  predicate Took<M>(s: Store<M>, t: Store<M>) { t.generation > s.generation }

  lemma CommitDisplaces<M>(rules: Rules<M>, s: Store<M>, named: nat)
    requires Inv(rules, s) && Took(s, Step(rules, s, Commit(named)))
    ensures var t := Step(rules, s, Commit(named));
            t.displaced == Some(Displaced(t.generation, s.generation, s.hash, s.model))
  {
  }

  /** Generations name commits: while the outstanding one carries a commit's
      generation, what it displaced is untouched. */
  lemma {:induction false} OutstandingIsKept<M>(rules: Rules<M>, t: Store<M>, between: seq<Op<M>>)
    requires Inv(rules, t) && t.displaced.Some?
    ensures var u := Run(rules, t, between);
            u.displaced.Some? && u.displaced.value.provisional == t.generation ==> u.displaced == t.displaced
  {
    if between != [] {
      var before, op := between[..|between| - 1], between[|between| - 1];
      OutstandingIsKept(rules, t, before);
      RunKeepsInv(rules, t, before);
      OneStepKeeps(rules, t, Run(rules, t, before), op);
    }
  }

  lemma OneStepKeeps<M>(rules: Rules<M>, t: Store<M>, u: Store<M>, op: Op<M>)
    requires Inv(rules, u) && t.displaced.Some? && t.generation <= u.generation
    requires u.displaced.Some? && u.displaced.value.provisional == t.generation ==> u.displaced == t.displaced
    ensures var v := Step(rules, u, op);
            v.displaced.Some? && v.displaced.value.provisional == t.generation ==> v.displaced == t.displaced
  {
  }

  /** A revert puts back exactly the configuration in force before the commit it
      undoes, under a newer generation, whatever came between. */
  lemma RevertRestores<M>(rules: Rules<M>, s: Store<M>, named: nat, between: seq<Op<M>>)
    requires Inv(rules, s) && Took(s, Step(rules, s, Commit(named)))
    requires var t := Step(rules, s, Commit(named));
             var u := Run(rules, t, between);
             u.displaced.Some? && u.displaced.value.provisional == t.generation && NextGeneration(u).Some?
    ensures var u := Run(rules, Step(rules, s, Commit(named)), between);
            var v := Step(rules, u, Rollback);
            && v.model == s.model && v.hash == s.hash && v.generation > u.generation
            && v.displaced.None? && v.candidate == u.candidate
  {
    var t := Step(rules, s, Commit(named));
    CommitDisplaces(rules, s, named);
    StepKeepsInv(rules, s, Commit(named));
    OutstandingIsKept(rules, t, between);
    RunKeepsInv(rules, t, between);
  }

  /** Stages, refused commits, mismatched confirmations and the rest leave a
      commit outstanding. */
  predicate Harmless<M>(rules: Rules<M>, s: Store<M>, op: Op<M>) {
    match op
    case Stage(_) => true
    case Commit(named) =>
      || NextGeneration(s) != Some(named) || s.candidate.None? || !rules.publishable(s.candidate.value)
      || SameAsRunning(rules, s, s.candidate.value)
    case Confirm(named) => named != s.generation
    case Rollback => NextGeneration(s).None?
    case Submit => true case Read => true case Observe(_) => true
  }

  /** Exactly the harmless operations leave an outstanding commit outstanding. */
  lemma HarmlessIff<M>(rules: Rules<M>, s: Store<M>, op: Op<M>)
    requires Inv(rules, s) && s.displaced.Some?
    ensures Harmless(rules, s, op) <==> Step(rules, s, op).displaced == s.displaced
    ensures Harmless(rules, s, op) ==>
              Step(rules, s, op).model == s.model && Step(rules, s, op).generation == s.generation
  {
  }

  predicate AllHarmless<M>(rules: Rules<M>, s: Store<M>, ops: seq<Op<M>>) {
    ops == [] ||
    (AllHarmless(rules, s, ops[..|ops| - 1]) && Harmless(rules, Run(rules, s, ops[..|ops| - 1]), ops[|ops| - 1]))
  }

  lemma {:induction false} HarmlessRunKeeps<M>(rules: Rules<M>, t: Store<M>, between: seq<Op<M>>)
    requires Inv(rules, t) && t.displaced.Some? && AllHarmless(rules, t, between)
    ensures var u := Run(rules, t, between);
            u.displaced == t.displaced && u.model == t.model && u.generation == t.generation
  {
    if between != [] {
      var before := between[..|between| - 1];
      HarmlessRunKeeps(rules, t, before);
      RunKeepsInv(rules, t, before);
      HarmlessIff(rules, Run(rules, t, before), between[|between| - 1]);
    }
  }

  /** So however many of them came between, the revert restores what the commit
      displaced, as long as a generation is left to run it under. */
  lemma RevertAfterHarmless<M>(rules: Rules<M>, s: Store<M>, named: nat, between: seq<Op<M>>)
    requires Inv(rules, s) && Took(s, Step(rules, s, Commit(named)))
    requires AllHarmless(rules, Step(rules, s, Commit(named)), between)
    ensures var u := Run(rules, Step(rules, s, Commit(named)), between);
            NextGeneration(u).Some? ==> Step(rules, u, Rollback).model == s.model
  {
    var t := Step(rules, s, Commit(named));
    CommitDisplaces(rules, s, named);
    StepKeepsInv(rules, s, Commit(named));
    HarmlessRunKeeps(rules, t, between);
    if NextGeneration(Run(rules, t, between)).Some? { RevertRestores(rules, s, named, between); }
  }

  /** A confirmation that names another generation settles nothing at all. */
  lemma WrongConfirmationSettlesNothing<M>(rules: Rules<M>, s: Store<M>, named: nat)
    requires Inv(rules, s) && s.displaced.Some?
    ensures named != s.generation <==> Step(rules, s, Confirm(named)) == s
  {
  }

  /** With nothing outstanding, nothing but an applied commit makes anything
      revertible again: a confirmed commit is unrevertable. */
  lemma {:induction false} ConfirmedIsFinal<M>(rules: Rules<M>, s: Store<M>, ops: seq<Op<M>>)
    requires Inv(rules, s) && s.displaced.None? && Run(rules, s, ops).generation == s.generation
    ensures var u := Run(rules, s, ops);
            && u.displaced.None? && u.model == s.model
            && Serve(rules, u, Rollback) == (u, NotProvisional(u.generation))
  {
    if ops != [] {
      var before := ops[..|ops| - 1];
      RunKeepsInv(rules, s, before);
      StepKeepsInv(rules, Run(rules, s, before), ops[|ops| - 1]);
      ConfirmedIsFinal(rules, s, before);
    }
  }

  /** A staging writes the candidate and no other field. */
  lemma StagingMovesNothing<M>(rules: Rules<M>, s: Store<M>, read: Option<M>)
    ensures Step(rules, s, Stage(read)) == s.(candidate := if read.Some? then read else s.candidate)
  {
  }

  /** Where equal content hashes alike, comparing hashes first never changes the
      answer. */
  lemma DigestOnlyHurries<M(!new)>(rules: Rules<M>, s: Store<M>, next: M)
    requires Inv(rules, s)
    requires forall a: M, b: M :: rules.same(a, b) ==> rules.hash(a) == rules.hash(b)
    ensures SameAsRunning(rules, s, next) <==> rules.same(next, s.model)
  {
  }

  // ------------------------------------------------- where a claim has a condition

  /** A revert of an outstanding commit raises the generation exactly when there is
      a generation left; otherwise it changes nothing and says nothing was
      outstanding. */
  lemma RevertRaisesIff<M>(rules: Rules<M>, s: Store<M>)
    requires Inv(rules, s) && s.displaced.Some?
    ensures NextGeneration(s).Some? <==> Step(rules, s, Rollback).generation > s.generation
    ensures NextGeneration(s).None? <==> Serve(rules, s, Rollback) == (s, NotProvisional(s.generation))
  {
  }

  /** A store whose medium records the last version there is. */
  lemma ExhaustedRevert<M>(rules: Rules<M>, empty: M, next: M)
    requires rules.publishable(empty) && rules.publishable(next) && !rules.same(next, empty)
    ensures var s := Run(rules, Empty(rules, empty), [Stage(Some(next)), Commit(1), Observe(U32_MAX)]);
            s.displaced.Some? && s.model == next && Step(rules, s, Rollback) == s
  {
    var start := Empty(rules, empty);
    var ops: seq<Op<M>> := [Stage(Some(next)), Commit(1), Observe(U32_MAX)];
    var one, two := ops[..1], ops[..2];
    assert ops[..2][..1] == one && one[..0] == [];
    assert Run(rules, start, one) == start.(candidate := Some(next));
    assert Run(rules, start, two) == ApplyAt(rules, start.(candidate := Some(next)), next, 1);
  }

  predicate BelongsTo<M>(answer: Answer, op: Op<M>) {
    match answer
    case Applied(_) => op.Submit? || op.Commit?
    case Unchanged(_) => op.Submit? || op.Commit?
    case Exhausted(_) => op.Submit? || op.Commit?
    case Rejected(_) => op.Submit? || op.Stage?
    case Staged(_) => op.Stage?
    case Confirmed(_) => op.Confirm?
    case RolledBack(_) => op.Rollback?
    case NoCandidate(_) => op.Commit?
    case NotProvisional(_) => op.Confirm? || op.Rollback?
    case GenerationMismatch(_) => op.Commit? || op.Confirm?
    case NoSuchOperation => false
  }

  predicate Served<M>(op: Op<M>) { op.Stage? || op.Commit? || op.Confirm? || op.Rollback? }

  /** The one answer that would not belong to its operation: a commit refused for
      its candidate's sake. */
  lemma AnswerBelongsIff<M>(rules: Rules<M>, s: Store<M>, op: Op<M>)
    requires Served(op)
    ensures BelongsTo(Serve(rules, s, op).1, op) <==>
              !(&& op.Commit? && NextGeneration(s) == Some(op.named)
                && s.candidate.Some? && !rules.publishable(s.candidate.value))
  {
  }

  // ------------------------------------------------ where reading yields only models

  /** What a staging reads can be published: `ConfigTransaction` shows it of every
      document that validates. */
  predicate Loaded<M>(rules: Rules<M>, op: Op<M>) {
    op.Stage? && op.read.Some? ==> rules.publishable(op.read.value)
  }

  predicate AllLoaded<M>(rules: Rules<M>, ops: seq<Op<M>>) {
    forall k :: 0 <= k < |ops| ==> Loaded(rules, ops[k])
  }

  predicate Holds<M>(s: Store<M>, p: M -> bool) {
    && p(s.model) && (s.candidate.Some? ==> p(s.candidate.value))
    && (s.displaced.Some? ==> p(s.displaced.value.model))
  }

  /** What is true of every model read is true of every model a run ever holds. */
  lemma {:induction false} RunHolds<M>(rules: Rules<M>, s: Store<M>, ops: seq<Op<M>>, p: M -> bool)
    requires Holds(s, p) && forall k :: 0 <= k < |ops| && ops[k].Stage? && ops[k].read.Some? ==> p(ops[k].read.value)
    ensures Holds(Run(rules, s, ops), p)
  {
    if ops != [] { RunHolds(rules, s, ops[..|ops| - 1], p); }
  }

  /** A rejected staging is a document that did not read, and it changes nothing. */
  lemma RejectedStagingChangesNothing<M>(rules: Rules<M>, s: Store<M>, read: Option<M>)
    requires Loaded(rules, Stage(read))
    ensures Serve(rules, s, Stage(read)).1.Rejected? <==> read.None?
    ensures Serve(rules, s, Stage(read)).1.Rejected? ==> Step(rules, s, Stage(read)) == s
  {
  }

  /** A document staged without refusal is one the next commit does not refuse. */
  lemma StagedIsCommitted<M>(rules: Rules<M>, s: Store<M>, read: Option<M>)
    requires Inv(rules, s) && Loaded(rules, Stage(read)) && Serve(rules, s, Stage(read)).1.Staged?
    ensures var t := Step(rules, s, Stage(read));
            var next := NextGeneration(t);
            next.Some? ==>
              && Serve(rules, s, Stage(read)).1 == Staged(next.value)
              && var answer := Serve(rules, t, Commit(next.value)).1;
                 || answer == Applied(next.value)
                 || (answer == Unchanged(s.generation) && SameAsRunning(rules, s, read.value))
  {
  }

  /** In a run whose stagings read only models that can be published, no answer is
      one its operation does not have. */
  lemma EveryAnswerBelongs<M>(rules: Rules<M>, s: Store<M>, ops: seq<Op<M>>, op: Op<M>)
    requires Inv(rules, s) && (s.candidate.Some? ==> rules.publishable(s.candidate.value))
    requires AllLoaded(rules, ops) && Served(op)
    ensures BelongsTo(Serve(rules, Run(rules, s, ops), op).1, op)
  {
    RunHolds(rules, s, ops, rules.publishable);
    AnswerBelongsIff(rules, Run(rules, s, ops), op);
  }

  // ------------------------------------------------------------------ the datastore

  /** Each operation's answer, from the state the ones before it left. */
  predicate Answered<M>(rules: Rules<M>, s: Store<M>, ops: seq<Op<M>>, answers: seq<Answer>) {
    && |answers| == |ops|
    && forall k :: 0 <= k < |ops| ==> answers[k] == Serve(rules, Run(rules, s, ops[..k]), ops[k]).1
  }

  lemma OneMoreAnswered<M>(
    rules: Rules<M>, s: Store<M>, ops: seq<Op<M>>, k: nat, answers: seq<Answer>, answer: Answer)
    requires k < |ops| && Answered(rules, s, ops[..k], answers)
    requires answer == Serve(rules, Run(rules, s, ops[..k]), ops[k]).1
    ensures Answered(rules, s, ops[..k + 1], answers + [answer])
    ensures Run(rules, s, ops[..k + 1]) == Step(rules, Run(rules, s, ops[..k]), ops[k])
  {
    assert ops[..k + 1][..k] == ops[..k];
    forall j | 0 <= j < k ensures (answers + [answer])[j] == Serve(rules, Run(rules, s, ops[..k + 1][..j]), ops[j]).1 {
      assert ops[..k + 1][..j] == ops[..k][..j];
    }
  }

  class Datastore<M> {
    const rules: Rules<M>
    var generation: nat
    var hash: nat
    var model: M
    var candidate: Option<M>
    var displaced: Option<Displaced<M>>
    var durable: nat

    ghost function Contents(): Store<M>
      reads this
    {
      Store(generation, hash, model, candidate, displaced, durable)
    }

    constructor (rules: Rules<M>, empty: M)
      ensures this.rules == rules && Contents() == Empty(rules, empty)
    {
      this.rules := rules;
      generation, hash, model := 0, rules.hash(empty), empty;
      candidate, displaced, durable := None, None, 0;
    }

    method Next() returns (next: Option<nat>)
      ensures next == NextGeneration(Contents())
    {
      var latest := if durable > generation then durable else generation;
      var successor := if latest < U32_MAX then latest + 1 else U32_MAX;
      next := if successor == latest then None else Some(successor);
    }

    method StageDocument(read: Option<M>) returns (answer: Answer)
      modifies `candidate
      ensures (Contents(), answer) == StageAt(rules, old(Contents()), read)
    {
      if read.None? {
        return Rejected(generation);
      }
      candidate := read;
      if !rules.publishable(read.value) {
        return Rejected(generation);
      }
      var next := Next();
      answer := Staged(if next.Some? then next.value else U32_MAX);
    }

    method CommitProvisionally(named: nat) returns (answer: Answer)
      modifies this
      ensures (Contents(), answer) == CommitAt(rules, old(Contents()), named)
    {
      var next := Next();
      if next.None? {
        return Exhausted(generation);
      }
      if next.value != named {
        return GenerationMismatch(next.value);
      }
      if candidate.None? {
        return NoCandidate(generation);
      }
      if !rules.publishable(candidate.value) {
        return Rejected(generation);
      }
      if rules.hash(candidate.value) == hash && rules.same(candidate.value, model) {
        candidate := None;
        return Unchanged(generation);
      }
      displaced := Some(Displaced(next.value, generation, hash, model));
      generation := next.value;
      hash := rules.hash(candidate.value);
      model := candidate.value;
      candidate := None;
      answer := Applied(generation);
    }

    method ConfirmCommit(named: nat) returns (answer: Answer)
      modifies `displaced
      ensures (Contents(), answer) == ConfirmAt(old(Contents()), named)
    {
      if displaced.None? {
        return NotProvisional(generation);
      }
      if displaced.value.provisional != named {
        return GenerationMismatch(displaced.value.provisional);
      }
      displaced := None;
      answer := Confirmed(named);
    }

    method RollBack() returns (answer: Answer)
      modifies this
      ensures (Contents(), answer) == RevertAt(rules, old(Contents()))
    {
      var next := Next();
      if displaced.None? || next.None? || !rules.publishable(displaced.value.model) {
        return NotProvisional(generation);
      }
      generation, hash, model := next.value, displaced.value.hash, displaced.value.model;
      displaced := None;
      answer := RolledBack(generation);
    }

    /** The floor every assigned generation is past. */
    method ObserveDurable(recorded: nat)
      modifies `durable
      ensures Contents() == ObserveAt(old(Contents()), recorded)
      ensures old(durable) <= U32_MAX ==> old(durable) <= durable <= U32_MAX
    {
      if recorded > U32_MAX {
        durable := U32_MAX;
      } else if recorded > durable {
        durable := recorded;
      }
    }

    method ServeOne(op: Op<M>) returns (answer: Answer)
      modifies this
      ensures (Contents(), answer) == Serve(rules, old(Contents()), op)
    {
      match op {
        case Stage(read) => answer := StageDocument(read);
        case Commit(named) => answer := CommitProvisionally(named);
        case Confirm(named) => answer := ConfirmCommit(named);
        case Rollback => answer := RollBack();
        case Submit => answer := NoSuchOperation;
        case Read => answer := NoSuchOperation;
        case Observe(recorded) =>
          ObserveDurable(recorded);
          answer := NoSuchOperation;
      }
    }

    /** A whole run: the invariant holds after every step, the generation never
        falls, and each answer is the one the state it met calls for. */
    method Transact(ops: seq<Op<M>>) returns (answers: seq<Answer>)
      requires Inv(rules, Contents())
      modifies this
      ensures Contents() == Run(rules, old(Contents()), ops) && Answered(rules, old(Contents()), ops, answers)
      ensures Inv(rules, Contents()) && old(generation) <= generation
    {
      ghost var start := Contents();
      answers := [];
      var k := 0;
      while k < |ops|
        invariant k <= |ops| && Contents() == Run(rules, start, ops[..k])
        invariant Answered(rules, start, ops[..k], answers)
      {
        ghost var answer := Serve(rules, Contents(), ops[k]).1;
        OneMoreAnswered(rules, start, ops, k, answers, answer);
        var now := ServeOne(ops[k]);
        answers := answers + [now];
        k := k + 1;
      }
      assert ops[..k] == ops;
      RunKeepsInv(rules, start, ops);
    }
  }
}
