/**
 The transaction over configurations as they are: every staging reads a document,
 and reading one is parsing it and holding what it says to every rule. Because a
 validated model always becomes an image, no document is refused after it has been
 staged, no commit is refused for its candidate's sake, and what is running always
 reads, in the routing domain, as what the document said.
 */
module ConfigTransaction {
  import opened Wrappers
  import opened Handover
  import opened Configuration
  import opened ConfigurationRules
  import T = Transaction
  import O = TransactionOutcomes

  /** How a document's text is parsed, and how long a model's own document is. */
  datatype Reader = Reader(parse: seq<nat> -> Option<Model>, rendered: Model -> nat)

  function Load(reader: Reader, document: seq<nat>): Option<Model> {
    var parsed := reader.parse(document);
    if parsed.Some? && Validate(parsed.value, reader.rendered(parsed.value)).None? then parsed else None
  }

  predicate Publishable(m: Model) { ImageFrom(m, 0).Ok? }

  /** The store's rules: any hash and any comparison of contents. */
  function StoreRules(hash: Model -> nat, same: (Model, Model) -> bool): T.Rules<Model> {
    T.Rules(hash, same, Publishable)
  }

  /** Each staging among the operations is of the document offered at that step. */
  predicate FromDocuments(reader: Reader, documents: nat -> seq<nat>, ops: seq<T.Op<Model>>) {
    forall k :: 0 <= k < |ops| && ops[k].Stage? ==> ops[k].read == Load(reader, documents(k))
  }

  /** Whichever generation it goes out under, the routing domain decodes exactly what
      the model means. */
  ghost predicate Taken(m: Model, fold: Body -> nat) { forall g: nat :: ReadsBack(m, g, fold) }

  lemma LoadedIsTaken(reader: Reader, document: seq<nat>, fold: Body -> nat)
    requires Load(reader, document).Some?
    ensures var m := Load(reader, document).value; Taken(m, fold) && Publishable(m)
  {
    var m := Load(reader, document).value;
    forall g: nat ensures ReadsBack(m, g, fold) { ValidatedReadsBack(m, reader.rendered(m), g, fold); }
    ValidatedBuilds(m, reader.rendered(m), 0);
  }

  lemma StartIsSound(rules: T.Rules<Model>, fold: Body -> nat)
    requires rules.publishable == Publishable
    ensures T.Inv(rules, T.Empty(rules, EMPTY)) && Taken(EMPTY, fold)
  {
    forall g: nat ensures ReadsBack(EMPTY, g, fold) {
      EmptyIsTaken(g, fold);
      TakenReadsBack(EMPTY, g, fold);
    }
    EmptyIsTaken(0, fold);
  }

  lemma OpsAreLoaded(rules: T.Rules<Model>, reader: Reader, documents: nat -> seq<nat>, ops: seq<T.Op<Model>>)
    requires rules.publishable == Publishable && FromDocuments(reader, documents, ops)
    ensures T.AllLoaded(rules, ops)
  {
    forall k | 0 <= k < |ops| ensures T.Loaded(rules, ops[k]) {
      if ops[k].Stage? && ops[k].read.Some? { LoadedIsTaken(reader, documents(k), _ => 0); }
    }
  }

  /** A document is refused exactly when it does not parse or breaks a rule, and
      then the store is what it was, candidate included; otherwise what it says is
      the candidate. */
  lemma RefusedDocumentIsNotStaged(
    hash: Model -> nat, same: (Model, Model) -> bool, reader: Reader, s: T.Store<Model>, document: seq<nat>)
    ensures var rules := StoreRules(hash, same);
            var (t, answer) := T.Serve(rules, s, T.Stage(Load(reader, document)));
            var parsed := reader.parse(document);
            && (answer.Rejected? <==>
                  parsed.None? || Validate(parsed.value, reader.rendered(parsed.value)).Some?)
            && t == if answer.Rejected? then s else s.(candidate := parsed)
  {
    if Load(reader, document).Some? { LoadedIsTaken(reader, document, _ => 0); }
    T.RejectedStagingChangesNothing(StoreRules(hash, same), s, Load(reader, document));
  }

  /** Over every run from the empty configuration: an applied commit puts in force
      what the last sound document says. */
  lemma AppliedRunsTheLastDocument(
    hash: Model -> nat, same: (Model, Model) -> bool, reader: Reader,
    documents: nat -> seq<nat>, ops: seq<T.Op<Model>>, named: nat) returns (k: nat)
    requires FromDocuments(reader, documents, ops)
    requires var rules := StoreRules(hash, same);
             T.Serve(rules, T.Run(rules, T.Empty(rules, EMPTY), ops), T.Commit(named)).1.Applied?
    ensures k < |ops| && ops[k].Stage?
    ensures forall j :: k < j < |ops| && ops[j].Stage? ==> Load(reader, documents(j)).None?
    ensures var rules := StoreRules(hash, same);
            var m := T.Step(rules, T.Run(rules, T.Empty(rules, EMPTY), ops), T.Commit(named)).model;
            reader.parse(documents(k)) == Some(m) && Validate(m, reader.rendered(m)).None?
  {
    var rules := StoreRules(hash, same);
    StartIsSound(rules, _ => 0);
    O.AppliedRunsTheLastStaged(rules, T.Empty(rules, EMPTY), ops, named);
    k := O.LastStaging(ops).value;
  }

  /** In every run over documents, from the empty configuration and in any order, no
      operation gets an answer that is not one of its own. */
  lemma EveryServedAnswerBelongs(
    hash: Model -> nat, same: (Model, Model) -> bool, reader: Reader,
    documents: nat -> seq<nat>, ops: seq<T.Op<Model>>, op: T.Op<Model>)
    requires FromDocuments(reader, documents, ops) && T.Served(op)
    ensures var rules := StoreRules(hash, same);
            T.BelongsTo(T.Serve(rules, T.Run(rules, T.Empty(rules, EMPTY), ops), op).1, op)
  {
    var rules := StoreRules(hash, same);
    OpsAreLoaded(rules, reader, documents, ops);
    StartIsSound(rules, _ => 0);
    T.EveryAnswerBelongs(rules, T.Empty(rules, EMPTY), ops, op);
  }

  /** And the configuration in force, the one a revert would put back and the one
      staged each reach the routing domain as what they mean. */
  lemma EveryRunIsTaken(
    hash: Model -> nat, same: (Model, Model) -> bool, reader: Reader,
    documents: nat -> seq<nat>, ops: seq<T.Op<Model>>, fold: Body -> nat)
    requires FromDocuments(reader, documents, ops)
    ensures var rules := StoreRules(hash, same);
            var s := T.Run(rules, T.Empty(rules, EMPTY), ops);
            && Taken(s.model, fold)
            && (s.candidate.Some? ==> Taken(s.candidate.value, fold))
            && (s.displaced.Some? ==> Taken(s.displaced.value.model, fold))
  {
    var rules := StoreRules(hash, same);
    var p := (m: Model) => Taken(m, fold);
    StartIsSound(rules, fold);
    forall k | 0 <= k < |ops| && ops[k].Stage? && ops[k].read.Some? ensures p(ops[k].read.value) {
      LoadedIsTaken(reader, documents(k), fold);
    }
    T.RunHolds(rules, T.Empty(rules, EMPTY), ops, p);
  }
}
