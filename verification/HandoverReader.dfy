/**
 Where the reader of a configuration image and the contract restated beside it
 part. The reader also refuses a rule whose tracking criterion is malformed; the
 contract has no such clause. They agree on an image exactly when every malformed
 tracking criterion comes after something both refuse.
 */
module HandoverReader {
  import opened Wrappers
  import opened Chains
  import opened Prefix
  import opened Handover
  import opened HandoverContract
  import opened HandoverMeaning

  predicate TrackingPlace(p: Place) {
    p.stage == 6 && p.other == 0 && (p.row == TRACKING_ROW || p.row == TRACKING_ROW + 1)
  }

  predicate TrackingError(e: Error) {
    e.RuleError? && (e.ruleFault.TrackingUnknown? || (e.ruleFault.NotBoolean? && e.ruleFault.criterion == Tracking))
  }

  lemma RowsAgree(r: Rule, ports: nat, named: seq<Interface>, row: nat)
    ensures row != TRACKING_ROW && row != TRACKING_ROW + 1 ==>
              RuleRule(r, ports, named, true, row) == RuleRule(r, ports, named, false, row)
    ensures row == TRACKING_ROW || row == TRACKING_ROW + 1 ==> RuleRule(r, ports, named, false, row).None?
  {
  }

  lemma RowsName(r: Rule, ports: nat, named: seq<Interface>, tracked: bool, row: nat)
    ensures var f := RuleRule(r, ports, named, tracked, row);
            f.Some? ==> (TrackingError(RuleError(0, f.value)) <==> row == TRACKING_ROW || row == TRACKING_ROW + 1)
  {
  }

  /** Clause by clause the two agree, except that the contract has none at a
      tracking place. */
  lemma ClausesAgree(g: Given, h: Given, p: Place)
    requires g.tracked && h == g.(tracked := false)
    ensures !TrackingPlace(p) ==> Clause(g, p) == Clause(h, p)
    ensures TrackingPlace(p) ==> Clause(h, p).None?
  {
    if p.stage == 6 && p.other == 0 && p.index < |g.policy| { RowsAgree(g.policy[p.index], g.ports, g.named, p.row); }
  }

  lemma ClausesName(g: Given, p: Place)
    ensures Clause(g, p).Some? ==> (TrackingError(Clause(g, p).value) <==> TrackingPlace(p))
  {
    if p.stage == 6 && p.other == 0 && p.index < |g.policy| {
      RowsName(g.policy[p.index], g.ports, g.named, g.tracked, p.row);
    }
  }

  lemma TrackingRows(g: Given, i: nat)
    requires g.tracked && i < |g.policy|
    ensures !TrackingSound(g.policy[i].tracking) <==>
              Clause(g, Place(6, i, 0, TRACKING_ROW)).Some? || Clause(g, Place(6, i, 0, TRACKING_ROW + 1)).Some?
  {
  }

  // Two lists of clauses, and the first fault of each.

  ghost predicate FirstOf(list: Place -> Option<Error>, r: Option<Error>, p: Place) {
    && (r.None? ==> forall q: Place :: list(q).None?)
    && (r.Some? ==> list(p) == r && forall q: Place :: Before(q, p) ==> list(q).None?)
  }

  ghost predicate ApartFromTracking(reader: Place -> Option<Error>, contract: Place -> Option<Error>) {
    && (forall q: Place :: !TrackingPlace(q) ==> reader(q) == contract(q))
    && (forall q: Place :: TrackingPlace(q) ==> contract(q).None?)
    && (forall q: Place :: reader(q).Some? && TrackingError(reader(q).value) ==> TrackingPlace(q))
    && (forall q: Place :: reader(q).Some? && TrackingPlace(q) ==> TrackingError(reader(q).value))
  }

  ghost predicate Screened(contract: Place -> Option<Error>, q: Place) {
    exists p: Place :: Before(p, q) && contract(p).Some? && !TrackingPlace(p)
  }

  lemma ScreenedAgree(
    reader: Place -> Option<Error>, contract: Place -> Option<Error>, r: Option<Error>, c: Option<Error>,
    p: Place, q: Place)
    requires ApartFromTracking(reader, contract) && FirstOf(reader, r, p) && FirstOf(contract, c, q)
    requires forall k: Place :: TrackingPlace(k) && reader(k).Some? ==> Screened(contract, k)
    ensures r == c
  {
    if r.Some? {
      assert reader(p) == contract(p);
      assert c.Some?;
      assert reader(q) == contract(q);
      assert !Before(p, q) && !Before(q, p);
    } else if c.Some? {
      assert reader(q) == contract(q);
    }
  }

  lemma AgreeScreened(
    reader: Place -> Option<Error>, contract: Place -> Option<Error>, r: Option<Error>, p: Place, q: Place, k: Place)
    requires ApartFromTracking(reader, contract) && FirstOf(reader, r, p) && FirstOf(contract, r, q)
    requires TrackingPlace(k) && reader(k).Some?
    ensures Screened(contract, k)
  {
    assert r.Some? && !Before(k, p);
    assert contract(q) == r && !TrackingPlace(q);
    assert reader(q) == contract(q);
    assert !TrackingError(r.value);
    assert !TrackingPlace(p) && contract(p) == r;
    assert Before(p, k);
  }

  function ClausesOf(image: Image, folded: nat, ports: nat, tracked: bool): Place -> Option<Error> {
    (p: Place) => ImageClause(image, folded, ports, tracked, p)
  }

  lemma ListsAgree(image: Image, folded: nat, ports: nat)
    ensures ApartFromTracking(ClausesOf(image, folded, ports, true), ClausesOf(image, folded, ports, false))
  {
    var g, h := GivenBy(image.body, ports, true), GivenBy(image.body, ports, false);
    forall q: Place
      ensures var reader := ImageClause(image, folded, ports, true, q);
              var contract := ImageClause(image, folded, ports, false, q);
              && (!TrackingPlace(q) ==> reader == contract) && (TrackingPlace(q) ==> contract.None?)
              && (reader.Some? ==> (TrackingError(reader.value) <==> TrackingPlace(q)))
    {
      ClausesAgree(g, h, q);
      ClausesName(g, q);
    }
  }

  lemma FirstOfList(image: Image, folded: nat, ports: nat, tracked: bool) returns (p: Place)
    ensures FirstOf(ClausesOf(image, folded, ports, tracked), Refusal(image, folded, ports, tracked), p)
  {
    p := RefusalIsTheFirstFault(image, folded, ports, tracked);
    assert Refusal(image, folded, ports, tracked).Some? ==>
        FirstFault(image, folded, ports, tracked, p, Refusal(image, folded, ports, tracked).value);
  }

  /** Some rule both hold is broken before the `i`-th rule's tracking criterion is
      reached. */
  ghost predicate BrokenBefore(image: Image, folded: nat, ports: nat, i: nat) {
    Screened(ClausesOf(image, folded, ports, false), Place(6, i, 0, TRACKING_ROW))
  }

  predicate Tracked(image: Image, i: nat)
    requires i < |Covered(image.body.rules, image.body.ruleCount)|
  {
    TrackingSound(Covered(image.body.rules, image.body.ruleCount)[i].tracking)
  }

  lemma TrackingFaultIff(image: Image, folded: nat, ports: nat, i: nat)
    requires i < |Covered(image.body.rules, image.body.ruleCount)|
    ensures var reader := ClausesOf(image, folded, ports, true);
            !Tracked(image, i) <==>
              reader(Place(6, i, 0, TRACKING_ROW)).Some? || reader(Place(6, i, 0, TRACKING_ROW + 1)).Some?
  {
    TrackingRows(GivenBy(image.body, ports, true), i);
  }

  lemma NoRuleNoTracking(image: Image, folded: nat, ports: nat, q: Place)
    requires TrackingPlace(q) && ClausesOf(image, folded, ports, true)(q).Some?
    ensures q.index < |Covered(image.body.rules, image.body.ruleCount)|
  {
  }

  lemma ScreenedEitherRow(contract: Place -> Option<Error>, i: nat)
    ensures Screened(contract, Place(6, i, 0, TRACKING_ROW)) <==> Screened(contract, Place(6, i, 0, TRACKING_ROW + 1))
  {
    var a, b := Place(6, i, 0, TRACKING_ROW), Place(6, i, 0, TRACKING_ROW + 1);
    forall p: Place | Before(p, a) ensures Before(p, b) {}
    forall p: Place | Before(p, b) && !TrackingPlace(p) ensures Before(p, a) {}
  }

  /** The reader and the contract give one verdict exactly when each malformed
      tracking criterion follows a rule both find broken. */
  lemma ReaderAgreesIff(image: Image, folded: nat, ports: nat)
    ensures Refusal(image, folded, ports, true) == Refusal(image, folded, ports, false) <==>
              forall i: nat :: i < |Covered(image.body.rules, image.body.ruleCount)| && !Tracked(image, i) ==>
                BrokenBefore(image, folded, ports, i)
  {
    var reader, contract := ClausesOf(image, folded, ports, true), ClausesOf(image, folded, ports, false);
    var p := FirstOfList(image, folded, ports, true);
    var q := FirstOfList(image, folded, ports, false);
    ListsAgree(image, folded, ports);
    var n := |Covered(image.body.rules, image.body.ruleCount)|;
    if Refusal(image, folded, ports, true) == Refusal(image, folded, ports, false) {
      forall i: nat | i < n && !Tracked(image, i) ensures BrokenBefore(image, folded, ports, i) {
        TrackingFaultIff(image, folded, ports, i);
        ScreenedEitherRow(contract, i);
        var row := if reader(Place(6, i, 0, TRACKING_ROW)).Some? then TRACKING_ROW else TRACKING_ROW + 1;
        AgreeScreened(reader, contract, Refusal(image, folded, ports, true), p, q, Place(6, i, 0, row));
      }
    }
    if forall i: nat :: i < n && !Tracked(image, i) ==> BrokenBefore(image, folded, ports, i) {
      forall k: Place | TrackingPlace(k) && reader(k).Some? ensures Screened(contract, k) {
        NoRuleNoTracking(image, folded, ports, k);
        TrackingFaultIff(image, folded, ports, k.index);
        ScreenedEitherRow(contract, k.index);
      }
      ScreenedAgree(reader, contract, Refusal(image, folded, ports, true), Refusal(image, folded, ports, false), p, q);
    }
  }

  lemma RuleSoundOfBoth(r: Rule, ports: nat, named: seq<Interface>)
    ensures RuleSound(r, ports, named, true) <==> RuleSound(r, ports, named, false) && TrackingSound(r.tracking)
  {
  }

  lemma PoliciesOfBoth(g: Given, h: Given)
    requires g.tracked && h == g.(tracked := false) && PoliciesSound(h)
    ensures PoliciesSound(g) <==> forall i :: 0 <= i < |g.policy| ==> TrackingSound(g.policy[i].tracking)
  {
    forall i: nat | i < |g.policy| ensures PolicySound(g, i) <==> TrackingSound(g.policy[i].tracking) {
      assert PolicySound(h, i);
      RuleSoundOfBoth(g.policy[i], g.ports, g.named);
    }
  }

  /** An image the contract accepts is accepted by the reader exactly when every
      covered rule's tracking criterion is well formed. */
  lemma AcceptedByReaderIff(image: Image, folded: nat, ports: nat)
    requires Refusal(image, folded, ports, false).None?
    ensures Refusal(image, folded, ports, true).None? <==>
              forall i: nat :: i < |Covered(image.body.rules, image.body.ruleCount)| ==> Tracked(image, i)
  {
    AcceptedIffSound(image, folded, ports, true);
    AcceptedIffSound(image, folded, ports, false);
    var g, h := GivenBy(image.body, ports, true), GivenBy(image.body, ports, false);
    assert Sound(h);
    PoliciesOfBoth(g, h);
    SoundOfBoth(g, h);
    forall i: nat | i < |g.policy| ensures Tracked(image, i) <==> TrackingSound(g.policy[i].tracking) {}
  }

  lemma SoundOfBoth(g: Given, h: Given)
    requires g.tracked && h == g.(tracked := false) && Sound(h)
    ensures Sound(g) <==> PoliciesSound(g)
  {
    assert InterfacesSound(g) && InterfacesApart(g) && HopsSound(g) && HopsDistinct(g) by {
      forall i: nat | i < |g.named| ensures InterfaceSound(g.named[i], g.ports) && ApartFromEarlier(g, i) {
        assert ApartFromEarlier(h, i);
      }
      forall i: nat | i < |g.hops| ensures DistinctHop(g, i) { assert DistinctHop(h, i); }
    }
  }

  // --------------------------------------------------------- one such image

  /** The text `a` in the sixteen bytes every identifier is stored in. */
  function OneLetter(): Identifier { Identifier(['a' as nat] + seq(15, _ => 0), 1) }

  /** A rule that states nothing, with a tracking flag that is no boolean. */
  function Untracked(): Rule {
    var port, block, ports := Port(0, 0), Block(0, Zeros(MAX_PREFIX_LENGTH), 0), Ports(0, 0, 0);
    Rule(0, port, port, block, block, Byte(0, 0), ports, ports, Byte(0, 0), Byte(2, 0), OneLetter())
  }

  function OneRule(rule: Rule): Given {
    var off := Management(0, 0, 0, [0, 0, 0, 0, 0, 0], Zeros(MAX_PREFIX_LENGTH), Zeros(MAX_PREFIX_LENGTH));
    Given([], [], [rule], off, 0, false)
  }

  lemma UntrackedIsSound()
    ensures Sound(OneRule(Untracked()))
  {
    var g := OneRule(Untracked());
    assert RuleSound(Untracked(), 0, [], false);
    assert PolicySound(g, 0);
  }

  function OneRuleImage(digest: nat, interfaces: seq<Interface>, neighbours: seq<Neighbour>, rest: seq<Rule>): Image {
    Image(Body(0, 0, 0, 1, OneRule(Untracked()).management, interfaces, neighbours, [Untracked()] + rest), digest)
  }

  /** Images the contract accepts and the reader refuses, whatever the slots past
      the counts hold. */
  lemma ReaderRefusesWhatTheContractAccepts(
    digest: nat, interfaces: seq<Interface>, neighbours: seq<Neighbour>, rest: seq<Rule>)
    ensures var image := OneRuleImage(digest, interfaces, neighbours, rest);
            Refusal(image, digest, 0, false).None? && Refusal(image, digest, 0, true).Some?
  {
    var g, image := OneRule(Untracked()), OneRuleImage(digest, interfaces, neighbours, rest);
    assert Covered(image.body.rules, 1) == [Untracked()];
    assert GivenBy(image.body, 0, false) == g;
    UntrackedIsSound();
    AcceptedIffSound(image, digest, 0, false);
    AcceptedByReaderIff(image, digest, 0);
    assert !Tracked(image, 0);
  }
}
