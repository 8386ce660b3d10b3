/** Evidence that a ladder was closed outside the program: what completes it, and that the
    recorded completeness never regresses. */
module ExternalSettlement {
  import opened Prelude

  type Token = nat

  datatype Expected = Expected(token: Token, plannedLiquidity: nat)

  datatype LegEvidence = LegEvidence(
    index: nat, token: Token, removed: nat, token0: int, token1: int, gas: int, identityProven: bool,
    principal: Option<(nat, nat)>, usdMicros: Option<int>)

  datatype FollowOn = PROVEN_NONE | ATTRIBUTED | UNATTRIBUTED_OR_AMBIGUOUS
  datatype Evidence = Evidence(legs: seq<LegEvidence>, followOn: FollowOn, observedThrough: nat)
  datatype Completeness = INCOMPLETE | PARTIAL | FULL

  function Rank(c: Completeness): nat {
    match c case FULL => 3 case PARTIAL => 2 case INCOMPLETE => 1
  }

  // ---- validation ----

  predicate Matches(expected: seq<Expected>, leg: LegEvidence) {
    leg.index < |expected| && expected[leg.index].token == leg.token && leg.removed == expected[leg.index].plannedLiquidity
    && leg.token0 >= 0 && leg.token1 >= 0 && leg.gas >= 0 && leg.identityProven
  }

  /** Every leg matches its planned one, and none is named twice. */
  predicate ValidLegs(expected: seq<Expected>, legs: seq<LegEvidence>) {
    (forall i :: 0 <= i < |legs| ==> Matches(expected, legs[i]))
    && (forall i, j :: 0 <= i < j < |legs| ==> legs[i].token != legs[j].token)
  }

  /** The validation loop with its set of tokens already seen. */
  method Validate(expected: seq<Expected>, legs: seq<LegEvidence>) returns (ok: bool)
    ensures ok <==> ValidLegs(expected, legs)
    ensures ok <==>
              && (forall i, j :: 0 <= i < j < |legs| ==> legs[i].token != legs[j].token)
              && (forall i :: 0 <= i < |legs| ==>
                    legs[i].index < |expected| && legs[i].token == expected[legs[i].index].token
                    && legs[i].removed == expected[legs[i].index].plannedLiquidity
                    && legs[i].token0 >= 0 && legs[i].token1 >= 0 && legs[i].gas >= 0 && legs[i].identityProven)
  {
    var seen: set<Token> := {};
    for i := 0 to |legs|
      invariant forall k :: 0 <= k < i ==> Matches(expected, legs[k])
      invariant forall j, k :: 0 <= j < k < i ==> legs[j].token != legs[k].token
      invariant forall t :: t in seen <==> exists k :: 0 <= k < i && legs[k].token == t
    {
      if legs[i].token in seen || !Matches(expected, legs[i]) { return false; }
      seen := seen + {legs[i].token};
    }
    return true;
  }

  predicate DistinctTokens(expected: seq<Expected>) {
    forall i, j :: 0 <= i < j < |expected| ==> expected[i].token != expected[j].token
  }

  function Below(n: nat): set<nat> {
    if n == 0 then {} else Below(n - 1) + {n - 1}
  }

  lemma {:induction false} BelowHolds(n: nat)
    ensures |Below(n)| == n && forall k: nat :: k in Below(n) <==> k < n
  {
    if n > 0 {
      BelowHolds(n - 1);
    }
  }

  function Indices(legs: seq<LegEvidence>): set<nat> {
    set i | 0 <= i < |legs| :: legs[i].index
  }

  lemma {:induction false} IndicesSize(expected: seq<Expected>, legs: seq<LegEvidence>)
    requires ValidLegs(expected, legs)
    ensures |Indices(legs)| == |legs| && Indices(legs) <= Below(|expected|)
  {
    BelowHolds(|expected|);
    if legs != [] {
      var n := |legs| - 1;
      IndicesSize(expected, legs[..n]);
      assert Indices(legs) == Indices(legs[..n]) + {legs[n].index};
      forall i | 0 <= i < n ensures legs[i].index != legs[n].index {
        assert Matches(expected, legs[i]) && Matches(expected, legs[n]);
      }
      assert legs[n].index !in Indices(legs[..n]);
    }
  }

  /** As many valid pieces of evidence as there are legs name every leg. */
  lemma EnoughEvidenceNamesAll(expected: seq<Expected>, legs: seq<LegEvidence>, leg: nat)
    requires ValidLegs(expected, legs) && |legs| == |expected| && leg < |expected|
    ensures exists i | 0 <= i < |legs| :: legs[i].index == leg && legs[i].token == expected[leg].token
  {
    IndicesSize(expected, legs);
    BelowHolds(|expected|);
    SubsetOfSameSize(Indices(legs), Below(|expected|));
    assert leg in Indices(legs);
    var i :| 0 <= i < |legs| && legs[i].index == leg;
    assert Matches(expected, legs[i]);
  }

  lemma SubsetOfSameSize(a: set<nat>, b: set<nat>)
    requires a <= b && |a| == |b|
    ensures a == b
  {
    assert b == a + (b - a);
    assert |b - a| == 0;
  }

  // ---- the settlement ----

  function Sum0(legs: seq<LegEvidence>): int {
    if legs == [] then 0 else Sum0(legs[..|legs| - 1]) + legs[|legs| - 1].token0
  }

  function Sum1(legs: seq<LegEvidence>): int {
    if legs == [] then 0 else Sum1(legs[..|legs| - 1]) + legs[|legs| - 1].token1
  }

  /** The principal of all legs, when each has one. */
  function PrincipalSum(legs: seq<LegEvidence>): Option<(nat, nat)> {
    if legs == [] then Some((0, 0))
    else
      var before, leg := PrincipalSum(legs[..|legs| - 1]), legs[|legs| - 1].principal;
      if before.None? || leg.None? then None else Some((before.value.0 + leg.value.0, before.value.1 + leg.value.1))
  }

  datatype Settlement = Settlement(
    completeness: Completeness, evidence: Evidence, principal: Option<(nat, nat)>, fees: Option<(int, int)>)

  /** The settlement row of one piece of evidence. */
  function Classify(expected: seq<Expected>, e: Evidence): Settlement {
    var all := |e.legs| == |expected|;
    var principal := if all then PrincipalSum(e.legs) else None;
    var decomposed := principal.Some? && Sum0(e.legs) >= principal.value.0 && Sum1(e.legs) >= principal.value.1;
    var valued := all && forall i :: 0 <= i < |e.legs| ==> e.legs[i].usdMicros.Some?;
    Settlement(
      if !all then INCOMPLETE else if decomposed && valued && !e.followOn.UNATTRIBUTED_OR_AMBIGUOUS? then FULL else PARTIAL,
      e, if decomposed then principal else None,
      if decomposed then Some((Sum0(e.legs) - principal.value.0, Sum1(e.legs) - principal.value.1)) else None)
  }

  function SumOf(legs: seq<LegEvidence>, amount: LegEvidence -> int): int {
    if legs == [] then 0 else SumOf(legs[..|legs| - 1], amount) + amount(legs[|legs| - 1])
  }

  /** The principal is known exactly when every leg has one, and adds them up token by token. */
  lemma {:induction false} PrincipalIs(legs: seq<LegEvidence>)
    ensures PrincipalSum(legs).Some? <==> forall i :: 0 <= i < |legs| ==> legs[i].principal.Some?
    ensures PrincipalSum(legs).Some? ==>
              PrincipalSum(legs).value.0 == SumOf(legs, (l: LegEvidence) => if l.principal.Some? then l.principal.value.0 else 0)
              && PrincipalSum(legs).value.1 == SumOf(legs, (l: LegEvidence) => if l.principal.Some? then l.principal.value.1 else 0)
  {
    if legs != [] {
      PrincipalIs(legs[..|legs| - 1]);
    }
  }

  lemma {:induction false} SumsAre(legs: seq<LegEvidence>)
    ensures Sum0(legs) == SumOf(legs, (l: LegEvidence) => l.token0) && Sum1(legs) == SumOf(legs, (l: LegEvidence) => l.token1)
  {
    if legs != [] {
      SumsAre(legs[..|legs| - 1]);
    }
  }

  /** Every leg has a principal, and what was returned covers it in both tokens. */
  predicate Covered(e: Evidence) {
    && (forall i :: 0 <= i < |e.legs| ==> e.legs[i].principal.Some?)
    && SumOf(e.legs, (l: LegEvidence) => if l.principal.Some? then l.principal.value.0 else 0) <= SumOf(e.legs, (l: LegEvidence) => l.token0)
    && SumOf(e.legs, (l: LegEvidence) => if l.principal.Some? then l.principal.value.1 else 0) <= SumOf(e.legs, (l: LegEvidence) => l.token1)
  }

  /** When evidence is complete: incomplete while a leg is missing; full when all are there,
      their principal is covered, all are valued and nothing that followed is ambiguous. */
  lemma CompletenessIff(expected: seq<Expected>, e: Evidence)
    ensures var s := Classify(expected, e); var all := |e.legs| == |expected|;
            && s.evidence == e
            && (s.completeness.INCOMPLETE? <==> !all)
            && (s.completeness.FULL? <==> all && Covered(e) && !e.followOn.UNATTRIBUTED_OR_AMBIGUOUS?
                                          && forall i :: 0 <= i < |e.legs| ==> e.legs[i].usdMicros.Some?)
            && (s.principal.Some? <==> all && Covered(e)) && (s.fees.Some? <==> s.principal.Some?)
            && (s.principal.Some? ==>
                  && s.principal == PrincipalSum(e.legs)
                  && s.principal.value.0 + s.fees.value.0 == Sum0(e.legs) && s.principal.value.1 + s.fees.value.1 == Sum1(e.legs))
  {
    PrincipalIs(e.legs);
    SumsAre(e.legs);
  }

  datatype PersistError = LEG_EVIDENCE_MISMATCH | EVIDENCE_REGRESSION
  datatype Outcome = ALREADY_RECONCILED | RECONCILED

  /** `persistExternalV4MutationEvidence`: `seen` is the row it read before its transaction. */
  function Persist(stored: Option<Settlement>, seen: Option<Settlement>, expected: seq<Expected>, e: Evidence)
    : Result<(Option<Settlement>, Outcome), PersistError>
  {
    if !ValidLegs(expected, e.legs) then Err(LEG_EVIDENCE_MISMATCH)
    else
      var next := Classify(expected, e);
      if seen.Some? && seen.value.evidence == e then Ok((stored, ALREADY_RECONCILED))
      else if seen.Some? && Rank(seen.value.completeness) > Rank(next.completeness) then Err(EVIDENCE_REGRESSION)
      else Ok((Some(next), RECONCILED))
  }

  /** How evidence is taken: refused when a leg does not match, or when the row it was compared
      with knew more; the same evidence again writes nothing; and otherwise it is stored. */
  lemma PersistIff(stored: Option<Settlement>, seen: Option<Settlement>, expected: seq<Expected>, e: Evidence)
    ensures var p := Persist(stored, seen, expected, e); var next := Classify(expected, e);
            var same := seen.Some? && seen.value.evidence == e;
            var less := seen.Some? && ((seen.value.completeness.FULL? && !next.completeness.FULL?)
                                       || (seen.value.completeness.PARTIAL? && next.completeness.INCOMPLETE?));
            && (p == Err(LEG_EVIDENCE_MISMATCH) <==> !ValidLegs(expected, e.legs))
            && (p == Err(EVIDENCE_REGRESSION) <==> ValidLegs(expected, e.legs) && !same && less)
            && (p == Ok((stored, ALREADY_RECONCILED)) <==> ValidLegs(expected, e.legs) && same)
            && (p == Ok((Some(next), RECONCILED)) <==> ValidLegs(expected, e.legs) && !same && !less)
  {
  }

  /** FULL evidence accounts for everything: every leg is named exactly once, and principal
      plus fees is the aggregate of what the legs returned, with no negative fee. */
  lemma FullEvidenceIsComplete(expected: seq<Expected>, e: Evidence, leg: nat)
    requires ValidLegs(expected, e.legs) && Classify(expected, e).completeness.FULL? && leg < |expected|
    ensures exists i | 0 <= i < |e.legs| :: e.legs[i].index == leg && e.legs[i].token == expected[leg].token
    ensures var s := Classify(expected, e);
            s.principal.Some? && s.fees.Some? && s.fees.value.0 >= 0 && s.fees.value.1 >= 0
            && s.principal.value.0 + s.fees.value.0 == Sum0(e.legs) && s.principal.value.1 + s.fees.value.1 == Sum1(e.legs)
  {
    EnoughEvidenceNamesAll(expected, e.legs, leg);
  }

  /** One attempt to persist evidence; a writer may act on a row that has changed since. */
  datatype Attempt = Attempt(seen: Option<Settlement>, evidence: Evidence)

  function Step(stored: Option<Settlement>, expected: seq<Expected>, a: Attempt): Option<Settlement> {
    match Persist(stored, a.seen, expected, a.evidence)
    case Ok(r) => r.0
    case Err(_) => stored
  }

  function Run(stored: Option<Settlement>, expected: seq<Expected>, attempts: seq<Attempt>): Option<Settlement> {
    if attempts == [] then stored
    else Step(Run(stored, expected, attempts[..|attempts| - 1]), expected, attempts[|attempts| - 1])
  }

  function RankOf(s: Option<Settlement>): nat {
    if s.Some? then Rank(s.value.completeness) else 0
  }

  /** A write keeps or raises the rank exactly when it does not replace a row of higher rank;
      acting on the stored row is enough for that. */
  lemma StepRank(stored: Option<Settlement>, expected: seq<Expected>, a: Attempt)
    ensures a.seen == stored ==> RankOf(stored) <= RankOf(Step(stored, expected, a))
    ensures RankOf(Step(stored, expected, a)) < RankOf(stored) <==>
              ValidLegs(expected, a.evidence.legs) && !(a.seen.Some? && a.seen.value.evidence == a.evidence)
              && RankOf(a.seen) <= Rank(Classify(expected, a.evidence).completeness) < RankOf(stored)
  {
  }

  /** When every writer acts on the row as it is stored, completeness never regresses. */
  lemma {:induction false} CompletenessNeverRegresses(stored: Option<Settlement>, expected: seq<Expected>, attempts: seq<Attempt>)
    requires forall i :: 0 <= i < |attempts| ==> attempts[i].seen == Run(stored, expected, attempts[..i])
    ensures RankOf(stored) <= RankOf(Run(stored, expected, attempts))
  {
    if attempts != [] {
      var prior := attempts[..|attempts| - 1];
      forall i | 0 <= i < |prior| ensures prior[i].seen == Run(stored, expected, prior[..i]) {
        assert prior[..i] == attempts[..i];
      }
      CompletenessNeverRegresses(stored, expected, prior);
      assert attempts[|attempts| - 1].seen == Run(stored, expected, prior);
      StepRank(Run(stored, expected, prior), expected, attempts[|attempts| - 1]);
    }
  }

  /** Evidence for every leg, with nothing returned. */
  function Everything(expected: seq<Expected>): seq<LegEvidence> {
    seq(|expected|, i requires 0 <= i < |expected| =>
      LegEvidence(i, expected[i].token, expected[i].plannedLiquidity, 0, 0, 0, true, Some((0, 0)), Some(0)))
  }

  lemma {:induction false} NothingReturned(legs: seq<LegEvidence>)
    requires forall i :: 0 <= i < |legs| ==> legs[i].token0 == 0 && legs[i].token1 == 0 && legs[i].principal == Some((0, 0))
    ensures Sum0(legs) == 0 && Sum1(legs) == 0 && PrincipalSum(legs) == Some((0, 0))
  {
    if legs != [] {
      NothingReturned(legs[..|legs| - 1]);
    }
  }

  /** Two writers that both read before anything was stored: the first one commits full
      evidence, and the second one replaces it by nothing. */
  lemma StaleWriterRegresses(expected: seq<Expected>) returns (attempts: seq<Attempt>)
    requires expected != [] && DistinctTokens(expected)
    ensures |attempts| == 2 && attempts[0].seen.None? && attempts[1].seen.None?
    ensures RankOf(Run(None, expected, attempts[..1])) == Rank(FULL) && RankOf(Run(None, expected, attempts)) == Rank(INCOMPLETE)
  {
    var full := Evidence(Everything(expected), PROVEN_NONE, 0);
    attempts := [Attempt(None, full), Attempt(None, Evidence([], PROVEN_NONE, 0))];
    NothingReturned(full.legs);
    assert attempts[..1] == [attempts[0]] && [attempts[0]][..0] == [];
    assert Run(None, expected, attempts[..1]) == Step(None, expected, attempts[0]);
    assert Run(None, expected, attempts) == Step(Run(None, expected, attempts[..1]), expected, attempts[1]);
  }
}
