/**
 * Arguments: a polarity, a target item, and two append-only premise lists
 * (criterion = value facts and "criterion A is more important than B"
 * comparisons), with the helpers that select supporting or attacking
 * premises for an item and the two predicates over an argument's premises.
 */
module Arguments {
  import opened Wrappers
  import opened Values
  import opened PreferenceModel
  import Sorting

  /** "criterion = value". */
  datatype CoupleValue = CoupleValue(criterionName: CriterionName, value: Value)

  /** "best criterion is more important than worst criterion". */
  datatype Comparison = Comparison(bestCriterionName: CriterionName, worstCriterionName: CriterionName)

  /** The contents of an argument once built; what messages and discussion histories carry. */
  datatype ArgumentData = ArgumentData(decision: bool, item: Item, comparisonList: seq<Comparison>, coupleValuesList: seq<CoupleValue>)

  /** Which premises a helper keeps: GOOD/VERY_GOOD ones, or BAD/VERY_BAD ones. */
  datatype Polarity = Supporting | Attacking

  predicate Qualifies(p: Polarity, v: Value) {
    match p
    case Supporting => v == Good || v == VeryGood
    case Attacking => v == Bad || v == VeryBad
  }

  /** Every level qualifies for exactly one polarity. */
  lemma QualifiesForExactlyOne(v: Value)
    ensures Qualifies(Supporting, v) != Qualifies(Attacking, v)
  {
  }

  /** The couple a fact contributes as a premise. */
  function CoupleOf(f: CriterionValue): CoupleValue {
    CoupleValue(f.criterionName, f.value)
  }

  /** The loop of the helpers: the couples of the facts whose value qualifies, in order. */
  function Candidates(facts: seq<CriterionValue>, p: Polarity): (r: seq<CoupleValue>)
    ensures forall i :: 0 <= i < |r| ==> Qualifies(p, r[i].value)
    ensures |r| <= |facts|
  {
    if facts == [] then []
    else (if Qualifies(p, facts[0].value) then [CoupleOf(facts[0])] else []) + Candidates(facts[1..], p)
  }

  /** Every candidate is the couple of one of the facts it was drawn from. */
  lemma {:induction false} CandidateFromFact(facts: seq<CriterionValue>, p: Polarity, cv: CoupleValue)
    requires cv in Candidates(facts, p)
    ensures exists k :: 0 <= k < |facts| && CoupleOf(facts[k]) == cv
  {
    if CoupleOf(facts[0]) != cv || !Qualifies(p, facts[0].value) {
      CandidateFromFact(facts[1..], p, cv);
      var k :| 0 <= k < |facts[1..]| && CoupleOf(facts[1..][k]) == cv;
      assert facts[k + 1] == facts[1..][k];
    }
  }

  /** Conversely, every qualifying fact contributes its couple. */
  lemma {:induction false} FactGivesCandidate(facts: seq<CriterionValue>, p: Polarity, k: nat)
    requires k < |facts| && Qualifies(p, facts[k].value)
    ensures CoupleOf(facts[k]) in Candidates(facts, p)
  {
    if k > 0 {
      FactGivesCandidate(facts[1..], p, k - 1);
      assert facts[1..][k - 1] == facts[k];
    }
  }

  /** The couples of all facts, in order. */
  function Couples(facts: seq<CriterionValue>): (r: seq<CoupleValue>)
    ensures |r| == |facts| && forall i :: 0 <= i < |r| ==> r[i] == CoupleOf(facts[i])
  {
    if facts == [] then [] else [CoupleOf(facts[0])] + Couples(facts[1..])
  }

  /** The sort key `order.index(criterion)`; only used where the criterion is present. */
  function ByImportance(order: seq<CriterionName>): CoupleValue -> int {
    (cv: CoupleValue) => if cv.criterionName in order then Sorting.FirstIndex(order, cv.criterionName) else 0
  }

  /** Some candidate for `p` names a criterion missing from the order. */
  predicate MissesOrder(order: seq<CriterionName>, cands: seq<CoupleValue>) {
    exists i :: 0 <= i < |cands| && cands[i].criterionName !in order
  }

  /**
   * `list_supporting_proposals` / `list_attacking_proposal`: the qualifying
   * couples of the item's facts, stably sorted by the importance index of
   * their criterion.  `order.index` raises ValueError when a qualifying
   * criterion is missing from the order.
   */
  function Premises(order: seq<CriterionName>, facts: seq<CriterionValue>, item: Item, p: Polarity): (r: Outcome<seq<CoupleValue>>)
    ensures r.Raised? <==> MissesOrder(order, Candidates(CriteriaForItem(facts, item), p))
    ensures r.Raised? ==> r.error == ValueError
    ensures r.Returned? ==> multiset(r.value) == multiset(Candidates(CriteriaForItem(facts, item), p))
    ensures r.Returned? ==> Sorting.SortedBy(r.value, ByImportance(order))
  {
    var cands := Candidates(CriteriaForItem(facts, item), p);
    if MissesOrder(order, cands) then Raised(ValueError)
    else Returned(Sorting.SortBy(cands, ByImportance(order)))
  }

  /**
   * What a returned premise list holds: couples that qualify, whose criterion
   * is ranked, and which come from one of the agent's facts about the item.
   */
  lemma PremisesFromFacts(order: seq<CriterionName>, facts: seq<CriterionValue>, item: Item, p: Polarity, i: nat)
    requires Premises(order, facts, item, p).Returned? && i < |Premises(order, facts, item, p).value|
    ensures var cv := Premises(order, facts, item, p).value[i];
      Qualifies(p, cv.value) && cv.criterionName in order &&
      exists k :: 0 <= k < |facts| && CoupleOf(facts[k]) == cv && facts[k].item.name == item.name
  {
    var forItem := CriteriaForItem(facts, item);
    var cands := Candidates(forItem, p);
    var cv := Premises(order, facts, item, p).value[i];
    assert cv in multiset(Premises(order, facts, item, p).value);
    assert cv in multiset(cands);
    var m :| 0 <= m < |cands| && cands[m] == cv;
    assert !MissesOrder(order, cands);
    CandidateFromFact(forItem, p, cv);
    var n :| 0 <= n < |forItem| && CoupleOf(forItem[n]) == cv;
    assert forItem[n] in facts;
    var k :| 0 <= k < |facts| && facts[k] == forItem[n];
  }

  /** A returned premise list runs from the most to the least important criterion. */
  lemma PremisesByImportance(order: seq<CriterionName>, facts: seq<CriterionValue>, item: Item, p: Polarity, i: nat, j: nat)
    requires Premises(order, facts, item, p).Returned? && i < j < |Premises(order, facts, item, p).value|
    ensures var ps := Premises(order, facts, item, p).value;
      ps[i].criterionName in order && ps[j].criterionName in order &&
      Sorting.FirstIndex(order, ps[i].criterionName) <= Sorting.FirstIndex(order, ps[j].criterionName)
  {
    var ps := Premises(order, facts, item, p).value;
    PremisesFromFacts(order, facts, item, p, i);
    PremisesFromFacts(order, facts, item, p, j);
    assert ByImportance(order)(ps[i]) <= ByImportance(order)(ps[j]);
  }

  lemma {:induction false} CandidatesSplit(facts: seq<CriterionValue>)
    ensures multiset(Candidates(facts, Supporting)) + multiset(Candidates(facts, Attacking)) == multiset(Couples(facts))
  {
    if facts != [] {
      CandidatesSplit(facts[1..]);
      var c := CoupleOf(facts[0]);
      var s, a := Candidates(facts[1..], Supporting), Candidates(facts[1..], Attacking);
      var sup := if Qualifies(Supporting, facts[0].value) then [c] else [];
      var att := if Qualifies(Attacking, facts[0].value) then [c] else [];
      assert Candidates(facts, Supporting) == sup + s;
      assert Candidates(facts, Attacking) == att + a;
      QualifiesForExactlyOne(facts[0].value);
      assert multiset(sup) + multiset(att) == multiset{c};
      assert Couples(facts) == [c] + Couples(facts[1..]);
    }
  }

  /**
   * Because a level is either GOOD/VERY_GOOD or BAD/VERY_BAD, the supporting
   * and attacking premises of an item share no couple, and together they are
   * the couples of all the item's facts.
   */
  lemma SupportingAndAttackingPartition(order: seq<CriterionName>, facts: seq<CriterionValue>, item: Item)
    requires Premises(order, facts, item, Supporting).Returned? && Premises(order, facts, item, Attacking).Returned?
    ensures multiset(Premises(order, facts, item, Supporting).value) + multiset(Premises(order, facts, item, Attacking).value)
         == multiset(Couples(CriteriaForItem(facts, item)))
    ensures forall cv :: cv in Premises(order, facts, item, Supporting).value ==> cv !in Premises(order, facts, item, Attacking).value
  {
    var forItem := CriteriaForItem(facts, item);
    CandidatesSplit(forItem);
    var s, a := Premises(order, facts, item, Supporting).value, Premises(order, facts, item, Attacking).value;
    forall cv | cv in s ensures cv !in a {
      assert cv in multiset(s);
      var i :| 0 <= i < |Candidates(forItem, Supporting)| && Candidates(forItem, Supporting)[i] == cv;
      if cv in a {
        assert cv in multiset(a);
        var j :| 0 <= j < |Candidates(forItem, Attacking)| && Candidates(forItem, Attacking)[j] == cv;
        QualifiesForExactlyOne(cv.value);
        assert false;
      }
    }
  }

  /** With every criterion in the order the helpers never raise. */
  lemma PremisesTotal(order: seq<CriterionName>, facts: seq<CriterionValue>, item: Item, p: Polarity)
    requires RanksAllCriteria(order)
    ensures Premises(order, facts, item, p).Returned?
  {
  }

  /** The criteria among the first two of the order (fewer if the order is shorter). */
  function TopTwo(order: seq<CriterionName>): (r: set<CriterionName>)
    ensures forall c :: c in r <==> c in order && Sorting.FirstIndex(order, c) < 2
  {
    var prefix := order[..if |order| < 2 then |order| else 2];
    set i | 0 <= i < |prefix| :: prefix[i]
  }

  /** The early-return scan of `is_important_for_user`. */
  function AllAmong(cvs: seq<CoupleValue>, important: set<CriterionName>): (r: bool)
    ensures r <==> forall i :: 0 <= i < |cvs| ==> cvs[i].criterionName in important
  {
    if cvs == [] then true
    else if cvs[0].criterionName !in important then false
    else
      var r := AllAmong(cvs[1..], important);
      assert forall i :: 0 < i < |cvs| ==> cvs[i] == cvs[1..][i - 1];
      r
  }

  /** `is_important_for_user`: every couple premise names one of the two most important criteria (vacuously true without premises). */
  function IsImportantForUser(argument: ArgumentData, order: seq<CriterionName>): (r: bool)
    ensures r <==> forall i :: 0 <= i < |argument.coupleValuesList| ==> argument.coupleValuesList[i].criterionName in TopTwo(order)
    ensures |order| >= 2 ==> (r <==> forall i :: 0 <= i < |argument.coupleValuesList| ==>
                                 argument.coupleValuesList[i].criterionName == order[0] || argument.coupleValuesList[i].criterionName == order[1])
  {
    AllAmong(argument.coupleValuesList, TopTwo(order))
  }

  /** The dictionary `{criterion: value}` built from facts: the last fact per criterion wins. */
  function LastValue(facts: seq<CriterionValue>, c: CriterionName): (r: Option<Value>)
    ensures r.None? <==> forall k :: 0 <= k < |facts| ==> facts[k].criterionName != c
    ensures r.Some? ==> exists k :: 0 <= k < |facts| && facts[k].criterionName == c && facts[k].value == r.value
                                    && forall j :: k < j < |facts| ==> facts[j].criterionName != c
  {
    if facts == [] then None
    else if facts[|facts| - 1].criterionName == c then Some(facts[|facts| - 1].value)
    else
      var r := LastValue(facts[..|facts| - 1], c);
      assert forall k :: 0 <= k < |facts| - 1 ==> facts[k] == facts[..|facts| - 1][k];
      r
  }

  /** The early-return scan of `has_criterion_not_respected`; a criterion absent from the dictionary is a KeyError. */
  function ScanNotRespected(cvs: seq<CoupleValue>, own: seq<CriterionValue>): (r: Outcome<bool>)
    ensures (forall i :: 0 <= i < |cvs| ==> LastValue(own, cvs[i].criterionName).Some?) ==>
      r == Returned(exists i :: 0 <= i < |cvs| && Greater(LastValue(own, cvs[i].criterionName).value, cvs[i].value))
    ensures r == Returned(true) ==> exists i :: 0 <= i < |cvs| && LastValue(own, cvs[i].criterionName).Some?
                                           && Greater(LastValue(own, cvs[i].criterionName).value, cvs[i].value)
    ensures r.Raised? ==> r.error == KeyError && exists i :: 0 <= i < |cvs| && LastValue(own, cvs[i].criterionName).None?
  {
    if cvs == [] then Returned(false)
    else
      var v := LastValue(own, cvs[0].criterionName);
      if v.None? then Raised(KeyError)
      else if Greater(v.value, cvs[0].value) then Returned(true)
      else
        var r := ScanNotRespected(cvs[1..], own);
        assert forall i :: 0 < i < |cvs| ==> cvs[i] == cvs[1..][i - 1];
        r
  }

  /**
   * `has_criterion_not_respected`: some couple premise states a value
   * strictly below the agent's own value on that criterion for the
   * argument's item (the last of the agent's facts per criterion).
   */
  function HasCriterionNotRespected(argument: ArgumentData, facts: seq<CriterionValue>): (r: Outcome<bool>)
    ensures r.Raised? ==> r.error == KeyError
    ensures r == ScanNotRespected(argument.coupleValuesList, CriteriaForItem(facts, argument.item))
  {
    ScanNotRespected(argument.coupleValuesList, CriteriaForItem(facts, argument.item))
  }

  /** The argument object, built in place by the engine. */
  class Argument {
    var decision: bool
    var item: Item
    var comparisonList: seq<Comparison>
    var coupleValuesList: seq<CoupleValue>

    function Data(): ArgumentData
      reads this
    {
      ArgumentData(decision, item, comparisonList, coupleValuesList)
    }

    /** A new argument has the given polarity and item and no premises. */
    constructor (booleanDecision: bool, item: Item)
      ensures Data() == ArgumentData(booleanDecision, item, [], [])
    {
      decision := booleanDecision;
      this.item := item;
      comparisonList := [];
      coupleValuesList := [];
    }

    /** `add_premiss_comparison`: appends one comparison; the couple list is untouched. */
    method AddPremissComparison(bestCriterionName: CriterionName, worstCriterionName: CriterionName)
      modifies this
      ensures comparisonList == old(comparisonList) + [Comparison(bestCriterionName, worstCriterionName)]
      ensures coupleValuesList == old(coupleValuesList) && decision == old(decision) && item == old(item)
    {
      comparisonList := comparisonList + [Comparison(bestCriterionName, worstCriterionName)];
    }

    /** `add_premiss_couple_values`: appends one couple; the comparison list is untouched. */
    method AddPremissCoupleValues(criterionName: CriterionName, value: Value)
      modifies this
      ensures coupleValuesList == old(coupleValuesList) + [CoupleValue(criterionName, value)]
      ensures comparisonList == old(comparisonList) && decision == old(decision) && item == old(item)
    {
      coupleValuesList := coupleValuesList + [CoupleValue(criterionName, value)];
    }

    /** `list_supporting_proposals`. */
    method ListSupportingProposals(item: Item, preferences: Preferences) returns (r: Outcome<seq<CoupleValue>>)
      ensures r == Premises(preferences.criterionNameList, preferences.criterionValueList, item, Supporting)
    {
      r := CollectPremises(item, preferences, Supporting);
    }

    /** `list_attacking_proposal`. */
    method ListAttackingProposal(item: Item, preferences: Preferences) returns (r: Outcome<seq<CoupleValue>>)
      ensures r == Premises(preferences.criterionNameList, preferences.criterionValueList, item, Attacking)
    {
      r := CollectPremises(item, preferences, Attacking);
    }

    /** The loop shared by both helpers, followed by the sort. */
    static method CollectPremises(item: Item, preferences: Preferences, p: Polarity) returns (r: Outcome<seq<CoupleValue>>)
      ensures r == Premises(preferences.criterionNameList, preferences.criterionValueList, item, p)
    {
      var premises := QualifyingCouples(CriteriaForItem(preferences.criterionValueList, item), p);
      var order := preferences.criterionNameList;
      if MissesOrder(order, premises) {
        r := Raised(ValueError);
      } else {
        r := Returned(Sorting.SortBy(premises, ByImportance(order)));
      }
    }

    /** The `for pref in corresponding_preferences` loop of both helpers. */
    static method QualifyingCouples(correspondingPreferences: seq<CriterionValue>, p: Polarity) returns (premises: seq<CoupleValue>)
      ensures premises == Candidates(correspondingPreferences, p)
    {
      premises := [];
      var i := 0;
      while i < |correspondingPreferences|
        invariant 0 <= i <= |correspondingPreferences|
        invariant premises + Candidates(correspondingPreferences[i..], p) == Candidates(correspondingPreferences, p)
      {
        var pref := correspondingPreferences[i];
        ghost var rest := correspondingPreferences[i..];
        assert rest[0] == pref && rest[1..] == correspondingPreferences[i + 1..];
        if Qualifies(p, pref.value) {
          premises := premises + [CoupleOf(pref)];
        }
        i := i + 1;
      }
      assert correspondingPreferences[i..] == [];
      assert premises == Candidates(correspondingPreferences, p);
    }
  }
}
