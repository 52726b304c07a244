/**
 * The argument engine of an agent (`generate_argument`): given the item
 * under discussion, the argument just received (if any) and the arguments
 * received so far in this discussion, it builds the reply argument, or
 * none when it has nothing left to say.  A comparison that meets a missing
 * value raises TypeError; a criterion missing from the importance order
 * raises ValueError.
 */
module ArgumentGeneration {
  import opened Wrappers
  import opened Values
  import opened PreferenceModel
  import opened Arguments
  import Sorting

  /** The items of the arguments received so far (`already_talked_about`). */
  function Talked(past: seq<ArgumentData>): (r: set<Item>)
    ensures forall i :: 0 <= i < |past| ==> past[i].item in r
    ensures forall x :: x in r ==> exists i :: 0 <= i < |past| && past[i].item == x
  {
    set i | 0 <= i < |past| :: past[i].item
  }

  /** `x not in already_talked_about`. */
  function Untalked(talked: set<Item>): Item -> bool {
    (x: Item) => x !in talked
  }

  /** `get_value(x, c) > v` holds (and the value exists). */
  predicate BeatsOn(facts: seq<CriterionValue>, c: CriterionName, v: Value, x: Item) {
    ValueOf(facts, x, c).Some? && Greater(ValueOf(facts, x, c).value, v)
  }

  /** The sort key of `sorted(..., key=get_value(x, c), reverse=True)`. */
  function ByValueDescending(facts: seq<CriterionValue>, c: CriterionName): Item -> int {
    (x: Item) => if ValueOf(facts, x, c).Some? then -Rank(ValueOf(facts, x, c).value) else 0
  }

  /** The condition of that comprehension: another item, rated above `v` on `c`. */
  function OtherAndBetter(facts: seq<CriterionValue>, exclude: Item, c: CriterionName, v: Value): Item -> bool {
    (x: Item) => x != exclude && BeatsOn(facts, c, v, x)
  }

  /**
   * `[x for x in items if x != exclude and get_value(x, c) > v]` (and the two
   * filters of the comparison case, which amount to the same): TypeError as
   * soon as an item other than `exclude` has no value on `c`.
   */
  function BetterOn(facts: seq<CriterionValue>, items: seq<Item>, exclude: Item, c: CriterionName, v: Value): (r: Outcome<seq<Item>>)
    ensures r.Raised? <==> exists i :: 0 <= i < |items| && items[i] != exclude && ValueOf(facts, items[i], c).None?
    ensures r.Raised? ==> r.error == TypeError
    ensures r.Returned? ==> r.value == Sorting.Filter(items, OtherAndBetter(facts, exclude, c, v))
  {
    if items == [] then Returned([])
    else
      var rest := BetterOn(facts, items[1..], exclude, c, v);
      assert forall i :: 0 < i < |items| ==> items[i] == items[1..][i - 1];
      if items[0] == exclude then rest
      else if ValueOf(facts, items[0], c).None? then Raised(TypeError)
      else if rest.Raised? then rest
      else
        Returned((if Greater(ValueOf(facts, items[0], c).value, v) then [items[0]] else []) + rest.value)
  }

  /** `get_value(item, x) < GOOD` holds (and the value exists). */
  function RatesBelowGood(facts: seq<CriterionValue>, item: Item): CriterionName -> bool {
    (c: CriterionName) => ValueOf(facts, item, c).Some? && Less(ValueOf(facts, item, c).value, Good)
  }

  /**
   * `list(filter(lambda x: get_value(item, x) < GOOD, cs))`: the criteria
   * on which the item rates below GOOD, in order; TypeError as soon as the
   * item has no value on one of them.
   */
  function BelowGood(facts: seq<CriterionValue>, item: Item, cs: seq<CriterionName>): (r: Outcome<seq<CriterionName>>)
    ensures r.Raised? <==> exists i :: 0 <= i < |cs| && ValueOf(facts, item, cs[i]).None?
    ensures r.Raised? ==> r.error == TypeError
    ensures r.Returned? ==> r.value == Sorting.Filter(cs, RatesBelowGood(facts, item))
  {
    if cs == [] then Returned([])
    else
      var rest := BelowGood(facts, item, cs[1..]);
      assert forall i :: 0 < i < |cs| ==> cs[i] == cs[1..][i - 1];
      if ValueOf(facts, item, cs[0]).None? then Raised(TypeError)
      else if rest.Raised? then rest
      else Returned((if Less(ValueOf(facts, item, cs[0]).value, Good) then [cs[0]] else []) + rest.value)
  }

  /** Shape (c = v), first rule: the untalked better alternatives, best value on `c` first. */
  function AlternativesByValue(facts: seq<CriterionValue>, better: seq<Item>, c: CriterionName, talked: set<Item>): seq<Item> {
    Sorting.SortBy(Sorting.Filter(better, Untalked(talked)), ByValueDescending(facts, c))
  }

  /** Shape (c = v, c > c'), first rule: the better alternatives by decreasing score, then only the untalked ones. */
  function AlternativesByScore(better: seq<Item>, score: Item -> int, talked: set<Item>): seq<Item> {
    Sorting.Filter(Sorting.SortBy(better, ByScoreDescending(score)), Untalked(talked))
  }

  /** The alternatives by value are the untalked better items, and the first has the highest value on `c` among them. */
  lemma AlternativesByValueMeaning(facts: seq<CriterionValue>, items: seq<Item>, item: Item, c: CriterionName, v: Value, talked: set<Item>, y: Item)
    requires BetterOn(facts, items, item, c, v).Returned?
    ensures var alts := AlternativesByValue(facts, BetterOn(facts, items, item, c, v).value, c, talked);
      (y in alts <==> y in items && y != item && BeatsOn(facts, c, v, y) && y !in talked) &&
      (|alts| > 0 ==> alts[0] in items && alts[0] != item && BeatsOn(facts, c, v, alts[0]) && alts[0] !in talked) &&
      (|alts| > 0 && y in alts ==> Rank(ValueOf(facts, y, c).value) <= Rank(ValueOf(facts, alts[0], c).value))
  {
    var better := BetterOn(facts, items, item, c, v).value;
    var unseen := Sorting.Filter(better, Untalked(talked));
    var alts := AlternativesByValue(facts, better, c, talked);
    forall x ensures x in alts <==> x in items && x != item && BeatsOn(facts, c, v, x) && x !in talked {
      assert x in alts <==> x in multiset(unseen);
      Sorting.FilterMembers(better, Untalked(talked), x);
      Sorting.FilterMembers(items, OtherAndBetter(facts, item, c, v), x);
    }
    if |alts| > 0 {
      assert alts[0] in alts;
      if y in alts {
        Sorting.SortedHeadIsLeast(alts, ByValueDescending(facts, c), y);
      }
    }
  }

  /** The alternatives by score are the untalked better items, and the first has the highest score among them. */
  lemma AlternativesByScoreMeaning(facts: seq<CriterionValue>, items: seq<Item>, item: Item, c: CriterionName, v: Value, score: Item -> int, talked: set<Item>, y: Item)
    requires BetterOn(facts, items, item, c, v).Returned?
    ensures var alts := AlternativesByScore(BetterOn(facts, items, item, c, v).value, score, talked);
      (y in alts <==> y in items && y != item && BeatsOn(facts, c, v, y) && y !in talked) &&
      (|alts| > 0 ==> alts[0] in items && alts[0] != item && BeatsOn(facts, c, v, alts[0]) && alts[0] !in talked) &&
      (|alts| > 0 && y in alts ==> score(y) <= score(alts[0]))
  {
    var better := BetterOn(facts, items, item, c, v).value;
    var ranked := Sorting.SortBy(better, ByScoreDescending(score));
    var alts := AlternativesByScore(better, score, talked);
    forall x ensures x in alts <==> x in items && x != item && BeatsOn(facts, c, v, x) && x !in talked {
      Sorting.FilterMembers(ranked, Untalked(talked), x);
      assert x in ranked <==> x in multiset(better);
      Sorting.FilterMembers(items, OtherAndBetter(facts, item, c, v), x);
    }
    if |alts| > 0 {
      assert alts[0] in alts;
      if y in alts {
        Sorting.FilterSorted(ranked, Untalked(talked), ByScoreDescending(score));
        Sorting.SortedHeadIsLeast(alts, ByScoreDescending(score), y);
      }
    }
  }

  /**
   * Ties on the value go to the item listed first in the catalogue: an
   * undiscussed better item listed before the first alternative rates
   * strictly lower on `c`, because the sort is stable.
   */
  lemma AlternativesByValueTieBreak(facts: seq<CriterionValue>, items: seq<Item>, item: Item, c: CriterionName, v: Value, talked: set<Item>, y: Item)
    requires BetterOn(facts, items, item, c, v).Returned?
    requires y in items && y != item && y !in talked && BeatsOn(facts, c, v, y)
    ensures var alts := AlternativesByValue(facts, BetterOn(facts, items, item, c, v).value, c, talked);
      |alts| > 0 && alts[0] in items && BeatsOn(facts, c, v, alts[0]) &&
      (Sorting.FirstIndex(items, y) < Sorting.FirstIndex(items, alts[0]) ==>
         Rank(ValueOf(facts, y, c).value) < Rank(ValueOf(facts, alts[0], c).value))
  {
    var better := BetterOn(facts, items, item, c, v).value;
    var unseen := Sorting.Filter(better, Untalked(talked));
    var alts := AlternativesByValue(facts, better, c, talked);
    AlternativesByValueMeaning(facts, items, item, c, v, talked, y);
    var b := alts[0];
    if Sorting.FirstIndex(items, y) < Sorting.FirstIndex(items, b) && Rank(ValueOf(facts, y, c).value) >= Rank(ValueOf(facts, b, c).value) {
      Sorting.FilterKeepsOrder(items, OtherAndBetter(facts, item, c, v), y, b);
      Sorting.FilterKeepsOrder(better, Untalked(talked), y, b);
      Sorting.StableOrder(unseen, ByValueDescending(facts, c), y, b);
      assert false;
    }
  }

  /**
   * Ties on the score go to the item listed first in the catalogue: an
   * undiscussed better item listed before the first alternative scores
   * strictly lower, because the sort is stable.
   */
  lemma AlternativesByScoreTieBreak(facts: seq<CriterionValue>, items: seq<Item>, item: Item, c: CriterionName, v: Value, score: Item -> int, talked: set<Item>, y: Item)
    requires BetterOn(facts, items, item, c, v).Returned?
    requires y in items && y != item && y !in talked && BeatsOn(facts, c, v, y)
    ensures var alts := AlternativesByScore(BetterOn(facts, items, item, c, v).value, score, talked);
      |alts| > 0 && alts[0] in items &&
      (Sorting.FirstIndex(items, y) < Sorting.FirstIndex(items, alts[0]) ==> score(y) < score(alts[0]))
  {
    var better := BetterOn(facts, items, item, c, v).value;
    var ranked := Sorting.SortBy(better, ByScoreDescending(score));
    var alts := AlternativesByScore(better, score, talked);
    AlternativesByScoreMeaning(facts, items, item, c, v, score, talked, y);
    var b := alts[0];
    if Sorting.FirstIndex(items, y) < Sorting.FirstIndex(items, b) && score(y) >= score(b) {
      Sorting.FilterKeepsOrder(items, OtherAndBetter(facts, item, c, v), y, b);
      Sorting.StableOrder(better, ByScoreDescending(score), y, b);
      Sorting.FilterKeepsOrder(ranked, Untalked(talked), y, b);
      assert false;
    }
  }

  /** The first alternative by value: the highest value on `c`, and the first listed among the tied. */
  lemma BestAlternativeByValue(facts: seq<CriterionValue>, items: seq<Item>, item: Item, c: CriterionName, v: Value, talked: set<Item>)
    requires BetterOn(facts, items, item, c, v).Returned?
    requires |AlternativesByValue(facts, BetterOn(facts, items, item, c, v).value, c, talked)| > 0
    ensures var b := AlternativesByValue(facts, BetterOn(facts, items, item, c, v).value, c, talked)[0];
      b in items && b != item && b !in talked && BeatsOn(facts, c, v, b) &&
      (forall y :: y in items && y != item && y !in talked && BeatsOn(facts, c, v, y) ==>
        Rank(ValueOf(facts, y, c).value) <= Rank(ValueOf(facts, b, c).value)) &&
      forall j :: 0 <= j < Sorting.FirstIndex(items, b) && items[j] != item && items[j] !in talked && BeatsOn(facts, c, v, items[j]) ==>
        Rank(ValueOf(facts, items[j], c).value) < Rank(ValueOf(facts, b, c).value)
  {
    var alts := AlternativesByValue(facts, BetterOn(facts, items, item, c, v).value, c, talked);
    AlternativesByValueMeaning(facts, items, item, c, v, talked, alts[0]);
    forall y | y in items && y != item && y !in talked && BeatsOn(facts, c, v, y)
      ensures Rank(ValueOf(facts, y, c).value) <= Rank(ValueOf(facts, alts[0], c).value)
    {
      AlternativesByValueMeaning(facts, items, item, c, v, talked, y);
    }
    forall j | 0 <= j < Sorting.FirstIndex(items, alts[0]) && items[j] != item && items[j] !in talked && BeatsOn(facts, c, v, items[j])
      ensures Rank(ValueOf(facts, items[j], c).value) < Rank(ValueOf(facts, alts[0], c).value)
    {
      AlternativesByValueTieBreak(facts, items, item, c, v, talked, items[j]);
    }
  }

  /** The first alternative by score: the highest score, and the first listed among the tied. */
  lemma BestAlternativeByScore(facts: seq<CriterionValue>, items: seq<Item>, item: Item, c: CriterionName, v: Value, score: Item -> int, talked: set<Item>)
    requires BetterOn(facts, items, item, c, v).Returned?
    requires |AlternativesByScore(BetterOn(facts, items, item, c, v).value, score, talked)| > 0
    ensures var b := AlternativesByScore(BetterOn(facts, items, item, c, v).value, score, talked)[0];
      b in items && b != item && b !in talked && BeatsOn(facts, c, v, b) &&
      (forall y :: y in items && y != item && y !in talked && BeatsOn(facts, c, v, y) ==> score(y) <= score(b)) &&
      forall j :: 0 <= j < Sorting.FirstIndex(items, b) && items[j] != item && items[j] !in talked && BeatsOn(facts, c, v, items[j]) ==>
        score(items[j]) < score(b)
  {
    var alts := AlternativesByScore(BetterOn(facts, items, item, c, v).value, score, talked);
    AlternativesByScoreMeaning(facts, items, item, c, v, score, talked, alts[0]);
    forall y | y in items && y != item && y !in talked && BeatsOn(facts, c, v, y)
      ensures score(y) <= score(alts[0])
    {
      AlternativesByScoreMeaning(facts, items, item, c, v, score, talked, y);
    }
    forall j | 0 <= j < Sorting.FirstIndex(items, alts[0]) && items[j] != item && items[j] !in talked && BeatsOn(facts, c, v, items[j])
      ensures score(items[j]) < score(alts[0])
    {
      AlternativesByScoreTieBreak(facts, items, item, c, v, score, talked, items[j]);
    }
  }

  /** An argument with one couple premise and no comparison. */
  predicate CoupleShape(a: ArgumentData) {
    |a.coupleValuesList| == 1 && |a.comparisonList| == 0
  }

  /** An argument with one couple premise and one comparison. */
  predicate ComparisonShape(a: ArgumentData) {
    |a.coupleValuesList| == 1 && |a.comparisonList| == 1
  }

  /** No argument received: the item's most important supporting premise, or nothing without one. */
  function Opening(order: seq<CriterionName>, facts: seq<CriterionValue>, item: Item): (r: Outcome<Option<ArgumentData>>)
    ensures r.Raised? ==> r.error == ValueError
    ensures r.Returned? && r.value.Some? ==> CoupleShape(r.value.value) && r.value.value.decision && r.value.value.item == item
  {
    var premisses := Premises(order, facts, item, Supporting);
    if premisses.Raised? then Raised(premisses.error)
    else if |premisses.value| == 0 then Returned(None)
    else Returned(Some(ArgumentData(true, item, [], [premisses.value[0]])))
  }

  /** The reply to an argument whose only premise is `c = v`. */
  function AnswerCouple(order: seq<CriterionName>, facts: seq<CriterionValue>, items: seq<Item>, item: Item, cv: CoupleValue, talked: set<Item>): (r: Outcome<Option<ArgumentData>>)
    ensures r.Raised? ==> r.error == TypeError || r.error == ValueError
    ensures r.Returned? && r.value.Some? ==> CoupleShape(r.value.value) || ComparisonShape(r.value.value)
    ensures r.Returned? && r.value.Some? ==> (r.value.value.decision <==> r.value.value.item != item)
  {
    var c, v := cv.criterionName, cv.value;
    var better := BetterOn(facts, items, item, c, v);
    if better.Raised? then Raised(better.error)
    else
      var alts := AlternativesByValue(facts, better.value, c, talked);
      if |alts| > 0 then
        AlternativesByValueMeaning(facts, items, item, c, v, talked, alts[0]);
        // A better alternative on c, proposed with its own value on c.
        Returned(Some(ArgumentData(true, alts[0], [], [CoupleValue(c, ValueOf(facts, alts[0], c).value)])))
      else
        var own := ValueOf(facts, item, c);
        if own.None? then Raised(TypeError)
        // The item rates no better on c, and below GOOD.
        else if LessOrEqual(own.value, v) && Less(own.value, Good) then
          Returned(Some(ArgumentData(false, item, [], [CoupleValue(c, own.value)])))
        else if c !in order then Raised(ValueError)
        else
          var moreImportant := order[..Sorting.FirstIndex(order, c)];
          var worse := BelowGood(facts, item, moreImportant);
          if worse.Raised? then Raised(worse.error)
          else if |worse.value| == 0 then Returned(None)
          else
            var f := worse.value[0];
            Sorting.FilterMembers(moreImportant, RatesBelowGood(facts, item), f);
            // The item rates below GOOD on a more important criterion.
            Returned(Some(ArgumentData(false, item, [Comparison(f, c)], [CoupleValue(f, ValueOf(facts, item, f).value)])))
  }

  /** The reply to an argument whose premises are `c = v` and one comparison. */
  function AnswerComparison(order: seq<CriterionName>, facts: seq<CriterionValue>, items: seq<Item>, score: Item -> int, item: Item, cv: CoupleValue, comparison: Comparison, talked: set<Item>): (r: Outcome<Option<ArgumentData>>)
    ensures r.Raised? ==> r.error == TypeError || r.error == ValueError
    ensures r.Returned? && r.value.Some? ==> CoupleShape(r.value.value) || ComparisonShape(r.value.value)
    ensures r.Returned? && r.value.Some? ==> (r.value.value.decision <==> r.value.value.item != item)
  {
    var c, v := cv.criterionName, cv.value;
    var better := BetterOn(facts, items, item, c, v);
    if better.Raised? then Raised(better.error)
    else
      var alts := AlternativesByScore(better.value, score, talked);
      if |alts| > 0 then
        AlternativesByScoreMeaning(facts, items, item, c, v, score, talked, alts[0]);
        Returned(Some(ArgumentData(true, alts[0], [], [CoupleValue(c, ValueOf(facts, alts[0], c).value)])))
      else
        var best, worst := comparison.bestCriterionName, comparison.worstCriterionName;
        if best !in order || worst !in order then Raised(ValueError)
        // This agent ranks the comparison the other way round.
        else if Sorting.FirstIndex(order, best) > Sorting.FirstIndex(order, worst) then
          var w := ValueOf(facts, item, best);
          if w.None? then Raised(TypeError)
          else Returned(Some(ArgumentData(false, item, [Comparison(worst, best)], [CoupleValue(best, w.value)])))
        else Returned(None)
  }

  /**
   * `generate_argument(item, argument, past_arguments)`.  Every argument it
   * builds has exactly one couple premise and at most one comparison; a
   * reply is in favour of an item exactly when that item is not the one
   * under discussion; the only errors are TypeError and ValueError.
   */
  function GenerateArgument(order: seq<CriterionName>, facts: seq<CriterionValue>, items: seq<Item>, score: Item -> int,
                            item: Item, incoming: Option<ArgumentData>, past: seq<ArgumentData>): (r: Outcome<Option<ArgumentData>>)
    ensures r.Raised? ==> r.error == TypeError || r.error == ValueError
    ensures r.Returned? && r.value.Some? ==> CoupleShape(r.value.value) || ComparisonShape(r.value.value)
    ensures r.Returned? && r.value.Some? && incoming.None? ==> r.value.value.decision && r.value.value.item == item
    ensures r.Returned? && r.value.Some? && incoming.Some? ==> (r.value.value.decision <==> r.value.value.item != item)
    ensures incoming.Some? && !CoupleShape(incoming.value) && !ComparisonShape(incoming.value) ==> r == Returned(None)
  {
    var talked := Talked(past);
    match incoming
    case None => Opening(order, facts, item)
    case Some(argument) =>
      if CoupleShape(argument) then AnswerCouple(order, facts, items, item, argument.coupleValuesList[0], talked)
      else if ComparisonShape(argument) then
        AnswerComparison(order, facts, items, score, item, argument.coupleValuesList[0], argument.comparisonList[0], talked)
      else Returned(None)
  }

  /**
   * With every criterion in the importance order and every item of the
   * catalogue rated on every criterion, the engine never raises for an item
   * of the catalogue.
   */
  lemma GenerateArgumentTotal(order: seq<CriterionName>, facts: seq<CriterionValue>, items: seq<Item>, score: Item -> int,
                              item: Item, incoming: Option<ArgumentData>, past: seq<ArgumentData>)
    requires RanksAllCriteria(order) && RatesAll(facts, items) && item in items
    ensures GenerateArgument(order, facts, items, score, item, incoming, past).Returned?
  {
    var k :| 0 <= k < |items| && items[k] == item;
    assert forall c :: ValueOf(facts, item, c).Some? by {
      forall c ensures ValueOf(facts, item, c).Some? {
        assert ValueOf(facts, items[k], c).Some?;
      }
    }
    match incoming
    case None =>
      PremisesTotal(order, facts, item, Supporting);
    case Some(a) =>
      if CoupleShape(a) || ComparisonShape(a) {
        var cv := a.coupleValuesList[0];
        BetterOnTotal(facts, items, item, cv.criterionName, cv.value);
        if CoupleShape(a) {
          AnswerCoupleTotal(order, facts, items, item, cv, Talked(past));
        }
      }
  }

  lemma BetterOnTotal(facts: seq<CriterionValue>, items: seq<Item>, exclude: Item, c: CriterionName, v: Value)
    requires RatesAll(facts, items)
    ensures BetterOn(facts, items, exclude, c, v).Returned?
  {
  }

  lemma AnswerCoupleTotal(order: seq<CriterionName>, facts: seq<CriterionValue>, items: seq<Item>, item: Item, cv: CoupleValue, talked: set<Item>)
    requires RanksAllCriteria(order) && forall c :: ValueOf(facts, item, c).Some?
    requires BetterOn(facts, items, item, cv.criterionName, cv.value).Returned?
    ensures AnswerCouple(order, facts, items, item, cv, talked).Returned?
  {
    assert cv.criterionName in order;
    var moreImportant := order[..Sorting.FirstIndex(order, cv.criterionName)];
    assert BelowGood(facts, item, moreImportant).Returned?;
  }

  /**
   * No argument received: the reply argues for the item with its most
   * important supporting premise; there is none exactly when no fact about
   * the item is GOOD or VERY_GOOD.
   */
  lemma OpeningArgument(order: seq<CriterionName>, facts: seq<CriterionValue>, items: seq<Item>, score: Item -> int,
                        item: Item, past: seq<ArgumentData>)
    requires GenerateArgument(order, facts, items, score, item, None, past).Returned?
    ensures var premisses := Premises(order, facts, item, Supporting).value;
      match GenerateArgument(order, facts, items, score, item, None, past).value
      case None =>
        forall k :: 0 <= k < |facts| && facts[k].item.name == item.name ==> !Qualifies(Supporting, facts[k].value)
      case Some(b) =>
        b == ArgumentData(true, item, [], [premisses[0]]) &&
        Qualifies(Supporting, premisses[0].value) && premisses[0].criterionName in order &&
        (exists k :: 0 <= k < |facts| && CoupleOf(facts[k]) == premisses[0] && facts[k].item.name == item.name) &&
        forall j :: 0 <= j < |premisses| ==>
          premisses[j].criterionName in order &&
          Sorting.FirstIndex(order, premisses[0].criterionName) <= Sorting.FirstIndex(order, premisses[j].criterionName)
  {
    var premisses := Premises(order, facts, item, Supporting).value;
    if |premisses| == 0 {
      forall k | 0 <= k < |facts| && facts[k].item.name == item.name
        ensures !Qualifies(Supporting, facts[k].value)
      {
        if Qualifies(Supporting, facts[k].value) {
          var forItem := CriteriaForItem(facts, item);
          assert facts[k] in forItem;
          var m :| 0 <= m < |forItem| && forItem[m] == facts[k];
          FactGivesCandidate(forItem, Supporting, m);
          assert false;
        }
      }
    } else {
      PremisesFromFacts(order, facts, item, Supporting, 0);
      forall j | 0 <= j < |premisses|
        ensures premisses[j].criterionName in order
        ensures Sorting.FirstIndex(order, premisses[0].criterionName) <= Sorting.FirstIndex(order, premisses[j].criterionName)
      {
        PremisesFromFacts(order, facts, item, Supporting, j);
        if j > 0 {
          PremisesByImportance(order, facts, item, Supporting, 0, j);
        }
      }
    }
  }

  /**
   * Answer to `c = v`, first rule: a reply in favour names another catalogue
   * item not yet discussed, rated strictly above `v` on `c`, with the highest
   * value on `c` of all such items, and cites that value.
   */
  lemma CounterProposalOnValue(order: seq<CriterionName>, facts: seq<CriterionValue>, items: seq<Item>, score: Item -> int,
                               item: Item, a: ArgumentData, past: seq<ArgumentData>)
    requires CoupleShape(a)
    requires var r := GenerateArgument(order, facts, items, score, item, Some(a), past); r.Returned? && r.value.Some? && r.value.value.decision
    ensures var b := GenerateArgument(order, facts, items, score, item, Some(a), past).value.value;
      var c, v := a.coupleValuesList[0].criterionName, a.coupleValuesList[0].value;
      b.item in items && b.item != item && b.item !in Talked(past) && BeatsOn(facts, c, v, b.item) &&
      b.comparisonList == [] && b.coupleValuesList == [CoupleValue(c, ValueOf(facts, b.item, c).value)] &&
      (forall y :: y in items && y != item && y !in Talked(past) && BeatsOn(facts, c, v, y) ==>
        Rank(ValueOf(facts, y, c).value) <= Rank(ValueOf(facts, b.item, c).value)) &&
      forall j :: 0 <= j < Sorting.FirstIndex(items, b.item) && items[j] != item && items[j] !in Talked(past) && BeatsOn(facts, c, v, items[j]) ==>
        Rank(ValueOf(facts, items[j], c).value) < Rank(ValueOf(facts, b.item, c).value)
  {
    var c, v := a.coupleValuesList[0].criterionName, a.coupleValuesList[0].value;
    var talked := Talked(past);
    var better := BetterOn(facts, items, item, c, v).value;
    var alts := AlternativesByValue(facts, better, c, talked);
    assert GenerateArgument(order, facts, items, score, item, Some(a), past) == AnswerCouple(order, facts, items, item, a.coupleValuesList[0], talked);
    assert |alts| > 0;
    AlternativesByValueMeaning(facts, items, item, c, v, talked, alts[0]);
    assert GenerateArgument(order, facts, items, score, item, Some(a), past).value.value
        == ArgumentData(true, alts[0], [], [CoupleValue(c, ValueOf(facts, alts[0], c).value)]);
    BestAlternativeByValue(facts, items, item, c, v, talked);
  }

  /**
   * Answer to `c = v`, second rule: an attack on the item itself cites the
   * item's own value on `c`, which is no better than `v` and below GOOD; it
   * is only made when no undiscussed item beats `v` on `c`.
   */
  lemma AttackOnValue(order: seq<CriterionName>, facts: seq<CriterionValue>, items: seq<Item>, score: Item -> int,
                      item: Item, a: ArgumentData, past: seq<ArgumentData>)
    requires CoupleShape(a)
    requires var r := GenerateArgument(order, facts, items, score, item, Some(a), past);
      r.Returned? && r.value.Some? && !r.value.value.decision && r.value.value.comparisonList == []
    ensures var b := GenerateArgument(order, facts, items, score, item, Some(a), past).value.value;
      var c, v := a.coupleValuesList[0].criterionName, a.coupleValuesList[0].value;
      var own := ValueOf(facts, item, c);
      b.item == item && own.Some? && b.coupleValuesList == [CoupleValue(c, own.value)] &&
      LessOrEqual(own.value, v) && Qualifies(Attacking, own.value) &&
      forall y :: y in items && y != item && y !in Talked(past) ==> !BeatsOn(facts, c, v, y)
  {
    var c, v := a.coupleValuesList[0].criterionName, a.coupleValuesList[0].value;
    var talked := Talked(past);
    forall y | y in items && y != item && y !in talked
      ensures !BeatsOn(facts, c, v, y)
    {
      AlternativesByValueMeaning(facts, items, item, c, v, talked, y);
    }
  }

  /**
   * Answer to `c = v`, third rule: the attack says that a criterion `f`
   * strictly more important than `c` outranks it, and cites the item's value
   * on `f`, which is below GOOD; `f` is the most important such criterion,
   * and the rule is only used when the first two do not apply.
   */
  lemma AttackOnMoreImportantCriterion(order: seq<CriterionName>, facts: seq<CriterionValue>, items: seq<Item>, score: Item -> int,
                                       item: Item, a: ArgumentData, past: seq<ArgumentData>)
    requires CoupleShape(a)
    requires var r := GenerateArgument(order, facts, items, score, item, Some(a), past);
      r.Returned? && r.value.Some? && !r.value.value.decision && r.value.value.comparisonList != []
    ensures var b := GenerateArgument(order, facts, items, score, item, Some(a), past).value.value;
      var c, v := a.coupleValuesList[0].criterionName, a.coupleValuesList[0].value;
      var f := b.comparisonList[0].bestCriterionName;
      var own := ValueOf(facts, item, c);
      b.item == item && c in order && f in order &&
      b.comparisonList == [Comparison(f, c)] &&
      ValueOf(facts, item, f).Some? && b.coupleValuesList == [CoupleValue(f, ValueOf(facts, item, f).value)] &&
      Qualifies(Attacking, ValueOf(facts, item, f).value) &&
      Sorting.FirstIndex(order, f) < Sorting.FirstIndex(order, c) &&
      (forall j :: 0 <= j < Sorting.FirstIndex(order, f) ==>
         ValueOf(facts, item, order[j]).Some? && GreaterOrEqual(ValueOf(facts, item, order[j]).value, Good)) &&
      own.Some? && !(LessOrEqual(own.value, v) && Less(own.value, Good)) &&
      forall y :: y in items && y != item && y !in Talked(past) ==> !BeatsOn(facts, c, v, y)
  {
    var c, v := a.coupleValuesList[0].criterionName, a.coupleValuesList[0].value;
    var talked := Talked(past);
    forall y | y in items && y != item && y !in talked
      ensures !BeatsOn(facts, c, v, y)
    {
      AlternativesByValueMeaning(facts, items, item, c, v, talked, y);
    }
    var moreImportant := order[..Sorting.FirstIndex(order, c)];
    var worse := BelowGood(facts, item, moreImportant).value;
    var f := worse[0];
    Sorting.FilterHead(moreImportant, RatesBelowGood(facts, item));
    var k :| 0 <= k < |moreImportant| && moreImportant[k] == f && RatesBelowGood(facts, item)(f)
             && forall j :: 0 <= j < k ==> !RatesBelowGood(facts, item)(moreImportant[j]);
    assert order[k] == f;
    assert Sorting.FirstIndex(order, f) <= k;
    forall j | 0 <= j < Sorting.FirstIndex(order, f)
      ensures ValueOf(facts, item, order[j]).Some? && GreaterOrEqual(ValueOf(facts, item, order[j]).value, Good)
    {
      assert order[j] == moreImportant[j];
      assert !RatesBelowGood(facts, item)(moreImportant[j]);
      assert BelowGood(facts, item, moreImportant).Returned?;
    }
  }

  /**
   * Answer to `c = v` with a comparison, first rule: a reply in favour names
   * another catalogue item not yet discussed, rated strictly above `v` on
   * `c`, with the highest score of all such items, and cites its value on `c`.
   */
  lemma CounterProposalOnScore(order: seq<CriterionName>, facts: seq<CriterionValue>, items: seq<Item>, score: Item -> int,
                               item: Item, a: ArgumentData, past: seq<ArgumentData>)
    requires ComparisonShape(a)
    requires var r := GenerateArgument(order, facts, items, score, item, Some(a), past); r.Returned? && r.value.Some? && r.value.value.decision
    ensures var b := GenerateArgument(order, facts, items, score, item, Some(a), past).value.value;
      var c, v := a.coupleValuesList[0].criterionName, a.coupleValuesList[0].value;
      b.item in items && b.item != item && b.item !in Talked(past) && BeatsOn(facts, c, v, b.item) &&
      b.comparisonList == [] && b.coupleValuesList == [CoupleValue(c, ValueOf(facts, b.item, c).value)] &&
      (forall y :: y in items && y != item && y !in Talked(past) && BeatsOn(facts, c, v, y) ==> score(y) <= score(b.item)) &&
      forall j :: 0 <= j < Sorting.FirstIndex(items, b.item) && items[j] != item && items[j] !in Talked(past) && BeatsOn(facts, c, v, items[j]) ==>
        score(items[j]) < score(b.item)
  {
    var c, v := a.coupleValuesList[0].criterionName, a.coupleValuesList[0].value;
    var talked := Talked(past);
    var better := BetterOn(facts, items, item, c, v).value;
    var alts := AlternativesByScore(better, score, talked);
    assert GenerateArgument(order, facts, items, score, item, Some(a), past)
        == AnswerComparison(order, facts, items, score, item, a.coupleValuesList[0], a.comparisonList[0], talked);
    assert |alts| > 0;
    AlternativesByScoreMeaning(facts, items, item, c, v, score, talked, alts[0]);
    assert GenerateArgument(order, facts, items, score, item, Some(a), past).value.value
        == ArgumentData(true, alts[0], [], [CoupleValue(c, ValueOf(facts, alts[0], c).value)]);
    BestAlternativeByScore(facts, items, item, c, v, score, talked);
  }

  /**
   * Answer to `c = v` with the comparison `best > worst`, second rule: when
   * this agent ranks `worst` above `best`, it attacks the item with the
   * reversed comparison and the item's value on `best`; only when no
   * undiscussed item beats `v` on `c`.
   */
  lemma AttackByReversal(order: seq<CriterionName>, facts: seq<CriterionValue>, items: seq<Item>, score: Item -> int,
                         item: Item, a: ArgumentData, past: seq<ArgumentData>)
    requires ComparisonShape(a)
    requires var r := GenerateArgument(order, facts, items, score, item, Some(a), past); r.Returned? && r.value.Some? && !r.value.value.decision
    ensures var b := GenerateArgument(order, facts, items, score, item, Some(a), past).value.value;
      var c, v := a.coupleValuesList[0].criterionName, a.coupleValuesList[0].value;
      var best, worst := a.comparisonList[0].bestCriterionName, a.comparisonList[0].worstCriterionName;
      best in order && worst in order && Sorting.FirstIndex(order, worst) < Sorting.FirstIndex(order, best) &&
      ValueOf(facts, item, best).Some? &&
      b == ArgumentData(false, item, [Comparison(worst, best)], [CoupleValue(best, ValueOf(facts, item, best).value)]) &&
      forall y :: y in items && y != item && y !in Talked(past) ==> !BeatsOn(facts, c, v, y)
  {
    var c, v := a.coupleValuesList[0].criterionName, a.coupleValuesList[0].value;
    var talked := Talked(past);
    forall y | y in items && y != item && y !in talked
      ensures !BeatsOn(facts, c, v, y)
    {
      AlternativesByScoreMeaning(facts, items, item, c, v, score, talked, y);
    }
  }

  /**
   * An answer never repeats itself on the item: a reply in favour is always
   * about an item outside the discussion so far, so a discussion in which
   * every received argument is recorded cannot propose the same item twice.
   */
  lemma CounterProposalIsFresh(order: seq<CriterionName>, facts: seq<CriterionValue>, items: seq<Item>, score: Item -> int,
                               item: Item, a: ArgumentData, past: seq<ArgumentData>)
    requires var r := GenerateArgument(order, facts, items, score, item, Some(a), past); r.Returned? && r.value.Some? && r.value.value.decision
    ensures var b := GenerateArgument(order, facts, items, score, item, Some(a), past).value.value;
      b.item in items && b.item != item && forall i :: 0 <= i < |past| ==> b.item != past[i].item
  {
    if CoupleShape(a) {
      CounterProposalOnValue(order, facts, items, score, item, a, past);
    } else {
      CounterProposalOnScore(order, facts, items, score, item, a, past);
    }
  }

  /** An undiscussed other item beats `v` on `c` exactly when there is an alternative by value. */
  lemma AlternativeByValueExists(facts: seq<CriterionValue>, items: seq<Item>, item: Item, c: CriterionName, v: Value, talked: set<Item>)
    requires BetterOn(facts, items, item, c, v).Returned?
    ensures (exists y :: y in items && y != item && y !in talked && BeatsOn(facts, c, v, y)) <==>
      |AlternativesByValue(facts, BetterOn(facts, items, item, c, v).value, c, talked)| > 0
  {
    var alts := AlternativesByValue(facts, BetterOn(facts, items, item, c, v).value, c, talked);
    if |alts| > 0 {
      AlternativesByValueMeaning(facts, items, item, c, v, talked, alts[0]);
    } else {
      forall y | y in items && y != item && y !in talked
        ensures !BeatsOn(facts, c, v, y)
      {
        AlternativesByValueMeaning(facts, items, item, c, v, talked, y);
      }
    }
  }

  /** An undiscussed other item beats `v` on `c` exactly when there is an alternative by score. */
  lemma AlternativeByScoreExists(facts: seq<CriterionValue>, items: seq<Item>, item: Item, c: CriterionName, v: Value, score: Item -> int, talked: set<Item>)
    requires BetterOn(facts, items, item, c, v).Returned?
    ensures (exists y :: y in items && y != item && y !in talked && BeatsOn(facts, c, v, y)) <==>
      |AlternativesByScore(BetterOn(facts, items, item, c, v).value, score, talked)| > 0
  {
    var alts := AlternativesByScore(BetterOn(facts, items, item, c, v).value, score, talked);
    if |alts| > 0 {
      AlternativesByScoreMeaning(facts, items, item, c, v, score, talked, alts[0]);
    } else {
      forall y | y in items && y != item && y !in talked
        ensures !BeatsOn(facts, c, v, y)
      {
        AlternativesByScoreMeaning(facts, items, item, c, v, score, talked, y);
      }
    }
  }

  /**
   * The third rule of the answer to `c = v`: when no alternative exists and the
   * attack on the value does not apply, there is no argument exactly when the
   * item rates GOOD or better on every criterion more important than `c`, and
   * otherwise the attack cites a comparison.
   */
  lemma AnswerCoupleThirdRule(order: seq<CriterionName>, facts: seq<CriterionValue>, items: seq<Item>, item: Item, cv: CoupleValue, talked: set<Item>)
    requires AnswerCouple(order, facts, items, item, cv, talked).Returned?
    requires BetterOn(facts, items, item, cv.criterionName, cv.value).Returned?
    requires |AlternativesByValue(facts, BetterOn(facts, items, item, cv.criterionName, cv.value).value, cv.criterionName, talked)| == 0
    requires var own := ValueOf(facts, item, cv.criterionName);
      own.Some? && !(LessOrEqual(own.value, cv.value) && Less(own.value, Good))
    ensures var r := AnswerCouple(order, facts, items, item, cv, talked).value;
      (r.None? <==>
         (cv.criterionName in order &&
          forall j :: 0 <= j < Sorting.FirstIndex(order, cv.criterionName) ==>
            ValueOf(facts, item, order[j]).Some? && GreaterOrEqual(ValueOf(facts, item, order[j]).value, Good))) &&
      (r.Some? ==> r.value.comparisonList != [])
  {
    var c := cv.criterionName;
    var moreImportant := order[..Sorting.FirstIndex(order, c)];
    var worse := BelowGood(facts, item, moreImportant).value;
    Sorting.FilterHead(moreImportant, RatesBelowGood(facts, item));
    if |worse| == 0 {
      forall j | 0 <= j < Sorting.FirstIndex(order, c)
        ensures ValueOf(facts, item, order[j]).Some? && GreaterOrEqual(ValueOf(facts, item, order[j]).value, Good)
      {
        assert order[j] == moreImportant[j];
      }
    } else {
      var k :| 0 <= k < |moreImportant| && moreImportant[k] == worse[0] && RatesBelowGood(facts, item)(worse[0]);
      assert order[k] == moreImportant[k];
    }
  }

  /**
   * Which rule answers `c = v`.  The reply is in favour of another item
   * exactly when an undiscussed other item beats `v` on `c`.  Otherwise the
   * item has a value on `c`; the attack on that value is made when it is no
   * better than `v` and below GOOD; and there is no argument (the concession)
   * exactly when that attack does not apply and the item rates GOOD or better
   * on every criterion more important than `c`.  Any other attack is the one
   * by a more important criterion.
   */
  lemma AnswerCoupleRules(order: seq<CriterionName>, facts: seq<CriterionValue>, items: seq<Item>, score: Item -> int,
                          item: Item, a: ArgumentData, past: seq<ArgumentData>)
    requires CoupleShape(a)
    requires GenerateArgument(order, facts, items, score, item, Some(a), past).Returned?
    ensures var r := GenerateArgument(order, facts, items, score, item, Some(a), past).value;
      var c, v := a.coupleValuesList[0].criterionName, a.coupleValuesList[0].value;
      var own := ValueOf(facts, item, c);
      var alternative := exists y :: y in items && y != item && y !in Talked(past) && BeatsOn(facts, c, v, y);
      var onValue := own.Some? && LessOrEqual(own.value, v) && Less(own.value, Good);
      (r.Some? && r.value.decision <==> alternative) &&
      (!alternative ==> own.Some?) &&
      (!alternative && onValue ==> r == Some(ArgumentData(false, item, [], [CoupleValue(c, own.value)]))) &&
      (r.None? <==>
         (!alternative && !onValue && c in order &&
          forall j :: 0 <= j < Sorting.FirstIndex(order, c) ==>
            ValueOf(facts, item, order[j]).Some? && GreaterOrEqual(ValueOf(facts, item, order[j]).value, Good))) &&
      (!alternative && !onValue && r.Some? ==> r.value.comparisonList != [])
  {
    var cv := a.coupleValuesList[0];
    var c, v := cv.criterionName, cv.value;
    var talked := Talked(past);
    assert GenerateArgument(order, facts, items, score, item, Some(a), past) == AnswerCouple(order, facts, items, item, cv, talked);
    AlternativeByValueExists(facts, items, item, c, v, talked);
    var own := ValueOf(facts, item, c);
    if |AlternativesByValue(facts, BetterOn(facts, items, item, c, v).value, c, talked)| == 0 && own.Some? && !(LessOrEqual(own.value, v) && Less(own.value, Good)) {
      AnswerCoupleThirdRule(order, facts, items, item, cv, talked);
    }
  }

  /**
   * Which rule answers `c = v` with the comparison `best > worst`.  The reply
   * is in favour of another item exactly when an undiscussed other item beats
   * `v` on `c`.  Otherwise both criteria are ranked, and there is no argument
   * (the concession) exactly when this agent ranks `best` no lower than
   * `worst`; when it ranks them the other way round, it attacks the item.
   */
  lemma AnswerComparisonRules(order: seq<CriterionName>, facts: seq<CriterionValue>, items: seq<Item>, score: Item -> int,
                              item: Item, a: ArgumentData, past: seq<ArgumentData>)
    requires ComparisonShape(a)
    requires GenerateArgument(order, facts, items, score, item, Some(a), past).Returned?
    ensures var r := GenerateArgument(order, facts, items, score, item, Some(a), past).value;
      var c, v := a.coupleValuesList[0].criterionName, a.coupleValuesList[0].value;
      var best, worst := a.comparisonList[0].bestCriterionName, a.comparisonList[0].worstCriterionName;
      var alternative := exists y :: y in items && y != item && y !in Talked(past) && BeatsOn(facts, c, v, y);
      (r.Some? && r.value.decision <==> alternative) &&
      (!alternative ==> best in order && worst in order) &&
      (r.None? <==> !alternative && best in order && worst in order && Sorting.FirstIndex(order, best) <= Sorting.FirstIndex(order, worst)) &&
      (!alternative && best in order && worst in order && Sorting.FirstIndex(order, best) > Sorting.FirstIndex(order, worst) ==>
         r.Some? && !r.value.decision)
  {
    var c, v := a.coupleValuesList[0].criterionName, a.coupleValuesList[0].value;
    var talked := Talked(past);
    assert GenerateArgument(order, facts, items, score, item, Some(a), past)
        == AnswerComparison(order, facts, items, score, item, a.coupleValuesList[0], a.comparisonList[0], talked);
    AlternativeByScoreExists(facts, items, item, c, v, score, talked);
  }
}
