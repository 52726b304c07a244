/**
 * An agent's preferences: criteria ordered by importance (most important
 * first) and a list of (item, criterion, value) facts, with the queries the
 * negotiation uses.  Items are identified by name; an item's score is a
 * function supplied by the caller, so every selection property below holds
 * for any score.
 */
module PreferenceModel {
  import opened Wrappers
  import opened Values
  import Sorting

  /** The negotiation dimensions. */
  datatype CriterionName = ProductionCost | Consumption | Durability | EnvironmentImpact | Noise

  /** An alternative under negotiation, identified by its name. */
  datatype Item = Item(name: string)

  /** "item rates value on criterion". */
  datatype CriterionValue = CriterionValue(item: Item, criterionName: CriterionName, value: Value)

  predicate Matches(cv: CriterionValue, item: Item, c: CriterionName) {
    cv.item == item && cv.criterionName == c
  }

  /** The position of the first fact about (item, c), or |facts| if there is none. */
  function FirstMatch(facts: seq<CriterionValue>, item: Item, c: CriterionName): (k: nat)
    ensures k <= |facts|
    ensures forall j :: 0 <= j < k ==> !Matches(facts[j], item, c)
    ensures k < |facts| ==> Matches(facts[k], item, c)
  {
    if facts == [] then 0
    else if Matches(facts[0], item, c) then 0
    else 1 + FirstMatch(facts[1..], item, c)
  }

  /** `get_value`: the value of the first matching fact, None if there is none. */
  function ValueOf(facts: seq<CriterionValue>, item: Item, c: CriterionName): (r: Option<Value>)
    ensures r.None? <==> forall k :: 0 <= k < |facts| ==> !Matches(facts[k], item, c)
    ensures r.Some? ==> exists k :: 0 <= k < |facts| && Matches(facts[k], item, c) && facts[k].value == r.value
                                    && forall j :: 0 <= j < k ==> !Matches(facts[j], item, c)
  {
    var k := FirstMatch(facts, item, c);
    if k < |facts| then Some(facts[k].value) else None
  }

  /** Appending a fact never changes an existing answer of `get_value`: no duplicate can override. */
  lemma {:induction false} AppendKeepsValue(facts: seq<CriterionValue>, cv: CriterionValue, item: Item, c: CriterionName)
    ensures ValueOf(facts + [cv], item, c) ==
      if ValueOf(facts, item, c).Some? then ValueOf(facts, item, c)
      else if Matches(cv, item, c) then Some(cv.value)
      else None
  {
    if facts != [] {
      AppendKeepsValue(facts[1..], cv, item, c);
      assert (facts + [cv])[1..] == facts[1..] + [cv];
    }
  }

  /** `get_criterion_for_item`: the facts whose item has the given name, in insertion order. */
  function CriteriaForItem(facts: seq<CriterionValue>, item: Item): (r: seq<CriterionValue>)
    ensures forall f :: f in r ==> f in facts && f.item.name == item.name
    ensures forall k :: 0 <= k < |facts| && facts[k].item.name == item.name ==> facts[k] in r
  {
    if facts == [] then []
    else (if facts[0].item.name == item.name then [facts[0]] else []) + CriteriaForItem(facts[1..], item)
  }

  /** The filter distributes over concatenation, so it keeps insertion order; in particular `add_criterion_value` extends it at the end. */
  lemma {:induction false} CriteriaForItemAppend(a: seq<CriterionValue>, b: seq<CriterionValue>, item: Item)
    ensures CriteriaForItem(a + b, item) == CriteriaForItem(a, item) + CriteriaForItem(b, item)
  {
    if a != [] {
      CriteriaForItemAppend(a[1..], b, item);
      assert (a + b)[1..] == a[1..] + b;
    } else {
      assert a + b == b;
    }
  }

  /** `is_preferred_criterion`: scans the importance order; None when neither criterion occurs. */
  function Precedence(order: seq<CriterionName>, c1: CriterionName, c2: CriterionName): (r: Option<bool>)
    ensures r.None? <==> c1 !in order && c2 !in order
    ensures r == Some(true) <==>
      c1 in order && (c2 in order ==> Sorting.FirstIndex(order, c1) <= Sorting.FirstIndex(order, c2))
  {
    if order == [] then None
    else if order[0] == c1 then Some(true)
    else if order[0] == c2 then Some(false)
    else
      var r := Precedence(order[1..], c1, c2);
      assert order == [order[0]] + order[1..];
      r
  }

  /** `is_preferred_item`: strictly higher score. */
  predicate IsPreferredItem(score: Item -> int, item1: Item, item2: Item)
    ensures IsPreferredItem(score, item1, item2) ==> item1 != item2 && score(item2) <= score(item1)
  {
    score(item1) > score(item2)
  }

  lemma IsPreferredItemIsStrict(score: Item -> int, a: Item, b: Item)
    ensures !IsPreferredItem(score, a, a)
    ensures IsPreferredItem(score, a, b) ==> !IsPreferredItem(score, b, a)
  {
  }

  /** The sort key of `sorted(..., key=get_score, reverse=True)`. */
  function ByScoreDescending(score: Item -> int): Item -> int {
    (x: Item) => -score(x)
  }

  /** The items sorted by descending score, stable on ties. */
  function RankedItems(items: seq<Item>, score: Item -> int): seq<Item> {
    Sorting.SortBy(items, ByScoreDescending(score))
  }

  /** `most_preferred`: the head of the ranking; the empty list is an IndexError, so callers pass a non-empty one. */
  function MostPreferred(items: seq<Item>, score: Item -> int): (r: Item)
    requires |items| > 0
    ensures r in items
    ensures forall i :: 0 <= i < |items| ==> score(items[i]) <= score(r)
    ensures forall j :: 0 <= j < Sorting.FirstIndex(items, r) ==> score(items[j]) < score(r)
  {
    Sorting.SortedHead(items, ByScoreDescending(score));
    RankedItems(items, score)[0]
  }

  /** No listed item is preferred to the most preferred one. */
  lemma MostPreferredIsUnbeaten(items: seq<Item>, score: Item -> int, y: Item)
    requires |items| > 0 && y in items
    ensures !IsPreferredItem(score, y, MostPreferred(items, score))
  {
  }

  /** The number of items scoring strictly more than x. */
  function CountAbove(items: seq<Item>, score: Item -> int, x: Item): (n: nat)
    ensures n <= |items|
  {
    if items == [] then 0 else (if score(items[0]) > score(x) then 1 else 0) + CountAbove(items[1..], score, x)
  }

  /** The number of items tied with x that come before x's first occurrence. */
  function CountTiedBefore(items: seq<Item>, score: Item -> int, x: Item): nat
    requires x in items
  {
    if items[0] == x then 0
    else (if score(items[0]) == score(x) then 1 else 0) + CountTiedBefore(items[1..], score, x)
  }

  lemma {:induction false} CountsAgree(items: seq<Item>, score: Item -> int, x: Item)
    requires x in items
    ensures Sorting.CountBelow(items, ByScoreDescending(score), ByScoreDescending(score)(x)) == CountAbove(items, score, x)
    ensures Sorting.TiedBefore(items, ByScoreDescending(score), x) == CountTiedBefore(items, score, x)
  {
    if items[0] != x {
      CountsAgree(items[1..], score, x);
    } else if items[1..] != [] {
      CountAboveAgree(items[1..], score, x);
    }
  }

  lemma {:induction false} CountAboveAgree(items: seq<Item>, score: Item -> int, x: Item)
    ensures Sorting.CountBelow(items, ByScoreDescending(score), -score(x)) == CountAbove(items, score, x)
  {
    if items != [] {
      CountAboveAgree(items[1..], score, x);
    }
  }

  /**
   * `is_item_among_top_10_percent`: the position r of the item's name in the
   * ranking satisfies r < n * 0.1, i.e. 10 * r < n in exact arithmetic.  An
   * item missing from the list is a ValueError, so callers pass a listed one.
   * The rank is characterised without the sort: the items scoring higher,
   * plus the tied items listed before it.
   */
  function IsItemAmongTop10Percent(items: seq<Item>, score: Item -> int, item: Item): (r: bool)
    requires item in items
    ensures r <==> 10 * (CountAbove(items, score, item) + CountTiedBefore(items, score, item)) < |items|
  {
    RankIsAboveAndTiedBefore(items, score, item);
    10 * Sorting.FirstIndex(RankedItems(items, score), item) < |items|
  }

  /** The position of an item's first copy in the ranking. */
  lemma RankIsAboveAndTiedBefore(items: seq<Item>, score: Item -> int, item: Item)
    requires item in items
    ensures item in RankedItems(items, score)
    ensures Sorting.FirstIndex(RankedItems(items, score), item) == CountAbove(items, score, item) + CountTiedBefore(items, score, item)
  {
    var key := ByScoreDescending(score);
    Sorting.SortedPosition(items, key, item);
    CountsAgree(items, score, item);
  }

  /** The three checks at the end of the source file, for any score under which diesel scores at least electric. */
  lemma Top10Examples(score: Item -> int, diesel: Item, electric: Item)
    requires diesel != electric && score(diesel) >= score(electric)
    ensures !IsItemAmongTop10Percent([diesel, electric], score, electric)
    ensures IsItemAmongTop10Percent(TenThenOne(diesel, electric), score, diesel)
    ensures !IsItemAmongTop10Percent(TenThenOne(diesel, electric), score, electric)
  {
    var s := TenThenOne(diesel, electric);
    assert [diesel, electric][1..] == [electric];
    assert CountAbove([diesel, electric], score, electric) + CountTiedBefore([diesel, electric], score, electric) == 1;
    assert s[0] == diesel && s[10] == electric;
    TenThenOneCounts(10, score, diesel, electric);
  }

  /** Ten copies of d followed by e. */
  function TenThenOne(d: Item, e: Item): (r: seq<Item>)
    ensures |r| == 11 && d in r && e in r
  {
    assert (seq(10, _ => d) + [e])[0] == d;
    seq(10, _ => d) + [e]
  }

  lemma {:induction false} TenThenOneCounts(n: nat, score: Item -> int, d: Item, e: Item)
    requires d != e && score(d) >= score(e)
    ensures CountAbove(seq(n, _ => d) + [e], score, d) <= 1
    ensures d in seq(n, _ => d) + [e] ==> CountTiedBefore(seq(n, _ => d) + [e], score, d) == 0
    ensures CountAbove(seq(n, _ => d) + [e], score, e) + CountTiedBefore(seq(n, _ => d) + [e], score, e) == n
  {
    var s := seq(n, _ => d) + [e];
    if n == 0 {
      assert s == [e];
    } else {
      assert s[0] == d;
      assert s[1..] == seq(n - 1, _ => d) + [e];
      TenThenOneCounts(n - 1, score, d, e);
    }
  }

  /** Every criterion occurs in the importance order (the order is a permutation of all criteria). */
  predicate RanksAllCriteria(order: seq<CriterionName>) {
    forall c: CriterionName :: c in order
  }

  /** Every listed item has a value on every criterion. */
  predicate RatesAll(facts: seq<CriterionValue>, items: seq<Item>) {
    forall i, c :: 0 <= i < |items| ==> ValueOf(facts, items[i], c).Some?
  }

  /** The mutable preferences object of one agent. */
  class Preferences {
    var criterionNameList: seq<CriterionName>
    var criterionValueList: seq<CriterionValue>

    constructor ()
      ensures criterionNameList == [] && criterionValueList == []
    {
      criterionNameList := [];
      criterionValueList := [];
    }

    /** `set_criterion_name_list`: replaces the importance order. */
    method SetCriterionNameList(names: seq<CriterionName>)
      modifies this
      ensures criterionNameList == names && criterionValueList == old(criterionValueList)
    {
      criterionNameList := names;
    }

    /** `add_criterion_value`: appends one fact, without de-duplication. */
    method AddCriterionValue(cv: CriterionValue)
      modifies this
      ensures criterionValueList == old(criterionValueList) + [cv]
      ensures criterionNameList == old(criterionNameList)
    {
      criterionValueList := criterionValueList + [cv];
    }

    /** `get_value`: the early-return scan over the facts. */
    method GetValue(item: Item, criterionName: CriterionName) returns (r: Option<Value>)
      ensures r == ValueOf(criterionValueList, item, criterionName)
    {
      var i := 0;
      while i < |criterionValueList|
        invariant 0 <= i <= |criterionValueList|
        invariant forall j :: 0 <= j < i ==> !Matches(criterionValueList[j], item, criterionName)
      {
        var value := criterionValueList[i];
        if value.item == item && value.criterionName == criterionName {
          return Some(value.value);
        }
        i := i + 1;
      }
      return None;
    }

    /** `is_preferred_criterion`: the early-return scan over the importance order. */
    method IsPreferredCriterion(criterionName1: CriterionName, criterionName2: CriterionName) returns (r: Option<bool>)
      ensures r == Precedence(criterionNameList, criterionName1, criterionName2)
    {
      var i := 0;
      while i < |criterionNameList|
        invariant 0 <= i <= |criterionNameList|
        invariant Precedence(criterionNameList[i..], criterionName1, criterionName2)
               == Precedence(criterionNameList, criterionName1, criterionName2)
      {
        var criterionName := criterionNameList[i];
        assert criterionNameList[i..][1..] == criterionNameList[i + 1..];
        if criterionName == criterionName1 {
          return Some(true);
        }
        if criterionName == criterionName2 {
          return Some(false);
        }
        i := i + 1;
      }
      return None;
    }
  }
}
