/** Sorting by several attributes, and pages of a list. */
module ArrayUtils {

  // Attribute values: dates by their time, everything else by its text.
  datatype Key = DateKey(time: int, shown: string) | TextKey(text: string)
  type Item = map<string, Key>

  // The collation behind localeCompare.
  type Collation = (string, string) -> int

  ghost predicate IsTotalPreorder<T(!new)>(cmp: (T, T) -> int) {
    && (forall a, b {:trigger cmp(a, b)} :: cmp(a, b) > 0 <==> cmp(b, a) < 0)
    && (forall a, b, c {:trigger cmp(a, b), cmp(b, c)} :: cmp(a, b) <= 0 && cmp(b, c) <= 0 ==> cmp(a, c) <= 0)
  }

  function Shown(k: Key): string {
    if k.DateKey? then k.shown else k.text
  }

  function Compare(collate: Collation, a: Key, b: Key): int {
    if a.DateKey? && b.DateKey? then a.time - b.time else collate(Shown(a), Shown(b))
  }

  // An attribute to sort by, and its sign.
  datatype Criterion = Criterion(attribute: string, order: int)

  predicate Has(item: Item, criteria: seq<Criterion>) {
    forall i :: 0 <= i < |criteria| ==> criteria[i].attribute in item
  }

  // The comparator: the first attribute that tells the items apart decides.
  function CompareItems(collate: Collation, criteria: seq<Criterion>, a: Item, b: Item): int
    requires Has(a, criteria) && Has(b, criteria)
  {
    if criteria == [] then 0
    else
      var c := criteria[0];
      var first := Compare(collate, a[c.attribute], b[c.attribute]) * c.order;
      if first != 0 then first else CompareItems(collate, criteria[1..], a, b)
  }

  // An attribute is a date in both items or in neither.
  predicate SameKinds(criteria: seq<Criterion>, a: Item, b: Item)
    requires Has(a, criteria) && Has(b, criteria)
  {
    forall i :: 0 <= i < |criteria| ==> (a[criteria[i].attribute].DateKey? <==> b[criteria[i].attribute].DateKey?)
  }

  lemma SignOfProduct(x: int, order: int)
    ensures x * order > 0 <==> (x > 0 && order > 0) || (x < 0 && order < 0)
    ensures x * order < 0 <==> (x > 0 && order < 0) || (x < 0 && order > 0)
  {
  }

  lemma KeyOrder(collate: Collation, order: int, a: Key, b: Key, c: Key)
    requires IsTotalPreorder(collate)
    requires a.DateKey? == b.DateKey? == c.DateKey?
    ensures Compare(collate, a, b) * order > 0 <==> Compare(collate, b, a) * order < 0
    ensures Compare(collate, a, b) * order <= 0 && Compare(collate, b, c) * order <= 0 ==> Compare(collate, a, c) * order <= 0
    ensures Compare(collate, a, b) * order < 0 && Compare(collate, b, c) * order <= 0 ==> Compare(collate, a, c) * order < 0
    ensures Compare(collate, a, b) * order <= 0 && Compare(collate, b, c) * order < 0 ==> Compare(collate, a, c) * order < 0
  {
    var (x, y) := (Compare(collate, a, b), Compare(collate, b, a));
    var (p, q) := (Compare(collate, b, c), Compare(collate, c, b));
    var (u, v) := (Compare(collate, a, c), Compare(collate, c, a));
    assert (x > 0 <==> y < 0) && (p > 0 <==> q < 0) && (u > 0 <==> v < 0);
    assert (x < 0 <==> y > 0) && (p < 0 <==> q > 0) && (u < 0 <==> v > 0);
    assert (x <= 0 && p <= 0 ==> u <= 0) && (q <= 0 && y <= 0 ==> v <= 0);
    assert (v <= 0 && x <= 0 ==> q <= 0) && (p <= 0 && v <= 0 ==> y <= 0);
    assert (y <= 0 && u <= 0 ==> p <= 0) && (u <= 0 && q <= 0 ==> x <= 0);
    SignOfProduct(x, order);
    SignOfProduct(y, order);
    SignOfProduct(p, order);
    SignOfProduct(u, order);
  }

  /** Where each attribute is a date in all items or in none, the comparator orders items totally: whichever
      attributes it combines and whatever their signs, it is antisymmetric and transitive. */
  lemma {:induction false} ComparatorIsConsistent(collate: Collation, criteria: seq<Criterion>, a: Item, b: Item, c: Item)
    requires IsTotalPreorder(collate)
    requires Has(a, criteria) && Has(b, criteria) && Has(c, criteria)
    requires SameKinds(criteria, a, b) && SameKinds(criteria, b, c)
    ensures CompareItems(collate, criteria, a, b) > 0 <==> CompareItems(collate, criteria, b, a) < 0
    ensures CompareItems(collate, criteria, a, b) <= 0 && CompareItems(collate, criteria, b, c) <= 0 ==>
            CompareItems(collate, criteria, a, c) <= 0
    decreases |criteria|
  {
    if criteria != [] {
      var t, order := criteria[0].attribute, criteria[0].order;
      KeyOrder(collate, order, a[t], b[t], c[t]);
      KeyOrder(collate, order, b[t], a[t], c[t]);
      KeyOrder(collate, order, c[t], b[t], a[t]);
      ComparatorIsConsistent(collate, criteria[1..], a, b, c);
    }
  }

  /** What the comparator answers: the first attribute whose values do not tie decides, the way round its sign says, and
      nothing else does. */
  lemma {:induction false} FirstDifferenceDecides(collate: Collation, criteria: seq<Criterion>, a: Item, b: Item)
    requires Has(a, criteria) && Has(b, criteria) && forall i :: 0 <= i < |criteria| ==> criteria[i].order in {-1, 1}
    ensures CompareItems(collate, criteria, a, b) == 0 <==>
            forall i :: 0 <= i < |criteria| ==> Compare(collate, a[criteria[i].attribute], b[criteria[i].attribute]) == 0
    ensures forall k :: 0 <= k < |criteria| && Compare(collate, a[criteria[k].attribute], b[criteria[k].attribute]) != 0 ==>
      (forall i :: 0 <= i < k ==> Compare(collate, a[criteria[i].attribute], b[criteria[i].attribute]) == 0) ==>
      var difference := Compare(collate, a[criteria[k].attribute], b[criteria[k].attribute]);
      CompareItems(collate, criteria, a, b) == if criteria[k].order == 1 then difference else -difference
    decreases |criteria|
  {
    if criteria != [] {
      var c := criteria[0];
      var rest := criteria[1..];
      assert c.order in {-1, 1} && forall i :: 0 <= i < |rest| ==> rest[i] == criteria[i + 1];
      FirstDifferenceDecides(collate, rest, a, b);
      var first := Compare(collate, a[c.attribute], b[c.attribute]);
      assert first * c.order == if c.order == 1 then first else -first;
      forall k | 0 <= k < |criteria| && Compare(collate, a[criteria[k].attribute], b[criteria[k].attribute]) != 0
        && (forall i :: 0 <= i < k ==> Compare(collate, a[criteria[i].attribute], b[criteria[i].attribute]) == 0)
        ensures CompareItems(collate, criteria, a, b) ==
                var difference := Compare(collate, a[criteria[k].attribute], b[criteria[k].attribute]);
                if criteria[k].order == 1 then difference else -difference
      {
        if k > 0 {
          assert criteria[k] == rest[k - 1];
        }
      }
      if CompareItems(collate, criteria, a, b) == 0 {
        assert first == 0;
        forall i | 0 <= i < |criteria|
          ensures Compare(collate, a[criteria[i].attribute], b[criteria[i].attribute]) == 0
        {
          assert i > 0 ==> criteria[i] == rest[i - 1];
        }
      }
    }
  }

  // Text up to the end of its line, which is how far the pattern reads.
  function FirstLine(s: string): string {
    if s == "" || s[0] in {'\n', '\r', '\U{2028}', '\U{2029}'} then "" else [s[0]] + FirstLine(s[1..])
  }

  // convertToSortOrderObject: a leading minus sorts descending.
  function ToCriterion(input: string): Criterion {
    if input != "" && input[0] == '-' then Criterion(FirstLine(input[1..]), -1) else Criterion(FirstLine(input), 1)
  }

  lemma {:induction false} OneLine(s: string)
    requires forall c :: c in s ==> c !in {'\n', '\r', '\U{2028}', '\U{2029}'}
    ensures FirstLine(s) == s
  {
    if s != "" {
      assert s[0] in s && forall c :: c in s[1..] ==> c in s;
      OneLine(s[1..]);
    }
  }

  /** A minus in front of an attribute turns its order round. */
  lemma MinusReverses(collate: Collation, attribute: string, a: Item, b: Item)
    requires IsTotalPreorder(collate)
    requires forall c :: c in attribute ==> c !in {'\n', '\r', '\U{2028}', '\U{2029}'}
    requires attribute != "" && attribute[0] != '-' && attribute in a && attribute in b
    ensures var (ascending, descending) := ([ToCriterion(attribute)], [ToCriterion("-" + attribute)]);
            && Has(a, ascending) && Has(b, ascending) && Has(a, descending) && Has(b, descending)
            && (CompareItems(collate, descending, a, b) > 0 <==> CompareItems(collate, ascending, b, a) > 0)
            && (CompareItems(collate, ascending, a, b) > 0 <==> Compare(collate, a[attribute], b[attribute]) > 0)
  {
    OneLine(attribute);
    assert ("-" + attribute)[1..] == attribute;
    assert [ToCriterion(attribute)][1..] == [] && [ToCriterion("-" + attribute)][1..] == [];
    ComparesBackwards(collate, a[attribute], b[attribute]);
  }

  // What a sort with this comparator returns.

  ghost predicate Comparable(criteria: seq<Criterion>, items: seq<Item>) {
    && (forall i :: 0 <= i < |items| ==> Has(items[i], criteria))
    && (forall i, j :: 0 <= i < |items| && 0 <= j < |items| ==> SameKinds(criteria, items[i], items[j]))
  }

  ghost predicate Ordered(collate: Collation, criteria: seq<Criterion>, items: seq<Item>)
    requires Comparable(criteria, items)
  {
    forall i, j :: 0 <= i < j < |items| ==> CompareItems(collate, criteria, items[i], items[j]) <= 0
  }

  function WithoutIndex(items: seq<Item>, k: nat): (rest: seq<Item>)
    requires k < |items|
    ensures |rest| == |items| - 1
    ensures forall i :: 0 <= i < |rest| ==> rest[i] == items[if i < k then i else i + 1]
  {
    items[..k] + items[k + 1..]
  }

  lemma RemovingKeepsRest(items: seq<Item>, k: nat)
    requires k < |items|
    ensures multiset(WithoutIndex(items, k)) == multiset(items) - multiset{items[k]}
  {
    assert items == items[..k] + [items[k]] + items[k + 1..];
  }

  lemma RemovingKeepsOrder(collate: Collation, criteria: seq<Criterion>, items: seq<Item>, k: nat)
    requires Comparable(criteria, items) && Ordered(collate, criteria, items) && k < |items|
    ensures Comparable(criteria, WithoutIndex(items, k)) && Ordered(collate, criteria, WithoutIndex(items, k))
  {
  }

  // An item at position k of an ordered list that compares equal to the first one is equal to all in between.
  lemma TiesAreContiguous(collate: Collation, criteria: seq<Criterion>, items: seq<Item>, k: nat, i: nat)
    requires IsTotalPreorder(collate) && Comparable(criteria, items) && Ordered(collate, criteria, items)
    requires i < k < |items| && CompareItems(collate, criteria, items[k], items[0]) <= 0
    ensures CompareItems(collate, criteria, items[i + 1], items[i]) <= 0
  {
    var (first, a, b, last) := (items[0], items[i], items[i + 1], items[k]);
    ComparatorIsConsistent(collate, criteria, b, b, last);
    ComparatorIsConsistent(collate, criteria, b, last, first);
    ComparatorIsConsistent(collate, criteria, b, first, a);
    ComparatorIsConsistent(collate, criteria, first, first, a);
  }

  lemma TieCarriesOver(collate: Collation, criteria: seq<Criterion>, a: Item, b: Item, c: Item)
    requires IsTotalPreorder(collate)
    requires Has(a, criteria) && Has(b, criteria) && Has(c, criteria)
    requires SameKinds(criteria, a, b) && SameKinds(criteria, b, c)
    requires CompareItems(collate, criteria, a, b) == 0
    requires CompareItems(collate, criteria, b, c) <= 0 && CompareItems(collate, criteria, c, b) <= 0
    ensures CompareItems(collate, criteria, a, c) == 0
  {
    ComparatorIsConsistent(collate, criteria, a, b, c);
    ComparatorIsConsistent(collate, criteria, b, a, c);
    ComparatorIsConsistent(collate, criteria, c, b, a);
    ComparatorIsConsistent(collate, criteria, c, a, b);
  }

  lemma BothWaysIsTie(collate: Collation, criteria: seq<Criterion>, a: Item, b: Item)
    requires IsTotalPreorder(collate)
    requires Has(a, criteria) && Has(b, criteria) && SameKinds(criteria, a, b)
    requires CompareItems(collate, criteria, a, b) <= 0 && CompareItems(collate, criteria, b, a) <= 0
    ensures CompareItems(collate, criteria, a, b) == 0
  {
    ComparatorIsConsistent(collate, criteria, b, a, b);
  }

  // The first items are least, so they tie.
  lemma FirstsTie(collate: Collation, criteria: seq<Criterion>, s: seq<Item>, t: seq<Item>, k: nat, l: nat)
    requires IsTotalPreorder(collate) && Comparable(criteria, s) && Comparable(criteria, t)
    requires Ordered(collate, criteria, s) && Ordered(collate, criteria, t)
    requires k < |t| && l < |s| && t[k] == s[0] && s[l] == t[0]
    ensures CompareItems(collate, criteria, s[0], t[0]) == 0
  {
    ComparatorIsConsistent(collate, criteria, s[0], s[0], s[0]);
    BothWaysIsTie(collate, criteria, s[0], t[0]);
  }

  // Moving one place on within the ties of the first item keeps a tie.
  lemma TieMovesOn(collate: Collation, criteria: seq<Criterion>, t: seq<Item>, k: nat, i: nat, x: Item, j: nat)
    requires IsTotalPreorder(collate) && Comparable(criteria, t) && Ordered(collate, criteria, t)
    requires 0 < i <= k < |t| && j < |t| && x == t[j]
    requires CompareItems(collate, criteria, t[k], t[0]) == 0
    requires CompareItems(collate, criteria, x, t[i - 1]) == 0
    ensures CompareItems(collate, criteria, x, t[i]) == 0
  {
    TiesAreContiguous(collate, criteria, t, k, i - 1);
    TieCarriesOver(collate, criteria, x, t[i - 1], t[i]);
  }

  lemma SameSize(s: seq<Item>, t: seq<Item>)
    requires multiset(s) == multiset(t)
    ensures |s| == |t|
    ensures forall x :: x in s <==> x in t
  {
    assert |s| == |multiset(s)| && |t| == |multiset(t)|;
    assert forall x :: x in s <==> x in multiset(s);
    assert forall x :: x in t <==> x in multiset(t);
  }

  ghost predicate Sorted(collate: Collation, criteria: seq<Criterion>, items: seq<Item>) {
    Comparable(criteria, items) && Ordered(collate, criteria, items)
  }

  // The first item of one list taken out of both.
  lemma FirstTakenOut(collate: Collation, criteria: seq<Criterion>, s: seq<Item>, t: seq<Item>, k: nat)
    requires Sorted(collate, criteria, s) && Sorted(collate, criteria, t) && multiset(s) == multiset(t)
    requires s != [] && k < |t| && t[k] == s[0]
    ensures Sorted(collate, criteria, WithoutIndex(s, 0)) && Sorted(collate, criteria, WithoutIndex(t, k))
    ensures multiset(WithoutIndex(s, 0)) == multiset(WithoutIndex(t, k))
  {
    RemovingKeepsRest(s, 0);
    RemovingKeepsRest(t, k);
    RemovingKeepsOrder(collate, criteria, s, 0);
    RemovingKeepsOrder(collate, criteria, t, k);
  }

  lemma TieAtIndex(collate: Collation, criteria: seq<Criterion>, s: seq<Item>, t: seq<Item>, k: nat, i: nat)
    requires IsTotalPreorder(collate)
    requires Sorted(collate, criteria, s) && Sorted(collate, criteria, t) && multiset(s) == multiset(t)
    requires 0 < i < |s| && i <= k < |t| && t[k] == s[0]
    requires Has(s[i], criteria) && CompareItems(collate, criteria, s[i], t[i - 1]) == 0
    ensures CompareItems(collate, criteria, s[i], t[i]) == 0
  {
    SameSize(s, t);
    assert t[0] in s && s[i] in t;
    var l :| 0 <= l < |s| && s[l] == t[0];
    var j :| 0 <= j < |t| && t[j] == s[i];
    FirstsTie(collate, criteria, s, t, k, l);
    TieMovesOn(collate, criteria, t, k, i, s[i], j);
  }

  /** Whatever algorithm sorts, the result is determined up to ties: two ordered arrangements of the same items
      compare equal at every position. */
  lemma {:induction false} SortedOutputIsDetermined(collate: Collation, criteria: seq<Criterion>,
                                                    s: seq<Item>, t: seq<Item>, i: nat)
    requires IsTotalPreorder(collate)
    requires Sorted(collate, criteria, s) && Sorted(collate, criteria, t) && multiset(s) == multiset(t)
    requires i < |s|
    ensures |s| == |t| && CompareItems(collate, criteria, s[i], t[i]) == 0
    decreases |s|
  {
    SameSize(s, t);
    assert s[0] in t && t[0] in s;
    var k :| 0 <= k < |t| && t[k] == s[0];
    if i == 0 {
      var l :| 0 <= l < |s| && s[l] == t[0];
      FirstsTie(collate, criteria, s, t, k, l);
    } else {
      FirstTakenOut(collate, criteria, s, t, k);
      SortedOutputIsDetermined(collate, criteria, WithoutIndex(s, 0), WithoutIndex(t, k), i - 1);
      if i <= k {
        TieAtIndex(collate, criteria, s, t, k, i);
      }
    }
  }

  // Mixed attributes.

  ghost predicate BreaksOrder(collate: Collation, a: Key, b: Key, c: Key) {
    Compare(collate, a, b) <= 0 && Compare(collate, b, c) <= 0 && Compare(collate, a, c) > 0
  }

  /** The text stands, in print, between the later date and the earlier one, where ties count as standing there, too, as
      long as not all three tie. */
  ghost predicate Misplaced(collate: Collation, earlier: Key, later: Key, text: Key) {
    && earlier.DateKey? && later.DateKey? && text.TextKey? && earlier.time <= later.time
    && var (fromLater, toEarlier) := (collate(later.shown, text.text), collate(text.text, earlier.shown));
    && fromLater <= 0 && toEarlier <= 0
    && (earlier.time < later.time || fromLater < 0 || toEarlier < 0)
  }

  // The same collation facts for any three texts.
  lemma CollationFacts(collate: Collation, x: string, y: string, z: string)
    requires IsTotalPreorder(collate)
    ensures collate(x, y) > 0 <==> collate(y, x) < 0
    ensures collate(x, y) <= 0 && collate(y, z) <= 0 ==> collate(x, z) <= 0
  {
  }

  /** Whatever the collation, three values break transitivity in exactly three ways, by the place of the text. */
  lemma TripleBreaksOrderIff(collate: Collation, a: Key, b: Key, c: Key)
    requires IsTotalPreorder(collate)
    ensures BreaksOrder(collate, a, b, c) <==>
            || (a.DateKey? && b.DateKey? && c.TextKey? && a.time <= b.time
                && collate(b.shown, c.text) <= 0 < collate(a.shown, c.text))
            || (a.TextKey? && b.DateKey? && c.DateKey? && b.time <= c.time
                && collate(a.text, b.shown) <= 0 < collate(a.text, c.shown))
            || (a.DateKey? && b.TextKey? && c.DateKey? && a.time > c.time
                && collate(a.shown, b.text) <= 0 && collate(b.text, c.shown) <= 0)
  {
    CollationFacts(collate, Shown(a), Shown(b), Shown(c));
  }

  // The same with the sign of the attribute.
  ghost predicate BreaksSigned(collate: Collation, order: int, a: Key, b: Key, c: Key) {
    Compare(collate, a, b) * order <= 0 && Compare(collate, b, c) * order <= 0 && Compare(collate, a, c) * order > 0
  }

  lemma SignOnlyTurns(collate: Collation, order: int, a: Key, b: Key, c: Key)
    requires IsTotalPreorder(collate) && order != 0
    ensures BreaksSigned(collate, order, a, b, c) <==>
            if order > 0 then BreaksOrder(collate, a, b, c) else BreaksOrder(collate, c, b, a)
  {
    SignOfProduct(Compare(collate, a, b), order);
    SignOfProduct(Compare(collate, b, c), order);
    SignOfProduct(Compare(collate, a, c), order);
    ComparesBackwards(collate, a, b);
    ComparesBackwards(collate, b, c);
    ComparesBackwards(collate, a, c);
  }

  lemma ComparesBackwards(collate: Collation, a: Key, b: Key)
    requires IsTotalPreorder(collate)
    ensures Compare(collate, a, b) > 0 <==> Compare(collate, b, a) < 0
    ensures Compare(collate, a, b) < 0 <==> Compare(collate, b, a) > 0
  {
    assert collate(Shown(a), Shown(b)) > 0 <==> collate(Shown(b), Shown(a)) < 0;
    assert collate(Shown(b), Shown(a)) > 0 <==> collate(Shown(a), Shown(b)) < 0;
  }

  /** When the comparison by an attribute orders a list of values at all, ascending or descending: it is antisymmetric in
      any case, and transitive if and only if no text among them is misplaced between two of the dates. */
  lemma MixedKeysBreakOrderIff(collate: Collation, order: int, keys: seq<Key>)
    requires IsTotalPreorder(collate) && order != 0
    ensures forall a, b :: a in keys && b in keys ==>
      (Compare(collate, a, b) * order > 0 <==> Compare(collate, b, a) * order < 0)
    ensures (exists a, b, c :: a in keys && b in keys && c in keys && BreaksSigned(collate, order, a, b, c)) <==>
            (exists d, e, t :: d in keys && e in keys && t in keys && Misplaced(collate, d, e, t))
  {
    forall a, b | a in keys && b in keys
      ensures Compare(collate, a, b) * order > 0 <==> Compare(collate, b, a) * order < 0
    {
      ComparesBackwards(collate, a, b);
      SignOfProduct(Compare(collate, a, b), order);
      SignOfProduct(Compare(collate, b, a), order);
    }
    if a, b, c :| a in keys && b in keys && c in keys && BreaksSigned(collate, order, a, b, c) {
      SignOnlyTurns(collate, order, a, b, c);
      var (x, z) := if order > 0 then (a, c) else (c, a);
      BreakIsMisplaced(collate, x, b, z);
    }
    if d, e, t :| d in keys && e in keys && t in keys && Misplaced(collate, d, e, t) {
      var triple := MisplacedBreaks(collate, d, e, t);
      var (x, y, z) := triple;
      SignOnlyTurns(collate, order, x, y, z);
      SignOnlyTurns(collate, order, z, y, x);
      assert BreaksSigned(collate, order, x, y, z) || BreaksSigned(collate, order, z, y, x);
    }
  }

  lemma BreakIsMisplaced(collate: Collation, a: Key, b: Key, c: Key)
    requires IsTotalPreorder(collate) && BreaksOrder(collate, a, b, c)
    ensures Misplaced(collate, a, b, c) || Misplaced(collate, b, c, a) || Misplaced(collate, c, a, b)
  {
    TripleBreaksOrderIff(collate, a, b, c);
    ComparesBackwards(collate, a, c);
  }

  lemma MisplacedBreaks(collate: Collation, d: Key, e: Key, t: Key) returns (triple: (Key, Key, Key))
    requires IsTotalPreorder(collate) && Misplaced(collate, d, e, t)
    ensures BreaksOrder(collate, triple.0, triple.1, triple.2)
    ensures triple in {(d, e, t), (t, d, e), (e, t, d)}
  {
    ComparesBackwards(collate, d, t);
    ComparesBackwards(collate, e, t);
    triple := if Compare(collate, d, t) > 0 then (d, e, t) else if Compare(collate, t, e) > 0 then (t, d, e) else (e, t, d);
  }

  /** A tie is enough, without any circle: two dates whose printed forms stand in the other order, and the text that the
      later one prints. */
  lemma TieBreaksOrder(collate: Collation, earlier: string, later: string)
    requires IsTotalPreorder(collate) && collate(later, earlier) < 0
    ensures var (a, b, c) := (DateKey(0, earlier), DateKey(1, later), TextKey(later));
            && BreaksOrder(collate, a, b, c)
            && !Circle(collate, a, b, c) && !Circle(collate, a, c, b)
  {
    CollationFacts(collate, later, later, earlier);
    assert collate(earlier, later) > 0;
  }

  // Three values, each smaller than the next.
  predicate Circle(collate: Collation, a: Key, b: Key, c: Key) {
    Compare(collate, a, b) < 0 && Compare(collate, b, c) < 0 && Compare(collate, c, a) < 0
  }

  // A text that stands between two dates as they are printed, the later one first.
  predicate TextBetween(collate: Collation, a: Key, b: Key, c: Key) {
    && a.DateKey? && b.DateKey? && c.TextKey? && a.time < b.time
    && collate(b.shown, c.text) < 0 && collate(c.text, a.shown) < 0
  }

  /** Where dates and other values are mixed the order can break: whatever the collation, three values form a circle if
      and only if two of them are dates and the third is a text that stands, in print, between the later and the earlier one. */
  lemma MixedKeysGoInCircles(collate: Collation, a: Key, b: Key, c: Key)
    requires IsTotalPreorder(collate)
    ensures Circle(collate, a, b, c) <==>
            TextBetween(collate, a, b, c) || TextBetween(collate, b, c, a) || TextBetween(collate, c, a, b)
  {
    var x, y, z := Shown(a), Shown(b), Shown(c);
    assert collate(x, y) < 0 && collate(y, z) < 0 ==> !(collate(z, x) < 0) by {
      if collate(x, y) < 0 && collate(y, z) < 0 {
        assert collate(y, z) <= 0 && collate(x, y) <= 0 && collate(x, z) <= 0;
        assert collate(z, x) < 0 <==> collate(x, z) > 0;
      }
    }
  }

  // Where the comparator is consistent, an ordered arrangement exists.

  function Inserted(collate: Collation, criteria: seq<Criterion>, x: Item, items: seq<Item>): (r: seq<Item>)
    requires Has(x, criteria) && forall y :: y in items ==> Has(y, criteria)
    ensures multiset(r) == multiset(items) + multiset{x}
    ensures forall y :: y in r <==> y == x || y in items
  {
    if items == [] then [x]
    else if CompareItems(collate, criteria, x, items[0]) <= 0 then [x] + items
    else
      assert items == [items[0]] + items[1..];
      [items[0]] + Inserted(collate, criteria, x, items[1..])
  }

  function Arranged(collate: Collation, criteria: seq<Criterion>, items: seq<Item>): (r: seq<Item>)
    requires forall y :: y in items ==> Has(y, criteria)
    ensures multiset(r) == multiset(items)
    ensures forall y :: y in r <==> y in items
  {
    if items == [] then []
    else
      assert items == [items[0]] + items[1..];
      Inserted(collate, criteria, items[0], Arranged(collate, criteria, items[1..]))
  }

  // Comparability is about the members only.
  lemma ComparableMembers(criteria: seq<Criterion>, s: seq<Item>, t: seq<Item>)
    requires Comparable(criteria, s) && forall y :: y in t ==> y in s
    ensures Comparable(criteria, t)
  {
    forall i | 0 <= i < |t|
      ensures exists k :: 0 <= k < |s| && s[k] == t[i]
    {
      assert t[i] in s;
    }
  }

  lemma ConsKeepsOrder(collate: Collation, criteria: seq<Criterion>, x: Item, items: seq<Item>)
    requires Comparable(criteria, [x] + items) && Sorted(collate, criteria, items) && Has(x, criteria)
    requires forall y :: y in items ==> Has(y, criteria) && CompareItems(collate, criteria, x, y) <= 0
    ensures Sorted(collate, criteria, [x] + items)
  {
    var longer := [x] + items;
    forall i, j | 0 <= i < j < |longer|
      ensures CompareItems(collate, criteria, longer[i], longer[j]) <= 0
    {
      assert longer[j] == items[j - 1] && items[j - 1] in items;
      assert i > 0 ==> longer[i] == items[i - 1];
    }
  }

  lemma MembersHave(criteria: seq<Criterion>, items: seq<Item>)
    requires Comparable(criteria, items)
    ensures forall y :: y in items ==> Has(y, criteria)
  {
  }

  lemma {:induction false} InsertedIsSorted(collate: Collation, criteria: seq<Criterion>, x: Item, items: seq<Item>)
    requires IsTotalPreorder(collate) && Comparable(criteria, [x] + items) && Sorted(collate, criteria, items)
    requires Has(x, criteria) && forall y :: y in items ==> Has(y, criteria)
    ensures Sorted(collate, criteria, Inserted(collate, criteria, x, items))
  {
    var all := [x] + items;
    assert all[1..] == items;
    if items == [] {
      assert all == [x];
    } else if CompareItems(collate, criteria, x, items[0]) <= 0 {
      forall y | y in items
        ensures CompareItems(collate, criteria, x, y) <= 0
      {
        FirstIsLeast(collate, criteria, all, y);
      }
      ConsKeepsOrder(collate, criteria, x, items);
    } else {
      ComparableMembers(criteria, all, [x] + items[1..]);
      InsertedIsSorted(collate, criteria, x, items[1..]);
      InsertedBehindFirst(collate, criteria, x, items);
    }
  }

  lemma InsertedBehindFirst(collate: Collation, criteria: seq<Criterion>, x: Item, items: seq<Item>)
    requires IsTotalPreorder(collate) && Comparable(criteria, [x] + items) && Sorted(collate, criteria, items)
    requires Has(x, criteria) && forall y :: y in items ==> Has(y, criteria)
    requires items != [] && CompareItems(collate, criteria, x, items[0]) > 0
    requires Sorted(collate, criteria, Inserted(collate, criteria, x, items[1..]))
    ensures Sorted(collate, criteria, Inserted(collate, criteria, x, items))
  {
    var all, first, inner := [x] + items, items[0], Inserted(collate, criteria, x, items[1..]);
    assert all[0] == x && all[1] == first && first in items;
    assert SameKinds(criteria, x, first);
    ComparatorIsConsistent(collate, criteria, x, first, x);
    forall y | y in inner
      ensures CompareItems(collate, criteria, first, y) <= 0
    {
      if y != x {
        var k :| 0 <= k < |items[1..]| && items[1..][k] == y;
        assert items[k + 1] == y;
      }
    }
    ComparableMembers(criteria, all, [first] + inner);
    ConsKeepsOrder(collate, criteria, first, inner);
  }

  // Below the first of an ordered list is below everything in it.
  lemma FirstIsLeast(collate: Collation, criteria: seq<Criterion>, all: seq<Item>, y: Item)
    requires IsTotalPreorder(collate) && Comparable(criteria, all) && |all| > 1 && y in all[1..]
    requires Sorted(collate, criteria, all[1..]) && CompareItems(collate, criteria, all[0], all[1]) <= 0
    ensures Has(y, criteria) && CompareItems(collate, criteria, all[0], y) <= 0
  {
    var items := all[1..];
    var k :| 0 <= k < |items| && items[k] == y;
    assert all[k + 1] == y && items[0] == all[1];
    ComparatorIsConsistent(collate, criteria, all[0], all[1], y);
  }

  /** Every comparable list has an ordered arrangement, so there is something for an algorithm to return. */
  lemma {:induction false} OrderedArrangementExists(collate: Collation, criteria: seq<Criterion>, items: seq<Item>)
    requires IsTotalPreorder(collate) && Comparable(criteria, items)
    ensures forall y :: y in items ==> Has(y, criteria)
    ensures var t := Arranged(collate, criteria, items);
            multiset(t) == multiset(items) && Sorted(collate, criteria, t)
  {
    MembersHave(criteria, items);
    if items != [] {
      var rest := items[1..];
      assert items == [items[0]] + rest && items[0] in items;
      var t := Arranged(collate, criteria, rest);
      ComparableMembers(criteria, items, rest);
      OrderedArrangementExists(collate, criteria, rest);
      ComparableMembers(criteria, items, [items[0]] + t);
      InsertedIsSorted(collate, criteria, items[0], t);
    }
  }

  // Request parameters; what was not sent is 0.
  datatype Params = Params(limit: int, skip: int)
  datatype Page<T> = Page(total: nat, limit: nat, skip: nat, data: seq<T>)

  // slice with bounds cut off at the end of the list
  function Slice<T>(data: seq<T>, from: nat, to: nat): seq<T>
    requires from <= to
  {
    if from >= |data| then [] else data[from..if to < |data| then to else |data|]
  }

  function Paginate<T>(data: seq<T>, params: Params): Page<T> {
    var limit := if params.limit > 0 then params.limit else |data|;
    var skip := if params.skip > 0 then params.skip else 0;
    Page(|data|, limit, skip, Slice(data, skip, skip + limit))
  }

  /** What a page holds: the items from `skip` on, as many as the limit allows, or all of them without a limit. */
  lemma PageHolds<T>(data: seq<T>, params: Params)
    ensures var page, skip := Paginate(data, params), if params.skip < 0 then 0 else params.skip;
            var rest := if skip <= |data| then |data| - skip else 0;
            && page.total == |data| && page.skip == skip
            && page.limit == (if params.limit <= 0 then |data| else params.limit)
            && |page.data| == (if 0 < params.limit < rest then params.limit else rest)
            && forall i :: 0 <= i < |page.data| ==> page.data[i] == data[skip + i]
  {
  }

  // Pages requested one after the other from `skip` on, each starting where the last one ended.
  function PagesFrom<T>(data: seq<T>, limit: nat, skip: nat): seq<T>
    requires limit > 0
    decreases |data| - skip
  {
    if skip >= |data| then []
    else
      var page := Paginate(data, Params(limit, skip));
      page.data + PagesFrom(data, limit, page.skip + page.limit)
  }

  lemma FirstPageAndRest<T>(data: seq<T>, limit: nat, skip: nat)
    requires limit > 0 && skip < |data|
    ensures PagesFrom(data, limit, skip) == Slice(data, skip, skip + limit) + PagesFrom(data, limit, skip + limit)
  {
  }

  lemma {:induction false} PagesCoverTheRest<T>(data: seq<T>, limit: nat, skip: nat)
    requires limit > 0 && skip <= |data|
    ensures PagesFrom(data, limit, skip) == data[skip..]
    decreases |data| - skip
  {
    if skip == |data| {
    } else {
      var next := skip + limit;
      FirstPageAndRest(data, limit, skip);
      if next < |data| {
        PagesCoverTheRest(data, limit, next);
        SliceAndRest(data, skip, next);
      } else {
        assert PagesFrom(data, limit, next) == [] && Slice(data, skip, next) == data[skip..];
      }
    }
  }

  lemma SliceAndRest<T>(data: seq<T>, from: nat, to: nat)
    requires from <= to <= |data|
    ensures data[from..to] + data[to..] == data[from..]
  {
  }

  /** Consecutive pages of any positive limit put together are the whole list. */
  lemma PagesCoverTheList<T>(data: seq<T>, limit: nat)
    requires limit > 0
    ensures PagesFrom(data, limit, 0) == data
  {
    PagesCoverTheRest(data, limit, 0);
  }
}
