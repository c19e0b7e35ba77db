/** The hook that turns dates and object ids into strings before a result is sent. */
module DataTransfer {
  import opened Options
  import opened Documents

  const MAX_DEEP := 12

  // The intended result: every date and object id replaced by its string, everything else kept.
  function Plain(v: Value): Value {
    match v
    case Date(iso) => Scalar(iso)
    case ObjectId(hex) => Scalar(hex)
    case Scalar(_) => v
    case List(items) => List(PlainItems(items))
    case Record(fields) => Record(PlainFields(fields))
  }

  function PlainItems(items: seq<Value>): seq<Value> {
    if items == [] then [] else [Plain(items[0])] + PlainItems(items[1..])
  }

  function PlainFields(fields: seq<Field>): seq<Field> {
    if fields == [] then []
    else [Field(fields[0].key, Plain(fields[0].value))] + PlainFields(fields[1..])
  }

  predicate IsPlain(v: Value) {
    match v
    case Date(_) => false
    case ObjectId(_) => false
    case Scalar(_) => true
    case List(items) => forall i :: 0 <= i < |items| ==> IsPlain(items[i])
    case Record(fields) => forall i :: 0 <= i < |fields| ==> IsPlain(fields[i].value)
  }

  lemma {:induction false} PlainItem(items: seq<Value>, i: nat)
    requires i < |items|
    ensures |PlainItems(items)| == |items| && PlainItems(items)[i] == Plain(items[i])
  {
    if i > 0 {
      PlainItem(items[1..], i - 1);
    } else if |items| > 1 {
      PlainItem(items[1..], 0);
    }
  }

  lemma {:induction false} PlainField(fields: seq<Field>, i: nat)
    requires i < |fields|
    ensures |PlainFields(fields)| == |fields|
    ensures PlainFields(fields)[i] == Field(fields[i].key, Plain(fields[i].value))
  {
    if i > 0 {
      PlainField(fields[1..], i - 1);
    } else if |fields| > 1 {
      PlainField(fields[1..], 0);
    }
  }

  /** The transformation leaves no date and no object id anywhere. */
  lemma {:induction false} PlainIsPlain(v: Value)
    ensures IsPlain(Plain(v))
  {
    match v
    case List(items) =>
      forall i | 0 <= i < |PlainItems(items)|
        ensures IsPlain(PlainItems(items)[i])
      {
        if items != [] {
          PlainItem(items, 0);
          PlainItem(items, i);
          PlainIsPlain(items[i]);
        }
      }
    case Record(fields) =>
      forall i | 0 <= i < |PlainFields(fields)|
        ensures IsPlain(PlainFields(fields)[i].value)
      {
        if fields != [] {
          PlainField(fields, 0);
          PlainField(fields, i);
          PlainIsPlain(fields[i].value);
        }
      }
    case _ =>
  }

  /** It changes nothing that is plain already, so a second visit is invisible. */
  lemma {:induction false} PlainStays(v: Value)
    requires IsPlain(v)
    ensures Plain(v) == v
  {
    match v
    case List(items) => PlainItemsStay(items);
    case Record(fields) => PlainFieldsStay(fields);
    case _ =>
  }

  lemma {:induction false} PlainItemsStay(items: seq<Value>)
    requires forall i :: 0 <= i < |items| ==> IsPlain(items[i])
    ensures PlainItems(items) == items
  {
    if items != [] {
      PlainStays(items[0]);
      PlainItemsStay(items[1..]);
    }
  }

  lemma {:induction false} PlainFieldsStay(fields: seq<Field>)
    requires forall i :: 0 <= i < |fields| ==> IsPlain(fields[i].value)
    ensures PlainFields(fields) == fields
  {
    if fields != [] {
      PlainStays(fields[0].value);
      PlainFieldsStay(fields[1..]);
    }
  }

  /** What becomes of every place of a tree: dates and ids become their text, other leaves stay, and containers keep
      their kind, their size and their keys. */
  lemma {:induction false} PlainAt(v: Value, path: seq<nat>)
    requires IsPath(v, path)
    ensures IsPath(Plain(v), path)
    ensures var after := At(Plain(v), path);
            match At(v, path)
            case Date(iso) => after == Scalar(iso)
            case ObjectId(hex) => after == Scalar(hex)
            case Scalar(text) => after == Scalar(text)
            case List(items) => after.List? && |after.items| == |items|
            case Record(fields) =>
              after.Record? && |after.fields| == |fields| && forall i :: 0 <= i < |fields| ==> after.fields[i].key == fields[i].key
    decreases path
  {
    if path != [] {
      if v.List? {
        PlainItem(v.items, path[0]);
      } else {
        PlainField(v.fields, path[0]);
      }
      PlainAt(Children(v)[path[0]], path[1..]);
    } else if v.List? && v.items != [] {
      PlainItem(v.items, 0);
    } else if v.Record? {
      forall i | 0 <= i < |v.fields|
        ensures |PlainFields(v.fields)| == |v.fields| && PlainFields(v.fields)[i].key == v.fields[i].key
      {
        PlainField(v.fields, i);
      }
    }
  }

  /** When the recursion throws on a result: exactly if a container lies twelve steps inside it. */
  lemma TooDeepIff(v: Value)
    ensures Expected(v, 0).None? <==> exists path: seq<nat> :: |path| == 12 && IsPath(v, path) && IsContainer(At(v, path))
  {
    HeightMeans(v, 12);
  }

  lemma {:induction false} PlainKeepsHeight(v: Value)
    ensures Height(Plain(v)) == Height(v)
  {
    match v
    case List(items) => PlainItemsKeepHeight(items);
    case Record(fields) => PlainFieldsKeepHeight(fields);
    case _ =>
  }

  lemma {:induction false} PlainItemsKeepHeight(items: seq<Value>)
    ensures HeightOfItems(PlainItems(items)) == HeightOfItems(items)
  {
    if items != [] {
      PlainKeepsHeight(items[0]);
      PlainItemsKeepHeight(items[1..]);
    }
  }

  lemma {:induction false} PlainFieldsKeepHeight(fields: seq<Field>)
    ensures HeightOfFields(PlainFields(fields)) == HeightOfFields(fields)
  {
    if fields != [] {
      PlainKeepsHeight(fields[0].value);
      PlainFieldsKeepHeight(fields[1..]);
    }
  }

  // What a container that starts at `depth` becomes; None stands for the exception.
  function Expected(v: Value, depth: nat): Option<Value> {
    if depth + Height(v) > MAX_DEEP then None else Some(Plain(v))
  }

  function ExpectedItems(items: seq<Value>, depth: nat): Option<seq<Value>> {
    if depth + HeightOfItems(items) > MAX_DEEP then None else Some(PlainItems(items))
  }

  function ExpectedFields(fields: seq<Field>, depth: nat): Option<seq<Field>> {
    if depth + HeightOfFields(fields) > MAX_DEEP then None else Some(PlainFields(fields))
  }

  lemma {:induction false} ItemsSnoc(items: seq<Value>, v: Value)
    ensures PlainItems(items + [v]) == PlainItems(items) + [Plain(v)]
    ensures HeightOfItems(items + [v]) == Max(HeightOfItems(items), Height(v))
  {
    if items == [] {
      assert items + [v] == [v] && [v][1..] == [];
    } else {
      assert (items + [v])[1..] == items[1..] + [v];
      ItemsSnoc(items[1..], v);
    }
  }

  lemma {:induction false} FieldsSnoc(fields: seq<Field>, f: Field)
    ensures PlainFields(fields + [f]) == PlainFields(fields) + [Field(f.key, Plain(f.value))]
    ensures HeightOfFields(fields + [f]) == Max(HeightOfFields(fields), Height(f.value))
  {
    if fields == [] {
      assert fields + [f] == [f] && [f][1..] == [];
    } else {
      assert (fields + [f])[1..] == fields[1..] + [f];
      FieldsSnoc(fields[1..], f);
    }
  }

  lemma {:induction false} HeightsGrow(items: seq<Value>, i: nat)
    requires i <= |items|
    ensures HeightOfItems(items[..i]) <= HeightOfItems(items)
    decreases |items|
  {
    if 0 < i {
      assert items[..i][1..] == items[1..][..i - 1];
      HeightsGrow(items[1..], i - 1);
    }
  }

  lemma {:induction false} FieldHeightsGrow(fields: seq<Field>, i: nat)
    requires i <= |fields|
    ensures HeightOfFields(fields[..i]) <= HeightOfFields(fields)
    decreases |fields|
  {
    if 0 < i {
      assert fields[..i][1..] == fields[1..][..i - 1];
      FieldHeightsGrow(fields[1..], i - 1);
    }
  }

  /** What the argument object itself looks like after the call: objects are changed in place, arrays are
      not, only the objects they refer to. */
  function InPlace(v: Value): Value {
    match v
    case List(items) => List(InPlaceItems(items))
    case Record(_) => Plain(v)
    case _ => v
  }

  function InPlaceItems(items: seq<Value>): seq<Value> {
    if items == [] then [] else [InPlace(items[0])] + InPlaceItems(items[1..])
  }

  lemma {:induction false} InPlaceSnoc(items: seq<Value>, v: Value)
    ensures InPlaceItems(items + [v]) == InPlaceItems(items) + [InPlace(v)]
  {
    if items == [] {
      assert items + [v] == [v] && [v][1..] == [];
    } else {
      assert (items + [v])[1..] == items[1..] + [v];
      InPlaceSnoc(items[1..], v);
    }
  }

  // No date or object id stands directly in an array that can be reached through arrays alone.
  predicate ArraysAreClean(v: Value) {
    match v
    case List(items) => forall i :: 0 <= i < |items| ==> ArraysAreClean(items[i])
    case Record(_) => true
    case _ => v.Scalar?
  }

  lemma {:induction false} InPlaceItem(items: seq<Value>, i: nat)
    requires i < |items|
    ensures |InPlaceItems(items)| == |items| && InPlaceItems(items)[i] == InPlace(items[i])
  {
    if i > 0 {
      InPlaceItem(items[1..], i - 1);
    } else if |items| > 1 {
      InPlaceItem(items[1..], 0);
    }
  }

  /** The hook throws the returned value away, so it cleans a result completely if and only if dates and ids
      do not stand directly in its outer arrays; object results are always cleaned. */
  lemma {:induction false} HookCleansIff(v: Value)
    ensures IsPlain(InPlace(v)) <==> ArraysAreClean(v)
    ensures ArraysAreClean(v) ==> InPlace(v) == Plain(v)
  {
    match v
    case List(items) =>
      forall i | 0 <= i < |items|
        ensures |InPlaceItems(items)| == |items| == |PlainItems(items)|
        ensures InPlaceItems(items)[i] == InPlace(items[i]) && PlainItems(items)[i] == Plain(items[i])
        ensures IsPlain(InPlace(items[i])) <==> ArraysAreClean(items[i])
        ensures ArraysAreClean(items[i]) ==> InPlace(items[i]) == Plain(items[i])
      {
        InPlaceItem(items, i);
        PlainItem(items, i);
        HookCleansIff(items[i]);
      }
      if items != [] {
        assert |InPlaceItems(items)| == |items| by { InPlaceItem(items, 0); }
      }
      assert ArraysAreClean(v) ==> InPlaceItems(items) == PlainItems(items);
    case Record(_) => PlainIsPlain(v);
    case _ =>
  }

  /** A list result keeps its dates. */
  lemma DateInListStays(iso: string)
    ensures InPlace(List([Date(iso)])) == List([Date(iso)]) && !IsPlain(InPlace(List([Date(iso)])))
  {
    assert [Date(iso)][1..] == [] && InPlaceItems([Date(iso)]) == [Date(iso)];
    HookCleansIff(List([Date(iso)]));
    assert !ArraysAreClean([Date(iso)][0]);
  }

  /** The recursion over arrays and objects, with an array inside an object visited twice, throws exactly if a container
      lies at depth 12 or deeper, and otherwise returns the plain form and leaves `argument` in the argument's place. */
  method DeepTransform(v: Value, depth: nat) returns (result: Option<Value>, argument: Value)
    ensures IsContainer(v) ==> result == Expected(v, depth)
    ensures !IsContainer(v) ==> result == if depth >= MAX_DEEP then None else Some(v)
    ensures result.Some? ==> argument == InPlace(v)
    decreases Height(v), 1
  {
    argument := v;
    if depth >= MAX_DEEP {
      return None, argument;
    }
    match v {
      case List(items) =>
        var mapped, original := TransformItems(items, depth);
        result := if mapped.Some? then Some(List(mapped.value)) else None;
        argument := List(original);
      case Record(fields) =>
        var changed := TransformFields(fields, depth);
        result := if changed.Some? then Some(Record(changed.value)) else None;
        argument := if changed.Some? then Record(changed.value) else v;
      case _ =>
        result := Some(v);
    }
  }

  method TransformItems(items: seq<Value>, depth: nat) returns (mapped: Option<seq<Value>>, original: seq<Value>)
    requires depth < MAX_DEEP
    ensures mapped == ExpectedItems(items, depth + 1)
    ensures mapped.Some? ==> original == InPlaceItems(items)
    decreases 1 + HeightOfItems(items), 0
  {
    var done := [];
    original := [];
    for i := 0 to |items|
      invariant ExpectedItems(items[..i], depth + 1) == Some(done)
      invariant original == InPlaceItems(items[..i])
    {
      ItemIsLower(items, i);
      ItemsSnoc(items[..i], items[i]);
      InPlaceSnoc(items[..i], items[i]);
      HeightsGrow(items, i + 1);
      assert items[..i] + [items[i]] == items[..i + 1];
      var element, changed := items[i], items[i];
      match items[i] {
        case Date(iso) => element := Scalar(iso);
        case ObjectId(hex) => element := Scalar(hex);
        case Scalar(_) =>
        case _ =>
          var child, after := DeepTransform(items[i], depth + 1);
          if child.None? {
            return None, original;
          }
          element, changed := child.value, after;
      }
      done, original := done + [element], original + [changed];
    }
    assert items[..|items|] == items;
    mapped := Some(done);
  }

  method TransformFields(fields: seq<Field>, depth: nat) returns (mapped: Option<seq<Field>>)
    requires depth < MAX_DEEP
    ensures mapped == ExpectedFields(fields, depth + 1)
    decreases 1 + HeightOfFields(fields), 0
  {
    var done := [];
    for i := 0 to |fields|
      invariant ExpectedFields(fields[..i], depth + 1) == Some(done)
    {
      FieldIsLower(fields, i);
      FieldsSnoc(fields[..i], fields[i]);
      FieldHeightsGrow(fields, i + 1);
      assert fields[..i] + [fields[i]] == fields[..i + 1];
      var value := TransformEntry(fields[i].value, depth);
      if value.None? {
        return None;
      }
      done := done + [Field(fields[i].key, value.value)];
    }
    assert fields[..|fields|] == fields;
    mapped := Some(done);
  }

  // The successive assignments to one entry of an object.
  method TransformEntry(original: Value, depth: nat) returns (entry: Option<Value>)
    requires depth < MAX_DEEP
    ensures entry == Expected(original, depth + 1)
    decreases Height(original), 2
  {
    PlainKeepsHeight(original);
    PlainIsPlain(original);
    PlainStays(Plain(original));
    var value := original;
    if value.Date? {
      value := Scalar(value.iso);
    }
    if value.ObjectId? {
      value := Scalar(value.hex);
    }
    if value.List? {
      var child, _ := DeepTransform(value, depth + 1);
      if child.None? {
        return None;
      }
      value := child.value;
    }
    if IsContainer(value) {
      var child, _ := DeepTransform(value, depth + 1);
      if child.None? {
        return None;
      }
      value := child.value;
    }
    entry := Some(value);
  }

  // The hook: it calls the recursion for its effect on the result object.
  method TransformToDataTransferObject(contextResult: Value) returns (after: Option<Value>)
    ensures IsContainer(contextResult) ==>
      after == if Height(contextResult) > MAX_DEEP then None else Some(InPlace(contextResult))
  {
    var returned, argument := DeepTransform(contextResult, 0);
    after := if returned.Some? then Some(argument) else None;
  }
}
