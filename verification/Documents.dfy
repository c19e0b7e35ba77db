/** Object trees as they are sent to clients or to the log. */
module Documents {

  datatype Field = Field(key: string, value: Value)
  datatype Value =
    | Date(iso: string)
    | ObjectId(hex: string)
    | Scalar(text: string)
    | List(items: seq<Value>)
    | Record(fields: seq<Field>)

  predicate IsContainer(v: Value) {
    v.List? || v.Record?
  }

  function Children(v: Value): seq<Value> {
    match v
    case List(items) => items
    case Record(fields) => seq(|fields|, i requires 0 <= i < |fields| => fields[i].value)
    case _ => []
  }

  function Max(a: nat, b: nat): nat {
    if a > b then a else b
  }

  // The number of containers on the deepest way down.
  function Height(v: Value): nat {
    match v
    case List(items) => 1 + HeightOfItems(items)
    case Record(fields) => 1 + HeightOfFields(fields)
    case _ => 0
  }

  function HeightOfItems(items: seq<Value>): nat {
    if items == [] then 0 else Max(Height(items[0]), HeightOfItems(items[1..]))
  }

  function HeightOfFields(fields: seq<Field>): nat {
    if fields == [] then 0 else Max(Height(fields[0].value), HeightOfFields(fields[1..]))
  }

  lemma {:induction false} ItemIsLower(items: seq<Value>, i: nat)
    requires i < |items|
    ensures Height(items[i]) <= HeightOfItems(items)
  {
    if i > 0 {
      ItemIsLower(items[1..], i - 1);
    }
  }

  lemma {:induction false} FieldIsLower(fields: seq<Field>, i: nat)
    requires i < |fields|
    ensures Height(fields[i].value) <= HeightOfFields(fields)
  {
    if i > 0 {
      FieldIsLower(fields[1..], i - 1);
    }
  }

  // Positions in a tree.

  predicate IsPath(v: Value, path: seq<nat>) {
    path == [] || (path[0] < |Children(v)| && IsPath(Children(v)[path[0]], path[1..]))
  }

  function At(v: Value, path: seq<nat>): Value
    requires IsPath(v, path)
  {
    if path == [] then v else At(Children(v)[path[0]], path[1..])
  }

  /** How high a tree is: higher than n exactly if a container can be reached by n steps. */
  lemma {:induction false} HeightMeans(v: Value, n: nat)
    ensures Height(v) > n <==> exists path: seq<nat> :: |path| == n && IsPath(v, path) && IsContainer(At(v, path))
    decreases n
  {
    if n == 0 {
      if IsContainer(v) {
        var path: seq<nat> := [];
        assert |path| == 0 && IsPath(v, path) && IsContainer(At(v, path));
      }
    } else {
      if path: seq<nat> :| |path| == n && IsPath(v, path) && IsContainer(At(v, path)) {
        HeightMeans(Children(v)[path[0]], n - 1);
        assert IsPath(Children(v)[path[0]], path[1..]);
        ChildIsLower(v, path[0]);
      }
      if Height(v) > n {
        var i := HighestChild(v);
        HeightMeans(Children(v)[i], n - 1);
        var down: seq<nat> :| |down| == n - 1 && IsPath(Children(v)[i], down) && IsContainer(At(Children(v)[i], down));
        var path := [i] + down;
        assert path[1..] == down && |path| == n && IsPath(v, path) && IsContainer(At(v, path));
      }
    }
  }

  lemma ChildIsLower(v: Value, i: nat)
    requires i < |Children(v)|
    ensures Height(Children(v)[i]) < Height(v)
  {
    if v.List? {
      ItemIsLower(v.items, i);
    } else {
      FieldIsLower(v.fields, i);
    }
  }

  lemma HighestChild(v: Value) returns (i: nat)
    requires Height(v) > 1
    ensures i < |Children(v)| && Height(Children(v)[i]) + 1 == Height(v)
  {
    if v.List? {
      i := HighestItem(v.items);
    } else {
      i := HighestField(v.fields);
    }
  }

  lemma {:induction false} HighestItem(items: seq<Value>) returns (i: nat)
    requires HeightOfItems(items) > 0
    ensures i < |items| && Height(items[i]) == HeightOfItems(items)
  {
    if Height(items[0]) > HeightOfItems(items[1..]) {
      i := 0;
    } else {
      var k := HighestItem(items[1..]);
      i := k + 1;
    }
  }

  lemma {:induction false} HighestField(fields: seq<Field>) returns (i: nat)
    requires HeightOfFields(fields) > 0
    ensures i < |fields| && Height(fields[i].value) == HeightOfFields(fields)
  {
    if Height(fields[0].value) > HeightOfFields(fields[1..]) {
      i := 0;
    } else {
      var k := HighestField(fields[1..]);
      i := k + 1;
    }
  }
}
