/** Masking secrets in error data before it is logged. */
module SecretFilter {
  import opened Documents

  const MAX_LEVEL := 12
  const MASK := Scalar("<secret>")

  function LowerChar(c: char): char {
    if 'A' <= c <= 'Z' then (c as int + 32) as char else c
  }

  function Lower(s: string): string {
    seq(|s|, i requires 0 <= i < |s| => LowerChar(s[i]))
  }

  // The listed keys in lower case, in which they are compared.
  const SECRET_KEYS := {
    "headers", "password", "passwort", "new_password", "new-password", "oauth-password", "current-password",
    "passwort_1", "passwort_2", "password_1", "password_2", "password-1", "password-2", "password_verification",
    "password_control", "password_hash", "password_new", "accesstoken", "ticket", "firstname", "lastname", "email",
    "birthday", "description", "gradecomment", "_csrf", "searchuserpassword"}

  predicate IsSecret(key: string) {
    Lower(key) in SECRET_KEYS
  }

  /** Which keys are secret: those that become one of these when capitals are taken as small letters. */
  lemma SecretIffListed(key: string)
    ensures IsSecret(key) <==> Lower(key) in {
      "headers", "password", "passwort", "new_password", "new-password", "oauth-password", "current-password",
      "passwort_1", "passwort_2", "password_1", "password_2", "password-1", "password-2", "password_verification",
      "password_control", "password_hash", "password_new", "accesstoken", "ticket", "firstname", "lastname", "email",
      "birthday", "description", "gradecomment", "_csrf", "searchuserpassword"}
    ensures |Lower(key)| == |key| && forall i :: 0 <= i < |key| ==>
      Lower(key)[i] as int == if 'A' <= key[i] <= 'Z' then key[i] as int + 32 else key[i] as int
  {
  }

  // What masking means: below the last level values stay as they are.
  function Mask(v: Value, level: nat): Value {
    if level > MAX_LEVEL then v
    else
      match v
      case List(items) => List(MaskItems(items, level))
      case Record(fields) => Record(MaskFields(fields, level))
      case _ => v
  }

  function MaskItems(items: seq<Value>, level: nat): seq<Value> {
    if items == [] then [] else [Mask(items[0], level + 1)] + MaskItems(items[1..], level)
  }

  function MaskFields(fields: seq<Field>, level: nat): seq<Field> {
    if fields == [] then []
    else
      var f := fields[0];
      [Field(f.key, if IsSecret(f.key) then MASK else Mask(f.value, level + 1))] + MaskFields(fields[1..], level)
  }

  lemma {:induction false} MaskItem(items: seq<Value>, level: nat, i: nat)
    requires i < |items|
    ensures |MaskItems(items, level)| == |items| && MaskItems(items, level)[i] == Mask(items[i], level + 1)
  {
    if i > 0 {
      MaskItem(items[1..], level, i - 1);
    } else if |items| > 1 {
      MaskItem(items[1..], level, 0);
    }
  }

  lemma {:induction false} MaskField(fields: seq<Field>, level: nat, i: nat)
    requires i < |fields|
    ensures |MaskFields(fields, level)| == |fields|
    ensures MaskFields(fields, level)[i].key == fields[i].key
    ensures MaskFields(fields, level)[i].value == if IsSecret(fields[i].key) then MASK else Mask(fields[i].value, level + 1)
  {
    if i > 0 {
      MaskField(fields[1..], level, i - 1);
    } else if |fields| > 1 {
      MaskField(fields[1..], level, 0);
    }
  }

  // The position is inside an entry with a secret key that is an entry of a container on one of the levels up to 12.
  predicate MeetsSecret(v: Value, path: seq<nat>, level: nat)
    requires IsPath(v, path)
  {
    path != [] && level <= MAX_LEVEL &&
    ((v.Record? && IsSecret(v.fields[path[0]].key)) || MeetsSecret(Children(v)[path[0]], path[1..], level + 1))
  }

  // A way into a child is a way into its parent.
  lemma StepInto(v: Value, i: nat, rest: seq<nat>)
    requires i < |Children(v)| && IsPath(Children(v)[i], rest)
    ensures IsPath(v, [i] + rest) && At(v, [i] + rest) == At(Children(v)[i], rest)
  {
    assert ([i] + rest)[1..] == rest;
  }

  lemma ChildIsMasked(v: Value, i: nat, level: nat)
    requires i < |Children(v)| && level <= MAX_LEVEL
    ensures |Children(Mask(v, level))| == |Children(v)|
    ensures Children(Mask(v, level))[i] ==
            if v.Record? && IsSecret(v.fields[i].key) then MASK else Mask(Children(v)[i], level + 1)
  {
    if v.List? {
      MaskItem(v.items, level, i);
    } else {
      MaskField(v.fields, level, i);
    }
  }

  /** Exactly the secret entries down to level 12 are masked: a position that meets none keeps its place and,
      unless something below it is masked, its value. */
  lemma {:induction false} UnmaskedPositionsStay(v: Value, path: seq<nat>, level: nat)
    requires IsPath(v, path) && !MeetsSecret(v, path, level)
    ensures IsPath(Mask(v, level), path)
    ensures At(Mask(v, level), path) == Mask(At(v, path), level + |path|)
    decreases path
  {
    if path != [] && level <= MAX_LEVEL {
      var child := Children(v)[path[0]];
      ChildIsMasked(v, path[0], level);
      UnmaskedPositionsStay(child, path[1..], level + 1);
    } else if path != [] {
      assert Mask(At(v, path), level + |path|) == At(v, path);
    }
  }

  /** Along a way that meets a secret, the first secret entry is replaced by the mask and nothing below it is left. */
  lemma {:induction false} SecretsAreMasked(v: Value, path: seq<nat>, level: nat) returns (k: nat)
    requires IsPath(v, path) && MeetsSecret(v, path, level)
    ensures 0 < k <= |path| && level + k <= MAX_LEVEL + 1
    ensures IsPath(Mask(v, level), path[..k]) && At(Mask(v, level), path[..k]) == MASK
    decreases path
  {
    var child := Children(v)[path[0]];
    ChildIsMasked(v, path[0], level);
    if v.Record? && IsSecret(v.fields[path[0]].key) {
      k := 1;
      StepInto(Mask(v, level), path[0], []);
      assert path[..1] == [path[0]] + [];
    } else {
      var rest := SecretsAreMasked(child, path[1..], level + 1);
      k := rest + 1;
      StepInto(Mask(v, level), path[0], path[1..][..rest]);
      assert path[..k] == [path[0]] + path[1..][..rest];
    }
  }

  // A value inside n lists.
  function Nested(v: Value, n: nat): Value {
    if n == 0 then v else List([Nested(v, n - 1)])
  }

  lemma {:induction false} MaskOfNested(v: Value, n: nat, level: nat)
    ensures Mask(Nested(v, n), level) == Nested(if level + n > MAX_LEVEL then v else Mask(v, level + n), n)
  {
    if n > 0 {
      MaskOfNested(v, n - 1, level + 1);
      var items := [Nested(v, n - 1)];
      assert items[1..] == [] && MaskItems(items, level) == [Mask(items[0], level + 1)];
    }
  }

  /** The depth up to which secrets are masked: one inside n lists is masked if and only if n is at most 12. */
  lemma DeepSecretsStay(key: string, secret: Value, n: nat)
    requires IsSecret(key) && secret != MASK
    ensures var record := Record([Field(key, secret)]);
            && (n <= 12 ==> Mask(Nested(record, n), 0) == Nested(Record([Field(key, Scalar("<secret>"))]), n))
            && (Mask(Nested(record, n), 0) == Nested(record, n) <==> n > 12)
  {
    var fields := [Field(key, secret)];
    MaskOfNested(Record(fields), n, 0);
    assert fields[1..] == [] && MaskFields(fields, n) == [Field(key, MASK)];
    if n <= MAX_LEVEL {
      NestedIsInjective(Record(fields), Record([Field(key, MASK)]), n);
      assert fields[0] != Field(key, MASK);
    }
  }

  lemma {:induction false} NestedIsInjective(v: Value, w: Value, n: nat)
    ensures Nested(v, n) == Nested(w, n) ==> v == w
  {
    if n > 0 {
      NestedIsInjective(v, w, n - 1);
      assert Nested(v, n).items[0] == Nested(v, n - 1) && Nested(w, n).items[0] == Nested(w, n - 1);
    }
  }

  /** Masking twice is masking once. */
  lemma {:induction false} MaskIsIdempotent(v: Value, level: nat)
    ensures Mask(Mask(v, level), level) == Mask(v, level)
    decreases v, 0
  {
    match v
    case List(items) => MaskItemsTwice(items, level);
    case Record(fields) => MaskFieldsTwice(fields, level);
    case _ =>
  }

  lemma {:induction false} MaskItemsTwice(items: seq<Value>, level: nat)
    ensures MaskItems(MaskItems(items, level), level) == MaskItems(items, level)
    decreases items, 1
  {
    if items != [] {
      MaskIsIdempotent(items[0], level + 1);
      MaskItemsTwice(items[1..], level);
    }
  }

  lemma {:induction false} MaskFieldsTwice(fields: seq<Field>, level: nat)
    ensures MaskFields(MaskFields(fields, level), level) == MaskFields(fields, level)
    decreases fields, 1
  {
    if fields != [] {
      MaskIsIdempotent(fields[0].value, level + 1);
      MaskFieldsTwice(fields[1..], level);
    }
  }

  lemma {:induction false} MaskItemsSnoc(items: seq<Value>, level: nat, v: Value)
    ensures MaskItems(items + [v], level) == MaskItems(items, level) + [Mask(v, level + 1)]
  {
    if items == [] {
      assert items + [v] == [v] && [v][1..] == [];
    } else {
      assert (items + [v])[1..] == items[1..] + [v];
      MaskItemsSnoc(items[1..], level, v);
    }
  }

  lemma {:induction false} MaskFieldsSnoc(fields: seq<Field>, level: nat, f: Field)
    ensures MaskFields(fields + [f], level) ==
            MaskFields(fields, level) + [Field(f.key, if IsSecret(f.key) then MASK else Mask(f.value, level + 1))]
  {
    if fields == [] {
      assert fields + [f] == [f] && [f][1..] == [];
    } else {
      assert (fields + [f])[1..] == fields[1..] + [f];
      MaskFieldsSnoc(fields[1..], level, f);
    }
  }

  /** filterDeep: `returned` is what it gives back, a marker on too deep levels, and `argument` the state it leaves its
      argument in.  The recursion is called for the latter only, so the marker never gets into the data. */
  method FilterDeep(v: Value, level: nat) returns (returned: Value, argument: Value)
    ensures argument == Mask(v, level)
    ensures returned == if level > MAX_LEVEL then Scalar("<max level exceeded>") else argument
    decreases v
  {
    if level > MAX_LEVEL {
      return Scalar("<max level exceeded>"), v;
    }
    argument := v;
    match v {
      case List(items) =>
        var entries := [];
        for i := 0 to |items|
          invariant entries == MaskItems(items[..i], level)
        {
          MaskItemsSnoc(items[..i], level, items[i]);
          assert items[..i] + [items[i]] == items[..i + 1];
          var _, after := FilterDeep(items[i], level + 1);
          entries := entries + [after];
        }
        assert items[..|items|] == items;
        argument := List(entries);
      case Record(fields) =>
        var entries := [];
        for i := 0 to |fields|
          invariant entries == MaskFields(fields[..i], level)
        {
          MaskFieldsSnoc(fields[..i], level, fields[i]);
          assert fields[..i] + [fields[i]] == fields[..i + 1];
          var after := MASK;
          if !IsSecret(fields[i].key) {
            var _, changed := FilterDeep(fields[i].value, level + 1);
            after := changed;
          }
          entries := entries + [Field(fields[i].key, after)];
        }
        assert fields[..|fields|] == fields;
        argument := Record(entries);
      case _ =>
    }
    returned := argument;
  }
}
