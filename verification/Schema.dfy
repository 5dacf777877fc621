/**
  Merging instance properties with their schema: defaults are filled in, values are checked against
  the declared types, and values of data types are merged and checked recursively.
*/
module Schema {
  import opened Names

  datatype Value =
    | Null
    | Bool(b: bool)
    | Int(n: int)
    | Float(x: real)
    | Str(s: string)
    | List(items: seq<Value>)
    | Dict(entries: map<string, Value>)

  /** A property of a schema; its type and its default may be left out. */
  datatype Property = Property(typeName: Option<string>, default: Option<Value>, required: bool)

  /** The properties in the order of the schema's dictionary. */
  type Properties = seq<(string, Property)>

  /** The declared data types, the names of intrinsic functions, and which strings are regular expressions. */
  datatype Env = Env(types: map<string, Properties>, functions: set<string>, isRegex: string -> bool)

  datatype Error = UndefinedProperty | MissingProperty | TypeMismatch | UnknownType

  datatype Result<T> = Ok(value: T) | Err(error: Error)

  const PRIMITIVES := {"integer", "float", "boolean", "string", "regex", "list", "dict"}

  /** A call of an intrinsic function: a dictionary whose only key is a function's name. */
  predicate IsFunction(env: Env, v: Value) {
    v.Dict? && |v.entries| == 1 && exists k | k in v.entries :: k in env.functions
  }

  predicate IsDataType(env: Env, typeName: Option<string>) {
    typeName.Some? && typeName.value !in PRIMITIVES && typeName.value in env.types
  }

  /** A value of a primitive type. */
  predicate IsPrimitive(env: Env, v: Value, typeName: string) {
    match typeName
    case "integer" => v.Int?
    case "float" => v.Int? || v.Float?
    case "boolean" => v.Bool?
    case "string" => true
    case "regex" => v.Str? && env.isRegex(v.s)
    case "list" => v.List?
    case "dict" => v.Dict?
    case _ => false
  }

  ghost predicate DistinctKeys(ps: Properties) {
    forall i, j :: 0 <= i < j < |ps| ==> ps[i].0 != ps[j].0
  }

  /** A rank that drops from a data type to the data types of its properties. */
  ghost predicate Ranks(env: Env, rank: map<string, nat>) {
    forall t, k :: t in env.types && 0 <= k < |env.types[t]| && IsDataType(env, env.types[t][k].1.typeName) ==>
      Lower(rank, env.types[t][k].1.typeName.value, t)
  }

  ghost predicate Lower(rank: map<string, nat>, u: string, t: string) {
    u in rank && t in rank && rank[u] < rank[t]
  }

  /** Data types do not contain themselves, and name each property once. */
  ghost predicate WellFormed(env: Env) {
    && (exists rank: map<string, nat> :: Ranks(env, rank))
    && forall t :: t in env.types ==> DistinctKeys(env.types[t])
  }

  /** Twice the rank of a data type, plus two; zero for all other types. */
  ghost function TypeRank(env: Env, typeName: Option<string>): nat
    requires WellFormed(env)
  {
    var rank: map<string, nat> :| Ranks(env, rank);
    if IsDataType(env, typeName) then 2 * (if typeName.value in rank then rank[typeName.value] else 0) + 2 else 0
  }

  /** More than the ranks of all properties. */
  ghost function Bound(env: Env, ps: Properties): (b: nat)
    requires WellFormed(env)
    ensures forall k :: 0 <= k < |ps| ==> TypeRank(env, ps[k].1.typeName) < b
  {
    if ps == [] then 1 else Max(TypeRank(env, ps[0].1.typeName) + 1, Bound(env, ps[1..]))
  }

  lemma {:induction false} BoundAtMost(env: Env, ps: Properties, n: nat)
    requires WellFormed(env) && n >= 1
    requires forall k :: 0 <= k < |ps| ==> TypeRank(env, ps[k].1.typeName) < n
    ensures Bound(env, ps) <= n
  {
    if ps != [] {
      BoundAtMost(env, ps[1..], n);
    }
  }

  /** The properties of a data type rank below it. */
  lemma TypeBounds(env: Env, t: string)
    requires WellFormed(env) && IsDataType(env, Some(t))
    ensures Bound(env, env.types[t]) < TypeRank(env, Some(t))
  {
    forall k | 0 <= k < |env.types[t]|
      ensures TypeRank(env, env.types[t][k].1.typeName) < TypeRank(env, Some(t)) - 1
    {
    }
    BoundAtMost(env, env.types[t], TypeRank(env, Some(t)) - 1);
  }

  /** The defaults of a schema. */
  function Flattened(ps: Properties): map<string, Value> {
    if ps == [] then map[]
    else
      var rest := Flattened(ps[1..]);
      if ps[0].1.default.Some? && ps[0].0 !in rest then rest[ps[0].0 := ps[0].1.default.value] else rest
  }

  function Keys(ps: Properties): set<string> {
    set k | 0 <= k < |ps| :: ps[k].0
  }

  function DerivedDefaults(ps: Properties, derived: Option<Value>): map<string, Value> {
    Flattened(ps) + if derived.Some? && derived.value.Dict? then derived.value.entries else map[]
  }

  function Get(m: map<string, Value>, k: string): Option<Value> {
    if k in m then Some(m[k]) else None
  }

  /** The value to use for a property of the given type, or the error that it is refused with. */
  function ParseValue(env: Env, v: Value, typeName: Option<string>, derived: Option<Value>,
                      raising: bool): Result<Value>
    requires WellFormed(env)
    decreases TypeRank(env, typeName), 0
  {
    if typeName.None? || IsFunction(env, v) then Ok(v)
    else if typeName.value in PRIMITIVES then
      if IsPrimitive(env, v, typeName.value) then Ok(v) else Err(TypeMismatch)
    else if typeName.value in env.types then
      if v.Dict? then
        var ps := env.types[typeName.value];
        TypeBounds(env, typeName.value);
        var r := MergeFlattened(env, v.entries, ps, DerivedDefaults(ps, derived), raising);
        if r.Ok? then Ok(Dict(r.value)) else Err(r.error)
      else Err(TypeMismatch)
    else Err(UnknownType)
  }

  /** The instance's own properties on top of the given defaults. */
  function MergeFlattened(env: Env, instance: map<string, Value>, ps: Properties, flattened: map<string, Value>,
                          raising: bool)
    : Result<map<string, Value>>
    requires WellFormed(env)
    decreases Bound(env, ps), |ps| + 1
  {
    if exists k | k in instance :: k !in Keys(ps) then Err(UndefinedProperty)
    else MergeProperties(env, ps, flattened + instance, flattened, raising)
  }

  /** Property by property, in the order of the schema; the first error counts. */
  function MergeProperties(env: Env, ps: Properties, merged: map<string, Value>, flattened: map<string, Value>,
                           raising: bool)
    : (r: Result<map<string, Value>>)
    requires WellFormed(env)
    decreases Bound(env, ps), |ps|
  {
    if ps == [] then Ok(map[])
    else
      var (k, p) := ps[0];
      if k !in merged then
        if p.required && raising then Err(MissingProperty)
        else MergeProperties(env, ps[1..], merged, flattened, raising)
      else
        var r := ParseValue(env, merged[k], p.typeName, Get(flattened, k), raising);
        if r.Err? then Err(r.error)
        else
          var rest := MergeProperties(env, ps[1..], merged, flattened, raising);
          if rest.Err? then rest else Ok(rest.value[k := r.value])
  }

  /** What comes before a merge of the remaining properties. */
  function Behind(before: map<string, Value>, r: Result<map<string, Value>>): Result<map<string, Value>> {
    if r.Ok? then Ok(before + r.value) else r
  }

  /**
    The merge as the source runs it: first the check for undefined properties, then a loop over the
    schema that fills the result.
  */
  method Merge(env: Env, instance: map<string, Value>, ps: Properties, flattened: map<string, Value>, raising: bool)
    returns (r: Result<map<string, Value>>)
    requires WellFormed(env) && DistinctKeys(ps)
    ensures r == MergeFlattened(env, instance, ps, flattened, raising)
    decreases Bound(env, ps), |ps| + 1
  {
    var undefined := set k | k in instance && k !in Keys(ps);
    if undefined != {} {
      return Err(UndefinedProperty);
    }
    assert forall k :: k in instance && k !in Keys(ps) ==> k in undefined;
    var merged := flattened + instance;
    var result: map<string, Value> := map[];
    EmptyBehind(MergeProperties(env, ps, merged, flattened, raising));
    assert ps[0..] == ps;
    for i := 0 to |ps|
      invariant MergeProperties(env, ps, merged, flattened, raising) ==
                Behind(result, MergeProperties(env, ps[i..], merged, flattened, raising))
    {
      var (k, p) := ps[i];
      if k !in merged {
        LoopStep(env, ps, i, merged, flattened, raising, result, Null);
        if p.required && raising {
          return Err(MissingProperty);
        }
      } else {
        var v := Parse(env, merged[k], p.typeName, Get(flattened, k), raising);
        LoopStep(env, ps, i, merged, flattened, raising, result, if v.Ok? then v.value else Null);
        if v.Err? {
          return Err(v.error);
        }
        result := result[k := v.value];
      }
    }
    assert ps[|ps|..] == [];
    assert result + map[] == result;
    r := Ok(result);
  }

  method Parse(env: Env, v: Value, typeName: Option<string>, derived: Option<Value>, raising: bool)
    returns (r: Result<Value>)
    requires WellFormed(env)
    ensures r == ParseValue(env, v, typeName, derived, raising)
    decreases TypeRank(env, typeName), 0
  {
    if IsDataType(env, typeName) && !IsFunction(env, v) && v.Dict? {
      TypeBounds(env, typeName.value);
      var ps := env.types[typeName.value];
      var m := Merge(env, v.entries, ps, DerivedDefaults(ps, derived), raising);
      r := if m.Ok? then Ok(Dict(m.value)) else Err(m.error);
    } else {
      r := ParseValue(env, v, typeName, derived, raising);
    }
  }

  lemma KeysStep(ps: Properties, i: nat)
    requires i < |ps| && DistinctKeys(ps)
    ensures Keys(ps[..i + 1]) == Keys(ps[..i]) + {ps[i].0}
    ensures ps[i].0 !in Keys(ps[i + 1..])
    ensures forall k :: k in Keys(ps[..i]) ==> k !in Keys(ps[i..])
  {
    assert forall k :: 0 <= k < i ==> ps[..i + 1][k] == ps[..i][k] == ps[k];
    assert ps[..i + 1][i] == ps[i];
    forall k | k in Keys(ps[..i + 1])
      ensures k in Keys(ps[..i]) || k == ps[i].0
    {
      var m :| 0 <= m < i + 1 && ps[..i + 1][m].0 == k;
      if m < i {
        assert ps[..i][m].0 == k;
      }
    }
    forall k | k in Keys(ps[..i])
      ensures k in Keys(ps[..i + 1])
    {
      var m :| 0 <= m < i && ps[..i][m].0 == k;
      assert ps[..i + 1][m].0 == k;
    }
  }

  lemma EmptyBehind(r: Result<map<string, Value>>)
    ensures Behind(map[], r) == r
  {
    if r.Ok? {
      assert map[] + r.value == r.value;
    }
  }

  /** One round of the loop. */
  lemma LoopStep(env: Env, ps: Properties, i: nat, merged: map<string, Value>, flattened: map<string, Value>,
                 raising: bool, result: map<string, Value>, v: Value)
    requires WellFormed(env) && DistinctKeys(ps) && i < |ps|
    ensures var (k, p) := ps[i];
            var now := MergeProperties(env, ps[i..], merged, flattened, raising);
            var rest := MergeProperties(env, ps[i + 1..], merged, flattened, raising);
            && (k !in merged ==> now == if p.required && raising then Err(MissingProperty) else rest)
            && (k in merged && ParseValue(env, merged[k], p.typeName, Get(flattened, k), raising) == Ok(v) ==>
                  Behind(result, now) == Behind(result[k := v], rest))
            && (k in merged && ParseValue(env, merged[k], p.typeName, Get(flattened, k), raising).Err? ==>
                  now == Err(ParseValue(env, merged[k], p.typeName, Get(flattened, k), raising).error))
  {
    assert ps[i..][1..] == ps[i + 1..] && ps[i..][0] == ps[i];
    KeysStep(ps, i);
    MergeWithin(env, ps[i + 1..], merged, flattened, raising);
    BehindStep(result, ps[i].0, v, MergeProperties(env, ps[i + 1..], merged, flattened, raising));
  }

  lemma BehindStep(before: map<string, Value>, k: string, v: Value, rest: Result<map<string, Value>>)
    requires rest.Ok? ==> k !in rest.value
    ensures Behind(before, if rest.Err? then rest else Ok(rest.value[k := v])) == Behind(before[k := v], rest)
  {
    if rest.Ok? {
      assert before + rest.value[k := v] == before[k := v] + rest.value;
    }
  }

  /** A merge yields exactly the schema's keys that have a value. */
  lemma {:induction false} MergeWithin(env: Env, ps: Properties, merged: map<string, Value>,
                                       flattened: map<string, Value>, raising: bool)
    requires WellFormed(env)
    ensures var r := MergeProperties(env, ps, merged, flattened, raising);
            r.Ok? ==> r.value.Keys == Keys(ps) * merged.Keys
  {
    if ps != [] {
      MergeWithin(env, ps[1..], merged, flattened, raising);
      assert ps == [ps[0]] + ps[1..];
      assert Keys(ps) == {ps[0].0} + Keys(ps[1..]) by {
        assert forall k :: 1 <= k < |ps| ==> ps[k] == ps[1..][k - 1];
      }
    }
  }

  /** What the merge does with one property: its value parsed, or nothing if nobody gives one and nobody needs one. */
  ghost predicate Merged(env: Env, kp: (string, Property), merged: map<string, Value>, flattened: map<string, Value>,
                         raising: bool, result: map<string, Value>)
    requires WellFormed(env)
  {
    var (k, p) := kp;
    if k in merged
    then k in result && ParseValue(env, merged[k], p.typeName, Get(flattened, k), raising) == Ok(result[k])
    else k !in result && !(p.required && raising)
  }

  ghost predicate MergedAll(env: Env, ps: Properties, merged: map<string, Value>, flattened: map<string, Value>,
                            raising: bool, m: map<string, Value>)
    requires WellFormed(env)
  {
    m.Keys <= Keys(ps) && forall i :: 0 <= i < |ps| ==> Merged(env, ps[i], merged, flattened, raising, m)
  }

  lemma TailKeys(ps: Properties)
    requires ps != [] && DistinctKeys(ps)
    ensures Keys(ps) == {ps[0].0} + Keys(ps[1..]) && ps[0].0 !in Keys(ps[1..])
    ensures DistinctKeys(ps[1..])
  {
    assert forall k :: 1 <= k < |ps| ==> ps[k] == ps[1..][k - 1];
  }

  /** Whether all properties are merged shows on the first one and on the others. */
  lemma MergedSplit(env: Env, ps: Properties, merged: map<string, Value>, flattened: map<string, Value>, raising: bool,
                    m: map<string, Value>)
    requires WellFormed(env) && ps != [] && DistinctKeys(ps)
    ensures MergedAll(env, ps, merged, flattened, raising, m) <==>
              Merged(env, ps[0], merged, flattened, raising, m) &&
                MergedAll(env, ps[1..], merged, flattened, raising, m - {ps[0].0})
  {
    TailKeys(ps);
    var m' := m - {ps[0].0};
    forall i | 1 <= i < |ps|
      ensures Merged(env, ps[i], merged, flattened, raising, m) <==>
        Merged(env, ps[1..][i - 1], merged, flattened, raising, m')
    {
      assert ps[i] == ps[1..][i - 1] && ps[i].0 != ps[0].0;
    }
    if MergedAll(env, ps[1..], merged, flattened, raising, m') {
      forall i | 1 <= i < |ps|
        ensures Merged(env, ps[i], merged, flattened, raising, m)
      {
        assert Merged(env, ps[1..][i - 1], merged, flattened, raising, m');
      }
    }
  }

  /** A merge succeeds exactly when it can do this for every property. */
  lemma {:induction false} MergeExactly(env: Env, ps: Properties, merged: map<string, Value>,
                                        flattened: map<string, Value>, raising: bool, m: map<string, Value>)
    requires WellFormed(env) && DistinctKeys(ps)
    ensures MergeProperties(env, ps, merged, flattened, raising) == Ok(m) <==>
      MergedAll(env, ps, merged, flattened, raising, m)
  {
    if ps == [] {
      assert m.Keys <= Keys(ps) ==> m == map[];
    } else {
      var k := ps[0].0;
      TailKeys(ps);
      MergedSplit(env, ps, merged, flattened, raising, m);
      MergeExactly(env, ps[1..], merged, flattened, raising, m - {k});
      MergeWithin(env, ps[1..], merged, flattened, raising);
      FirstRound(env, ps, merged, flattened, raising, m);
    }
  }

  lemma FirstRound(env: Env, ps: Properties, merged: map<string, Value>, flattened: map<string, Value>, raising: bool,
                   m: map<string, Value>)
    requires WellFormed(env) && ps != [] && ps[0].0 !in Keys(ps[1..])
    requires var rest := MergeProperties(env, ps[1..], merged, flattened, raising);
             rest.Ok? ==> rest.value.Keys <= Keys(ps[1..])
    ensures MergeProperties(env, ps, merged, flattened, raising) == Ok(m) <==>
              Merged(env, ps[0], merged, flattened, raising, m)
              && MergeProperties(env, ps[1..], merged, flattened, raising) == Ok(m - {ps[0].0})
  {
    var k := ps[0].0;
    var rest := MergeProperties(env, ps[1..], merged, flattened, raising);
    assert k !in m ==> m - {k} == m;
    assert k in m ==> (m - {k})[k := m[k]] == m;
    if k in merged {
      var r := ParseValue(env, merged[k], ps[0].1.typeName, Get(flattened, k), raising);
      assert rest.Ok? && r.Ok? ==> rest.value[k := r.value] - {k} == rest.value;
    }
  }

  /** A merge never drops a key that the user wrote, and takes each value from the user, else from the defaults. */
  lemma MergeProvenance(env: Env, instance: map<string, Value>, ps: Properties, flattened: map<string, Value>,
                        raising: bool, m: map<string, Value>)
    requires WellFormed(env) && DistinctKeys(ps)
    requires MergeFlattened(env, instance, ps, flattened, raising) == Ok(m)
    ensures instance.Keys <= m.Keys <= Keys(ps)
    ensures forall i :: 0 <= i < |ps| ==> Provenance(env, instance, ps[i], flattened, raising, m)
  {
    MergeExactly(env, ps, flattened + instance, flattened, raising, m);
    forall i | 0 <= i < |ps|
      ensures Provenance(env, instance, ps[i], flattened, raising, m)
    {
      assert Merged(env, ps[i], flattened + instance, flattened, raising, m);
    }
    forall k | k in instance
      ensures k in m
    {
      assert k in Keys(ps);
      var i :| 0 <= i < |ps| && ps[i].0 == k;
      assert Merged(env, ps[i], flattened + instance, flattened, raising, m);
    }
  }

  /** Where the value of a property comes from. */
  ghost predicate Provenance(env: Env, instance: map<string, Value>, kp: (string, Property),
                             flattened: map<string, Value>, raising: bool, m: map<string, Value>)
    requires WellFormed(env)
  {
    var (k, p) := kp;
    if k in instance then k in m && ParseValue(env, instance[k], p.typeName, Get(flattened, k), raising) == Ok(m[k])
    else if k in flattened then k in m &&
      ParseValue(env, flattened[k], p.typeName, Get(flattened, k), raising) == Ok(m[k])
    else k !in m && !(p.required && raising)
  }

  /** The defaults of a data type come from the derived value, else from its own schema. */
  lemma {:induction false} DefaultsFrom(ps: Properties, derived: Option<Value>, k: string, v: Value)
    requires DistinctKeys(ps)
    ensures Get(DerivedDefaults(ps, derived), k) == Some(v) <==>
              if derived.Some? && derived.value.Dict? && k in derived.value.entries then derived.value.entries[k] == v
              else exists i :: 0 <= i < |ps| && ps[i].0 == k && ps[i].1.default == Some(v)
  {
    FlattenedIs(ps, k, v);
  }

  lemma {:induction false} FlattenedIs(ps: Properties, k: string, v: Value)
    requires DistinctKeys(ps)
    ensures (k in Flattened(ps) && Flattened(ps)[k] == v) <==>
      exists i :: 0 <= i < |ps| && ps[i].0 == k && ps[i].1.default == Some(v)
    ensures k in Flattened(ps) ==> k in Keys(ps)
  {
    if ps != [] {
      TailKeys(ps);
      FlattenedIs(ps[1..], k, v);
      if i :| 0 <= i < |ps[1..]| && ps[1..][i].0 == k && ps[1..][i].1.default == Some(v) {
        assert ps[i + 1].0 == k && ps[i + 1].1.default == Some(v);
      }
      if i :| 0 <= i < |ps| && ps[i].0 == k && ps[i].1.default == Some(v) {
        assert i > 0 ==> ps[1..][i - 1].0 == k && ps[1..][i - 1].1.default == Some(v);
      }
      if k == ps[0].0 {
        FlattenedKeys(ps[1..], k);
      }
    }
  }

  lemma {:induction false} FlattenedKeys(ps: Properties, k: string)
    ensures k in Flattened(ps) ==> k in Keys(ps)
  {
    if ps != [] {
      FlattenedKeys(ps[1..], k);
      if k in Keys(ps[1..]) {
        var i :| 0 <= i < |ps[1..]| && ps[1..][i].0 == k;
        assert ps[i + 1].0 == k;
      }
    }
  }

  /**
    A value that conforms to its declared type: an intrinsic function, a value of the primitive type,
    or a dictionary with known keys, conforming values, and nothing missing that has a default or must be given.
  */
  ghost predicate Conforms(env: Env, v: Value, typeName: Option<string>, derived: Option<Value>, raising: bool)
    requires WellFormed(env)
    decreases TypeRank(env, typeName)
  {
    if typeName.None? || IsFunction(env, v) then true
    else if typeName.value in PRIMITIVES then IsPrimitive(env, v, typeName.value)
    else
      && typeName.value in env.types && v.Dict?
      && var ps := env.types[typeName.value];
      && v.entries.Keys <= Keys(ps)
      && (TypeBounds(env, typeName.value);
          forall i :: 0 <= i < |ps| ==>
            var flattened := DerivedDefaults(ps, derived);
            var (k, p) := ps[i];
            if k in v.entries then Conforms(env, v.entries[k], p.typeName, Get(flattened, k), raising)
            else k !in flattened && !(p.required && raising))
  }

  /** What parsing returns conforms to the declared type. */
  lemma {:induction false} ParseConforms(env: Env, v: Value, typeName: Option<string>, derived: Option<Value>,
                                         raising: bool, r: Value)
    requires WellFormed(env) && ParseValue(env, v, typeName, derived, raising) == Ok(r)
    ensures Conforms(env, r, typeName, derived, raising)
    decreases TypeRank(env, typeName)
  {
    if typeName.Some? && !IsFunction(env, v) && typeName.value !in PRIMITIVES && !IsFunction(env, r) {
      var ps := env.types[typeName.value];
      var flattened := DerivedDefaults(ps, derived);
      TypeBounds(env, typeName.value);
      MergeProvenance(env, v.entries, ps, flattened, raising, r.entries);
      forall i | 0 <= i < |ps|
        ensures var (k, p) := ps[i];
                if k in r.entries then Conforms(env, r.entries[k], p.typeName, Get(flattened, k), raising)
                else k !in flattened && !(p.required && raising)
      {
        var (k, p) := ps[i];
        assert Provenance(env, v.entries, ps[i], flattened, raising, r.entries);
        if k in r.entries {
          var given := if k in v.entries then v.entries[k] else flattened[k];
          ParseConforms(env, given, p.typeName, Get(flattened, k), raising, r.entries[k]);
        }
      }
    }
  }

  /** A conforming value is returned as it is. */
  lemma {:induction false} ConformingUnchanged(env: Env, v: Value, typeName: Option<string>, derived: Option<Value>,
                                               raising: bool)
    requires WellFormed(env) && Conforms(env, v, typeName, derived, raising)
    ensures ParseValue(env, v, typeName, derived, raising) == Ok(v)
    decreases TypeRank(env, typeName)
  {
    if typeName.Some? && !IsFunction(env, v) && typeName.value !in PRIMITIVES {
      var ps := env.types[typeName.value];
      var flattened := DerivedDefaults(ps, derived);
      TypeBounds(env, typeName.value);
      forall i | 0 <= i < |ps|
        ensures Merged(env, ps[i], flattened + v.entries, flattened, raising, v.entries)
      {
        if ps[i].0 in v.entries {
          ConformingUnchanged(env, v.entries[ps[i].0], ps[i].1.typeName, Get(flattened, ps[i].0), raising);
        }
      }
      MergeExactly(env, ps, flattened + v.entries, flattened, raising, v.entries);
    }
  }

  /** The fixed points of parsing are exactly the conforming values. */
  lemma FixedExactly(env: Env, v: Value, typeName: Option<string>, derived: Option<Value>, raising: bool)
    requires WellFormed(env)
    ensures ParseValue(env, v, typeName, derived, raising) == Ok(v) <==> Conforms(env, v, typeName, derived, raising)
  {
    if ParseValue(env, v, typeName, derived, raising) == Ok(v) {
      ParseConforms(env, v, typeName, derived, raising, v);
    }
    if Conforms(env, v, typeName, derived, raising) {
      ConformingUnchanged(env, v, typeName, derived, raising);
    }
  }

  /** Parsing its own result changes nothing. */
  lemma ParseIdempotent(env: Env, v: Value, typeName: Option<string>, derived: Option<Value>, raising: bool, r: Value)
    requires WellFormed(env) && ParseValue(env, v, typeName, derived, raising) == Ok(r)
    ensures ParseValue(env, r, typeName, derived, raising) == Ok(r)
  {
    ParseConforms(env, v, typeName, derived, raising, r);
    ConformingUnchanged(env, r, typeName, derived, raising);
  }

  // ---------- errors ----------

  /** What is wrong with one property, if anything is. */
  ghost function PropertyError(env: Env, kp: (string, Property), merged: map<string, Value>,
                               flattened: map<string, Value>, raising: bool): Option<Error>
    requires WellFormed(env)
  {
    var (k, p) := kp;
    if k in merged then
      var r := ParseValue(env, merged[k], p.typeName, Get(flattened, k), raising);
      if r.Err? then Some(r.error) else None
    else if p.required && raising then Some(MissingProperty)
    else None
  }

  /** A merge is refused with what is wrong with the first property, in the schema's order, with which something is. */
  lemma {:induction false} FirstErrorExactly(env: Env, ps: Properties, merged: map<string, Value>,
                                             flattened: map<string, Value>, raising: bool, error: Error)
    requires WellFormed(env)
    ensures MergeProperties(env, ps, merged, flattened, raising) == Err(error) <==>
      exists k :: FirstErrorAt(env, ps, merged, flattened, raising, error, k)
  {
    if ps != [] {
      var rest := ps[1..];
      FirstErrorExactly(env, rest, merged, flattened, raising, error);
      var first := PropertyError(env, ps[0], merged, flattened, raising);
      if first == Some(error) {
        assert FirstErrorAt(env, ps, merged, flattened, raising, error, 0);
      }
      if first.None? {
        if k :| FirstErrorAt(env, rest, merged, flattened, raising, error, k) {
          assert forall m :: 0 < m < k + 1 ==> ps[m] == rest[m - 1];
          assert FirstErrorAt(env, ps, merged, flattened, raising, error, k + 1);
        }
        if k :| FirstErrorAt(env, ps, merged, flattened, raising, error, k) {
          assert forall m :: 0 <= m < k - 1 ==> rest[m] == ps[m + 1];
          assert FirstErrorAt(env, rest, merged, flattened, raising, error, k - 1);
        }
      }
    }
  }

  ghost predicate FirstErrorAt(env: Env, ps: Properties, merged: map<string, Value>, flattened: map<string, Value>,
                               raising: bool, error: Error, k: int)
    requires WellFormed(env)
  {
    && 0 <= k < |ps| && PropertyError(env, ps[k], merged, flattened, raising) == Some(error)
    && forall m :: 0 <= m < k ==> PropertyError(env, ps[m], merged, flattened, raising).None?
  }

  /** When a value is refused for the lack of a type, or because it does not fit, before any property is looked at. */
  lemma RefusedExactly(env: Env, v: Value, typeName: string, derived: Option<Value>, raising: bool)
    requires WellFormed(env) && !IsFunction(env, v) && (typeName in PRIMITIVES || !v.Dict?)
    ensures var r := ParseValue(env, v, Some(typeName), derived, raising);
      if typeName in PRIMITIVES then r == if typeName in TypesOf(env, v) then Ok(v) else Err(TypeMismatch)
      else r == Err(if typeName in env.types then TypeMismatch else UnknownType)
  {
    if typeName in PRIMITIVES {
      AcceptedExactly(env, v, typeName, derived, raising);
    }
  }

  /** A key that the schema does not have is refused before anything else. */
  lemma UndefinedExactly(env: Env, instance: map<string, Value>, ps: Properties, flattened: map<string, Value>,
                         raising: bool, key: string)
    requires WellFormed(env) && key in instance
    ensures (forall i :: 0 <= i < |ps| ==> ps[i].0 != key) ==>
      MergeFlattened(env, instance, ps, flattened, raising) == Err(UndefinedProperty)
  {
  }

  // ---------- the primitive types ----------

  /** The primitive types that a value can be given for. */
  function TypesOf(env: Env, v: Value): set<string> {
    {"string"} +
    match v
    case Null => {}
    case Bool(_) => {"boolean"}
    case Int(_) => {"integer", "float"}
    case Float(_) => {"float"}
    case Str(s) => if env.isRegex(s) then {"regex"} else {}
    case List(_) => {"list"}
    case Dict(_) => {"dict"}
  }

  /** A function call is a dictionary with nothing but the name of a function and what it is called with. */
  lemma CallsExactly(env: Env, v: Value)
    ensures IsFunction(env, v) <==> exists k, args :: k in env.functions && v == Dict(map[k := args])
  {
    if IsFunction(env, v) {
      var k :| k in v.entries && k in env.functions;
      OneEntry(v.entries, k);
      assert v == Dict(map[k := v.entries[k]]);
    }
  }

  lemma OneEntry(m: map<string, Value>, k: string)
    requires |m| == 1 && k in m
    ensures m == map[k := m[k]]
  {
    assert |m.Keys - {k}| == 0;
    assert m.Keys == {k};
  }

  /** A value that is no function call is accepted for exactly these of them, and then as it is. */
  lemma AcceptedExactly(env: Env, v: Value, typeName: string, derived: Option<Value>, raising: bool)
    requires WellFormed(env) && !IsFunction(env, v) && typeName in PRIMITIVES
    ensures ParseValue(env, v, Some(typeName), derived, raising) ==
      if typeName in TypesOf(env, v) then Ok(v) else Err(TypeMismatch)
  {
  }

  /** How strings are read as numbers, if they can be. */
  datatype Readings = Readings(asInt: string -> Option<int>, asFloat: string -> Option<real>)

  /** Converts a string to the type, if that is possible, and leaves everything else as it is. */
  function Cast(r: Readings, v: Value, typeName: string): Value {
    if !v.Str? then v
    else
      match typeName
      case "integer" => if r.asInt(v.s).Some? then Int(r.asInt(v.s).value) else v
      case "float" => if r.asFloat(v.s).Some? then Float(r.asFloat(v.s).value) else v
      case "boolean" => if v.s == "true" then Bool(true) else if v.s == "false" then Bool(false) else v
      case _ => v
  }

  /** What has been converted is accepted for the type, and converting it again changes nothing. */
  lemma CastAccepted(env: Env, r: Readings, v: Value, typeName: string, derived: Option<Value>, raising: bool)
    requires WellFormed(env) && Cast(r, v, typeName) != v
    ensures ParseValue(env, Cast(r, v, typeName), Some(typeName), derived, raising) == Ok(Cast(r, v, typeName))
    ensures Cast(r, Cast(r, v, typeName), typeName) == Cast(r, v, typeName)
  {
    var cast := Cast(r, v, typeName);
    AcceptedExactly(env, cast, typeName, derived, raising);
  }
}
