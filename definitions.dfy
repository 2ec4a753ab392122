/** Task definitions of type "entr": their property maps, the strict
    property-by-property comparison used to deduplicate them, and the
    defaults merged into them when a terminal is created. */
module Definitions {
  import opened Wrappers

  /** A property value of a task definition. Arrays and functions are
      objects, which `===` compares by identity: they carry an opaque
      reference `ref`. A pattern array also keeps its items, which are read
      when watchers are created. No property holds `undefined` (definitions
      come from JSON); a missing property reads as `undefined`. */
  datatype Value =
    | Str(s: string)
    | Num(n: int)
    | Bool(b: bool)
    | Patterns(ref: nat, items: seq<string>)
    | Callable(ref: nat)

  /** The own properties of a definition object, by name. */
  type Definition = map<string, Value>

  /** A definition object: `===` on definitions is reference equality. */
  class TaskDefinition {
    const props: Definition

    constructor (props: Definition)
      ensures this.props == props
    {
      this.props := props;
    }
  }

  /** `d[key]`, with `None` for `undefined`. */
  function Lookup(d: Definition, key: string): Option<Value>
  {
    if key in d then Some(d[key]) else None
  }

  /** `x === y` on two defined values: strings, numbers and booleans
      compare by value, arrays and functions by identity alone. */
  predicate StrictEquals(x: Value, y: Value)
    ensures (x.Str? || x.Num? || x.Bool?) ==> (StrictEquals(x, y) <==> x == y)
    ensures x.Patterns? && y.Patterns? ==> (StrictEquals(x, y) <==> x.ref == y.ref)
    ensures x.Patterns? != y.Patterns? || x.Callable? != y.Callable? ==> !StrictEquals(x, y)
  {
    if x.Patterns? then y.Patterns? && x.ref == y.ref
    else if x.Callable? then y.Callable? && x.ref == y.ref
    else x == y
  }

  function Digits(n: nat): string
    decreases n
  {
    var d := ['0' + (n % 10) as char];
    if n < 10 then d else Digits(n / 10) + d
  }

  /** A number in decimal, as JavaScript prints an integer. */
  function Decimal(n: int): string
  {
    if n < 0 then "-" + Digits(-n) else Digits(n)
  }

  /** The items of an array joined with ",", as `String(array)` does. */
  function JoinItems(items: seq<string>): string
  {
    if items == [] then ""
    else if |items| == 1 then items[0]
    else JoinItems(items[..|items| - 1]) + "," + items[|items| - 1]
  }

  /** The string conversion a template literal applies to a value. A
      function converts to its source text, which the model does not keep:
      it stands in "function". */
  function ToText(v: Value): string
  {
    match v
    case Str(s) => s
    case Num(n) => Decimal(n)
    case Bool(b) => if b then "true" else "false"
    case Patterns(_, items) => JoinItems(items)
    case Callable(_) => "function"
  }

  /** JavaScript truthiness of a property read. */
  predicate Truthy(v: Option<Value>)
  {
    match v
    case None => false
    case Some(Str(s)) => s != ""
    case Some(Num(n)) => n != 0
    case Some(Bool(b)) => b
    case Some(Patterns(_, _)) => true
    case Some(Callable(_)) => true
  }

  /** `DEFAULT_TASK_CONFIG.equals(a, b)`: the two objects have as many own
      properties, and every own property of `a` holds a value strictly
      equal to the same property of `b` (a property missing from `b` reads
      as `undefined`, which no defined value equals). */
  predicate Equals(a: Definition, b: Definition)
  {
    |a| == |b| && forall k :: k in a ==> k in b && StrictEquals(a[k], b[k])
  }

  /** The scan of `equals`: compare the property counts, then walk the
      property names of `a`, returning false at the first mismatch. The
      order of `Object.getOwnPropertyNames` is left open. */
  method EqualsScan(a: Definition, b: Definition) returns (r: bool)
    ensures r == Equals(a, b)
  {
    if |a| != |b| {
      return false;
    }
    var rest := a.Keys;
    while rest != {}
      invariant rest <= a.Keys
      invariant forall k :: k in a && k !in rest ==> k in b && StrictEquals(a[k], b[k])
      decreases rest
    {
      var propName :| propName in rest;
      if Lookup(b, propName).None? || !StrictEquals(a[propName], b[propName]) {
        return false;
      }
      rest := rest - {propName};
    }
    return true;
  }

  lemma StrictEqualsIsEquivalence(x: Value, y: Value, z: Value)
    ensures StrictEquals(x, x)
    ensures StrictEquals(x, y) ==> StrictEquals(y, x)
    ensures StrictEquals(x, y) && StrictEquals(y, z) ==> StrictEquals(x, z)
  {
  }

  /** A subset as large as its superset is the superset. */
  lemma SubsetOfSameSize<T>(x: set<T>, y: set<T>)
    requires x <= y && |x| == |y|
    ensures x == y
  {
    var extra := y - x;
    assert y == x + extra && x * extra == {};
    assert |extra| == 0;
    assert extra == {};
  }

  /** Definitions that `equals` relates have the same property names. */
  lemma EqualsSameKeys(a: Definition, b: Definition)
    requires Equals(a, b)
    ensures a.Keys == b.Keys
  {
    assert |a.Keys| == |a| && |b.Keys| == |b|;
    SubsetOfSameSize(a.Keys, b.Keys);
  }

  /** Both directions of what `equals` decides: the same property names,
      holding strictly equal values. */
  lemma EqualsCharacterized(a: Definition, b: Definition)
    ensures Equals(a, b) <==>
      a.Keys == b.Keys && forall k :: k in a ==> StrictEquals(a[k], b[k])
  {
    if Equals(a, b) {
      EqualsSameKeys(a, b);
    }
    if a.Keys == b.Keys {
      assert |a| == |a.Keys| == |b.Keys| == |b|;
    }
  }

  lemma EqualsReflexive(a: Definition)
    ensures Equals(a, a)
  {
    forall k | k in a
      ensures StrictEquals(a[k], a[k])
    {
      StrictEqualsIsEquivalence(a[k], a[k], a[k]);
    }
  }

  lemma EqualsSymmetric(a: Definition, b: Definition)
    requires Equals(a, b)
    ensures Equals(b, a)
  {
    EqualsSameKeys(a, b);
    forall k | k in b
      ensures StrictEquals(b[k], a[k])
    {
      StrictEqualsIsEquivalence(a[k], b[k], b[k]);
    }
  }

  lemma EqualsTransitive(a: Definition, b: Definition, c: Definition)
    requires Equals(a, b) && Equals(b, c)
    ensures Equals(a, c)
  {
    EqualsSameKeys(a, b);
    forall k | k in a
      ensures StrictEquals(a[k], c[k])
    {
      StrictEqualsIsEquivalence(a[k], b[k], c[k]);
    }
  }

  /** Reference of the default `files` array. */
  const DefaultFilesRef: nat := 0
  /** Reference of the `equals` function stored in the defaults. */
  const EqualsRef: nat := 1

  const DefaultFiles: Value := Patterns(DefaultFilesRef, ["**/*.*"])

  /** `DEFAULT_TASK_CONFIG`, including its own `equals` property. */
  const DefaultConfig: Definition := map[
    "type" := Str("entr"),
    "targetTask" := Str(""),
    "name" := Str(""),
    "files" := DefaultFiles,
    "ignoreCreateEvents" := Bool(false),
    "ignoreChangeEvents" := Bool(false),
    "ignoreDeleteEvents" := Bool(false),
    "onlyFiles" := Bool(false),
    "pauseMsBeforeRun" := Num(100),
    "runningTaskBehavior" := Str("batch"),
    "runningTaskBehaviorBatchThrottleSeconds" := Num(30),
    "equals" := Callable(EqualsRef)
  ]

  /** The property types the `EntrTaskDefinition` interface declares;
      other properties may hold anything. */
  predicate HasDeclaredType(key: string, v: Value)
  {
    if key == "type" || key == "targetTask" || key == "name" || key == "runningTaskBehavior" then v.Str?
    else if key == "files" then v.Patterns?
    else if key == "ignoreCreateEvents" || key == "ignoreChangeEvents" || key == "ignoreDeleteEvents" || key == "onlyFiles" then v.Bool?
    else if key == "pauseMsBeforeRun" || key == "runningTaskBehaviorBatchThrottleSeconds" then v.Num?
    else true
  }

  predicate WellTyped(d: Definition)
  {
    forall k :: k in d ==> HasDeclaredType(k, d[k])
  }

  /** `Object.assign({}, DEFAULT_TASK_CONFIG, user)`: every property the
      user supplies keeps the user's value, every other default property
      holds the default value, and nothing else is added. */
  function Merge(user: Definition): (r: Definition)
    ensures r.Keys == DefaultConfig.Keys + user.Keys
    ensures forall k :: k in user ==> r[k] == user[k]
    ensures forall k :: k in DefaultConfig && k !in user ==> r[k] == DefaultConfig[k]
    ensures WellTyped(user) ==> WellTyped(r)
  {
    DefaultConfig + user
  }

  /** Every default property has the type the interface declares. */
  lemma DefaultConfigWellTyped()
    ensures WellTyped(DefaultConfig)
  {
    forall k | k in DefaultConfig
      ensures HasDeclaredType(k, DefaultConfig[k])
    {
    }
  }

  /** The `type` filter of `resolveTask`. */
  predicate IsEntr(d: Definition)
  {
    Lookup(d, "type") == Some(Str("entr"))
  }
}
