/**
 Conditions of policy rules (services/gateway/src/policy/condition-evaluator.ts). What JavaScript adds
 is a parameter, `Runtime`: its relational comparison, where `lessThan(a, b)` is None when the operands
 do not compare, as in the IsLessThan operation of ECMA-262; and the properties that a value inherits.
 */
module ConditionEvaluator {
  import opened Wrappers

  datatype Value =
    | Undefined
    | Null
    | Str(s: string)
    | Num(n: real)
    | Bool(b: bool)
    | Date(ms: int)
    | Arr(elements: seq<Value>)
    | Obj(fields: map<string, Value>)
    | Function(name: string)

  datatype Condition = Condition(field: string, operator: string, value: Value)

  datatype Runtime = Runtime(lessThan: (Value, Value) -> Option<bool>, inherited: (Value, string) -> Value)

  /** `===`: objects are equal only to themselves, and a condition never holds an object of the context. */
  predicate StrictlyEqual(a: Value, b: Value) {
    a == b && IsPrimitive(a)
  }

  predicate IsPrimitive(a: Value) {
    a.Str? || a.Num? || a.Bool? || a.Null? || a.Undefined?
  }

  function IndexOf(s: string, c: char): (i: nat)
    ensures i <= |s| && c !in s[..i]
    ensures i < |s| ==> s[i] == c
  {
    if s == "" || s[0] == c then 0
    else
      var i := IndexOf(s[1..], c);
      assert s[..i + 1] == [s[0]] + s[1..][..i];
      i + 1
  }

  /** `path.split('.')` */
  function Split(path: string): (parts: seq<string>)
    ensures |parts| >= 1
    decreases |path|
  {
    var i := IndexOf(path, '.');
    if i == |path| then [path] else [path[..i]] + Split(path[i + 1..])
  }

  function Join(parts: seq<string>): string {
    if parts == [] then ""
    else if |parts| == 1 then parts[0]
    else parts[0] + "." + Join(parts[1..])
  }

  lemma {:induction false} IndexOfFirst(a: string, rest: string)
    requires '.' !in a
    ensures IndexOf(a + "." + rest, '.') == |a|
  {
    if a != "" {
      assert (a + "." + rest)[1..] == a[1..] + "." + rest;
      IndexOfFirst(a[1..], rest);
    }
  }

  /** Splitting a path takes apart exactly what joining dot-free parts puts together. */
  lemma {:induction false} SplitJoin(parts: seq<string>)
    requires parts != [] && forall i :: 0 <= i < |parts| ==> '.' !in parts[i]
    ensures Split(Join(parts)) == parts
    decreases |parts|
  {
    var path := Join(parts);
    if |parts| > 1 {
      var rest := Join(parts[1..]);
      assert path == parts[0] + "." + rest;
      IndexOfFirst(parts[0], rest);
      assert path[..|parts[0]|] == parts[0] && path[|parts[0]| + 1..] == rest;
      SplitJoin(parts[1..]);
    } else {
      assert parts == [parts[0]];
      assert IndexOf(path, '.') == |path|;
    }
  }

  lemma {:induction false} JoinCons(part: string, rest: seq<string>)
    requires rest != []
    ensures Join([part] + rest) == part + "." + Join(rest)
  {
    assert ([part] + rest)[1..] == rest;
  }

  lemma {:induction false} SplitTwo(a: string, b: string)
    requires '.' !in a && '.' !in b
    ensures Split(a + "." + b) == [a, b]
  {
    JoinCons(a, [b]);
    assert [a] + [b] == [a, b] && Join([b]) == b;
    SplitJoin([a, b]);
  }

  /** And every path is its parts joined, which have no dots. */
  lemma {:induction false} JoinSplit(path: string)
    ensures Join(Split(path)) == path
    ensures forall i :: 0 <= i < |Split(path)| ==> '.' !in Split(path)[i]
    decreases |path|
  {
    var i := IndexOf(path, '.');
    if i < |path| {
      var rest := Split(path[i + 1..]);
      JoinSplit(path[i + 1..]);
      JoinCons(path[..i], rest);
      assert path == path[..i] + "." + path[i + 1..];
    } else {
      assert path[..i] == path;
    }
  }

  function DigitOf(c: char): nat {
    if '0' <= c <= '9' then c as int - '0' as int else 0
  }

  /** The array index that a property name stands for: decimal digits without leading zeros. */
  function ArrayIndex(part: string): Option<nat> {
    if part == "" || (|part| > 1 && part[0] == '0') then None else Decimal(part)
  }

  function Decimal(digits: string): Option<nat>
    decreases |digits|
  {
    if digits == "" then Some(0)
    else
      var last := |digits| - 1;
      match Decimal(digits[..last])
      case None => None
      case Some(n) => if '0' <= digits[last] <= '9' then Some(10 * n + DigitOf(digits[last])) else None
  }

  /** The decimal numeral of a number. */
  ghost function Numeral(n: nat): string {
    if n < 10 then [('0' as int + n) as char] else Numeral(n / 10) + [('0' as int + n % 10) as char]
  }

  lemma {:induction false} NumeralIsRead(n: nat)
    ensures Numeral(n) != "" && Decimal(Numeral(n)) == Some(n)
    ensures Numeral(n)[0] == '0' <==> n == 0
    ensures |Numeral(n)| > 1 ==> n >= 10
    decreases n
  {
    if n < 10 {
      assert Numeral(n)[..0] == "";
    } else {
      NumeralIsRead(n / 10);
      assert Numeral(n)[..|Numeral(n)| - 1] == Numeral(n / 10);
    }
  }

  lemma {:induction false} ReadIsNumeral(digits: string, n: nat)
    requires digits != "" && (|digits| > 1 ==> digits[0] != '0')
    requires Decimal(digits) == Some(n)
    ensures digits == Numeral(n)
    decreases |digits|
  {
    var last := |digits| - 1;
    var head := digits[..last];
    assert digits == head + [digits[last]];
    if last > 0 {
      var m := Decimal(head).value;
      ReadIsNumeral(head, m);
      NumeralIsRead(m);
      assert n == 10 * m + DigitOf(digits[last]) && n / 10 == m && n % 10 == DigitOf(digits[last]);
    }
  }

  /** A property name stands for an index exactly if it is the index's numeral. */
  lemma {:induction false} IndexIsNumeral(part: string, n: nat)
    ensures ArrayIndex(part) == Some(n) <==> part == Numeral(n)
  {
    NumeralIsRead(n);
    if ArrayIndex(part) == Some(n) {
      ReadIsNumeral(part, n);
    }
  }

  /** The property of an object itself, if it has one of that name. */
  function Own(current: Value, part: string): Option<Value> {
    match current
    case Obj(fields) => if part in fields then Some(fields[part]) else None
    case Arr(elements) =>
      if part == "length" then Some(Num(|elements| as real))
      else
        (match ArrayIndex(part)
         case None => None
         case Some(i) => if i < |elements| then Some(elements[i]) else None)
    case _ => None
  }

  /** `typeof value === 'object'`, apart from null. */
  predicate IsObject(value: Value) {
    value.Obj? || value.Arr? || value.Date?
  }

  /** One step of a path: the property of an object, its own or inherited; of anything else, undefined. */
  function Step(current: Value, part: string, rt: Runtime): Value {
    if !IsObject(current) then Undefined
    else
      match Own(current, part)
      case Some(v) => v
      case None => rt.inherited(current, part)
  }

  /** What each kind of value has to offer under a name. */
  lemma {:induction false} StepMeans(current: Value, part: string, rt: Runtime)
    ensures current.Obj? && part in current.fields ==> Step(current, part, rt) == current.fields[part]
    ensures current.Obj? && part !in current.fields ==> Step(current, part, rt) == rt.inherited(current, part)
    ensures current.Arr? && part == "length" ==> Step(current, part, rt) == Num(|current.elements| as real)
    ensures current.Arr? ==> forall i: nat :: i < |current.elements| && part == Numeral(i) ==> Step(current, part, rt) == current.elements[i]
    ensures current.Arr? && part != "length" && (forall i: nat :: i < |current.elements| ==> part != Numeral(i)) ==>
              Step(current, part, rt) == rt.inherited(current, part)
    ensures current.Date? ==> Step(current, part, rt) == rt.inherited(current, part)
    ensures !current.Obj? && !current.Arr? && !current.Date? ==> Step(current, part, rt) == Undefined
  {
    if current.Arr? {
      forall i: nat | i < |current.elements| ensures ArrayIndex(part) == Some(i) <==> part == Numeral(i) {
        IndexIsNumeral(part, i);
      }
      assert ArrayIndex("length") == None by {
        if ArrayIndex("length").Some? {
          assert "length"[5] == 'h';
        }
      }
    }
  }

  function Follow(current: Value, parts: seq<string>, rt: Runtime): Value
    decreases |parts|
  {
    if parts == [] then current else Follow(Step(current, parts[0], rt), parts[1..], rt)
  }

  lemma {:induction false} FollowTwo(current: Value, a: string, b: string, rt: Runtime)
    ensures Follow(current, [a, b], rt) == Step(Step(current, a, rt), b, rt)
  {
    assert [a, b][1..] == [b] && [b][1..] == [];
    assert Follow(Step(current, a, rt), [b], rt) == Step(Step(current, a, rt), b, rt);
  }

  lemma {:induction false} FollowUndefined(parts: seq<string>, rt: Runtime)
    ensures Follow(Undefined, parts, rt) == Undefined
    decreases |parts|
  {
    if parts != [] {
      FollowUndefined(parts[1..], rt);
    }
  }

  method GetFieldValue(path: string, context: Value, rt: Runtime) returns (value: Value)
    ensures value == Follow(context, Split(path), rt)
  {
    var parts := Split(path);
    value := context;
    var i := 0;
    while i < |parts|
      invariant 0 <= i <= |parts|
      invariant Follow(value, parts[i..], rt) == Follow(context, parts, rt)
    {
      assert parts[i..][1..] == parts[i + 1..];
      if !IsObject(value) {
        FollowUndefined(parts[i + 1..], rt);
        return Undefined;
      }
      value := Step(value, parts[i], rt);
      i := i + 1;
    }
  }

  /** Following a path through fields that objects have themselves ends at the nested value. */
  ghost function Nest(parts: seq<string>, value: Value): Value
    decreases |parts|
  {
    if parts == [] then value else Obj(map[parts[0] := Nest(parts[1..], value)])
  }

  lemma {:induction false} NestedIsFollowed(parts: seq<string>, value: Value, rt: Runtime)
    ensures Follow(Nest(parts, value), parts, rt) == value
    decreases |parts|
  {
    if parts != [] {
      NestedIsFollowed(parts[1..], value, rt);
    }
  }

  predicate IsSubstring(s: string, t: string) {
    exists i :: 0 <= i <= |t| && s <= t[i..]
  }

  predicate Contains(fieldValue: Value, value: Value) {
    || (fieldValue.Str? && value.Str? && IsSubstring(value.s, fieldValue.s))
    || (fieldValue.Arr? && Includes(fieldValue.elements, value))
  }

  predicate Includes(elements: seq<Value>, value: Value) {
    exists i :: 0 <= i < |elements| && StrictlyEqual(elements[i], value)
  }

  /** What a condition tests: the value at the end of its path. */
  function Tested(c: Condition, context: Value, rt: Runtime): Value {
    Follow(context, Split(c.field), rt)
  }

  /** Whether a condition holds of a context. */
  predicate Holds(c: Condition, context: Value, rt: Runtime) {
    Tested(c, context, rt) != Undefined && Test(c.operator, Tested(c, context, rt), c.value, rt)
  }

  predicate Test(operator: string, fieldValue: Value, value: Value, rt: Runtime) {
    match operator
    case "eq" => StrictlyEqual(fieldValue, value)
    case "neq" => !StrictlyEqual(fieldValue, value)
    case "in" => value.Arr? && Includes(value.elements, fieldValue)
    case "gt" => rt.lessThan(value, fieldValue) == Some(true)
    case "lt" => rt.lessThan(fieldValue, value) == Some(true)
    case "gte" => rt.lessThan(fieldValue, value) == Some(false)
    case "lte" => rt.lessThan(value, fieldValue) == Some(false)
    case "contains" => Contains(fieldValue, value)
    case _ => false
  }

  const OPERATORS: set<string> := {"eq", "neq", "in", "gt", "lt", "gte", "lte", "contains"}

  /** The dotted path of nested fields finds the value at its end. */
  lemma {:induction false} NestedFieldIsFound(c: Condition, parts: seq<string>, value: Value, rt: Runtime)
    requires parts != [] && forall i :: 0 <= i < |parts| ==> '.' !in parts[i]
    requires c.field == Join(parts)
    ensures Tested(c, Nest(parts, value), rt) == value
  {
    SplitJoin(parts);
    NestedIsFollowed(parts, value, rt);
  }

  // ------------------------------------------------------------- what the operators mean

  /** `eq` and `neq` decide equality of primitive values: on a field that is there they are complements, on one that is not both fail. */
  lemma {:induction false} EqualityOperators(c: Condition, context: Value, rt: Runtime)
    ensures var field := Tested(c, context, rt);
            && (Holds(c.(operator := "eq"), context, rt) <==> field != Undefined && field == c.value && !IsReference(field))
            && (field != Undefined ==> (Holds(c.(operator := "neq"), context, rt) <==> !Holds(c.(operator := "eq"), context, rt)))
            && (field == Undefined ==> !Holds(c.(operator := "neq"), context, rt) && !Holds(c.(operator := "eq"), context, rt))
  {
  }

  /** `gt` and `lte`, and `lt` and `gte`, exclude each other, and are complements exactly when the operands compare. */
  lemma {:induction false} OrderOperators(c: Condition, context: Value, rt: Runtime)
    requires Tested(c, context, rt) != Undefined
    ensures !(Holds(c.(operator := "gt"), context, rt) && Holds(c.(operator := "lte"), context, rt))
    ensures !(Holds(c.(operator := "lt"), context, rt) && Holds(c.(operator := "gte"), context, rt))
    ensures Holds(c.(operator := "gt"), context, rt) || Holds(c.(operator := "lte"), context, rt) <==>
            rt.lessThan(c.value, Tested(c, context, rt)).Some?
    ensures Holds(c.(operator := "lt"), context, rt) || Holds(c.(operator := "gte"), context, rt) <==>
            rt.lessThan(Tested(c, context, rt), c.value).Some?
  {
    var field := Tested(c, context, rt);
    TestOrders(field, c.value, rt);
    Answered(rt.lessThan(c.value, field));
    Answered(rt.lessThan(field, c.value));
  }

  lemma {:induction false} Answered(answer: Option<bool>)
    ensures answer.Some? <==> answer == Some(true) || answer == Some(false)
  {
    assert answer.Some? ==> answer.value == true || answer.value == false;
  }

  lemma {:induction false} TestOrders(field: Value, value: Value, rt: Runtime)
    ensures Test("gt", field, value, rt) <==> rt.lessThan(value, field) == Some(true)
    ensures Test("lte", field, value, rt) <==> rt.lessThan(value, field) == Some(false)
    ensures Test("lt", field, value, rt) <==> rt.lessThan(field, value) == Some(true)
    ensures Test("gte", field, value, rt) <==> rt.lessThan(field, value) == Some(false)
  {
  }

  /** `lessThan` orders numbers, and nothing else needs to be known about it. */
  ghost predicate OrdersNumbers(rt: Runtime) {
    forall a: real, b: real {:trigger rt.lessThan(Num(a), Num(b))} :: rt.lessThan(Num(a), Num(b)) == Some(a < b)
  }

  /** On numbers the four operators are the orders they are named after. */
  lemma {:induction false} OrderOperatorsOnNumbers(c: Condition, context: Value, rt: Runtime, a: real, b: real)
    requires OrdersNumbers(rt) && Tested(c, context, rt) == Num(a) && c.value == Num(b)
    ensures Holds(c.(operator := "gt"), context, rt) <==> a > b
    ensures Holds(c.(operator := "lt"), context, rt) <==> a < b
    ensures Holds(c.(operator := "gte"), context, rt) <==> a >= b
    ensures Holds(c.(operator := "lte"), context, rt) <==> a <= b
  {
    assert rt.lessThan(Num(a), Num(b)) == Some(a < b) && rt.lessThan(Num(b), Num(a)) == Some(b < a);
  }

  lemma {:induction false} IncludesIsMembership(elements: seq<Value>, value: Value)
    ensures Includes(elements, value) <==> value in elements && IsPrimitive(value)
  {
    if value in elements && IsPrimitive(value) {
      var i :| 0 <= i < |elements| && elements[i] == value;
      assert StrictlyEqual(elements[i], value);
    }
  }

  lemma {:induction false} SubstringIsInfix(s: string, t: string)
    ensures IsSubstring(s, t) <==> exists before, after :: t == before + s + after
  {
    if IsSubstring(s, t) {
      var i :| 0 <= i <= |t| && s <= t[i..];
      assert t == t[..i] + s + t[i + |s|..];
    }
    if before, after :| t == before + s + after {
      assert t[|before|..] == s + after;
    }
  }

  /** A value that `===` compares by identity. */
  ghost predicate IsReference(value: Value) {
    value.Obj? || value.Arr? || value.Date? || value.Function?
  }

  /** The meaning of an operator on a field that is there: equality of primitives, order, membership, being part. */
  ghost predicate Means(operator: string, field: Value, value: Value, rt: Runtime) {
    if operator == "eq" then field == value && !IsReference(field)
    else if operator == "neq" then field != value || IsReference(field)
    else if operator == "in" then value.Arr? && field in value.elements && !IsReference(field)
    else if operator == "contains" then
      || (field.Arr? && value in field.elements && !IsReference(value))
      || (field.Str? && value.Str? && exists before, after :: field.s == before + value.s + after)
    else if operator == "gt" then rt.lessThan(value, field) == Some(true)
    else if operator == "lt" then rt.lessThan(field, value) == Some(true)
    else if operator == "gte" then rt.lessThan(field, value) == Some(false)
    else operator == "lte" && rt.lessThan(value, field) == Some(false)
  }

  lemma {:induction false} TestMeans(operator: string, field: Value, value: Value, rt: Runtime)
    ensures Test(operator, field, value, rt) <==> Means(operator, field, value, rt)
  {
    if value.Arr? {
      IncludesIsMembership(value.elements, field);
    }
    if field.Arr? {
      IncludesIsMembership(field.elements, value);
    }
    if field.Str? && value.Str? {
      SubstringIsInfix(value.s, field.s);
    }
  }

  /** A condition holds exactly if the field is there and in the relation to the constant that the operator means. */
  method EvaluateCondition(c: Condition, context: Value, rt: Runtime) returns (holds: bool)
    ensures holds <==> Tested(c, context, rt) != Undefined && Means(c.operator, Tested(c, context, rt), c.value, rt)
    ensures holds <==> Holds(c, context, rt)
    ensures c.operator !in OPERATORS ==> !holds
  {
    var fieldValue := GetFieldValue(c.field, context, rt);
    if fieldValue == Undefined {
      return false;
    }
    TestMeans(c.operator, fieldValue, c.value, rt);
    return Test(c.operator, fieldValue, c.value, rt);
  }
}
