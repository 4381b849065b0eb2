/**
 * JavaScript values as the governance stage sees them: the record handed in
 * by the host, JS truthiness, the `||` operator, property reads that may
 * throw, and the own-entry view of a value that object spread (`...v`) copies.
 */
module Values {

  /** A JSON-like JavaScript value. Numbers are reals (NaN is not modelled). */
  datatype Value =
    | Undefined
    | Null
    | Bool(b: bool)
    | Num(n: real)
    | Str(s: string)
    | Arr(items: seq<Value>)
    | Obj(props: map<string, Value>)

  /** The exceptions the stage can raise: reading a property of null or
      undefined, or calling a string method on a value that has none. */
  datatype Fault =
    | ReadOfNullish(key: string)
    | NotAFunction(callee: string)

  /** Either the value of an expression or the exception it threw. */
  datatype Result<T> = Ok(value: T) | Err(fault: Fault) {
    predicate IsFailure() { Err? }

    function PropagateFailure<U>(): Result<U>
      requires Err?
    {
      Err(fault)
    }

    function Extract(): T
      requires Ok?
    {
      value
    }
  }

  /** The record keys the stage reads. */
  datatype Field = Body | CompanyName | Company | NewsSummary | Description

  function Key(f: Field): string
  {
    match f
    case Body => "body"
    case CompanyName => "company_name"
    case Company => "company"
    case NewsSummary => "news_summary"
    case Description => "description"
  }

  predicate Nullish(v: Value)
  {
    v.Undefined? || v.Null?
  }

  /** JavaScript's ToBoolean. */
  predicate Truthy(v: Value)
  {
    match v
    case Undefined => false
    case Null => false
    case Bool(b) => b
    case Num(n) => n != 0.0
    case Str(s) => s != ""
    case Arr(_) => true
    case Obj(_) => true
  }

  /** `a || b`: the left operand when it is truthy, otherwise the right one. */
  function Or(a: Value, b: Value): Value
  {
    if Truthy(a) then a else b
  }

  /** The first truthy candidate, or the fallback when every candidate is falsy;
      the meaning of a chain `c0 || c1 || ... || fallback`. */
  function FirstTruthy(candidates: seq<Value>, fallback: Value): (r: Value)
    ensures (exists i :: 0 <= i < |candidates| && r == candidates[i] && Truthy(r)
               && forall j :: 0 <= j < i ==> !Truthy(candidates[j]))
         || (r == fallback && forall j :: 0 <= j < |candidates| ==> !Truthy(candidates[j]))
    ensures Truthy(fallback) ==> Truthy(r)
  {
    if candidates == [] then fallback
    else if Truthy(candidates[0]) then candidates[0]
    else
      var r := FirstTruthy(candidates[1..], fallback);
      assert forall j :: 1 <= j < |candidates| ==> candidates[j] == candidates[1..][j - 1];
      r
  }

  /** The left-nested chain `(a || b) || fallback`, as JavaScript parses
      `a || b || fallback`, picks the first truthy of `a` and `b`. */
  lemma OrChainOfTwo(a: Value, b: Value, fallback: Value)
    ensures Or(Or(a, b), fallback) == FirstTruthy([a, b], fallback)
    ensures Or(a, Or(b, fallback)) == FirstTruthy([a, b], fallback)
  {
    assert [a, b][1..] == [b];
    assert [b][1..] == [];
  }

  /** The value read as `v.key` from a value that is not null or undefined.
      None of the five keys is an index, `length` or a prototype member, so a
      primitive or an array yields undefined. */
  function FieldOf(v: Value, f: Field): Value
  {
    if v.Obj? && Key(f) in v.props then v.props[Key(f)] else Undefined
  }

  /** The property read `v.key`, which throws a TypeError on null and undefined. */
  function Get(v: Value, f: Field): (r: Result<Value>)
    ensures r.Err? <==> Nullish(v)
    ensures r.Ok? ==> r.value == FieldOf(v, f)
  {
    match v
    case Undefined => Err(ReadOfNullish(Key(f)))
    case Null => Err(ReadOfNullish(Key(f)))
    case _ => Ok(FieldOf(v, f))
  }

  function DigitChar(d: nat): char
    requires d < 10
  {
    ('0' as int + d) as char
  }

  predicate IsDigit(c: char)
  {
    '0' <= c <= '9'
  }

  function DigitValue(c: char): nat
    requires IsDigit(c)
  {
    c as int - '0' as int
  }

  /** The number a string of decimal digits denotes, most significant first. */
  function DecimalValue(s: string): nat
    requires forall i :: 0 <= i < |s| ==> IsDigit(s[i])
  {
    if s == [] then 0
    else DecimalValue(s[..|s| - 1]) * 10 + DigitValue(s[|s| - 1])
  }

  /** A canonical decimal numeral: digits only, and no leading zero unless it
      is "0" itself. These are the strings ToString gives for indices. */
  predicate IsIndexKey(k: string)
  {
    && |k| >= 1
    && (forall i :: 0 <= i < |k| ==> IsDigit(k[i]))
    && (|k| > 1 ==> k[0] != '0')
  }

  /** The decimal property key of an array or string index, as ToString gives
      it: a canonical numeral that denotes `n`. */
  function IndexKey(n: nat): (s: string)
    ensures IsIndexKey(s)
    ensures DecimalValue(s) == n
  {
    if n < 10 then [DigitChar(n)]
    else
      var front := IndexKey(n / 10);
      var s := front + [DigitChar(n % 10)];
      assert s[..|s| - 1] == front;
      s
  }

  /** A numeral whose first digit is not zero denotes a positive number. */
  lemma {:induction false} LeadingDigitPositive(k: string)
    requires |k| >= 1 && forall i :: 0 <= i < |k| ==> IsDigit(k[i])
    requires k[0] != '0'
    ensures DecimalValue(k) >= 1
  {
    if |k| > 1 {
      var front := k[..|k| - 1];
      assert front[0] == k[0];
      LeadingDigitPositive(front);
    }
  }

  /** Appending a digit multiplies by ten and adds it; dividing by ten
      takes it off again. */
  lemma AppendDigit(a: nat, d: nat)
    requires d < 10
    ensures (a * 10 + d) / 10 == a && (a * 10 + d) % 10 == d
  {
  }

  /** Every canonical numeral is the key of the index it denotes: reading a
      key back and printing it again gives the same string. */
  lemma {:induction false} IndexKeyOfValue(k: string)
    requires IsIndexKey(k)
    ensures IndexKey(DecimalValue(k)) == k
  {
    var last := k[|k| - 1];
    var front := k[..|k| - 1];
    var d := DigitValue(last);
    assert DigitChar(d) == last;
    if |k| == 1 {
      assert front == [];
    } else {
      assert front[0] == k[0];
      assert forall i :: 0 <= i < |front| ==> IsDigit(front[i]);
      LeadingDigitPositive(front);
      IndexKeyOfValue(front);
      var n := DecimalValue(k);
      assert n == DecimalValue(front) * 10 + d;
      AppendDigit(DecimalValue(front), d);
      assert IndexKey(n) == IndexKey(n / 10) + [DigitChar(n % 10)];
      assert k == front + [last];
    }
  }

  /** Distinct indices have distinct keys. */
  lemma IndexKeyInjective(m: nat, n: nat)
    requires IndexKey(m) == IndexKey(n)
    ensures m == n
  {
    // Both keys denote their index, so equal keys denote equal indices.
  }

  /** The keys of the indices below `n` are pairwise distinct. */
  lemma IndexKeysDistinct(n: nat)
    ensures forall i, j :: 0 <= i < n && 0 <= j < n && IndexKey(i) == IndexKey(j) ==> i == j
  {
    forall i, j | 0 <= i < n && 0 <= j < n && IndexKey(i) == IndexKey(j) ensures i == j {
      IndexKeyInjective(i, j);
    }
  }

  /** The index keys of a sequence of length `n`: exactly the canonical
      numerals of the numbers below `n`. */
  function IndexKeys(n: nat): (ks: set<string>)
    ensures forall i :: 0 <= i < n ==> IndexKey(i) in ks
    ensures forall k :: k in ks <==> IsIndexKey(k) && DecimalValue(k) < n
  {
    var ks := set i | 0 <= i < n :: IndexKey(i);
    forall k | IsIndexKey(k) && DecimalValue(k) < n
      ensures k in ks
    {
      IndexKeyOfValue(k);
    }
    ks
  }

  /** The entries an array spreads into: each element under its index key. */
  function ArrayEntries(items: seq<Value>): (m: map<string, Value>)
    ensures m.Keys == IndexKeys(|items|)
    ensures forall i :: 0 <= i < |items| ==> m[IndexKey(i)] == items[i]
  {
    IndexKeysDistinct(|items|);
    map i | 0 <= i < |items| :: IndexKey(i) := items[i]
  }

  /** The entries a string spreads into: each character, as a one-character
      string, under its index key. */
  function StringEntries(s: string): (m: map<string, Value>)
    ensures m.Keys == IndexKeys(|s|)
    ensures forall i :: 0 <= i < |s| ==> m[IndexKey(i)] == Str([s[i]])
  {
    IndexKeysDistinct(|s|);
    map i | 0 <= i < |s| :: IndexKey(i) := Str([s[i]])
  }

  /** The own enumerable entries that `{...v}` copies: an object's properties,
      the elements of an array or the characters of a string under exactly
      their index keys, and nothing for the other primitives. */
  function OwnEntries(v: Value): (m: map<string, Value>)
    ensures v.Obj? ==> m == v.props
    ensures v.Arr? ==> m.Keys == IndexKeys(|v.items|)
    ensures v.Arr? ==> forall i :: 0 <= i < |v.items| ==> m[IndexKey(i)] == v.items[i]
    ensures v.Str? ==> m.Keys == IndexKeys(|v.s|)
    ensures v.Str? ==> forall i :: 0 <= i < |v.s| ==> m[IndexKey(i)] == Str([v.s[i]])
    ensures !v.Obj? && !v.Arr? && !v.Str? ==> m == map[]
  {
    match v
    case Obj(props) => props
    case Arr(items) => ArrayEntries(items)
    case Str(s) => StringEntries(s)
    case _ => map[]
  }
}
