/** Plain JavaScript values as stored in the document store, records built
    from them, and the JavaScript comparisons the adapter applies to the
    `_stateID` version counter. */
module Values {

  datatype Option<+T> = None | Some(value: T)

  /** A JSON-like value. Numbers are modelled as integers. */
  datatype Value =
    | Undefined
    | Null
    | Bool(b: bool)
    | Num(n: int)
    | Str(s: string)
    | Arr(items: seq<Value>)
    | Obj(fields: map<string, Value>)

  /** A JavaScript object with named fields (match metadata, a game state). */
  type Record = map<string, Value>

  /** Property access: a missing property reads as `undefined`. */
  function Field(r: Record, k: string): (v: Value)
    ensures k !in r ==> v == Undefined
    ensures k in r ==> v == r[k]
  {
    if k in r then r[k] else Undefined
  }

  /** The `_stateID` of a state object, when it is a number. Any other value
      (in particular a missing one) compares false against every number. */
  function StateID(s: Record): (id: Option<int>)
    ensures id.Some? <==> Field(s, "_stateID").Num?
    ensures id.Some? ==> Field(s, "_stateID") == Num(id.value)
  {
    match Field(s, "_stateID")
    case Num(n) => Some(n)
    case _ => None
  }

  /** JavaScript `a < b` where a missing operand is `undefined`. */
  predicate JsLess(a: Option<int>, b: Option<int>)
  {
    a.Some? && b.Some? && a.value < b.value
  }

  /** JavaScript `a >= b` where a missing operand is `undefined`. */
  predicate JsAtLeast(a: Option<int>, b: Option<int>)
  {
    a.Some? && b.Some? && a.value >= b.value
  }

  /** A record carrying the given numeric version and nothing else. */
  function Versioned(n: int): (s: Record)
    ensures StateID(s) == Some(n)
  {
    map["_stateID" := Num(n)]
  }

  predicate Distinct<T(==)>(s: seq<T>)
  {
    forall i, j :: 0 <= i < j < |s| ==> s[i] != s[j]
  }

  lemma DistinctTail<T>(s: seq<T>)
    requires |s| > 0 && Distinct(s)
    ensures Distinct(s[1..]) && s[0] !in s[1..]
  {
    forall i, j | 0 <= i < j < |s[1..]| ensures s[1..][i] != s[1..][j] {
      assert s[1..][i] == s[i + 1] && s[1..][j] == s[j + 1];
    }
  }

  lemma DistinctCons<T>(x: T, s: seq<T>)
    requires Distinct(s) && x !in s
    ensures Distinct([x] + s)
  {
    forall i, j | 0 <= i < j < |[x] + s| ensures ([x] + s)[i] != ([x] + s)[j] {
      assert ([x] + s)[j] == s[j - 1];
      if i > 0 { assert ([x] + s)[i] == s[i - 1]; }
    }
  }

  /** Dropping the last element of a sequence without repetitions removes
      exactly that element. */
  lemma DistinctDropLast<T>(s: seq<T>)
    requires |s| > 0 && Distinct(s)
    ensures Distinct(s[..|s| - 1])
    ensures forall x :: x in s[..|s| - 1] <==> x in s && x != s[|s| - 1]
  {
    var p := s[..|s| - 1];
    assert s == p + [s[|s| - 1]];
    forall x | x in p ensures x != s[|s| - 1] {
      var i :| 0 <= i < |p| && p[i] == x;
      assert s[i] == x;
    }
  }
}
