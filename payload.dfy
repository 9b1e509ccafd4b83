/**
 * The loosely typed value that `json.loads` returns, and the three things the
 * result builders do with it: `dict.get` with a default, a `for` loop over a
 * field, and pydantic's check of a field against its declared type.
 */
module Payload {

  import opened Wrappers
  import opened Exceptions

  /** A decoded JSON value. Numbers are abstracted to integers: no code here looks at them. */
  datatype Json =
    | Null
    | Bool(b: bool)
    | Num(n: int)
    | Str(s: string)
    | Arr(items: seq<Json>)
    | Obj(fields: map<string, Json>)

  /** `d.get(key, default)`. */
  function Get(fields: map<string, Json>, key: string, default: Json): Json {
    if key in fields then fields[key] else default
  }

  /**
   * What `for x in v:` does. A list yields its items and a string its
   * characters; null, a boolean or a number is not iterable. A dict yields its
   * keys, which are strings: every loop of this kind in the modelled code
   * starts by calling `.get` on the element, which a string lacks, so a
   * non-empty dict fails there with the same exception and an empty dict is
   * an empty loop. The model goes straight to that outcome, since a `map`
   * does not record the order of the keys.
   */
  function Elements(v: Json): (r: Result<seq<Json>, PyException>)
    ensures v.Arr? ==> r == Success(v.items)
    ensures v.Str? ==> r.Success? && |r.value| == |v.s| && forall i | 0 <= i < |v.s| :: r.value[i] == Str([v.s[i]])
    ensures v.Obj? ==> (r.Success? <==> |v.fields| == 0) && (r.Success? ==> r.value == [])
    ensures v.Obj? && r.Failure? ==> r.error == AttributeError
    ensures v.Null? || v.Bool? || v.Num? ==> r == Failure(TypeError)
    ensures r.Success? && !v.Arr? ==> forall i | 0 <= i < |r.value| :: r.value[i].Str?
  {
    match v
    case Arr(items) => Success(items)
    case Str(s) => Success(seq(|s|, i requires 0 <= i < |s| => Str([s[i]])))
    case Obj(m) => if |m| == 0 then Success([]) else Failure(AttributeError)
    case _ => Failure(TypeError)
  }

  /** Field `key` is absent or a string: `d.get(key, "...")` then passes a `str` check. */
  predicate StrOrAbsent(fields: map<string, Json>, key: string) {
    key !in fields || fields[key].Str?
  }

  /** Field `key` is absent, null or a string: `d.get(key)` then passes an `Optional[str]` check. */
  predicate OptStrOrAbsent(fields: map<string, Json>, key: string) {
    key !in fields || fields[key].Str? || fields[key].Null?
  }

  /** The string in field `key`, or `default` when the field is absent. */
  function StrOr(fields: map<string, Json>, key: string, default: string): string
    requires StrOrAbsent(fields, key)
  {
    if key in fields then fields[key].s else default
  }

  /** The string in field `key`, or none when the field is absent or null. */
  function OptStrOf(fields: map<string, Json>, key: string): Option<string>
    requires OptStrOrAbsent(fields, key)
  {
    if key in fields && fields[key].Str? then Some(fields[key].s) else None
  }

  /** Pydantic's check of a `str` field. */
  function AsStr(v: Json): Result<string, PyException> {
    if v.Str? then Success(v.s) else Failure(ValidationError)
  }

  /** Pydantic's check of an `Optional[str]` field. */
  function AsOptionalStr(v: Json): Result<Option<string>, PyException> {
    match v
    case Null => Success(None)
    case Str(s) => Success(Some(s))
    case _ => Failure(ValidationError)
  }

  predicate IsStrList(v: Json) {
    v.Arr? && forall i | 0 <= i < |v.items| :: v.items[i].Str?
  }

  /** Pydantic's check of a `list[str]` field. */
  function AsStrList(v: Json): (r: Result<seq<string>, PyException>)
    ensures r.Success? <==> IsStrList(v)
    ensures r.Success? ==> |r.value| == |v.items| && forall i | 0 <= i < |r.value| :: v.items[i] == Str(r.value[i])
  {
    if IsStrList(v) then Success(seq(|v.items|, i requires 0 <= i < |v.items| => v.items[i].s))
    else Failure(ValidationError)
  }

  /**
   * A loop that converts every element with `build` and appends the result,
   * as seen from outside: the converted list in the same order, or the
   * exception of the first element that fails.
   */
  function MapAll<T>(build: Json -> Result<T, PyException>, elems: seq<Json>): (r: Result<seq<T>, PyException>)
    ensures r.Success? <==> forall i | 0 <= i < |elems| :: build(elems[i]).Success?
    ensures r.Success? ==>
      |r.value| == |elems| && forall i | 0 <= i < |elems| :: build(elems[i]) == Success(r.value[i])
    ensures r.Failure? ==>
      exists k | 0 <= k < |elems| ::
        build(elems[k]) == Failure(r.error) && forall j | 0 <= j < k :: build(elems[j]).Success?
    decreases |elems|
  {
    if elems == [] then Success([])
    else
      var init := elems[..|elems| - 1];
      assert forall i | 0 <= i < |init| :: init[i] == elems[i];
      var done :- MapAll(build, init);
      var last :- build(elems[|elems| - 1]);
      Success(done + [last])
  }

  /** When every element before `k` converts and element `k` fails, the whole loop fails with element `k`'s exception. */
  lemma MapAllFirstFailure<T>(build: Json -> Result<T, PyException>, elems: seq<Json>, k: nat)
    requires k < |elems| && MapAll(build, elems[..k]).Success? && build(elems[k]).Failure?
    ensures MapAll(build, elems) == Failure(build(elems[k]).error)
  {
    assert forall j | 0 <= j < k :: elems[..k][j] == elems[j];
    var r := MapAll(build, elems);
    assert r.Failure?;
    var first :| 0 <= first < |elems| && build(elems[first]) == Failure(r.error)
      && forall j | 0 <= j < first :: build(elems[j]).Success?;
    assert first == k;
  }

  /** A loop over one element that converts yields that one result. */
  lemma MapAllSingleton<T>(build: Json -> Result<T, PyException>, x: Json)
    requires build(x).Success?
    ensures MapAll(build, [x]) == Success([build(x).value])
  {
    assert [x][..0] == [];
    var none: seq<T> := [];
    assert MapAll(build, [x]) == Success(none + [build(x).value]);
    assert none + [build(x).value] == [build(x).value];
  }

  /**
   * The loop itself: `out = []`, then `out.append(build(x))` for each element
   * in turn, leaving at the first exception.
   */
  method AppendEach<T>(build: Json -> Result<T, PyException>, elems: seq<Json>) returns (r: Result<seq<T>, PyException>)
    ensures r == MapAll(build, elems)
  {
    var out: seq<T> := [];
    for i := 0 to |elems|
      invariant MapAll(build, elems[..i]) == Success(out)
    {
      assert elems[..i + 1][..i] == elems[..i];
      var x := build(elems[i]);
      if x.Failure? {
        MapAllFirstFailure(build, elems, i);
        return Failure(x.error);
      }
      out := out + [x.value];
    }
    assert elems[..|elems|] == elems;
    return Success(out);
  }
}
