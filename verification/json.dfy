/**
 * The parsed JSON message the adapters receive, and the Python operations the
 * handlers apply to it: membership, subscripting, iteration, truthiness,
 * comparison with a string literal, and taking the last dot-separated segment.
 */
module Json {
  import opened Wrappers
  import opened Errors

  /** A JSON value as produced by `json.loads(..., parse_float=Decimal)`; numbers are exact. */
  datatype Json =
    | JNull
    | JBool(b: bool)
    | JNum(n: real)
    | JStr(s: string)
    | JArr(items: seq<Json>)
    | JObj(fields: map<string, Json>)

  /** `needle` occurs in `hay` starting at position `i`. */
  ghost predicate OccursAt(needle: string, hay: string, i: int) {
    0 <= i && i + |needle| <= |hay| && hay[i..i + |needle|] == needle
  }

  /** `needle` is a contiguous substring of `hay`. */
  ghost predicate Occurs(needle: string, hay: string) {
    exists i :: OccursAt(needle, hay, i)
  }

  lemma {:induction false} OccursStep(needle: string, hay: string)
    requires |needle| < |hay|
    ensures Occurs(needle, hay) <==> hay[..|needle|] == needle || Occurs(needle, hay[1..])
  {
    if Occurs(needle, hay) && hay[..|needle|] != needle {
      var i :| OccursAt(needle, hay, i);
      assert i != 0;
      assert hay[1..][i - 1..i - 1 + |needle|] == hay[i..i + |needle|];
      assert OccursAt(needle, hay[1..], i - 1);
    }
    if hay[..|needle|] == needle {
      assert OccursAt(needle, hay, 0);
    }
    if Occurs(needle, hay[1..]) {
      var i :| OccursAt(needle, hay[1..], i);
      assert hay[i + 1..i + 1 + |needle|] == hay[1..][i..i + |needle|];
      assert OccursAt(needle, hay, i + 1);
    }
  }

  /** Python's `needle in hay` for two strings. */
  function IsSubstring(needle: string, hay: string): (r: bool)
    ensures r <==> Occurs(needle, hay)
    decreases |hay|
  {
    if |needle| <= |hay| && hay[..|needle|] == needle then
      assert OccursAt(needle, hay, 0);
      true
    else if |needle| >= |hay| then
      assert !Occurs(needle, hay) by {
        forall i | 0 <= i ensures !OccursAt(needle, hay, i) { }
      }
      false
    else
      OccursStep(needle, hay);
      IsSubstring(needle, hay[1..])
  }

  /**
   * Python's `key in v`: a key test on a dict, a membership test on a list,
   * a substring test on a string; any other value raises TypeError.
   */
  function Contains(v: Json, key: string): (r: Result<bool, Error>)
    ensures r.Success? <==> v.JObj? || v.JArr? || v.JStr?
    ensures v.JObj? ==> r == Success(key in v.fields)
    ensures v.JArr? ==> r == Success(JStr(key) in v.items)
    ensures v.JStr? ==> r == Success(Occurs(key, v.s))
    ensures r.Failure? ==> r.error == TypeError
  {
    match v
    case JObj(m) => Success(key in m)
    case JArr(xs) => Success(JStr(key) in xs)
    case JStr(s) => Success(IsSubstring(key, s))
    case _ => Failure(TypeError)
  }

  /** Python's `v[key]` with a string key: KeyError on a dict without it, TypeError on anything else. */
  function Get(v: Json, key: string): (r: Result<Json, Error>)
    ensures r.Success? <==> v.JObj? && key in v.fields
    ensures r.Success? ==> r.value == v.fields[key]
    ensures v.JObj? && key !in v.fields ==> r == Failure(MissingKey(key))
    ensures !v.JObj? ==> r == Failure(TypeError)
  {
    match v
    case JObj(m) => if key in m then Success(m[key]) else Failure(MissingKey(key))
    case _ => Failure(TypeError)
  }

  /**
   * The elements `for x in v` visits: a list's items, a string's characters.
   * An empty dict yields nothing; a non-empty dict (whose keys Python would
   * visit, each then failing the handler's next subscript) and every other
   * value raise TypeError.
   */
  function Items(v: Json): (r: Result<seq<Json>, Error>)
    ensures v.JArr? ==> r == Success(v.items)
    ensures v.JStr? ==> r.Success? && |r.value| == |v.s|
    ensures v.JStr? ==> forall i :: 0 <= i < |v.s| ==> r.value[i] == JStr([v.s[i]])
    ensures r.Failure? <==> !(v.JArr? || v.JStr? || v == JObj(map[]))
    ensures r.Failure? ==> r.error == TypeError
  {
    match v
    case JArr(xs) => Success(xs)
    case JStr(s) => Success(seq(|s|, i requires 0 <= i < |s| => JStr([s[i]])))
    case JObj(m) => if m == map[] then Success([]) else Failure(TypeError)
    case _ => Failure(TypeError)
  }

  /** Python truthiness of a JSON value. */
  predicate Truthy(v: Json) {
    match v
    case JNull => false
    case JBool(b) => b
    case JNum(n) => n != 0.0
    case JStr(s) => s != ""
    case JArr(xs) => xs != []
    case JObj(m) => m != map[]
  }

  /** Python's `v == literal` for a string literal: only a string equal to it compares equal. */
  predicate IsText(v: Json, literal: string) {
    v == JStr(literal)
  }

  /** The last dot-separated segment of `s`: the text after the last dot, or all of `s` when it has none. */
  function LastSegment(s: string): (r: string)
    ensures '.' !in r
    ensures |r| <= |s| && r == s[|s| - |r|..]
    ensures |r| < |s| ==> s[|s| - |r| - 1] == '.'
  {
    if |s| == 0 || s[|s| - 1] == '.' then ""
    else LastSegment(s[..|s| - 1]) + [s[|s| - 1]]
  }
}
