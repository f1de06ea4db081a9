/** The slice of JavaScript value semantics the camera pipeline relies on: parsed JSON values,
    `undefined`, truthiness, `||`, `??`, property access, String() and Number(), and the
    string methods toLowerCase, includes, startsWith and endsWith. */
module Js {

  datatype Option<+T> = None | Some(value: T)

  datatype Error = TypeError | SyntaxError | HttpError | ShapeError

  datatype Result<+T> = Ok(value: T) | Err(error: Error)

  /** A value produced by JSON.parse. Numbers are exact reals: JSON has no NaN, and a literal
      beyond the range of a double (which JSON.parse turns into an infinity) is not told apart. */
  datatype Json =
    | Null
    | Bool(b: bool)
    | Num(x: real)
    | Str(s: string)
    | Arr(items: seq<Json>)
    | Obj(fields: map<string, Json>)

  /** A property read: `None` is `undefined`. */
  type Value = Option<Json>

  /** The engine's Number-to-String formatting and String-to-Number parsing (None is NaN or an
      infinity, i.e. not finite). Both are supplied from outside the model. */
  datatype Host = Host(numberText: real -> string, parseNumber: string -> Option<real>)

  /** `o.k` on a non-null value (and `o?.k` in general): only objects have the fields used here. */
  function Field(o: Value, k: string): Value {
    match o
    case Some(Obj(m)) => if k in m then Some(m[k]) else None
    case _ => None
  }

  predicate Nullish(v: Value) {
    v.None? || v.value.Null?
  }

  predicate Truthy(v: Value) {
    match v
    case None => false
    case Some(Null) => false
    case Some(Bool(b)) => b
    case Some(Num(x)) => x != 0.0
    case Some(Str(s)) => s != ""
    case Some(Arr(_)) => true
    case Some(Obj(_)) => true
  }

  /** The object has the key and its value is truthy. */
  predicate TruthyField(m: map<string, Json>, k: string) {
    k in m && Truthy(Some(m[k]))
  }

  /** `a || b`: `a` when truthy, otherwise `b`. */
  function Or(a: Value, b: Value): Value {
    if Truthy(a) then a else b
  }

  /** `vs[0] ?? vs[1] ?? ... ?? vs[n-1]`, which groups to the left but picks the same value. */
  function Coalesce(vs: seq<Value>): (r: Value)
    requires |vs| > 0
    ensures r in vs
    ensures !Nullish(vs[|vs| - 1]) ==> !Nullish(r)
  {
    if |vs| == 1 || !Nullish(vs[0]) then vs[0] else Coalesce(vs[1..])
  }

  /** The declarative reading of a `??` chain: the first candidate that is neither null nor
      undefined, or the last candidate when every one of them is. */
  ghost predicate PicksFirstDefined(vs: seq<Value>, r: Value)
    requires |vs| > 0
  {
    || (exists k :: 0 <= k < |vs| && !Nullish(vs[k]) && r == vs[k]
                    && forall j :: 0 <= j < k ==> Nullish(vs[j]))
    || ((forall j :: 0 <= j < |vs| ==> Nullish(vs[j])) && r == vs[|vs| - 1])
  }

  lemma {:induction false} CoalescePicksFirst(vs: seq<Value>)
    requires |vs| > 0
    ensures PicksFirstDefined(vs, Coalesce(vs))
  {
    if |vs| > 1 && Nullish(vs[0]) {
      CoalescePicksFirst(vs[1..]);
      var r := Coalesce(vs[1..]);
      if k :| 0 <= k < |vs[1..]| && !Nullish(vs[1..][k]) && r == vs[1..][k]
              && forall j :: 0 <= j < k ==> Nullish(vs[1..][j]) {
        assert !Nullish(vs[k + 1]) && r == vs[k + 1];
        forall j | 0 <= j < k + 1 ensures Nullish(vs[j]) {
          if j > 0 { assert vs[j] == vs[1..][j - 1]; }
        }
      } else {
        forall j | 0 <= j < |vs| ensures Nullish(vs[j]) {
          if j > 0 { assert vs[j] == vs[1..][j - 1]; }
        }
      }
    }
  }

  /** String(v). Arrays join their elements with "," (null elements as ""). */
  function JsString(v: Json, host: Host): string
    decreases v
  {
    match v
    case Null => "null"
    case Bool(b) => if b then "true" else "false"
    case Num(x) => host.numberText(x)
    case Str(s) => s
    case Obj(_) => "[object Object]"
    case Arr(items) => JoinItems(v, items, host)
  }

  function JoinItems(whole: Json, items: seq<Json>, host: Host): string
    requires forall i :: 0 <= i < |items| ==> items[i] < whole
    decreases whole, |items|
  {
    if items == [] then ""
    else
      var head := if items[0].Null? then "" else JsString(items[0], host);
      if |items| == 1 then head else head + "," + JoinItems(whole, items[1..], host)
  }

  /** Number(v) followed by Number.isFinite: `None` when the result is NaN or infinite. */
  function ToFiniteNumber(v: Value, host: Host): Option<real> {
    match v
    case None => None
    case Some(Null) => Some(0.0)
    case Some(Bool(b)) => Some(if b then 1.0 else 0.0)
    case Some(Num(x)) => Some(x)
    case Some(Str(s)) => host.parseNumber(s)
    case Some(j) => host.parseNumber(JsString(j, host))
  }

  /** toLowerCase on the ASCII letters. */
  function Lower(s: string): string {
    seq(|s|, i requires 0 <= i < |s| => LowerChar(s[i]))
  }

  /** `s.toLowerCase()` is `t` when `s` lower-cases to `t` character by character. */
  lemma LowerIs(s: string, t: string)
    requires |s| == |t| && forall j :: 0 <= j < |s| ==> LowerChar(s[j]) == t[j]
    ensures Lower(s) == t
  {
    var r := Lower(s);
    assert forall j :: 0 <= j < |s| ==> r[j] == t[j];
  }

  function LowerChar(c: char): char {
    if 'A' <= c <= 'Z' then (c as int + 32) as char else c
  }

  predicate StartsWith(s: string, prefix: string) {
    |prefix| <= |s| && s[..|prefix|] == prefix
  }

  predicate EndsWith(s: string, suffix: string) {
    |suffix| <= |s| && s[|s| - |suffix|..] == suffix
  }

  /** `s.includes(t)`, searching from the left. */
  predicate Includes(s: string, t: string)
    decreases |s|
  {
    StartsWith(s, t) || (|s| > 0 && Includes(s[1..], t))
  }

  /** `t` occurs in `s` starting at index `i`. */
  predicate OccursAt(s: string, t: string, i: int) {
    0 <= i <= |s| - |t| && s[i..i + |t|] == t
  }

  lemma {:induction false} IncludesSpec(s: string, t: string)
    ensures Includes(s, t) <==> exists i :: OccursAt(s, t, i)
  {
    if StartsWith(s, t) {
      assert OccursAt(s, t, 0);
    }
    if |s| > 0 {
      IncludesSpec(s[1..], t);
      if i :| OccursAt(s[1..], t, i) {
        assert s[i + 1..i + 1 + |t|] == s[1..][i..i + |t|];
        assert OccursAt(s, t, i + 1);
      }
      if i :| OccursAt(s, t, i) {
        if i > 0 {
          assert s[1..][i - 1..i - 1 + |t|] == s[i..i + |t|];
          assert OccursAt(s[1..], t, i - 1);
        } else {
          assert StartsWith(s, t);
        }
      }
    } else {
      if i :| OccursAt(s, t, i) {
        assert StartsWith(s, t);
      }
    }
  }

  /** Every string includes itself. */
  lemma IncludesSelf(s: string)
    ensures Includes(s, s)
  {
    assert StartsWith(s, s);
  }

  /** Every string includes the empty string, so an empty search matches everything. */
  lemma IncludesEmpty(s: string)
    ensures Includes(s, "")
  {
    assert StartsWith(s, "");
  }
}
