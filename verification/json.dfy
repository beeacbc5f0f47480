/**
  JSON request bodies as the router sees them after the JSON body parser, and the
  few JavaScript string and object primitives the handlers apply to them:
  `typeof`, the `in` operator, `Object.keys`, object spread, `trim` and
  `toLowerCase`.
 */
module Json {
  import opened Wrappers

  /** A parsed JSON value. JSON numbers are finite, so a real number stands for each. */
  datatype JValue =
    | JNull
    | JBool(b: bool)
    | JNum(n: real)
    | JStr(s: string)
    | JArr(items: seq<JValue>)
    | JObj(fields: map<string, JValue>)

  /** A JavaScript object as its own enumerable properties; key order is not modelled. */
  type JsObject = map<string, JValue>

  predicate IsDigit(c: char) {
    '0' <= c <= '9'
  }

  predicate AllDigits(s: string) {
    forall i :: 0 <= i < |s| ==> IsDigit(s[i])
  }

  /** The decimal spelling of an array index, which is how an array names its properties. */
  function NatToString(n: nat): (s: string)
    ensures |s| > 0 && AllDigits(s)
    ensures n < 10 <==> |s| == 1
  {
    var last := (48 + n % 10) as char;
    if n < 10 then [last] else NatToString(n / 10) + [last]
  }

  /** Distinct indices are spelled differently, so an array never names two of its elements alike. */
  lemma {:induction false} NatToStringInjective(a: nat, b: nat)
    requires NatToString(a) == NatToString(b)
    ensures a == b
    decreases a
  {
    var sa, sb := NatToString(a), NatToString(b);
    assert sa[|sa| - 1] == (48 + a % 10) as char;
    assert sb[|sb| - 1] == (48 + b % 10) as char;
    assert a % 10 == b % 10;
    if a >= 10 {
      assert sa[..|sa| - 1] == NatToString(a / 10);
      assert sb[..|sb| - 1] == NatToString(b / 10);
      NatToStringInjective(a / 10, b / 10);
    }
  }

  /** The properties `{...xs}` spreads out of an array: one per index, keyed by its spelling. */
  function ArrayProperties(xs: seq<JValue>): (p: JsObject)
    ensures forall i :: 0 <= i < |xs| ==> NatToString(i) in p
    ensures forall k :: k in p ==> AllDigits(k)
    ensures p == map[] <==> xs == []
    decreases |xs|
  {
    if xs == [] then map[]
    else
      var n := |xs| - 1;
      ArrayProperties(xs[..n])[NatToString(n) := xs[n]]
  }

  /** The index a property of `{...xs}` spells. */
  lemma {:induction false} IndexOfProperty(xs: seq<JValue>, k: string) returns (i: nat)
    requires k in ArrayProperties(xs)
    ensures i < |xs| && k == NatToString(i)
    decreases |xs|
  {
    var n := |xs| - 1;
    var p := ArrayProperties(xs[..n]);
    assert ArrayProperties(xs) == p[NatToString(n) := xs[n]];
    if k == NatToString(n) {
      i := n;
    } else {
      i := IndexOfProperty(xs[..n], k);
    }
  }

  /** `k` is `String(i)` for some index `i` below `n`. */
  predicate SpellsIndexBelow(k: string, n: nat) {
    exists i :: 0 <= i < n && k == NatToString(i)
  }

  /** Each property of `{...xs}` is the spelling of an index of `xs`. */
  lemma ArrayPropertiesAreIndices(xs: seq<JValue>)
    ensures forall k :: k in ArrayProperties(xs) ==> SpellsIndexBelow(k, |xs|)
  {
    forall k | k in ArrayProperties(xs)
      ensures SpellsIndexBelow(k, |xs|)
    {
      var i := IndexOfProperty(xs, k);
    }
  }

  /** `{...xs}[String(i)]` is the element at index `i`. */
  lemma {:induction false} ArrayPropertiesValues(xs: seq<JValue>)
    ensures forall i :: 0 <= i < |xs| ==> ArrayProperties(xs)[NatToString(i)] == xs[i]
    decreases |xs|
  {
    if xs != [] {
      var n := |xs| - 1;
      ArrayPropertiesValues(xs[..n]);
      forall i | 0 <= i < n
        ensures ArrayProperties(xs)[NatToString(i)] == xs[i]
      {
        if NatToString(i) == NatToString(n) {
          NatToStringInjective(i, n);
        }
      }
    }
  }

  /** JavaScript truthiness of a JSON value (`NaN` is never parsed, so only `0` is a falsy number). */
  predicate Truthy(v: JValue) {
    match v
    case JNull => false
    case JBool(b) => b
    case JNum(n) => n != 0.0
    case JStr(s) => s != ""
    case JArr(_) => true
    case JObj(_) => true
  }

  /** The `typeof` operator on a JSON value; `typeof null` is `"object"`. */
  function TypeOf(v: JValue): string {
    match v
    case JNull => "object"
    case JBool(_) => "boolean"
    case JNum(_) => "number"
    case JStr(_) => "string"
    case JArr(_) => "object"
    case JObj(_) => "object"
  }

  /**
    The body seen as an object: defined exactly when the guard
    `!v || typeof v !== "object"` is false, and then an object's own fields or an
    array's index properties.
   */
  function AsObject(v: JValue): (r: Option<JsObject>)
    ensures r.Some? <==> !(!Truthy(v) || TypeOf(v) != "object")
    ensures r.Some? <==> v.JObj? || v.JArr?
    ensures v.JObj? ==> r == Some(v.fields)
    ensures v.JArr? ==> r == Some(ArrayProperties(v.items))
  {
    match v
    case JObj(m) => Some(m)
    case JArr(xs) => Some(ArrayProperties(xs))
    case _ => None
  }

  /** A property key made of letters is never an array index. */
  lemma NamedKeyNotInArray(xs: seq<JValue>, key: string)
    requires |key| > 0 && !IsDigit(key[0])
    ensures key !in ArrayProperties(xs)
  {
  }

  /**
    The characters `String.prototype.trim` removes: the ECMAScript WhiteSpace code
    points (tab, vertical tab, form feed, space, no-break space, byte order mark and
    the Unicode space separators) and the LineTerminator code points.
   */
  predicate IsJsWhitespace(c: char) {
    var u := c as int;
    || u == 0x09 || u == 0x0A || u == 0x0B || u == 0x0C || u == 0x0D || u == 0x20
    || u == 0xA0 || u == 0x1680 || (0x2000 <= u <= 0x200A) || u == 0x2028 || u == 0x2029
    || u == 0x202F || u == 0x205F || u == 0x3000 || u == 0xFEFF
  }

  /** `s.trim()` is truthy: the string does not consist of whitespace alone. */
  predicate NonBlank(s: string) {
    exists i :: 0 <= i < |s| && !IsJsWhitespace(s[i])
  }

  /** `toLowerCase` on one character, restricted to the ASCII letters. */
  function LowerChar(c: char): char {
    if 'A' <= c <= 'Z' then (c as int + 32) as char else c
  }

  function Lower(s: string): (r: string)
    ensures |r| == |s|
    ensures forall i :: 0 <= i < |s| ==> r[i] == LowerChar(s[i])
  {
    seq(|s|, i requires 0 <= i < |s| => LowerChar(s[i]))
  }

  /** Lower-casing leaves no capital letter behind, so applying it twice changes nothing more. */
  lemma LowerIsIdempotent(s: string)
    ensures forall i :: 0 <= i < |s| ==> !('A' <= Lower(s)[i] <= 'Z')
    ensures Lower(Lower(s)) == Lower(s)
  {
  }

  /** Case-insensitive equality as `a.toLowerCase() === b.toLowerCase()`. */
  predicate SameIgnoringCase(a: string, b: string) {
    Lower(a) == Lower(b)
  }

  /** Ignoring case is an equivalence: reflexive, symmetric and transitive. */
  lemma SameIgnoringCaseIsEquivalence(a: string, b: string, c: string)
    ensures SameIgnoringCase(a, a)
    ensures SameIgnoringCase(a, b) ==> SameIgnoringCase(b, a)
    ensures SameIgnoringCase(a, b) && SameIgnoringCase(b, c) ==> SameIgnoringCase(a, c)
  {
  }

  /** Two strings that agree ignoring case differ only in the case of ASCII letters. */
  lemma SameIgnoringCaseCharwise(a: string, b: string)
    ensures SameIgnoringCase(a, b) <==>
      |a| == |b| && forall i :: 0 <= i < |a| ==> LowerChar(a[i]) == LowerChar(b[i])
  {
    if |a| == |b| && forall i :: 0 <= i < |a| ==> LowerChar(a[i]) == LowerChar(b[i]) {
      assert forall i :: 0 <= i < |a| ==> Lower(a)[i] == Lower(b)[i];
    }
  }
}
