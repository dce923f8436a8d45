/** Option and Result, the failure-carrying wrappers used throughout the model. */
module Wrappers {

  datatype Option<+T> = None | Some(value: T)

  datatype Result<+T, +E> = Success(value: T) | Failure(error: E)
}

/**
 * JSON-like values as JavaScript sees them once a configuration file has been
 * loaded: scalars, arrays and plain objects. Besides the data type this module
 * gives the property-access view the configurator code relies on: which keys
 * a value has (what `for (key in x)`, `Object.keys` and `Object.assign` see),
 * the child under a key, and the node a dotted address leads to.
 */
module Json {
  import opened Wrappers

  /** Numbers are modelled as integers; objects as maps from property name to value. */
  datatype Json =
    | Null
    | Bool(b: bool)
    | Num(n: int)
    | Str(s: string)
    | Arr(elems: seq<Json>)
    | Obj(props: map<string, Json>)

  /** JavaScript's `typeof x === 'object' && x !== null`: arrays count as objects. */
  predicate IsObject(j: Json) {
    j.Arr? || j.Obj?
  }

  // ---------------------------------------------------------------------------
  // Array indices as property names: the canonical decimal strings "0", "1", ...

  predicate IsDigit(c: char) {
    '0' <= c <= '9'
  }

  function DigitChar(d: nat): (c: char)
    requires d < 10
    ensures IsDigit(c) && c as int - '0' as int == d
  {
    ('0' as int + d) as char
  }

  /** The property name under which index `i` of an array or string is enumerated. */
  function IndexKey(i: nat): string
  {
    if i < 10 then [DigitChar(i)] else IndexKey(i / 10) + [DigitChar(i % 10)]
  }

  predicate AllDigits(s: string) {
    forall j :: 0 <= j < |s| ==> IsDigit(s[j])
  }

  function DigitsValue(s: string): nat
    requires AllDigits(s)
  {
    if s == [] then 0 else 10 * DigitsValue(s[..|s| - 1]) + (s[|s| - 1] as int - '0' as int)
  }

  /** Decimal digits without a leading zero, except "0" itself. */
  predicate IsCanonicalIndex(k: string) {
    |k| > 0 && AllDigits(k) && (k[0] != '0' || |k| == 1)
  }

  /** The index a property name stands for, if it is a canonical index key. */
  function ParseIndex(k: string): (r: Option<nat>)
    ensures r.Some? <==> IsCanonicalIndex(k)
  {
    if IsCanonicalIndex(k) then Some(DigitsValue(k)) else None
  }

  lemma {:induction false} IndexKeyIsCanonical(i: nat)
    ensures IsCanonicalIndex(IndexKey(i)) && DigitsValue(IndexKey(i)) == i
  {
    if i >= 10 {
      IndexKeyIsCanonical(i / 10);
      var k := IndexKey(i);
      assert k[..|k| - 1] == IndexKey(i / 10);
    }
  }

  lemma {:induction false} LeadingNonZeroPositive(k: string)
    requires |k| > 0 && AllDigits(k) && k[0] != '0'
    ensures DigitsValue(k) >= 1
  {
    if |k| > 1 {
      LeadingNonZeroPositive(k[..|k| - 1]);
    }
  }

  lemma {:induction false} CanonicalIndexKey(k: string)
    requires IsCanonicalIndex(k)
    ensures IndexKey(DigitsValue(k)) == k
  {
    if |k| > 1 {
      var pre := k[..|k| - 1];
      LeadingNonZeroPositive(pre);
      CanonicalIndexKey(pre);
      var d := k[|k| - 1] as int - '0' as int;
      var n := DigitsValue(k);
      assert n == 10 * DigitsValue(pre) + d;
      assert n / 10 == DigitsValue(pre) && n % 10 == d;
      assert k == pre + [k[|k| - 1]];
    }
  }

  /** Round trip in both directions: a property name is the key of index `i` exactly when it parses to `i`. */
  lemma IndexKeyParse(k: string, i: nat)
    ensures IndexKey(i) == k <==> ParseIndex(k) == Some(i)
  {
    IndexKeyIsCanonical(i);
    if ParseIndex(k) == Some(i) {
      CanonicalIndexKey(k);
    }
  }

  // ---------------------------------------------------------------------------
  // Own enumerable properties

  function IndexKeys(n: nat): set<string>
  {
    set i | 0 <= i < n :: IndexKey(i)
  }

  lemma InIndexKeys(k: string, n: nat)
    ensures k in IndexKeys(n) <==> (ParseIndex(k).Some? && ParseIndex(k).value < n)
  {
    if k in IndexKeys(n) {
      var i :| 0 <= i < n && IndexKey(i) == k;
      IndexKeyParse(k, i);
    }
    if ParseIndex(k).Some? && ParseIndex(k).value < n {
      IndexKeyParse(k, ParseIndex(k).value);
    }
  }

  /**
   * The names `for (key in j)` visits: an object's own keys, the indices of an
   * array or of a primitive string, and nothing for null, booleans and numbers.
   */
  function Keys(j: Json): set<string>
  {
    match j
    case Obj(m) => m.Keys
    case Arr(es) => IndexKeys(|es|)
    case Str(s) => IndexKeys(|s|)
    case _ => {}
  }

  /** `j[k]` for a key `j` has: the property, the array element, or the one-character string. */
  function Get(j: Json, k: string): (r: Option<Json>)
    ensures r.Some? <==> k in Keys(j)
    ensures j.Arr? && r.Some? ==> r.value in j.elems
  {
    match j
    case Obj(m) => if k in m then Some(m[k]) else None
    case Arr(es) =>
      InIndexKeys(k, |es|);
      var i := ParseIndex(k);
      if i.Some? && i.value < |es| then Some(es[i.value]) else None
    case Str(s) =>
      InIndexKeys(k, |s|);
      var i := ParseIndex(k);
      if i.Some? && i.value < |s| then Some(Str([s[i.value]])) else None
    case _ => None
  }

  lemma GetIndex(es: seq<Json>, i: nat)
    requires i < |es|
    ensures Get(Arr(es), IndexKey(i)) == Some(es[i])
  {
    IndexKeyParse(IndexKey(i), i);
  }

  lemma GetStrIndex(s: string, i: nat)
    requires i < |s|
    ensures Get(Str(s), IndexKey(i)) == Some(Str([s[i]]))
  {
    IndexKeyParse(IndexKey(i), i);
  }

  /**
   * `j[k] = v` for a key `j` has. On an object or array the property is
   * overwritten; on a primitive string the write is silently dropped, as in
   * sloppy-mode JavaScript.
   */
  function Put(j: Json, k: string, v: Json): (r: Json)
    requires k in Keys(j)
    ensures Keys(r) == Keys(j)
    ensures IsObject(r) == IsObject(j)
    ensures IsObject(j) ==> Get(r, k) == Some(v)
    ensures forall k' :: k' != k ==> Get(r, k') == Get(j, k')
    ensures j.Str? ==> r == j
  {
    match j
    case Obj(m) => Obj(m[k := v])
    case Arr(es) =>
      InIndexKeys(k, |es|);
      var i := ParseIndex(k).value;
      forall k' | k' != k ensures Get(Arr(es[i := v]), k') == Get(j, k') {
        InIndexKeys(k', |es|);
        if ParseIndex(k') == Some(i) {
          IndexKeyParse(k, i);
          IndexKeyParse(k', i);
        }
      }
      Arr(es[i := v])
    case Str(_) => j
  }

  /** A second write to the same key overrides the first. */
  lemma PutPut(j: Json, k: string, a: Json, b: Json)
    requires k in Keys(j)
    ensures Put(Put(j, k, a), k, b) == Put(j, k, b)
  {
    match j
    case Obj(m) =>
    case Arr(es) =>
      InIndexKeys(k, |es|);
    case Str(_) =>
  }

  /** Writes to two different keys do not interfere: their order does not matter. */
  lemma PutCommute(j: Json, k1: string, a: Json, k2: string, b: Json)
    requires k1 in Keys(j) && k2 in Keys(j) && k1 != k2
    ensures Put(Put(j, k1, a), k2, b) == Put(Put(j, k2, b), k1, a)
  {
    match j
    case Obj(m) =>
      assert m[k1 := a][k2 := b] == m[k2 := b][k1 := a];
    case Arr(es) =>
      InIndexKeys(k1, |es|);
      InIndexKeys(k2, |es|);
      var i1, i2 := ParseIndex(k1).value, ParseIndex(k2).value;
      IndexKeyParse(k1, i1);
      IndexKeyParse(k2, i2);
      assert es[i1 := a][i2 := b] == es[i2 := b][i1 := a];
    case Str(_) =>
  }

  /** All own enumerable properties, as `Object.assign` copies them. */
  function OwnProps(j: Json): map<string, Json>
  {
    map k | k in Keys(j) :: Get(j, k).value
  }

  /** `Object.assign({}, j)`: a fresh plain object with the own properties of `j`. */
  function ShallowCopy(j: Json): (r: Json)
    ensures r.Obj? && Keys(r) == Keys(j)
    ensures forall k :: Get(r, k) == Get(j, k)
  {
    Obj(OwnProps(j))
  }

  // ---------------------------------------------------------------------------
  // Following a dotted address

  /**
   * The node reached from `j` along `path`: each step names an existing key,
   * and every node passed through below the root is an object.
   */
  function Lookup(j: Json, path: seq<string>): Option<Json>
    decreases |path|
  {
    if path == [] then Some(j)
    else match Get(j, path[0])
      case None => None
      case Some(c) =>
        if |path| == 1 then Some(c)
        else if IsObject(c) then Lookup(c, path[1..])
        else None
  }

  /** A shallow copy is indistinguishable from the original along every non-empty address. */
  lemma ShallowCopyLookup(j: Json, path: seq<string>)
    requires path != []
    ensures Lookup(ShallowCopy(j), path) == Lookup(j, path)
  {
  }
}
