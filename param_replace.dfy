/**
 * The dotted-address override engine of scr/index.js: `adress.split('.')`
 * and `replaceParamValue`, which walks a configuration tree along an address
 * and overwrites one existing scalar leaf.
 */
module ParamReplace {
  import opened Wrappers
  import opened Json

  // ---------------------------------------------------------------------------
  // Addresses: `String.prototype.split('.')` and its inverse

  /** `s.split('.')`: always at least one segment; empty segments are kept. */
  function Split(s: string): (r: seq<string>)
    ensures |r| >= 1
    decreases |s|
  {
    if s == [] then [""]
    else
      var rest := Split(s[1..]);
      if s[0] == '.' then [""] + rest else [[s[0]] + rest[0]] + rest[1..]
  }

  /** `parts.join('.')`. */
  function Join(parts: seq<string>): string
    requires |parts| >= 1
    decreases |parts|
  {
    if |parts| == 1 then parts[0] else parts[0] + "." + Join(parts[1..])
  }

  predicate NoDot(s: string) {
    forall i :: 0 <= i < |s| ==> s[i] != '.'
  }

  lemma {:induction false} SplitSegmentsHaveNoDot(s: string)
    ensures forall i :: 0 <= i < |Split(s)| ==> NoDot(Split(s)[i])
    decreases |s|
  {
    if s != [] {
      SplitSegmentsHaveNoDot(s[1..]);
    }
  }

  /** Joining the segments of an address gives the address back. */
  lemma {:induction false} JoinSplit(s: string)
    ensures Join(Split(s)) == s
    decreases |s|
  {
    if s != [] {
      var rest := Split(s[1..]);
      JoinSplit(s[1..]);
      if s[0] != '.' {
        if |rest| == 1 {
          assert Join(Split(s)) == [s[0]] + rest[0];
        } else {
          assert Join(Split(s)) == ([s[0]] + rest[0]) + "." + Join(rest[1..]);
          assert Join(rest) == rest[0] + "." + Join(rest[1..]);
        }
        assert [s[0]] + s[1..] == s;
      }
    }
  }

  lemma {:induction false} SplitWithoutDot(a: string)
    requires NoDot(a)
    ensures Split(a) == [a]
    decreases |a|
  {
    if a != [] {
      SplitWithoutDot(a[1..]);
      assert [a[0]] + a[1..] == a;
    }
  }

  lemma {:induction false} SplitDotted(a: string, rest: string)
    requires NoDot(a)
    ensures Split(a + "." + rest) == [a] + Split(rest)
    decreases |a|
  {
    if a == [] {
      assert (a + "." + rest)[1..] == rest;
    } else {
      assert (a + "." + rest)[1..] == a[1..] + "." + rest;
      SplitDotted(a[1..], rest);
      assert [a[0]] + a[1..] == a;
    }
  }

  /** Splitting a joined list of dot-free segments gives the segments back. */
  lemma {:induction false} SplitJoin(parts: seq<string>)
    requires |parts| >= 1
    requires forall i :: 0 <= i < |parts| ==> NoDot(parts[i])
    ensures Split(Join(parts)) == parts
    decreases |parts|
  {
    if |parts| == 1 {
      SplitWithoutDot(parts[0]);
    } else {
      SplitDotted(parts[0], Join(parts[1..]));
      SplitJoin(parts[1..]);
    }
  }

  // ---------------------------------------------------------------------------
  // replaceParamValue

  /**
   * What `replaceParamValue` returns: `true` after writing the leaf, `false`
   * when the address runs into a scalar before its last segment, and
   * `undefined` when no key matches. Callers only test it for truth.
   */
  datatype Outcome = Replaced | Blocked | Missing

  /** The loop's guard `adressArr[0] && key == adressArr[0]`. */
  predicate Matches(adressArr: seq<string>, key: string) {
    adressArr != [] && adressArr[0] != "" && key == adressArr[0]
  }

  lemma PutSame(j: Json, k: string)
    requires k in Keys(j)
    ensures Put(j, k, Get(j, k).value) == j
  {
    match j
    case Obj(m) =>
      assert m[k := m[k]] == m;
    case Arr(es) =>
      InIndexKeys(k, |es|);
      var i := ParseIndex(k).value;
      assert es[i := es[i]] == es;
    case Str(_) =>
  }

  /**
   * The tree and outcome `replaceParamValue(t, path, v)` leaves behind: the
   * specification of the method below.
   */
  function Replace(t: Json, path: seq<string>, v: Json): (r: (Outcome, Json))
    ensures r.0 != Replaced ==> r.1 == t
    ensures Keys(r.1) == Keys(t) && IsObject(r.1) == IsObject(t)
    decreases |path|
  {
    if path == [] || path[0] == "" then (Missing, t)
    else match Get(t, path[0])
      case None => (Missing, t)
      case Some(c) =>
        if IsObject(c) then
          var (o, c') := Replace(c, path[1..], v);
          if o != Replaced then PutSame(t, path[0]); (o, Put(t, path[0], c'))
          else (o, Put(t, path[0], c'))
        else if |path| == 1 then (Replaced, Put(t, path[0], v))
        else (Blocked, t)
  }

  /**
   * `replaceParamValue(obj, adressArr, value)`: enumerates the keys of `obj`
   * as `for (key in obj)` does and hands the one matching the first segment
   * to ReplaceAt.
   */
  method ReplaceParamValue(obj: Json, adressArr: seq<string>, value: Json) returns (o: Outcome, obj': Json)
    ensures (o, obj') == Replace(obj, adressArr, value)
    decreases |adressArr|, 1
  {
    match obj {
      case Obj(m) =>
        var keys := m.Keys;
        while keys != {}
          invariant keys <= m.Keys
          invariant adressArr != [] && adressArr[0] in m - keys ==> !Matches(adressArr, adressArr[0])
          decreases keys
        {
          var key :| key in keys;
          if Matches(adressArr, key) {
            o, obj' := ReplaceAt(obj, key, adressArr, value);
            return;
          }
          keys := keys - {key};
        }
      case Arr(es) =>
        var i := 0;
        while i < |es|
          invariant 0 <= i <= |es|
          invariant forall j :: 0 <= j < i ==> !Matches(adressArr, IndexKey(j))
        {
          if Matches(adressArr, IndexKey(i)) {
            GetIndex(es, i);
            o, obj' := ReplaceAt(obj, IndexKey(i), adressArr, value);
            return;
          }
          i := i + 1;
        }
        assert adressArr == [] || adressArr[0] == "" || adressArr[0] !in Keys(obj) by {
          if adressArr != [] && adressArr[0] != "" {
            InIndexKeys(adressArr[0], |es|);
            if ParseIndex(adressArr[0]).Some? {
              IndexKeyParse(adressArr[0], ParseIndex(adressArr[0]).value);
            }
          }
        }
      case Str(s) =>
        // for-in over a primitive string visits its indices
        var i := 0;
        while i < |s|
          invariant 0 <= i <= |s|
          invariant forall j :: 0 <= j < i ==> !Matches(adressArr, IndexKey(j))
        {
          if Matches(adressArr, IndexKey(i)) {
            GetStrIndex(s, i);
            o, obj' := ReplaceAt(obj, IndexKey(i), adressArr, value);
            return;
          }
          i := i + 1;
        }
        assert adressArr == [] || adressArr[0] == "" || adressArr[0] !in Keys(obj) by {
          if adressArr != [] && adressArr[0] != "" {
            InIndexKeys(adressArr[0], |s|);
            if ParseIndex(adressArr[0]).Some? {
              IndexKeyParse(adressArr[0], ParseIndex(adressArr[0]).value);
            }
          }
        }
      case _ =>
    }
    o, obj' := Missing, obj;
  }

  /**
   * The body of the loop once `key` matches: descend into an object child,
   * overwrite a scalar child when this is the last segment, refuse otherwise.
   */
  method ReplaceAt(obj: Json, key: string, adressArr: seq<string>, value: Json) returns (o: Outcome, obj': Json)
    requires Matches(adressArr, key) && key in Keys(obj)
    ensures (o, obj') == Replace(obj, adressArr, value)
    decreases |adressArr|, 0
  {
    var child := Get(obj, key).value;
    if IsObject(child) {
      var child';
      o, child' := ReplaceParamValue(child, adressArr[1..], value);
      if o != Replaced {
        PutSame(obj, key);
      }
      obj' := Put(obj, key, child');
    } else if |adressArr| == 1 {
      o, obj' := Replaced, Put(obj, key, value);
    } else {
      o, obj' := Blocked, obj;
    }
  }

  // ---------------------------------------------------------------------------
  // What replaceParamValue promises

  predicate NoEmptySegment(path: seq<string>) {
    forall i :: 0 <= i < |path| ==> path[i] != ""
  }

  /**
   * The address names an existing scalar: every segment is non-empty, every
   * segment before the last names an object child, and the last names a
   * non-object value.
   */
  predicate AddressesLeaf(t: Json, path: seq<string>) {
    && path != []
    && NoEmptySegment(path)
    && Lookup(t, path).Some?
    && !IsObject(Lookup(t, path).value)
  }

  lemma NoEmptySegmentCons(path: seq<string>)
    requires path != []
    ensures NoEmptySegment(path) <==> path[0] != "" && NoEmptySegment(path[1..])
  {
    if path[0] != "" && NoEmptySegment(path[1..]) {
      forall i | 0 <= i < |path| ensures path[i] != "" {
        if i > 0 { assert path[i] == path[1..][i - 1]; }
      }
    }
  }

  /** The replacement succeeds exactly when the address names an existing scalar leaf. */
  lemma {:induction false} ReplaceSucceedsIff(t: Json, path: seq<string>, v: Json)
    ensures Replace(t, path, v).0 == Replaced <==> AddressesLeaf(t, path)
    decreases |path|
  {
    if path != [] {
      NoEmptySegmentCons(path);
      if path[0] != "" && Get(t, path[0]).Some? {
        var c := Get(t, path[0]).value;
        if IsObject(c) && |path| > 1 {
          ReplaceSucceedsIff(c, path[1..], v);
        }
      }
    }
  }

  /** After a successful replacement of an object root, the address leads to the new value. */
  lemma {:induction false} ReplaceWritesLeaf(t: Json, path: seq<string>, v: Json)
    requires IsObject(t)
    requires Replace(t, path, v).0 == Replaced
    ensures Lookup(Replace(t, path, v).1, path) == Some(v)
    decreases |path|
  {
    var c := Get(t, path[0]).value;
    if IsObject(c) {
      ReplaceWritesLeaf(c, path[1..], v);
    }
  }

  /**
   * A primitive string root has index keys but ignores writes: the outcome can
   * be `Replaced` while nothing changes.
   */
  lemma StringRootUnchanged(s: string, path: seq<string>, v: Json)
    ensures Replace(Str(s), path, v).1 == Str(s)
    ensures Replace(Str(s), path, v).0 == Replaced <==> |path| == 1 && path[0] != "" && path[0] in IndexKeys(|s|)
  {
  }

  /** An address that ends on an object (or array) is never replaced: the walk runs out of segments. */
  lemma {:induction false} ReplaceEndingOnObject(t: Json, path: seq<string>, v: Json)
    requires Lookup(t, path).Some? && IsObject(Lookup(t, path).value)
    ensures Replace(t, path, v) == (Missing, t)
    decreases |path|
  {
    if path != [] && path[0] != "" {
      var c := Get(t, path[0]).value;
      if |path| > 1 {
        ReplaceEndingOnObject(c, path[1..], v);
      }
    }
  }

  /** An empty segment anywhere in the address (as `"a..b"` or `"a."` produce) makes the replacement fail. */
  lemma ReplaceEmptySegment(t: Json, path: seq<string>, v: Json)
    requires !NoEmptySegment(path)
    ensures Replace(t, path, v).0 != Replaced && Replace(t, path, v).1 == t
  {
    ReplaceSucceedsIff(t, path, v);
  }

  /**
   * The walk stops at a scalar after the first `k` segments (all non-empty)
   * while segments remain.
   */
  predicate BlockedAt(t: Json, path: seq<string>, k: int) {
    && 1 <= k < |path|
    && NoEmptySegment(path[..k])
    && Lookup(t, path[..k]).Some?
    && !IsObject(Lookup(t, path[..k]).value)
  }

  /**
   * The walk is blocked (`false`) exactly when some proper prefix of the
   * address, free of empty segments, already leads to a scalar.
   */
  lemma {:induction false} ReplaceBlockedIff(t: Json, path: seq<string>, v: Json)
    ensures Replace(t, path, v).0 == Blocked <==> exists k :: BlockedAt(t, path, k)
    decreases |path|
  {
    if path == [] || path[0] == "" || Get(t, path[0]).None? {
      forall k | 1 <= k < |path| ensures !BlockedAt(t, path, k) {
        assert path[..k][0] == path[0];
      }
    } else {
      var c := Get(t, path[0]).value;
      var rest := path[1..];
      if 1 < |path| {
        assert path[..1] == [path[0]];
      }
      if IsObject(c) {
        ReplaceBlockedIff(c, rest, v);
        forall k | 2 <= k < |path|
          ensures BlockedAt(t, path, k) <==> BlockedAt(c, rest, k - 1)
        {
          assert path[..k][1..] == rest[..k - 1];
          NoEmptySegmentCons(path[..k]);
        }
        if Replace(t, path, v).0 == Blocked {
          var j :| BlockedAt(c, rest, j);
          assert BlockedAt(t, path, j + 1);
        } else {
          forall k | 1 <= k < |path| ensures !BlockedAt(t, path, k) {
            if k >= 2 {
              assert !BlockedAt(c, rest, k - 1);
            }
          }
        }
      } else if |path| > 1 {
        assert BlockedAt(t, path, 1);
      }
    }
  }

  predicate IsPrefix(q: seq<string>, p: seq<string>) {
    |q| <= |p| && q == p[..|q|]
  }

  /**
   * Only the addressed leaf changes: along any address that is neither a
   * prefix nor an extension of the replaced one the tree reads the same, and
   * every node on the way to the leaf keeps exactly its keys.
   */
  lemma {:induction false} ReplaceFrame(t: Json, path: seq<string>, v: Json, q: seq<string>)
    requires Replace(t, path, v).0 == Replaced
    ensures !IsPrefix(q, path) && !IsPrefix(path, q) ==> Lookup(Replace(t, path, v).1, q) == Lookup(t, q)
    ensures IsPrefix(q, path) && q != path ==>
      && Lookup(t, q).Some? && Lookup(Replace(t, path, v).1, q).Some?
      && Keys(Lookup(Replace(t, path, v).1, q).value) == Keys(Lookup(t, q).value)
    decreases |path|
  {
    var t' := Replace(t, path, v).1;
    var k := path[0];
    var c := Get(t, k).value;
    ReplaceStep(t, path, v);
    if q != [] {
      if q[0] != k {
        assert !IsPrefix(q, path) && !IsPrefix(path, q);
        assert Get(t', q[0]) == Get(t, q[0]);
      } else if IsObject(c) {
        var c' := Replace(c, path[1..], v).1;
        assert Get(t', k) == Some(c');
        if |q| > 1 {
          ReplaceFrame(c, path[1..], v, q[1..]);
          assert IsPrefix(q, path) <==> IsPrefix(q[1..], path[1..]);
          assert IsPrefix(path, q) <==> IsPrefix(path[1..], q[1..]);
        } else {
          assert |path| > 1;
          assert IsPrefix(q, path);
        }
      } else {
        assert IsPrefix(path, q);
      }
    }
  }

  /**
   * Writing the same address twice is the same as writing it once with the
   * later value, provided the first value is itself a scalar (an object value
   * would turn the address into one that ends on an object).
   */
  lemma {:induction false} ReplaceTwice(t: Json, path: seq<string>, a: Json, b: Json)
    requires Replace(t, path, a).0 == Replaced
    requires !IsObject(a)
    ensures Replace(Replace(t, path, a).1, path, b) == Replace(t, path, b)
    decreases |path|
  {
    var k := path[0];
    var c := Get(t, k).value;
    var t1 := Replace(t, path, a).1;
    if IsObject(c) {
      var c1 := Replace(c, path[1..], a).1;
      assert Get(t1, k) == Some(c1);
      ReplaceTwice(c, path[1..], a, b);
      PutPut(t, k, c1, Replace(c, path[1..], b).1);
    } else {
      if IsObject(t) {
        assert Get(t1, k) == Some(a);
      }
      PutPut(t, k, a, b);
    }
  }

  /**
   * Once `p` names a scalar leaf, a replacement at any other address `q`
   * commutes with writing a scalar at `p`, and leaves `p` a scalar leaf:
   * `q` either branches off before the leaf, runs into the leaf (refused in
   * both orders) or ends on an object on the way to it (refused in both
   * orders).
   */
  lemma {:induction false} ReplaceCommute(s: Json, p: seq<string>, v: Json, q: seq<string>, w: Json)
    requires Replace(s, p, v).0 == Replaced
    requires !IsObject(v)
    requires p != q
    ensures Replace(Replace(s, q, w).1, p, v).0 == Replaced
    ensures Replace(Replace(s, p, v).1, q, w).1 == Replace(Replace(s, q, w).1, p, v).1
    decreases |p|, 1
  {
    if q == [] || q[0] == "" || q[0] !in Keys(s) || q[0] != p[0] {
      ReplaceCommuteElsewhere(s, p, v, q, w);
    } else if !IsObject(Get(s, p[0]).value) {
      ReplaceCommuteAtLeaf(s, p, v, q, w);
    } else {
      ReplaceCommuteBelow(s, p, v, q, w);
    }
  }

  /** The new child under the first segment after a successful replacement. */
  function ReplacedChild(t: Json, path: seq<string>, v: Json): Json
    requires path != [] && path[0] in Keys(t)
  {
    var c := Get(t, path[0]).value;
    if IsObject(c) then Replace(c, path[1..], v).1 else v
  }

  /** One step of the walk, for a first segment that names a key of `t`. */
  lemma ReplaceStep(t: Json, path: seq<string>, v: Json)
    requires path != [] && path[0] != "" && path[0] in Keys(t)
    ensures
      var c := Get(t, path[0]).value;
      && Replace(t, path, v).0 == (if IsObject(c) then Replace(c, path[1..], v).0 else if |path| == 1 then Replaced else Blocked)
      && (Replace(t, path, v).0 == Replaced ==> Replace(t, path, v).1 == Put(t, path[0], ReplacedChild(t, path, v)))
  {
  }

  /** A write under another key of the root does not change how `path` is replaced. */
  lemma ReplaceAfterPut(t: Json, k: string, x: Json, path: seq<string>, v: Json)
    requires k in Keys(t) && path != [] && path[0] != "" && path[0] in Keys(t) && path[0] != k
    requires Replace(t, path, v).0 == Replaced
    ensures Replace(Put(t, k, x), path, v).0 == Replaced
    ensures Replace(Put(t, k, x), path, v).1 == Put(Put(t, k, x), path[0], ReplacedChild(t, path, v))
  {
    var t1 := Put(t, k, x);
    assert Get(t1, path[0]) == Get(t, path[0]);
    ReplaceStep(t, path, v);
    ReplaceStep(t1, path, v);
  }

  /** `q` is refused at the root or branches off at its first segment. */
  lemma ReplaceCommuteElsewhere(s: Json, p: seq<string>, v: Json, q: seq<string>, w: Json)
    requires Replace(s, p, v).0 == Replaced
    requires q == [] || q[0] == "" || q[0] !in Keys(s) || q[0] != p[0]
    ensures Replace(Replace(s, q, w).1, p, v).0 == Replaced
    ensures Replace(Replace(s, p, v).1, q, w).1 == Replace(Replace(s, q, w).1, p, v).1
  {
    var s1 := Replace(s, p, v).1;
    if q == [] || q[0] == "" || q[0] !in Keys(s) {
      assert Replace(s1, q, w) == (Missing, s1);
    } else {
      ReplaceCommuteBranch(s, p, v, q, w);
    }
  }

  /** `q` names another key of the root than `p` does: the two writes touch different children. */
  lemma ReplaceCommuteBranch(s: Json, p: seq<string>, v: Json, q: seq<string>, w: Json)
    requires Replace(s, p, v).0 == Replaced
    requires q != [] && q[0] != "" && q[0] in Keys(s) && q[0] != p[0]
    ensures Replace(Replace(s, q, w).1, p, v).0 == Replaced
    ensures Replace(Replace(s, p, v).1, q, w).1 == Replace(Replace(s, q, w).1, p, v).1
  {
    if Replace(s, q, w).0 == Replaced {
      ReplaceCommuteBothWrite(s, p, v, q, w);
    } else {
      var s1 := Replace(s, p, v).1;
      var d := Get(s, q[0]).value;
      ReplaceStep(s, p, v);
      ReplaceStep(s, q, w);
      assert Get(s1, q[0]) == Some(d);
      ReplaceStep(s1, q, w);
      assert Replace(s1, q, w).0 == Replace(s, q, w).0;
    }
  }

  /** Both writes happen, under different keys of the root, so their order does not matter. */
  lemma ReplaceCommuteBothWrite(s: Json, p: seq<string>, v: Json, q: seq<string>, w: Json)
    requires Replace(s, p, v).0 == Replaced && Replace(s, q, w).0 == Replaced
    requires q[0] != p[0]
    ensures Replace(Replace(s, q, w).1, p, v).0 == Replaced
    ensures Replace(Replace(s, p, v).1, q, w).1 == Replace(Replace(s, q, w).1, p, v).1
  {
    var c1, d1 := ReplacedChild(s, p, v), ReplacedChild(s, q, w);
    ReplaceStep(s, p, v);
    ReplaceStep(s, q, w);
    ReplaceAfterPut(s, p[0], c1, q, w);
    ReplaceAfterPut(s, q[0], d1, p, v);
    PutCommute(s, p[0], c1, q[0], d1);
  }

  /** `q` goes through the scalar leaf `p` names: refused before and after the write. */
  lemma ReplaceCommuteAtLeaf(s: Json, p: seq<string>, v: Json, q: seq<string>, w: Json)
    requires Replace(s, p, v).0 == Replaced
    requires !IsObject(v)
    requires p != q && q != [] && p[0] == q[0] && !IsObject(Get(s, p[0]).value)
    ensures Replace(Replace(s, q, w).1, p, v).0 == Replaced
    ensures Replace(Replace(s, p, v).1, q, w).1 == Replace(Replace(s, q, w).1, p, v).1
  {
    var k := p[0];
    var s1 := Replace(s, p, v).1;
    assert |p| == 1;
    assert |q| > 1;
    assert Replace(s, q, w) == (Blocked, s);
    assert s1 == Put(s, k, v);
    if IsObject(s) {
      assert Get(s1, k) == Some(v);
    } else {
      assert s.Str? && s1 == s;
    }
    assert Replace(s1, q, w).1 == s1;
  }

  /** `q` follows `p` into an object child: the two writes commute one level down. */
  lemma ReplaceCommuteBelow(s: Json, p: seq<string>, v: Json, q: seq<string>, w: Json)
    requires Replace(s, p, v).0 == Replaced
    requires !IsObject(v)
    requires p != q && q != [] && p[0] == q[0] && IsObject(Get(s, p[0]).value)
    ensures Replace(Replace(s, q, w).1, p, v).0 == Replaced
    ensures Replace(Replace(s, p, v).1, q, w).1 == Replace(Replace(s, q, w).1, p, v).1
    decreases |p|, 0
  {
    var k := p[0];
    var c := Get(s, k).value;
    var s1 := Replace(s, p, v).1;
    var s2 := Replace(s, q, w).1;
    var c1 := Replace(c, p[1..], v).1;
    assert IsObject(s) && |p| > 1;
    assert s1 == Put(s, k, c1);
    assert Get(s1, k) == Some(c1);
    ReplaceStep(s, q, w);
    ReplaceStep(s1, q, w);
    if |q| == 1 {
      assert q[1..] == [];
      assert Replace(c, q[1..], w).0 == Missing;
      assert Replace(c1, q[1..], w).0 == Missing;
    } else {
      var p', q' := p[1..], q[1..];
      assert p' != q' by {
        assert p == [k] + p' && q == [k] + q';
      }
      ReplaceCommute(c, p', v, q', w);
      var c2 := Replace(c, q', w).1;
      assert s2 == Put(s, k, c2);
      assert Get(s2, k) == Some(c2);
      PutPut(s, k, c2, Replace(c2, p', v).1);
      PutPut(s, k, c1, Replace(c1, q', w).1);
    }
  }

  lemma SplitDbPort()
    ensures Split("db.port") == ["db", "port"]
  {
    assert "db.port" == "db" + "." + "port";
    SplitDotted("db", "port");
    SplitWithoutDot("port");
  }

  /**
   * The database example: `db.port` is a scalar leaf and is overwritten with
   * its sibling `db.host` intact; `db` itself ends on an object and is refused.
   */
  lemma DatabasePortExample(cfg: Json)
    requires cfg == Obj(map[
      "db" := Obj(map["port" := Num(5432), "host" := Str("localhost")]),
      "app" := Obj(map["port" := Num(3000)])])
    ensures Replace(cfg, Split("db.port"), Num(99)).0 == Replaced
    ensures Lookup(Replace(cfg, Split("db.port"), Num(99)).1, ["db", "port"]) == Some(Num(99))
    ensures Lookup(Replace(cfg, Split("db.port"), Num(99)).1, ["db", "host"]) == Some(Str("localhost"))
    ensures Replace(cfg, ["db"], Num(99)) == (Missing, cfg)
  {
    SplitDbPort();
    var path := ["db", "port"];
    var db := cfg.props["db"];
    assert Get(cfg, "db") == Some(db) && Get(db, "port") == Some(Num(5432));
    assert Lookup(cfg, path) == Lookup(db, ["port"]) by {
      assert path[1..] == ["port"];
    }
    ReplaceSucceedsIff(cfg, path, Num(99));
    ReplaceWritesLeaf(cfg, path, Num(99));
    ReplaceFrame(cfg, path, Num(99), ["db", "host"]);
    assert Lookup(cfg, ["db", "host"]) == Lookup(db, ["host"]) by {
      assert ["db", "host"][1..] == ["host"];
    }
    ReplaceEndingOnObject(cfg, ["db"], Num(99));
  }
}
