/**
 * The plain-JavaScript configurator of scr/index.js. Its state lives in
 * module-level variables shared by every `Configurator` instance, modelled as
 * one ModuleState object. `require` is an oracle from address to loaded value
 * (None when it throws); the overrides file is read as a list of
 * `{key, value}` entries.
 */
module ScrIndex {
  import opened Wrappers
  import opened Json
  import opened ParamReplace

  const DefaultConfigAddsFileName: string := "configadds"
  const ConfigAddsFileExt: string := "json"

  /** One persisted override: a dotted address and the value written there. */
  datatype Add = Add(key: string, value: Json)

  /** The outcome of a call that either returns normally or throws. */
  datatype Status<+E> = Ok | Err(error: E)

  datatype IndexError =
    | CheckFunctionTypeError       // `chechConfigFunction` given but not a function
    | ConfigLoadingError(localAdress: string)  // neither address could be required
    | ConfigCheckingError(adress: string)      // the check function threw
    | ParamNotExists(adress: string)           // setValue could not replace the address

  /** The `chechConfigFunction` argument: falsy, a function (true when it does not throw), or something else. */
  datatype CheckArg = NoCheck | CheckFn(f: Json -> bool) | NotAFunction

  // ---------------------------------------------------------------------------
  // The overrides list

  predicate HasKey(adds: seq<Add>, key: string) {
    exists i :: 0 <= i < |adds| && adds[i].key == key
  }

  /** Every entry whose key is `key` gets `value`; the rest are untouched. */
  function SetMatching(adds: seq<Add>, key: string, value: Json): (r: seq<Add>)
    ensures |r| == |adds|
  {
    seq(|adds|, i requires 0 <= i < |adds| => if adds[i].key == key then Add(key, value) else adds[i])
  }

  /**
   * What `setValue(adress, value, true)` does to `configAdds`: update every
   * entry with that key, or append one entry when there is none.
   */
  function Upsert(adds: seq<Add>, key: string, value: Json): (r: seq<Add>)
    ensures HasKey(r, key)
    ensures HasKey(adds, key) ==> |r| == |adds|
    ensures !HasKey(adds, key) ==> r == adds + [Add(key, value)]
    ensures forall i :: 0 <= i < |adds| ==> r[i].key == adds[i].key
    ensures forall i :: 0 <= i < |adds| ==> r[i].value == if adds[i].key == key then value else adds[i].value
  {
    if HasKey(adds, key) then
      var r := SetMatching(adds, key, value);
      var i :| 0 <= i < |adds| && adds[i].key == key;
      assert r[i].key == key;
      r
    else
      assert (adds + [Add(key, value)])[|adds|].key == key;
      adds + [Add(key, value)]
  }

  predicate UniqueKeys(adds: seq<Add>) {
    forall i, j :: 0 <= i < j < |adds| ==> adds[i].key != adds[j].key
  }

  /** The overrides as a dictionary: for a repeated key the later entry wins. */
  function AsMap(adds: seq<Add>): map<string, Json>
    decreases |adds|
  {
    if adds == [] then map[]
    else AsMap(adds[..|adds| - 1])[adds[|adds| - 1].key := adds[|adds| - 1].value]
  }

  lemma {:induction false} AsMapKeys(adds: seq<Add>, key: string)
    ensures key in AsMap(adds) <==> HasKey(adds, key)
    decreases |adds|
  {
    if adds != [] {
      var pre := adds[..|adds| - 1];
      AsMapKeys(pre, key);
      if HasKey(adds, key) && adds[|adds| - 1].key != key {
        var i :| 0 <= i < |adds| && adds[i].key == key;
        assert pre[i].key == key;
      }
      if HasKey(pre, key) {
        var i :| 0 <= i < |pre| && pre[i].key == key;
        assert adds[i].key == key;
      }
    }
  }

  lemma {:induction false} AsMapSetMatching(adds: seq<Add>, key: string, value: Json)
    ensures AsMap(SetMatching(adds, key, value)) == if HasKey(adds, key) then AsMap(adds)[key := value] else AsMap(adds)
    decreases |adds|
  {
    if adds != [] {
      var pre := adds[..|adds| - 1];
      var last := adds[|adds| - 1];
      var r := SetMatching(adds, key, value);
      assert r[..|adds| - 1] == SetMatching(pre, key, value);
      AsMapSetMatching(pre, key, value);
      var m := AsMap(pre);
      if last.key == key {
        assert HasKey(adds, key);
        assert AsMap(r) == AsMap(SetMatching(pre, key, value))[key := value];
        assert m[key := value][key := value] == m[key := last.value][key := value] == m[key := value];
      } else {
        assert HasKey(adds, key) <==> HasKey(pre, key) by {
          if HasKey(adds, key) {
            var i :| 0 <= i < |adds| && adds[i].key == key;
            assert pre[i].key == key;
          }
          if HasKey(pre, key) {
            var i :| 0 <= i < |pre| && pre[i].key == key;
            assert adds[i].key == key;
          }
        }
        assert AsMap(r) == AsMap(SetMatching(pre, key, value))[last.key := last.value];
        assert m[key := value][last.key := last.value] == m[last.key := last.value][key := value];
      }
    }
  }

  /** Seen as a dictionary, the upsert is a plain assignment of `value` to `key`. */
  lemma UpsertAsMap(adds: seq<Add>, key: string, value: Json)
    ensures AsMap(Upsert(adds, key, value)) == AsMap(adds)[key := value]
  {
    AsMapSetMatching(adds, key, value);
    if !HasKey(adds, key) {
      assert (adds + [Add(key, value)])[..|adds|] == adds;
    }
  }

  /** The upsert never introduces a second entry for a key. */
  lemma UpsertKeepsKeysUnique(adds: seq<Add>, key: string, value: Json)
    requires UniqueKeys(adds)
    ensures UniqueKeys(Upsert(adds, key, value))
  {
  }

  // ---------------------------------------------------------------------------
  // applyAdds

  /** Replaying one entry on the configuration; a failed replacement changes nothing. */
  function ApplyOne(t: Json, a: Add): Json
  {
    Replace(t, Split(a.key), a.value).1
  }

  /** What `applyAdds(adds)` does to the configuration: the entries replayed in list order. */
  function ApplyAll(t: Json, adds: seq<Add>): Json
    decreases |adds|
  {
    if adds == [] then t else ApplyOne(ApplyAll(t, adds[..|adds| - 1]), adds[|adds| - 1])
  }

  /** Replaying a concatenation replays the first list, then the second. */
  lemma {:induction false} ApplyAllAppend(t: Json, xs: seq<Add>, ys: seq<Add>)
    ensures ApplyAll(t, xs + ys) == ApplyAll(ApplyAll(t, xs), ys)
    decreases |ys|
  {
    if ys == [] {
      assert xs + ys == xs;
    } else {
      assert (xs + ys)[..|xs + ys| - 1] == xs + ys[..|ys| - 1];
      ApplyAllAppend(t, xs, ys[..|ys| - 1]);
    }
  }

  /** An entry whose address does not resolve is skipped; the entries after it still apply. */
  lemma ApplySkipsUnresolvable(t: Json, xs: seq<Add>, a: Add, ys: seq<Add>)
    requires Replace(ApplyAll(t, xs), Split(a.key), a.value).0 != Replaced
    ensures ApplyAll(t, xs + [a] + ys) == ApplyAll(t, xs + ys)
  {
    ApplyAllAppend(t, xs + [a], ys);
    ApplyAllAppend(t, xs, ys);
    assert (xs + [a])[..|xs + [a]| - 1] == xs;
  }

  /** Different keys split into different addresses. */
  lemma SplitInjective(k1: string, k2: string)
    ensures Split(k1) == Split(k2) ==> k1 == k2
  {
    JoinSplit(k1);
    JoinSplit(k2);
  }

  /**
   * Replaying entries with other keys after a scalar has been written at
   * address `p` is the same as replaying them first and writing `p` last;
   * `p` stays a scalar leaf throughout.
   */
  lemma {:induction false} ApplyPastLeaf(s: Json, p: seq<string>, v: Json, zs: seq<Add>)
    requires Replace(s, p, v).0 == Replaced
    requires !IsObject(v)
    requires forall i :: 0 <= i < |zs| ==> Split(zs[i].key) != p
    ensures Replace(ApplyAll(s, zs), p, v).0 == Replaced
    ensures ApplyAll(Replace(s, p, v).1, zs) == Replace(ApplyAll(s, zs), p, v).1
    decreases |zs|
  {
    if zs != [] {
      var ys := zs[..|zs| - 1];
      var z := zs[|zs| - 1];
      ApplyPastLeaf(s, p, v, ys);
      ReplaceCommute(ApplyAll(s, ys), p, v, Split(z.key), z.value);
    }
  }

  /**
   * For a repeated key the later entry wins, whatever entries with other keys
   * lie between the two, provided the earlier one resolves and writes a
   * scalar.
   */
  lemma ApplyLaterWins(t: Json, xs: seq<Add>, a: Add, zs: seq<Add>, b: Add)
    requires a.key == b.key
    requires forall i :: 0 <= i < |zs| ==> zs[i].key != a.key
    requires Replace(ApplyAll(t, xs), Split(a.key), a.value).0 == Replaced
    requires !IsObject(a.value)
    ensures ApplyAll(t, xs + [a] + zs + [b]) == ApplyAll(t, xs + zs + [b])
  {
    var p := Split(a.key);
    var s := ApplyAll(t, xs);
    forall i | 0 <= i < |zs| ensures Split(zs[i].key) != p {
      SplitInjective(zs[i].key, a.key);
    }
    assert (xs + [a] + zs + [b])[..|xs + [a] + zs + [b]| - 1] == xs + [a] + zs;
    assert (xs + zs + [b])[..|xs + zs + [b]| - 1] == xs + zs;
    assert (xs + [a])[..|xs + [a]| - 1] == xs;
    ApplyAllAppend(t, xs + [a], zs);
    ApplyAllAppend(t, xs, zs);
    ApplyPastLeaf(s, p, a.value, zs);
    ReplaceTwice(ApplyAll(s, zs), p, a.value, b.value);
  }

  /**
   * Where "later wins" stops: an earlier entry that writes an object turns its
   * address into one that ends on an object, so a later entry with the same
   * key is refused and the earlier value stays.
   */
  lemma ObjectValueBlocksLaterEntry()
    ensures
      var t := Obj(map["a" := Num(1)]);
      var nested := Obj(map["x" := Num(2)]);
      && ApplyAll(t, [Add("a", nested), Add("a", Num(5))]) == Obj(map["a" := nested])
      && ApplyAll(t, [Add("a", Num(5))]) == Obj(map["a" := Num(5)])
  {
    SplitWithoutDot("a");
    var t := Obj(map["a" := Num(1)]);
    var nested := Obj(map["x" := Num(2)]);
    var xs := [Add("a", nested), Add("a", Num(5))];
    assert xs[..1] == [Add("a", nested)];
    assert [Add("a", nested)][..0] == [];
    assert ApplyAll(t, xs[..1]) == Obj(map["a" := nested]);
    assert Get(nested, "") == None;
  }

  /** `{key, value}` as the plain object stored in `configAdds`. */
  function AddJson(a: Add): Json {
    Obj(map["key" := Str(a.key), "value" := a.value])
  }

  function AddsJson(adds: seq<Add>): Json {
    Arr(seq(|adds|, i requires 0 <= i < |adds| => AddJson(adds[i])))
  }

  lemma AddsCopyLookup(adds: seq<Add>)
    ensures forall i :: 0 <= i < |adds| ==>
      && Lookup(ShallowCopy(AddsJson(adds)), [IndexKey(i), "key"]) == Some(Str(adds[i].key))
      && Lookup(ShallowCopy(AddsJson(adds)), [IndexKey(i), "value"]) == Some(adds[i].value)
  {
    forall i | 0 <= i < |adds|
      ensures Lookup(ShallowCopy(AddsJson(adds)), [IndexKey(i), "key"]) == Some(Str(adds[i].key))
      ensures Lookup(ShallowCopy(AddsJson(adds)), [IndexKey(i), "value"]) == Some(adds[i].value)
    {
      GetIndex(AddsJson(adds).elems, i);
    }
  }

  // ---------------------------------------------------------------------------
  // The module state

  /**
   * The module-level variables of scr/index.js. `defaultConfig` and
   * `currConfig` are assigned the same object and only ever changed through
   * it, so they are always equal (Valid).
   */
  class ModuleState {
    var defaultConfig: Json
    var currConfig: Json
    var configAdds: seq<Add>
    var loadedAdress: Option<string>
    var configAddsFullAdress: Option<string>
    var isGlobalConfigAdressLoaded: Option<bool>
    var chechConfigFunc: Option<Json -> bool>

    ghost predicate Valid()
      reads this
    {
      defaultConfig == currConfig
    }

    /** The variables as the module is first loaded: all null. */
    constructor ()
      ensures Valid()
      ensures defaultConfig == Null && currConfig == Null && configAdds == []
      ensures loadedAdress == None && configAddsFullAdress == None
      ensures isGlobalConfigAdressLoaded == None && chechConfigFunc == None
    {
      defaultConfig, currConfig := Null, Null;
      configAdds := [];
      loadedAdress, configAddsFullAdress := None, None;
      isGlobalConfigAdressLoaded, chechConfigFunc := None, None;
    }

    /** `checkConfig(conf)`, also exposed as `check`: passes when no check function is registered or it does not throw. */
    predicate Check(conf: Json)
      reads this
    {
      chechConfigFunc.None? || chechConfigFunc.value(conf)
    }

    /** `getCurr()`: a shallow copy, which reads the same as the current configuration along every address. */
    function GetCurr(): (r: Json)
      reads this
      ensures r.Obj? && Keys(r) == Keys(currConfig)
      ensures forall path :: path != [] ==> Lookup(r, path) == Lookup(currConfig, path)
    {
      var r := ShallowCopy(currConfig);
      forall path | path != [] ensures Lookup(r, path) == Lookup(currConfig, path) {
        ShallowCopyLookup(currConfig, path);
      }
      r
    }

    /** `getDefault()`: a shallow copy of the default configuration, which is the current one. */
    function GetDefault(): (r: Json)
      reads this
      requires Valid()
      ensures r == GetCurr()
    {
      ShallowCopy(defaultConfig)
    }

    /**
     * `getAdds()`: `Object.assign({}, configAdds)` turns the list into a plain
     * object keyed by index, each value an entry `{key, value}`.
     */
    function GetAdds(): (r: Json)
      reads this
      ensures r.Obj? && Keys(r) == IndexKeys(|configAdds|)
      ensures forall i :: 0 <= i < |configAdds| ==>
        && Lookup(r, [IndexKey(i), "key"]) == Some(Str(configAdds[i].key))
        && Lookup(r, [IndexKey(i), "value"]) == Some(configAdds[i].value)
    {
      AddsCopyLookup(configAdds);
      ShallowCopy(AddsJson(configAdds))
    }

    /** `getAdress()`. */
    function GetAdress(): (Option<string>, Option<bool>)
      reads this
    {
      (loadedAdress, isGlobalConfigAdressLoaded)
    }

    /**
     * `loadAdds()`: the required overrides list, or an empty list when `require`
     * throws. It and CheckAdds are the source's own helpers, which Construct's
     * body calls; Construct's contract states their combined effect directly in
     * terms of `require`, so that it reads without them.
     */
    function LoadAdds(requireAdds: string -> Option<seq<Add>>): seq<Add>
      reads this
      requires configAddsFullAdress.Some?
    {
      match requireAdds(configAddsFullAdress.value)
      case None => []
      case Some(adds) => CheckAdds(adds)
    }

    /** `checkAdds`: accepts the list as it is (its only caller is LoadAdds). */
    function CheckAdds(adds: seq<Add>): seq<Add>
    {
      adds
    }

    /** `applyAdds(adds)`: replays every entry on the shared configuration object, ignoring failures. */
    method ApplyAdds(adds: seq<Add>)
      requires Valid()
      modifies this`currConfig, this`defaultConfig
      ensures Valid()
      ensures currConfig == ApplyAll(old(currConfig), adds)
    {
      var i := 0;
      while i < |adds|
        invariant 0 <= i <= |adds|
        invariant Valid()
        invariant currConfig == ApplyAll(old(currConfig), adds[..i])
      {
        assert adds[..i + 1][..i] == adds[..i];
        var _, t := ReplaceParamValue(currConfig, Split(adds[i].key), adds[i].value);
        currConfig := t;
        defaultConfig := t;
        i := i + 1;
      }
      assert adds[..i] == adds;
    }

    /**
     * The `saveToAdds` part of `setValue`: give every entry with the key the
     * new value, or append one entry when there is none.
     */
    method UpsertAdds(adress: string, value: Json)
      modifies this`configAdds
      ensures configAdds == Upsert(old(configAdds), adress, value)
    {
      var valInList := false;
      var i := 0;
      while i < |configAdds|
        invariant 0 <= i <= |configAdds| == |old(configAdds)|
        invariant forall j :: 0 <= j < i ==> configAdds[j] == SetMatching(old(configAdds), adress, value)[j]
        invariant forall j :: i <= j < |configAdds| ==> configAdds[j] == old(configAdds)[j]
        invariant valInList <==> exists j :: 0 <= j < i && old(configAdds)[j].key == adress
      {
        if configAdds[i].key == adress {
          configAdds := configAdds[i := configAdds[i].(value := value)];
          valInList := true;
        }
        i := i + 1;
      }
      if !valInList {
        configAdds := configAdds + [Add(adress, value)];
      } else {
        assert configAdds == SetMatching(old(configAdds), adress, value);
      }
    }

    /**
     * `setValue(adress, value, saveToAdds)`: replace the leaf the address
     * names, throwing when it cannot; then, when asked, record the override.
     * Writing the overrides file is not modelled.
     */
    method SetValue(adress: string, value: Json, saveToAdds: bool) returns (r: Status<IndexError>)
      requires Valid()
      modifies this`currConfig, this`defaultConfig, this`configAdds
      ensures Valid()
      ensures r.Err? <==> !AddressesLeaf(old(currConfig), Split(adress))
      ensures r.Err? ==> r.error == ParamNotExists(adress) && unchanged(this)
      ensures r.Ok? ==> currConfig == Replace(old(currConfig), Split(adress), value).1
      ensures r.Ok? && IsObject(old(currConfig)) ==> Lookup(currConfig, Split(adress)) == Some(value)
      ensures r.Ok? ==> configAdds == if saveToAdds then Upsert(old(configAdds), adress, value) else old(configAdds)
    {
      ReplaceSucceedsIff(currConfig, Split(adress), value);
      var addrArr := Split(adress);
      var o, t := ReplaceParamValue(currConfig, addrArr, value);
      if o != Replaced {
        return Err(ParamNotExists(adress));
      }
      if IsObject(currConfig) {
        ReplaceWritesLeaf(currConfig, addrArr, value);
      }
      currConfig := t;
      defaultConfig := t;

      if saveToAdds {
        UpsertAdds(adress, value);
      }
      r := Ok;
    }

    /**
     * `new Configurator(globalAdresses, localAdress, configAddsAdress,
     * configAddsFileName, chechConfigFunction)`. `cwd` is what
     * `path.resolve('./')` gives and `joinPath` stands for `path.join`.
     */
    method Construct(
      globalAdresses: string, localAdress: string,
      configAddsAdress: string, configAddsFileName: string, check: CheckArg,
      cwd: string, joinPath: (string, string) -> string,
      require: string -> Option<Json>, requireAdds: string -> Option<seq<Add>>)
      returns (r: Status<IndexError>)
      requires Valid()
      modifies this
      ensures Valid()
      // a non-function check argument is refused before anything changes
      ensures check.NotAFunction? ==> r == Err(CheckFunctionTypeError) && unchanged(this)
      // otherwise the check function and the overrides address are recorded at once
      ensures !check.NotAFunction? ==>
        && chechConfigFunc == (if check.CheckFn? then Some(check.f) else old(chechConfigFunc))
        && configAddsFullAdress == Some(joinPath(
             if configAddsAdress == "" then cwd else configAddsAdress,
             (if configAddsFileName == "" then DefaultConfigAddsFileName else configAddsFileName) + "." + ConfigAddsFileExt))
      // neither address loads: an error, and nothing else changes
      ensures !check.NotAFunction? && require(globalAdresses).None? && require(localAdress).None? ==>
        && r == Err(ConfigLoadingError(localAdress))
        && isGlobalConfigAdressLoaded == old(isGlobalConfigAdressLoaded)
        && currConfig == old(currConfig) && configAdds == old(configAdds) && loadedAdress == old(loadedAdress)
      // the global address is tried first; isGlobal records which one loaded, even if the check then fails
      ensures !check.NotAFunction? && require(globalAdresses).Some? ==> isGlobalConfigAdressLoaded == Some(true)
      ensures !check.NotAFunction? && require(globalAdresses).None? && require(localAdress).Some? ==>
        isGlobalConfigAdressLoaded == Some(false)
      ensures !check.NotAFunction? && (require(globalAdresses).Some? || require(localAdress).Some?) ==>
        var loadedAdr := if require(globalAdresses).Some? then globalAdresses else localAdress;
        var temp := require(loadedAdr).value;
        if !Check(temp) then
          && r == Err(ConfigCheckingError(loadedAdr))
          && currConfig == old(currConfig) && configAdds == old(configAdds) && loadedAdress == old(loadedAdress)
        else
          && r == Ok
          // the overrides list is the required file, or empty when it cannot be required
          && configAdds == (if requireAdds(configAddsFullAdress.value).Some? then requireAdds(configAddsFullAdress.value).value else [])
          && currConfig == ApplyAll(temp, configAdds)
          && loadedAdress == Some(loadedAdr)
    {
      if check.NotAFunction? {
        return Err(CheckFunctionTypeError);
      }
      if check.CheckFn? {
        chechConfigFunc := Some(check.f);
      }
      var addsDir := if configAddsAdress == "" then cwd else configAddsAdress;
      var addsName := if configAddsFileName == "" then DefaultConfigAddsFileName else configAddsFileName;
      configAddsFullAdress := Some(joinPath(addsDir, addsName + "." + ConfigAddsFileExt));

      var loadedAdr: string;
      var tempConfig: Json;
      var fromGlobal := require(globalAdresses);
      if fromGlobal.Some? {
        tempConfig := fromGlobal.value;
        loadedAdr := globalAdresses;
        isGlobalConfigAdressLoaded := Some(true);
      } else {
        var fromLocal := require(localAdress);
        if fromLocal.None? {
          return Err(ConfigLoadingError(localAdress));
        }
        tempConfig := fromLocal.value;
        loadedAdr := localAdress;
        isGlobalConfigAdressLoaded := Some(false);
      }

      if !Check(tempConfig) {
        return Err(ConfigCheckingError(loadedAdr));
      }

      defaultConfig, currConfig := tempConfig, tempConfig;
      configAdds := LoadAdds(requireAdds);
      // an array, even an empty one, is truthy
      ApplyAdds(configAdds);
      loadedAdress := Some(loadedAdr);
      r := Ok;
    }
  }
}
