/**
 * The typed configurator of src/configurator.ts. The file system, the JSON
 * parser and the class-transformer / class-validator pair are given as an
 * environment of oracles; the class keeps the same fields the source keeps.
 */
module Configurator {
  import opened Wrappers
  import opened Json
  import opened NodePath

  const FileExt: string := "json"
  const DefaultEncoding: string := "utf-8"
  const AddsFileAdress: string := "./runtime/config-adds.json"

  /**
   * The collaborators the class calls:
   *  - readFile: `fs.readFileSync(path, {encoding})`, None when it throws;
   *  - parse: `JSON.parse`, None on a syntax error;
   *  - toInstance: `plainToClass(ConfigClass, plain)`;
   *  - validate: the number of errors `validateSync` reports.
   */
  datatype Env = Env(
    readFile: (string, string) -> Option<string>,
    parse: string -> Option<Json>,
    toInstance: Json -> Json,
    validate: Json -> nat)

  datatype ConfigError =
    | NotSupportedFileExt        // "Only '.json' file extention supports"
    | ReadFailed(path: string)   // what fs.readFileSync throws
    | FileContentParseError      // "File content parse error"
    | ValidationFailed           // "Configuration validation failed"
    | SyntaxError                // JSON.parse's own error, while loading overrides
    | KeysOfNull                 // Object.keys(null) throws a TypeError
    | AddsValidationFailed       // "Configuration adds validation failed"

  /** The extension check path.parse performs, as the class compares it. */
  predicate IsJsonFile(fileName: string) {
    Ext(fileName) == "." + FileExt
  }

  /**
   * `readFileSync(fileName)`: names whose extension is not ".json" are refused
   * before the file system is consulted.
   */
  function ReadFileSync(env: Env, encoding: string, fileName: string): (r: Result<string, ConfigError>)
    ensures !EndsWithJson(fileName) ==> r == Failure(NotSupportedFileExt)
    ensures EndsWithJson(fileName) && env.readFile(fileName, encoding).None? ==> r == Failure(ReadFailed(fileName))
    ensures EndsWithJson(fileName) && env.readFile(fileName, encoding).Some? ==> r == Success(env.readFile(fileName, encoding).value)
  {
    assert IsJsonFile(fileName) <==> EndsWithJson(fileName) by {
      assert "." + FileExt == ".json";
      ExtIsJsonIff(fileName);
    }
    if !IsJsonFile(fileName) then Failure(NotSupportedFileExt)
    else match env.readFile(fileName, encoding)
      case None => Failure(ReadFailed(fileName))
      case Some(content) => Success(content)
  }

  /**
   * `Object.assign(target, source)` on a plain-object target: each own
   * property of the source replaces the whole top-level value of the target.
   * Other targets are left as they are.
   */
  function Assign(target: Json, source: Json): (r: Json)
    ensures target.Obj? ==> r.Obj? && Keys(r) == Keys(target) + Keys(source)
    ensures target.Obj? ==> forall k :: k in Keys(source) ==> Get(r, k) == Get(source, k)
    ensures target.Obj? ==> forall k :: k !in Keys(source) ==> Get(r, k) == Get(target, k)
    ensures !target.Obj? ==> r == target
  {
    if target.Obj? then Obj(target.props + OwnProps(source)) else target
  }

  /** A source without own properties changes nothing. */
  lemma AssignNothing(target: Json, source: Json)
    requires Keys(source) == {}
    ensures Assign(target, source) == target
  {
    if target.Obj? {
      assert target.props + OwnProps(source) == target.props;
    }
  }

  /**
   * The merge is shallow: under a key the source has, the target's nested
   * properties are gone unless the source's value has them too.
   */
  lemma AssignIsShallow(target: Json, source: Json, k: string, rest: seq<string>)
    requires target.Obj? && k in Keys(source) && rest != []
    ensures Lookup(Assign(target, source), [k] + rest) == Lookup(source, [k] + rest)
  {
    assert ([k] + rest)[0] == k && ([k] + rest)[1..] == rest;
  }

  /**
   * `readFileSync(addsFileAdress)`. The fixed overrides path passes the
   * extension check (ReadAddsFileIsReadFileSync), so this is the file
   * system's answer. It is written out for that one path so that AddsStep and
   * its callers do not re-derive the extension of the literal path each time;
   * ReadAddsFileIsReadFileSync is what ties it to ReadFileSync.
   */
  function ReadAddsFile(env: Env, encoding: string): Result<string, ConfigError>
  {
    match env.readFile(AddsFileAdress, encoding)
    case None => Failure(ReadFailed(AddsFileAdress))
    case Some(content) => Success(content)
  }

  /** The overrides path is a ".json" name, so reading it is an ordinary `readFileSync`. */
  lemma ReadAddsFileIsReadFileSync(env: Env, encoding: string)
    ensures EndsWithJson(AddsFileAdress)
    ensures ReadAddsFile(env, encoding) == ReadFileSync(env, encoding, AddsFileAdress)
  {
    AddsFileBaseName();
  }

  lemma AddsFileBaseName()
    ensures BaseName(AddsFileAdress) == "config-adds.json"
  {
    var a := AddsFileAdress;
    assert TrimTrailingSlashes(a) == a;
    assert a[9] == '/';
    assert forall j :: 9 < j < |a| ==> a[j] != '/';
    assert a[10..] == "config-adds.json";
  }

  /** The overrides document `loadAdds` merges: read, parsed, not null and with at least one key. */
  function AddsDocument(env: Env, encoding: string): Option<Json>
  {
    var content := ReadAddsFile(env, encoding);
    if content.Failure? then None
    else match env.parse(content.value)
      case None => None
      case Some(plain) => if plain.Null? || Keys(plain) == {} then None else Some(plain)
  }

  /** What `loadAdds` leaves as the configuration, and what it hands to `console.error`. */
  datatype AddsResult = AddsResult(config: Json, logged: Option<ConfigError>)

  /**
   * The effect of `loadAdds` on the current configuration `cfg`. No failure
   * escapes: every one is logged. The merge happens before validation, so a
   * rejected document stays merged.
   */
  function AddsStep(env: Env, encoding: string, cfg: Json): (r: AddsResult)
    ensures AddsDocument(env, encoding).None? ==> r.config == cfg
    ensures AddsDocument(env, encoding).Some? ==> r.config == Assign(cfg, env.toInstance(AddsDocument(env, encoding).value))
    ensures r.logged == Some(AddsValidationFailed) <==> AddsDocument(env, encoding).Some? && env.validate(r.config) > 0
    ensures r.logged.None? ==> AddsDocument(env, encoding).None? || env.validate(r.config) == 0
  {
    var content := ReadAddsFile(env, encoding);
    if content.Failure? then AddsResult(cfg, Some(content.error))
    else match env.parse(content.value)
      case None => AddsResult(cfg, Some(SyntaxError))
      case Some(plain) =>
        if plain.Null? then AddsResult(cfg, Some(KeysOfNull))
        else if Keys(plain) == {} then AddsResult(cfg, None)
        else
          var temp := Assign(cfg, env.toInstance(plain));
          if env.validate(temp) > 0 then AddsResult(temp, Some(AddsValidationFailed))
          else AddsResult(temp, None)
  }

  /**
   * Every failure of `loadAdds` is caught and logged: nothing is logged
   * exactly when the file reads and parses to a non-null value that has no
   * keys or merges into a configuration that passes validation; a failed read
   * is logged with its own error.
   */
  lemma AddsStepLogsEveryFailure(env: Env, encoding: string, cfg: Json)
    ensures
      var content := ReadAddsFile(env, encoding);
      var r := AddsStep(env, encoding, cfg);
      && (r.logged.None? <==>
            && content.Success?
            && env.parse(content.value).Some?
            && !env.parse(content.value).value.Null?
            && (Keys(env.parse(content.value).value) == {}
                || env.validate(Assign(cfg, env.toInstance(env.parse(content.value).value))) == 0))
      && (content.Failure? ==> r.logged == Some(content.error))
  {
  }

  /** What the constructor has loaded before the overrides: from where, and the validated instance. */
  datatype Loaded = Loaded(adress: string, isGlobal: bool, config: Json)

  /**
   * The loading part of the constructor: the global address is tried first;
   * without a local address its error is rethrown, otherwise a failure on the
   * local address propagates; the content must parse and the bound instance
   * must validate.
   */
  function LoadConfig(env: Env, encoding: string, globalAdresses: string, localAdress: string): (r: Result<Loaded, ConfigError>)
    ensures
      var fromGlobal := ReadFileSync(env, encoding, globalAdresses);
      var fromLocal := ReadFileSync(env, encoding, localAdress);
      && (fromGlobal.Failure? && localAdress == "" ==> r == Failure(fromGlobal.error))
      && (fromGlobal.Failure? && localAdress != "" && fromLocal.Failure? ==> r == Failure(fromLocal.error))
      && (fromGlobal.Success? || (localAdress != "" && fromLocal.Success?) ==>
            var content := if fromGlobal.Success? then fromGlobal.value else fromLocal.value;
            && (env.parse(content).None? <==> r == Failure(FileContentParseError))
            && (env.parse(content).Some? && env.validate(env.toInstance(env.parse(content).value)) > 0 <==> r == Failure(ValidationFailed))
            && (env.parse(content).Some? && env.validate(env.toInstance(env.parse(content).value)) == 0 ==> r.Success?)
            && (r.Success? ==>
                  && r.value.isGlobal == fromGlobal.Success?
                  && r.value.adress == (if fromGlobal.Success? then globalAdresses else localAdress)
                  && r.value.config == env.toInstance(env.parse(content).value)))
    ensures r.Success? ==> env.validate(r.value.config) == 0
  {
    var fromGlobal := ReadFileSync(env, encoding, globalAdresses);
    var source: Result<(string, bool, string), ConfigError> :=
      if fromGlobal.Success? then Success((globalAdresses, true, fromGlobal.value))
      else if localAdress == "" then Failure(fromGlobal.error)
      else
        var fromLocal := ReadFileSync(env, encoding, localAdress);
        if fromLocal.Failure? then Failure(fromLocal.error) else Success((localAdress, false, fromLocal.value));
    if source.Failure? then Failure(source.error)
    else
      var (adress, isGlobal, content) := source.value;
      match env.parse(content)
      case None => Failure(FileContentParseError)
      case Some(configObject) =>
        var configInstance := env.toInstance(configObject);
        if env.validate(configInstance) > 0 then Failure(ValidationFailed)
        else Success(Loaded(adress, isGlobal, configInstance))
  }

  /** The fields of the source class. */
  class Configurator {
    var defaultConfig: Json
    var currConfig: Json
    var adress: string
    var isGlobal: bool
    var adds: Option<Json>
    var encoding: string

    /** `defaultConfig` and `currConfig` are one object; nothing ever assigns `adds`. */
    ghost predicate Valid()
      reads this
    {
      defaultConfig == currConfig && adds.None?
    }

    /** The first step of the source's constructor: choose the encoding; every other field is still undefined. */
    constructor (encoding: string)
      ensures Valid()
      ensures this.encoding == if encoding == "" then DefaultEncoding else encoding
    {
      this.encoding := if encoding == "" then DefaultEncoding else encoding;
      defaultConfig, currConfig := Null, Null;
      adress, isGlobal := "", false;
      adds := None;
    }

    /** `getCurr()` returns the live object, which is also the default. */
    function GetCurr(): (r: Json)
      reads this
      requires Valid()
      ensures r == GetDefault()
    {
      currConfig
    }

    /** `getDefault()`. */
    function GetDefault(): Json
      reads this
    {
      defaultConfig
    }

    /** `getAdds()`: always undefined, since no code path assigns `adds`. */
    function GetAdds(): (r: Option<Json>)
      reads this
      requires Valid()
      ensures r.None?
    {
      adds
    }

    /** `getLoadedFrom()`. */
    function GetLoadedFrom(): (string, bool)
      reads this
    {
      (adress, isGlobal)
    }

    /**
     * `loadAdds(ConfigClass)`: best-effort merge of the overrides file into the
     * shared configuration object, in place; every failure is caught and logged.
     */
    method LoadAdds(env: Env) returns (logged: Option<ConfigError>)
      requires Valid()
      modifies this`currConfig, this`defaultConfig
      ensures Valid()
      ensures AddsResult(currConfig, logged) == AddsStep(env, encoding, old(currConfig))
    {
      var fileContent := ReadAddsFile(env, encoding);
      if fileContent.Failure? {
        return Some(fileContent.error);
      }
      var tempPlainAdds := env.parse(fileContent.value);
      if tempPlainAdds.None? {
        return Some(SyntaxError);
      }
      if tempPlainAdds.value.Null? {
        return Some(KeysOfNull);
      }
      if Keys(tempPlainAdds.value) == {} {
        return None;
      }
      var tempAddsInstance := env.toInstance(tempPlainAdds.value);
      // Object.assign writes into the object that currConfig and defaultConfig share
      var temp := Assign(currConfig, tempAddsInstance);
      currConfig, defaultConfig := temp, temp;
      if env.validate(temp) > 0 {
        return Some(AddsValidationFailed);
      }
      currConfig := temp;
      logged := None;
    }

    /**
     * The rest of the source's constructor once the configuration is loaded:
     * record where it came from, share it as default and current, then merge
     * the overrides into it.
     */
    static method FromLoaded(env: Env, encoding: string, loaded: Loaded) returns (c: Configurator)
      requires encoding != ""
      ensures fresh(c) && c.Valid()
      ensures c.GetLoadedFrom() == (loaded.adress, loaded.isGlobal)
      ensures c.encoding == encoding
      ensures c.currConfig == AddsStep(env, encoding, loaded.config).config
    {
      c := new Configurator(encoding);
      c.adress, c.isGlobal := loaded.adress, loaded.isGlobal;
      c.defaultConfig, c.currConfig := loaded.config, loaded.config;
      var _ := c.LoadAdds(env);
    }

    /**
     * `new Configurator(ConfigClass, globalAdresses, localAdress?, encoding?)`;
     * an empty `localAdress` or `encoding` stands for an omitted argument.
     * Construction fails exactly as LoadConfig does and otherwise succeeds,
     * whatever happens to the overrides.
     */
    static method Create(env: Env, globalAdresses: string, localAdress: string, encoding: string)
      returns (r: Result<Configurator, ConfigError>)
      ensures
        var enc := if encoding == "" then DefaultEncoding else encoding;
        var loaded := LoadConfig(env, enc, globalAdresses, localAdress);
        && (loaded.Failure? ==> r == Failure(loaded.error))
        && (loaded.Success? ==>
              && r.Success? && fresh(r.value) && r.value.Valid()
              && r.value.GetLoadedFrom() == (loaded.value.adress, loaded.value.isGlobal)
              && r.value.encoding == enc
              && r.value.currConfig == AddsStep(env, enc, loaded.value.config).config)
    {
      var enc := if encoding == "" then DefaultEncoding else encoding;
      // reading global then local, parsing, binding and validating
      var loaded := LoadConfig(env, enc, globalAdresses, localAdress);
      if loaded.Failure? {
        return Failure(loaded.error);
      }
      var c := FromLoaded(env, enc, loaded.value);
      return Success(c);
    }
  }
}
