/**
 * AppConfig: typed lookups over the key/value pairs of
 * application.properties. Loading the file is not modelled; the loaded
 * pairs are the `properties` map.
 */
module AppConfiguration {
  import opened Common
  import opened JavaLang

  const SERVER_PORT_KEY: string := "server.port"
  const OLLAMA_MODEL_KEY: string := "ollama.model"
  const OLLAMA_TIMEOUT_KEY: string := "ollama.timeout"
  const CORS_ENABLED_KEY: string := "cors.enabled"
  const CORS_ORIGINS_KEY: string := "cors.origins"

  const DEFAULT_SERVER_PORT: int := 8080
  const DEFAULT_OLLAMA_MODEL: string := "llama2"
  const DEFAULT_OLLAMA_TIMEOUT: int := 120000
  const DEFAULT_CORS_ENABLED: string := "true"
  const DEFAULT_CORS_ORIGINS: string := "*"

  /** Boolean.parseBoolean: "true" ignoring case; anything else, null included, is false. */
  predicate ParseBoolean(s: Option<string>)
  {
    s.Some? && ToLower(s.value) == "true"
  }

  datatype AppConfig = AppConfig(properties: map<string, string>)
  {
    /** getProperty(key): the stored value, or null. */
    function GetProperty(key: string): (r: Option<string>)
      ensures r.Some? <==> key in properties
      ensures r.Some? ==> r.value == properties[key]
    {
      if key in properties then Some(properties[key]) else None
    }

    /** getProperty(key, defaultValue): the stored value, or the default when the key is absent. */
    function GetPropertyOr(key: string, defaultValue: string): (r: string)
      ensures key !in properties ==> r == defaultValue
      ensures key in properties ==> r == properties[key]
    {
      if key in properties then properties[key] else defaultValue
    }

    /**
     * getIntProperty: the parsed value; the default when the key is absent
     * or Integer.parseInt throws NumberFormatException.
     */
    function GetIntProperty(key: string, defaultValue: int): (r: int)
      ensures key !in properties ==> r == defaultValue
      ensures key in properties && ParseInt(properties[key]).None? ==> r == defaultValue
      ensures key in properties && ParseInt(properties[key]).Some? ==> r == ParseInt(properties[key]).value
      ensures InIntRange(defaultValue) ==> InIntRange(r)
    {
      match GetProperty(key)
      case None => defaultValue
      case Some(value) =>
        match ParseInt(value)
        case None => defaultValue
        case Some(n) => n
    }

    /** getServerPort: an int; 8080 unless server.port holds an int literal. */
    function ServerPort(): (r: int)
      ensures InIntRange(r)
      ensures SERVER_PORT_KEY !in properties ==> r == DEFAULT_SERVER_PORT
      ensures SERVER_PORT_KEY in properties && ParseInt(properties[SERVER_PORT_KEY]).None? ==> r == DEFAULT_SERVER_PORT
      ensures SERVER_PORT_KEY in properties && ParseInt(properties[SERVER_PORT_KEY]).Some? ==>
                r == ParseInt(properties[SERVER_PORT_KEY]).value
    {
      GetIntProperty(SERVER_PORT_KEY, DEFAULT_SERVER_PORT)
    }

    /** getZentaoUrl: null exactly when its key is unset, else the value. */
    function ZentaoUrl(): (r: Option<string>)
      ensures r.Some? <==> "zentao.url" in properties
      ensures r.Some? ==> r.value == properties["zentao.url"]
    {
      GetProperty("zentao.url")
    }

    /** getZentaoAccount: null exactly when its key is unset, else the value. */
    function ZentaoAccount(): (r: Option<string>)
      ensures r.Some? <==> "zentao.account" in properties
      ensures r.Some? ==> r.value == properties["zentao.account"]
    {
      GetProperty("zentao.account")
    }

    /** getZentaoPassword: null exactly when its key is unset, else the value. */
    function ZentaoPassword(): (r: Option<string>)
      ensures r.Some? <==> "zentao.password" in properties
      ensures r.Some? ==> r.value == properties["zentao.password"]
    {
      GetProperty("zentao.password")
    }

    /** getOllamaUrl: null exactly when its key is unset, else the value. */
    function OllamaUrl(): (r: Option<string>)
      ensures r.Some? <==> "ollama.url" in properties
      ensures r.Some? ==> r.value == properties["ollama.url"]
    {
      GetProperty("ollama.url")
    }

    /** getOllamaModel: the value of ollama.model, "llama2" when unset. */
    function OllamaModel(): (r: string)
      ensures OLLAMA_MODEL_KEY !in properties ==> r == DEFAULT_OLLAMA_MODEL
      ensures OLLAMA_MODEL_KEY in properties ==> r == properties[OLLAMA_MODEL_KEY]
    {
      GetPropertyOr(OLLAMA_MODEL_KEY, DEFAULT_OLLAMA_MODEL)
    }

    /** getOllamaTimeout: an int; 120000 unless ollama.timeout holds an int literal. */
    function OllamaTimeout(): (r: int)
      ensures InIntRange(r)
      ensures OLLAMA_TIMEOUT_KEY !in properties ==> r == DEFAULT_OLLAMA_TIMEOUT
      ensures OLLAMA_TIMEOUT_KEY in properties && ParseInt(properties[OLLAMA_TIMEOUT_KEY]).None? ==> r == DEFAULT_OLLAMA_TIMEOUT
      ensures OLLAMA_TIMEOUT_KEY in properties && ParseInt(properties[OLLAMA_TIMEOUT_KEY]).Some? ==>
                r == ParseInt(properties[OLLAMA_TIMEOUT_KEY]).value
    {
      GetIntProperty(OLLAMA_TIMEOUT_KEY, DEFAULT_OLLAMA_TIMEOUT)
    }

    /** isCorsEnabled: on when cors.enabled is unset; otherwise on exactly for "true" in any case. */
    predicate CorsEnabled()
      ensures CORS_ENABLED_KEY !in properties ==> CorsEnabled()
      ensures CORS_ENABLED_KEY in properties ==> (CorsEnabled() <==> ToLower(properties[CORS_ENABLED_KEY]) == "true")
    {
      ParseBoolean(Some(GetPropertyOr(CORS_ENABLED_KEY, DEFAULT_CORS_ENABLED)))
    }

    /** getCorsOrigins: the value of cors.origins, "*" when unset. */
    function CorsOrigins(): (r: string)
      ensures CORS_ORIGINS_KEY !in properties ==> r == DEFAULT_CORS_ORIGINS
      ensures CORS_ORIGINS_KEY in properties ==> r == properties[CORS_ORIGINS_KEY]
    {
      GetPropertyOr(CORS_ORIGINS_KEY, DEFAULT_CORS_ORIGINS)
    }
  }

  /** The two getProperty overloads agree: the defaulting one is the plain one with null replaced. */
  lemma GetPropertyOverloadsAgree(config: AppConfig, key: string, defaultValue: string)
    ensures config.GetPropertyOr(key, defaultValue) == config.GetProperty(key).GetOr(defaultValue)
    ensures config.GetPropertyOr(key, defaultValue) == defaultValue <==>
            key !in config.properties || config.properties[key] == defaultValue
  {
  }

  /** An int property written as Integer.toString(n) reads back as n. */
  lemma IntPropertyRoundTrip(config: AppConfig, key: string, n: int, defaultValue: int)
    requires InIntRange(n)
    requires key in config.properties && config.properties[key] == IntToString(n)
    ensures config.GetIntProperty(key, defaultValue) == n
  {
    ParseIntOfIntToString(n);
  }

  /** A value holding a char that is neither a digit nor a leading sign falls back to the default. */
  lemma MalformedIntPropertyFallsBack(config: AppConfig, key: string, defaultValue: int, k: nat)
    requires key in config.properties
    requires k < |config.properties[key]| && !IsDigit(config.properties[key][k])
    requires k > 0 || (config.properties[key][0] != '-' && config.properties[key][0] != '+')
    ensures config.GetIntProperty(key, defaultValue) == defaultValue
  {
    var s := config.properties[key];
    if s[0] == '-' || s[0] == '+' {
      assert s[1..][k - 1] == s[k];
    }
  }

  /** With no properties at all, every typed getter yields its documented default. */
  lemma EmptyConfigDefaults()
    ensures AppConfig(map[]).ServerPort() == 8080
    ensures AppConfig(map[]).OllamaTimeout() == 120000
    ensures AppConfig(map[]).OllamaModel() == "llama2"
    ensures AppConfig(map[]).CorsOrigins() == "*"
    ensures AppConfig(map[]).CorsEnabled()
    ensures AppConfig(map[]).OllamaUrl() == None && AppConfig(map[]).ZentaoUrl() == None
  {
    assert ToLower(DEFAULT_CORS_ENABLED) == "true";
  }

  /** CORS is on when the key is absent, and otherwise exactly when the value is "true" in any case. */
  lemma CorsEnabledRule(config: AppConfig)
    ensures config.CorsEnabled() <==>
            CORS_ENABLED_KEY !in config.properties || ToLower(config.properties[CORS_ENABLED_KEY]) == "true"
  {
    assert ToLower(DEFAULT_CORS_ENABLED) == "true";
  }

  /** "TRUE" and "True" enable CORS, "yes" and "1" do not. */
  lemma CorsEnabledSpellings()
    ensures ParseBoolean(Some("TRUE")) && ParseBoolean(Some("True"))
    ensures !ParseBoolean(Some("yes")) && !ParseBoolean(Some("1")) && !ParseBoolean(None)
  {
    assert ToLower("TRUE") == "true";
    assert ToLower("True") == "true";
    assert |ToLower("yes")| == 3;
    assert |ToLower("1")| == 1;
  }
}
