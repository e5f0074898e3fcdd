/** The configuration checks of the cross-application API view
    (common_core/api/CrossAppAPIView.py). */
module CrossAppApi {
  import opened Wrappers

  /** A class attribute as Python sees it: None, a string, a number, or some
      other object (a model class, a serializer class). */
  datatype Setting = NoneValue | Text(s: string) | Number(n: int) | Object

  /** Python truthiness: None, '' and 0 are false, every object is true. */
  predicate Truthy(v: Setting)
  {
    match v
    case NoneValue => false
    case Text(s) => s != ""
    case Number(n) => n != 0
    case Object => true
  }

  datatype Config = Config(sourceAppUrl: Setting, sourceAppId: Setting, sourceAppKey: Setting, model: Setting, serializer: Setting)

  /** The class defaults: every attribute None. */
  const DefaultConfig: Config := Config(NoneValue, NoneValue, NoneValue, NoneValue, NoneValue)

  /** required_checks: None when it returns normally, otherwise the message of
      the AttributeError it raises. */
  function RequiredChecks(c: Config): (r: Option<string>)
    ensures r == Some("App ID is required") <==> !Truthy(c.sourceAppId)
    ensures r == Some("App Key is required") <==> Truthy(c.sourceAppId) && !Truthy(c.sourceAppKey)
    ensures r == Some("model is required") <==> Truthy(c.sourceAppId) && Truthy(c.sourceAppKey) && !Truthy(c.model)
    ensures r == Some("serializer is required") <==>
      Truthy(c.sourceAppId) && Truthy(c.sourceAppKey) && Truthy(c.model) && !Truthy(c.serializer)
    ensures r == None <==> Truthy(c.sourceAppId) && Truthy(c.sourceAppKey) && Truthy(c.model) && Truthy(c.serializer)
  {
    if !Truthy(c.sourceAppId) then Some("App ID is required")
    else if !Truthy(c.sourceAppKey) then Some("App Key is required")
    else if !Truthy(c.model) then Some("model is required")
    else if !Truthy(c.serializer) then Some("serializer is required")
    else None
  }

  /** A subclass that configures nothing fails on the first check. */
  lemma UnconfiguredFailsFirst()
    ensures RequiredChecks(DefaultConfig) == Some("App ID is required")
  {
  }

  /** The source URL takes no part in the checks. */
  lemma SourceUrlIgnored(c: Config, url: Setting)
    ensures RequiredChecks(c.(sourceAppUrl := url)) == RequiredChecks(c)
  {
  }

  /** An empty string counts as missing, as None does. */
  lemma EmptyTextIsMissing(c: Config)
    ensures RequiredChecks(c.(sourceAppId := Text(""))) == RequiredChecks(c.(sourceAppId := NoneValue))
    ensures Truthy(c.sourceAppId) ==> RequiredChecks(c.(sourceAppKey := Text(""))) == RequiredChecks(c.(sourceAppKey := NoneValue))
  {
  }
}
