/**
 * Loading the YAML configuration (`ParseYAML` in pkg/config.go; `ParseYaml` in
 * main.go is the same code). Reading the file and YAML decoding are foreign; the
 * model starts from what they produced and states the validation that follows.
 */
module ConfigLoader {
  import opened Wrappers
  import opened Types

  /** What `ioutil.ReadFile` followed by `yaml.Unmarshal` produced. */
  datatype Decoded =
    | ReadError(readMsg: string)
    | UnmarshalError(yamlMsg: string)
    | Decoded(apollonator: Config)

  datatype ConfigError =
    | ReadFailed(readMsg: string)
    | UnmarshalFailed(yamlMsg: string)
    | MissingAPIKey
    | MissingOrganization

  /** The text of each error as the program reports it. */
  function Message(e: ConfigError): string
  {
    match e
    case ReadFailed(m) => m
    case UnmarshalFailed(m) => m
    case MissingAPIKey => "missing API key in the configuration"
    case MissingOrganization => "missing Organization in the configuration"
  }

  /** Go's `(Config, error)` result pair. */
  datatype ConfigReturn = ConfigReturn(config: Config, err: Option<ConfigError>)

  /** The two fields the loader insists on. */
  predicate HasRequiredFields(c: Config)
  {
    c.apiKey != "" && c.organization != ""
  }

  /**
   * Validates the decoded `apollonator` section: read and decode errors pass
   * through, then an empty API key is reported, then an empty organization.
   */
  function ParseYAML(input: Decoded): (r: ConfigReturn)
    ensures r.err.Some? ==> r.config == ZeroConfig
    ensures r.err.None? <==> input.Decoded? && HasRequiredFields(input.apollonator)
    ensures r.err.None? ==> r.config == input.apollonator
    ensures input.ReadError? ==> r.err == Some(ReadFailed(input.readMsg))
    ensures input.UnmarshalError? ==> r.err == Some(UnmarshalFailed(input.yamlMsg))
    ensures input.Decoded? && input.apollonator.apiKey == "" ==> r.err == Some(MissingAPIKey)
    ensures input.Decoded? && input.apollonator.apiKey != "" && input.apollonator.organization == "" ==>
              r.err == Some(MissingOrganization)
  {
    match input
    case ReadError(m) => ConfigReturn(ZeroConfig, Some(ReadFailed(m)))
    case UnmarshalError(m) => ConfigReturn(ZeroConfig, Some(UnmarshalFailed(m)))
    case Decoded(c) =>
      if c.apiKey == "" then ConfigReturn(ZeroConfig, Some(MissingAPIKey))
      else if c.organization == "" then ConfigReturn(ZeroConfig, Some(MissingOrganization))
      else ConfigReturn(c, None)
  }

  /**
   * The `email` and `title` flags are never validated: changing them changes
   * neither the verdict nor anything else in the returned configuration.
   */
  lemma FlagsNotValidated(c: Config, email: bool, title: bool)
    ensures ParseYAML(Decoded(c.(email := email, title := title))).err == ParseYAML(Decoded(c)).err
    ensures ParseYAML(Decoded(c)).err.None? ==>
              ParseYAML(Decoded(c.(email := email, title := title))).config ==
              ParseYAML(Decoded(c)).config.(email := email, title := title)
  {
  }

  /** A configuration with neither key nor organization reports the missing key. */
  lemma KeyCheckedFirst(c: Config)
    requires c.apiKey == "" && c.organization == ""
    ensures Message(ParseYAML(Decoded(c)).err.value) == "missing API key in the configuration"
  {
  }
}
