/**
 * The records the tool passes between its parts: the `apollonator` section of
 * the YAML configuration, one enriched person, and what one people-match
 * request to the Apollo API comes back with.
 */
module Types {

  /** The `apollonator` section of the configuration file. */
  datatype Config = Config(apiKey: string, organization: string, email: bool, title: bool)

  /** Go's zero value `Config{}`, returned beside every error. */
  const ZeroConfig := Config("", "", false, false)

  /** One output record; its fields are the six spreadsheet columns, in order. */
  datatype PersonData = PersonData(
    firstName: string,
    lastName: string,
    organization: string,
    email: string,
    domain: string,
    title: string)

  /**
   * The outcome of one call of `ApolloRequester`: the person's email and title
   * from a decoded 200 response, any other failure (transport, JSON, non-200
   * status), or the HTTP 429 rate limit.
   */
  datatype Response = Found(email: string, title: string) | Failed(reason: string) | RateLimited

  /**
   * The Apollo people-match API as seen by the tool: a lookup of one first and
   * last name under the configured key and organization.
   */
  type Requester = (Config, string, string) -> Response
}
