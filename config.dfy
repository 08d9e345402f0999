/** The environment variables the core reads from `process.env`. */
module Config {
  import opened Wrappers

  /** `process.env`, restricted to the variables the core reads; `None` is `undefined`. */
  datatype Env = Env(
    pineconeApiKey: Option<string>,
    pineconeIndex: Option<string>,
    deepseekApiKey: Option<string>,
    deepseekBaseUrl: Option<string>,
    llmModel: Option<string>,
    deepseekModel: Option<string>)

  /** JavaScript truthiness of a string-or-undefined: set and not empty. */
  predicate Truthy(v: Option<string>) {
    v.Some? && v.value != ""
  }
}
