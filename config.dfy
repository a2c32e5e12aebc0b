/**
 * The build-time environment both network-facing components read
 * (`import.meta.env`): the development flag, the deployed API base URL and
 * the API key. Each may be absent, in which case JavaScript sees `undefined`.
 */
module Config {
  import opened Wrappers
  import Js

  datatype Env = Env(devMode: Option<string>, apiUrl: Option<string>, apiKey: Option<string>)

  /** The fixed endpoint used in development mode. */
  const LocalUrl := "http://localhost:8000"

  /** The base URL: the local endpoint exactly when the flag is the string "true", otherwise the configured one. */
  function BaseUrl(env: Env): (url: string)
    ensures env.devMode == Some("true") ==> url == LocalUrl
    ensures env.devMode != Some("true") && env.apiUrl.Some? ==> url == env.apiUrl.value
    ensures env.devMode != Some("true") && env.apiUrl.None? ==> url == "undefined"
  {
    if env.devMode == Some("true") then LocalUrl else Js.Stringify(env.apiUrl)
  }

  /** The `Authorization` header value sent with every request. */
  function Bearer(env: Env): (h: string)
    ensures |h| >= 7 && h[..7] == "Bearer "
    ensures h[7..] == Js.Stringify(env.apiKey)
  {
    "Bearer " + Js.Stringify(env.apiKey)
  }
}
