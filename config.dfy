/** Start-up configuration: the listen address and the scrape path, taken from
    the environment with a default for each when the variable is empty. The
    environment values are plain inputs; an unset variable reads as "". */
module Config {

  const DefaultPort: string := ":8080"
  const DefaultPath: string := "/metrics"

  datatype Settings = Settings(port: string, path: string)

  /** An empty value is replaced by the fallback; any other value is kept. */
  function OrDefault(value: string, fallback: string): (r: string)
    ensures value != "" ==> r == value
    ensures value == "" ==> r == fallback
    ensures fallback != "" ==> r != ""
  {
    if value == "" then fallback else value
  }

  /** The settings computed at start-up from EXPORTER_PORT and EXPORTER_PATH. */
  function Load(envPort: string, envPath: string): (c: Settings)
    ensures c.port != "" && c.path != ""
    ensures c.port == envPort || (envPort == "" && c.port == DefaultPort)
    ensures c.path == envPath || (envPath == "" && c.path == DefaultPath)
  {
    Settings(OrDefault(envPort, DefaultPort), OrDefault(envPath, DefaultPath))
  }

  /** A setting is the variable's own value exactly when that value is
      non-empty: both directions for both settings. */
  lemma LoadUsesDefaultExactlyWhenEmpty(envPort: string, envPath: string)
    ensures (Load(envPort, envPath).port == envPort) <==> envPort != ""
    ensures (Load(envPort, envPath).path == envPath) <==> envPath != ""
  {
  }
}
