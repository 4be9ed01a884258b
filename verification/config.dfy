/** The configuration values the core reads, as a record, with the defaults
    the settings class declares. Loading them from the environment is not modelled. */
module Config {

  datatype Settings = Settings(
    openaiModel: string,
    openaiMaxTokens: int,
    maxFileSize: int,
    allowedExtensions: seq<string>,
    /** The float rendering of `max_file_size / (1024 * 1024)` used in the
        oversize message, given as its own string rather than computed. */
    maxFileSizeMb: string)

  /** `openai_model`, `openai_max_tokens`, `max_file_size` (10 MiB) and `allowed_extensions`. */
  const Defaults := Settings("gpt-4o-mini", 4000, 10 * 1024 * 1024, [".pdf"], "10.0")
}
