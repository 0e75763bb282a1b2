/** The three user settings the content script reads once at startup. */
module Settings {

  /** adSpeed is the configured ad playback rate; autoSkip enables the skip/next
      attempt; useMaxAdSpeed forces the maximum rate instead of adSpeed. */
  datatype Config = Config(adSpeed: real, autoSkip: bool, useMaxAdSpeed: bool)

  /** The values used when the store holds nothing usable. */
  const DefaultAdSpeed: real := 4.0
  const DefaultConfig: Config := Config(DefaultAdSpeed, true, true)
}
