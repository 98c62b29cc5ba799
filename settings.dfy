/** The tracer's module-level settings, passed explicitly instead of read from
    mutable globals. */
module Settings {

  /** `CAMOUFLAGE_SIGN`, `SHORTEN_ENABLED`, `SHORTEN_SIGN`, `SHORTEN_MAX_LENGTH`
      and `NESTED_DICT_DEPTH_MAX`. */
  datatype Config = Config(
    camouflageSign: string,
    shortenEnabled: bool,
    shortenSign: string,
    shortenMaxLength: int,
    nestedDictDepthMax: int)

  /** The values the module starts with. */
  const Defaults := Config("******", true, "...", 80, 15)

  /** The marker of a sensitive name; fixed in the code, not a setting. */
  const PrivPrefix := "priv_"

  /** What a declared argument that no longer exists is logged as. */
  const Missing := "<MISSING>"
}
