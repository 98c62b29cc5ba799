/** Shortening of long string values before they are logged. */
module Shortening {
  import opened Settings
  import opened PyStrings
  import opened Values

  /** `__shorten_string`: a string longer than the limit is cut and ends with the
      shortening sign; every other value is returned as it is. */
  function ShortenString(cfg: Config, v: Value): (r: Value)
    ensures !cfg.shortenEnabled || !v.Str? || |v.s| <= cfg.shortenMaxLength ==> r == v
    ensures r.Str? <==> v.Str?
    ensures
      var max, sign := cfg.shortenMaxLength, cfg.shortenSign;
      cfg.shortenEnabled && v.Str? && |v.s| > max && max >= |sign| ==>
        && |r.s| == max
        && r.s[max - |sign|..] == sign
        && r.s[..max - |sign|] == v.s[..max - |sign|]
  {
    if !cfg.shortenEnabled then v
    else if !v.Str? then v
    else if |v.s| <= cfg.shortenMaxLength then v
    else Str(SliceTo(v.s, cfg.shortenMaxLength - |cfg.shortenSign|) + cfg.shortenSign)
  }

  /** With a limit shorter than the sign, the cut index is negative and Python
      counts it from the end: the string loses its last `|sign| - max`
      characters and then gains the sign, so it may come out longer than it was. */
  lemma ShortenBelowSign(cfg: Config, s: string)
    requires cfg.shortenEnabled && |s| > cfg.shortenMaxLength
    requires cfg.shortenMaxLength < |cfg.shortenSign|
    ensures
      var max, sign := cfg.shortenMaxLength, cfg.shortenSign;
      var keep := if |s| + max - |sign| >= 0 then |s| + max - |sign| else 0;
      ShortenString(cfg, Str(s)) == Str(s[..keep] + sign)
  {
  }

  /** Shortening under a limit at least as long as the sign never lengthens a
      value, changes a string exactly when it is longer than the limit, and
      shortening twice is the same as shortening once. */
  lemma ShortenStable(cfg: Config, v: Value)
    requires cfg.shortenMaxLength >= |cfg.shortenSign|
    ensures v.Str? ==> |ShortenString(cfg, v).s| <= |v.s|
    ensures v.Str? && cfg.shortenEnabled ==> (ShortenString(cfg, v) == v <==> |v.s| <= cfg.shortenMaxLength)
    ensures ShortenString(cfg, ShortenString(cfg, v)) == ShortenString(cfg, v)
  {
  }

  /** An 85-character string under the default settings becomes its first 77
      characters followed by "...". */
  lemma ShortenDefaultExample()
    ensures
      var s := seq(85, _ => 'b');
      ShortenString(Defaults, Str(s)) == Str(seq(77, _ => 'b') + "...")
  {
    var s := seq(85, _ => 'b');
    assert s[..77] == seq(77, _ => 'b');
  }
}
