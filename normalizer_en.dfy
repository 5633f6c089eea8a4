/** `NormalizerEN.token_transform`: irregular verb and noun forms replaced by their base forms. */
module NormalizerEN {

  /**
   * The verb table is consulted first, then the noun table; a token in neither is
   * returned as it is.
   */
  function TokenTransform(token: string, irregVerbs: map<string, string>, irregNouns: map<string, string>): (r: string)
    ensures token in irregVerbs ==> r == irregVerbs[token]
    ensures token !in irregVerbs && token in irregNouns ==> r == irregNouns[token]
    ensures token !in irregVerbs && token !in irregNouns ==> r == token
    ensures r in irregVerbs.Values || r in irregNouns.Values || r == token
  {
    if token in irregVerbs then irregVerbs[token]
    else if token in irregNouns then irregNouns[token]
    else token
  }
}
