/** The login-marker test of `DreaminaService.check_authentication`. */
module Auth {
  import Text

  const LoginMarkers: seq<string> := ["sign in", "log in", "login"]

  /** The page asks its visitor to log in: its lowercased source holds a marker. */
  predicate ShowsLoginPrompt(page: string) {
    var lower := Text.Lower(page);
    Text.Contains(lower, "sign in") || Text.Contains(lower, "log in") || Text.Contains(lower, "login")
  }

  /** The session counts as authenticated exactly when the page shows no login prompt. */
  predicate Authenticated(page: string) {
    !ShowsLoginPrompt(page)
  }

  /** The test reads the page case-insensitively: a stretch of the page, in any
      mix of cases, that spells a marker makes the page a login prompt, and every
      login prompt holds such a stretch. */
  lemma LoginPromptIffMarkerSlice(page: string)
    ensures ShowsLoginPrompt(page) <==>
              exists i, j :: 0 <= i <= j <= |page| && Text.Lower(page[i..j]) in LoginMarkers
  {
    var lower := Text.Lower(page);
    if ShowsLoginPrompt(page) {
      var m :| m in LoginMarkers && Text.Contains(lower, m);
      var i := Text.ContainsWitness(lower, m);
      Text.LowerSlice(page, i, i + |m|);
      assert Text.Lower(page[i..i + |m|]) in LoginMarkers;
    }
    if exists i, j :: 0 <= i <= j <= |page| && Text.Lower(page[i..j]) in LoginMarkers {
      var i, j :| 0 <= i <= j <= |page| && Text.Lower(page[i..j]) in LoginMarkers;
      var m := Text.Lower(page[i..j]);
      Text.LowerSlice(page, i, j);
      Text.ContainsAt(lower, m, i);
    }
  }

  /** Lowercasing the page first changes nothing. */
  lemma CaseInsensitive(page: string)
    ensures ShowsLoginPrompt(Text.Lower(page)) == ShowsLoginPrompt(page)
  {
    Text.LowerIdempotent(page);
  }
}
