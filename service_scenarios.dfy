/** The request scenarios of tests/test_service.py, stated and proved against the model of
    the handler with the same stubbed collaborators and the allow-lists
    REGIONS = {"US", "GB"} and THEMES = {"comedy", "drama"}. */
module ServiceScenarios {
  import opened PyValues
  import opened PyStrings
  import opened Server

  const TestRegions: set<string> := {"US", "GB"}
  const TestThemes: set<string> := {"comedy", "drama"}

  /** The stubs of the success test: Google yields ["one", "two"], YouTube
      ["yt1"], the generator "SCRIPT". */
  method HandleWithStubs(req: GenerateRequest) returns (reply: Reply, calls: seq<Call>)
    ensures Validate(req, TestRegions, TestThemes).Fail? ==>
              reply == Abort(InvalidArgument, Validate(req, TestRegions, TestThemes).msg) && calls == []
    ensures Validate(req, TestRegions, TestThemes).Pass? ==> reply == Response("SCRIPT")
  {
    reply, calls := GenerateStory(req, TestRegions, TestThemes,
      (region, topN) => Ok(["one", "two"]),
      (region, maxResults) => Ok(["yt1"]),
      (theme, topics, temp) => Ok("SCRIPT"));
  }

  /** test_generate_success: the generator's script comes back, after one
      call to the Google fetcher with ("US", 2) and one to the generator
      with the fetched topics. */
  method GenerateSuccess() returns (reply: Reply, calls: seq<Call>)
    ensures reply == Response("SCRIPT")
    ensures calls == [GoogleTrendsCall("US", 2), GenerateCall("comedy", ["one", "two"], 0.5)]
  {
    reply, calls := GenerateStory(GenerateRequest("comedy", "US", 2, 0.5, "google"), TestRegions, TestThemes,
      (region, topN) => Ok(["one", "two"]),
      (region, maxResults) => Ok(["yt1"]),
      (theme, topics, temp) => Ok("SCRIPT"));
  }

  /** test_generate_invalid_top_n. */
  method InvalidTopN() returns (reply: Reply)
    ensures reply == Abort(InvalidArgument, "top_n must be > 0")
  {
    var calls;
    reply, calls := HandleWithStubs(GenerateRequest("comedy", "US", 0, 0.5, "google"));
  }

  /** test_generate_missing_theme. */
  method MissingTheme() returns (reply: Reply)
    ensures reply == Abort(InvalidArgument, "Theme must be provided")
  {
    var calls;
    reply, calls := HandleWithStubs(GenerateRequest("", "US", 3, 0.5, "google"));
  }

  /** test_generate_bad_temperature: -0.1 is out of range. The second
      request of that test (1.2) sets no source, so the guard that rejects
      it is "source must be provided", which comes before the range check;
      the test only looks at the code. */
  method BadTemperature() returns (below: Reply, above: Reply)
    ensures below == Abort(InvalidArgument, "temperature must be between 0.0 and 1.0")
    ensures above == Abort(InvalidArgument, "source must be provided")
  {
    var calls;
    below, calls := HandleWithStubs(GenerateRequest("comedy", "US", 3, -0.1, "google"));
    above, calls := HandleWithStubs(GenerateRequest("comedy", "US", 3, 1.2, ""));
  }

  /** The allow-list of the tests, sorted as `sorted(VALID_REGIONS)` does. */
  lemma {:induction false} SortedTestRegions()
    ensures Sorted(TestRegions) == ["GB", "US"]
  {
    var r := Sorted(TestRegions);
    assert r[0] in TestRegions && r[1] in TestRegions && r[0] != r[1];
    assert LexLe(r[0], r[1]);
  }

  /** The tests' themes in the order the model prints a set. */
  lemma {:induction false} SortedTestThemes()
    ensures Sorted(TestThemes) == ["comedy", "drama"]
  {
    var r := Sorted(TestThemes);
    assert r[0] in TestThemes && r[1] in TestThemes && r[0] != r[1];
    assert LexLe(r[0], r[1]);
  }

  /** The text of the region rejection under the tests' allow-list. */
  lemma TestRegionMessage()
    ensures RegionMessage(TestRegions) == "region_code must be one of: " + "['GB', 'US']"
  {
    SortedTestRegions();
    assert ["GB", "US"][1..] == ["US"];
  }

  /** The tests' themes as the model prints the set. */
  lemma TestThemeRepr()
    ensures SetRepr(TestThemes) == "{'comedy', 'drama'}"
  {
    SortedTestThemes();
    assert "comedy" in TestThemes;
    assert ["comedy", "drama"][1..] == ["drama"];
  }

  /** The text of the theme rejection under the tests' allow-list. */
  lemma TestThemeMessage()
    ensures ThemeMessage(TestThemes) == "theme must be one of: " + "{'comedy', 'drama'}"
  {
    TestThemeRepr();
  }

  /** test_generate_invalid_region: the message lists the allowed codes in
      sorted order. */
  method InvalidRegion() returns (reply: Reply)
    ensures reply == Abort(InvalidArgument, "region_code must be one of: " + "['GB', 'US']")
  {
    TestRegionMessage();
    var req := GenerateRequest("comedy", "ZZ", 3, 0.5, "google");
    AllowListRules(req, TestRegions, TestThemes);
    var calls;
    reply, calls := HandleWithStubs(req);
  }

  /** test_generate_invalid_theme: the message prints the allowed themes as
      a set. */
  method InvalidTheme() returns (reply: Reply)
    ensures reply == Abort(InvalidArgument, "theme must be one of: " + "{'comedy', 'drama'}")
  {
    TestThemeMessage();
    var req := GenerateRequest("tragedy", "US", 3, 0.5, "google");
    AllowListRules(req, TestRegions, TestThemes);
    var calls;
    reply, calls := HandleWithStubs(req);
  }

  /** test_generate_internal_error: the Google fetcher raises, the caller
      sees only INTERNAL "Internal server error" and the generator is not
      called. */
  method FetchFailureIsInternal() returns (reply: Reply, calls: seq<Call>)
    ensures reply == Abort(Internal, "Internal server error")
    ensures calls == [GoogleTrendsCall("US", 2)]
  {
    reply, calls := GenerateStory(GenerateRequest("comedy", "US", 2, 0.5, "google"), TestRegions, TestThemes,
      (region, topN) => Err(RuntimeError),
      (region, maxResults) => Ok(["yt1"]),
      (theme, topics, temp) => Ok("SCRIPT"));
  }

  /** test_generate_invalid_source. */
  method InvalidSource() returns (reply: Reply)
    ensures reply == Abort(InvalidArgument, "source must be one of: 'google', 'youtube'")
  {
    var calls;
    reply, calls := HandleWithStubs(GenerateRequest("comedy", "US", 3, 0.5, "invalid"));
  }
}
