/** The request handler of trendstory/server.py: the allow-lists built at
    start-up, the ordered validation of a GenerateStory request, and the
    fetch-and-generate step with its single INTERNAL error.

    `context.abort(code, details)` ends the handler; here it is the
    returned `Abort(code, details)`. The three collaborators (the Google
    Trends client, the YouTube client, the script generator) are
    parameters, and the handler reports the calls it makes in `calls`. */
module Server {
  import opened PyValues
  import opened PyStrings
  import Logic
  import PyLists

  // =====================================================================
  // Allow-lists (module level, built once at start-up)

  /** VALID_REGIONS: the str codes of the region map fetched at start-up,
      or the empty set when fetching it raised (fail closed). A key that is
      not a str can never equal a request's region, so membership is the
      same without it; Python keeps such keys in the set, and so in the
      rejection message, which this model does not. */
  function RegionAllowlist(fetched: Result<map<Json, Json>>): (r: set<string>)
    ensures fetched.Err? ==> r == {}
    ensures fetched.Ok? ==> forall code :: code in r <==> JStr(code) in fetched.value
  {
    match fetched
    case Err(_) => {}
    case Ok(m) => set k | k in m && k.JStr? :: k.s
  }

  /** VALID_REGIONS from what the i18nRegions request returned or raised:
      any failure of the fetch, including one malformed item, leaves it
      empty; otherwise it holds exactly the str codes of the items. */
  function ValidRegions(response: Result<Json>): (r: set<string>)
    ensures response.Err? ==> r == {}
    ensures response.Ok? && !response.value.JObj? ==> r == {}
    ensures response.Ok? && response.value.JObj? && "items" !in response.value.fields ==> r == {}
    ensures response.Ok? && response.value.JObj? && "items" in response.value.fields
            && response.value.fields["items"].JArr? ==>
              var items := response.value.fields["items"].items;
              && ((exists k :: 0 <= k < |items| && Logic.RegionEntry(items[k]).Err?) ==> r == {})
              && ((forall k :: 0 <= k < |items| ==> Logic.RegionEntry(items[k]).Ok?) ==>
                    forall code :: code in r <==>
                      exists k :: 0 <= k < |items| && Logic.RegionEntry(items[k]).Ok? && Logic.RegionEntry(items[k]).value.0 == JStr(code))
  {
    RegionAllowlist(Logic.FetchYouTubeRegions(response))
  }

  /** VALID_THEMES: `set(config.get("themes", []))` for the loaded YAML
      document. Only a dict has `.get`; building a set of unhashable items
      raises; a str gives the set of its characters and a dict its keys.
      Items that are not str can never equal a request's theme, so
      membership is the same without them; Python keeps them in the set,
      and so in the rejection message, which this model does not. */
  function ThemeAllowlist(config: Json): (r: Result<set<string>>)
    ensures config.JObj? && "themes" !in config.fields ==> r == Ok({})
    ensures config.JObj? && "themes" in config.fields && config.fields["themes"].JArr? ==>
              var xs := config.fields["themes"].items;
              && (r.Ok? <==> forall k :: 0 <= k < |xs| ==> Hashable(xs[k]))
              && (r.Ok? ==> forall t :: t in r.value <==> JStr(t) in xs)
    ensures !config.JObj? ==> r == Err(AttributeError)
  {
    match config
    case JObj(m) =>
      if "themes" !in m then Ok({})  // the default [] gives the empty set
      else
      (match m["themes"]
       case JArr(xs) =>
         if forall k :: 0 <= k < |xs| ==> Hashable(xs[k])
         then Ok(set k | 0 <= k < |xs| && xs[k].JStr? :: xs[k].s)
         else Err(TypeError)
       case JStr(s) => Ok(set k | 0 <= k < |s| :: [s[k]])
       case JObj(d) => Ok(d.Keys)
       case _ => Err(TypeError))
    case _ => Err(AttributeError)
  }

  /** Whatever the i18nRegions request raised, every region is unknown. */
  lemma RegionFetchFailureFailsClosed(e: Exception)
    ensures ValidRegions(Err(e)) == {}
  {
  }

  // =====================================================================
  // Validation

  datatype StatusCode = InvalidArgument | Internal

  /** A GenerateRequest as received; an unset field arrives as "", 0 or 0.0. */
  datatype GenerateRequest = GenerateRequest(
    theme: string, regionCode: string, topN: int, temperature: real, source: string)

  /** The outcome of the guards: the request passes, or the first guard
      that fires aborts with its code and message. */
  datatype Verdict = Pass | Fail(code: StatusCode, msg: string)

  const TopNPositive := "top_n must be > 0"
  const ThemeRequired := "Theme must be provided"
  const RegionRequired := "Region code must be provided"
  const TopNRequired := "top_n must be provided"
  const TemperatureRequired := "temperature must be provided"
  const SourceRequired := "source must be provided"
  const SourceUnknown := "source must be one of: 'google', 'youtube'"
  const TopNTooLarge := "top_n must be <= 20"
  const TemperatureRange := "temperature must be between 0.0 and 1.0"
  const InternalError := "Internal server error"

  const Sources: set<string> := {"google", "youtube"}

  /** f"region_code must be one of: {sorted(VALID_REGIONS)}" */
  function RegionMessage(regions: set<string>): string {
    "region_code must be one of: " + ListRepr(Sorted(regions))
  }

  /** f"theme must be one of: {VALID_THEMES}" */
  function ThemeMessage(themes: set<string>): string {
    "theme must be one of: " + SetRepr(themes)
  }

  /** What a request must satisfy to get past every guard: a count in
      1..20, a temperature in (0, 1], a known source, a non-empty region and
      theme that are in their allow-lists. */
  predicate Admissible(req: GenerateRequest, regions: set<string>, themes: set<string>) {
    && 1 <= req.topN <= 20
    && 0.0 < req.temperature <= 1.0
    && req.source in Sources
    && req.regionCode != "" && req.regionCode in regions
    && req.theme != "" && req.theme in themes
  }

  /** The guards of GenerateStory, in the order of the source. A zero
      temperature counts as not provided; the `not request.top_n` guard
      comes after `top_n <= 0` and so never fires. */
  function Validate(req: GenerateRequest, regions: set<string>, themes: set<string>): (v: Verdict)
    ensures v.Pass? <==> Admissible(req, regions, themes)
    ensures v.Fail? ==> v.code == InvalidArgument
    ensures req.topN <= 0 ==> v == Fail(InvalidArgument, TopNPositive)
    ensures v.Fail? ==> v.msg != TopNRequired
  {
    if req.topN <= 0 then Fail(InvalidArgument, TopNPositive)
    else if req.theme == "" then Fail(InvalidArgument, ThemeRequired)
    else if req.regionCode == "" then Fail(InvalidArgument, RegionRequired)
    else if req.topN == 0 then Fail(InvalidArgument, TopNRequired)
    else if req.temperature == 0.0 then Fail(InvalidArgument, TemperatureRequired)
    else if req.source == "" then Fail(InvalidArgument, SourceRequired)
    else if req.source !in Sources then Fail(InvalidArgument, SourceUnknown)
    else if req.topN > 20 then Fail(InvalidArgument, TopNTooLarge)
    else if req.temperature < 0.0 || req.temperature > 1.0 then Fail(InvalidArgument, TemperatureRange)
    else if req.regionCode !in regions then Fail(InvalidArgument, RegionMessage(regions))
    else if req.theme !in themes then Fail(InvalidArgument, ThemeMessage(themes))
    else Pass
  }

  // ---------------------------------------------------------------------
  // The guards as a table: the first one that fires decides

  /** Each guard of the handler as (fires, message), in source order. */
  function Guards(req: GenerateRequest, regions: set<string>, themes: set<string>): seq<(bool, string)> {
    [ (req.topN <= 0, TopNPositive),
      (req.theme == "", ThemeRequired),
      (req.regionCode == "", RegionRequired),
      (req.topN == 0, TopNRequired),
      (req.temperature == 0.0, TemperatureRequired),
      (req.source == "", SourceRequired),
      (req.source !in Sources, SourceUnknown),
      (req.topN > 20, TopNTooLarge),
      (req.temperature < 0.0 || req.temperature > 1.0, TemperatureRange),
      (req.regionCode !in regions, RegionMessage(regions)),
      (req.theme !in themes, ThemeMessage(themes)) ]
  }

  /** The verdict of the guards from index i on, evaluated in order with
      early exit. */
  function FirstFiring(guards: seq<(bool, string)>, i: nat): Verdict
    decreases |guards| - i
  {
    if i >= |guards| then Pass
    else if guards[i].0 then Fail(InvalidArgument, guards[i].1)
    else FirstFiring(guards, i + 1)
  }

  /** Evaluating guards in order stops at the first that fires: its message
      is the outcome, whatever the later guards say. */
  lemma {:induction false} FirstFiringAt(guards: seq<(bool, string)>, i: nat, k: int)
    requires i <= k < |guards| && guards[k].0
    requires forall j :: i <= j < k ==> !guards[j].0
    ensures FirstFiring(guards, i) == Fail(InvalidArgument, guards[k].1)
    decreases k - i
  {
    if i < k {
      FirstFiringAt(guards, i + 1, k);
    }
  }

  /** The guards from index i on let a request pass exactly when none of
      them fires. */
  lemma {:induction false} FirstFiringPasses(guards: seq<(bool, string)>, i: nat)
    ensures FirstFiring(guards, i) == Pass <==> forall j :: i <= j < |guards| ==> !guards[j].0
    decreases |guards| - i
  {
    if i < |guards| {
      FirstFiringPasses(guards, i + 1);
    }
  }

  /** A request passes exactly when none of the handler's guards fires. */
  lemma PassesExactlyWhenNoGuardFires(req: GenerateRequest, regions: set<string>, themes: set<string>)
    ensures Validate(req, regions, themes) == Pass <==>
              forall j :: 0 <= j < |Guards(req, regions, themes)| ==> !Guards(req, regions, themes)[j].0
  {
    ValidateFollowsGuards(req, regions, themes);
    FirstFiringPasses(Guards(req, regions, themes), 0);
  }

  /** An earlier failing check always determines the outcome: if guard k is
      the first to fire, the request fails with guard k's message. */
  lemma EarliestGuardDecides(req: GenerateRequest, regions: set<string>, themes: set<string>, k: int)
    requires 0 <= k < |Guards(req, regions, themes)| && Guards(req, regions, themes)[k].0
    requires forall j :: 0 <= j < k ==> !Guards(req, regions, themes)[j].0
    ensures Validate(req, regions, themes) == Fail(InvalidArgument, Guards(req, regions, themes)[k].1)
  {
    FirstFiringAt(Guards(req, regions, themes), 0, k);
    ValidateFollowsGuards(req, regions, themes);
  }

  /** The handler's if-chain and the table of guards agree on every request. */
  lemma ValidateFollowsGuards(req: GenerateRequest, regions: set<string>, themes: set<string>)
    ensures Validate(req, regions, themes) == FirstFiring(Guards(req, regions, themes), 0)
  {
    var g := Guards(req, regions, themes);
    assert FirstFiring(g, 11) == Pass;
    assert FirstFiring(g, 10) == if g[10].0 then Fail(InvalidArgument, g[10].1) else FirstFiring(g, 11);
    assert FirstFiring(g, 9) == if g[9].0 then Fail(InvalidArgument, g[9].1) else FirstFiring(g, 10);
    assert FirstFiring(g, 8) == if g[8].0 then Fail(InvalidArgument, g[8].1) else FirstFiring(g, 9);
    assert FirstFiring(g, 7) == if g[7].0 then Fail(InvalidArgument, g[7].1) else FirstFiring(g, 8);
    assert FirstFiring(g, 6) == if g[6].0 then Fail(InvalidArgument, g[6].1) else FirstFiring(g, 7);
    assert FirstFiring(g, 5) == if g[5].0 then Fail(InvalidArgument, g[5].1) else FirstFiring(g, 6);
    assert FirstFiring(g, 4) == if g[4].0 then Fail(InvalidArgument, g[4].1) else FirstFiring(g, 5);
    assert FirstFiring(g, 3) == if g[3].0 then Fail(InvalidArgument, g[3].1) else FirstFiring(g, 4);
    assert FirstFiring(g, 2) == if g[2].0 then Fail(InvalidArgument, g[2].1) else FirstFiring(g, 3);
    assert FirstFiring(g, 1) == if g[1].0 then Fail(InvalidArgument, g[1].1) else FirstFiring(g, 2);
    assert FirstFiring(g, 0) == if g[0].0 then Fail(InvalidArgument, g[0].1) else FirstFiring(g, 1);
  }

  // ---------------------------------------------------------------------
  // The rules the tests exercise

  /** With a positive count, an empty theme is reported first, then an
      empty region code. */
  lemma ThemeThenRegionRequired(req: GenerateRequest, regions: set<string>, themes: set<string>)
    requires req.topN > 0
    ensures req.theme == "" ==> Validate(req, regions, themes) == Fail(InvalidArgument, ThemeRequired)
    ensures req.theme != "" && req.regionCode == "" ==>
              Validate(req, regions, themes) == Fail(InvalidArgument, RegionRequired)
  {
  }

  /** Temperature: 0.0 reads as unset; past the source and count checks any
      other value outside [0, 1] is out of range; 1.0 is accepted. */
  lemma TemperatureRules(req: GenerateRequest, regions: set<string>, themes: set<string>)
    requires req.topN > 0 && req.theme != "" && req.regionCode != ""
    ensures req.temperature == 0.0 ==> Validate(req, regions, themes) == Fail(InvalidArgument, TemperatureRequired)
    ensures req.temperature != 0.0 && req.source in Sources && req.topN <= 20 && (req.temperature < 0.0 || req.temperature > 1.0) ==>
              Validate(req, regions, themes) == Fail(InvalidArgument, TemperatureRange)
    ensures req.temperature == 1.0 && req.source in Sources && req.topN <= 20
            && req.regionCode in regions && req.theme in themes ==>
              Validate(req, regions, themes) == Pass
  {
  }

  /** Source: past the earlier guards an empty source is "not provided" and
      any other unknown source is rejected, before the count, range and
      allow-list checks are reached. */
  lemma SourceRules(req: GenerateRequest, regions: set<string>, themes: set<string>)
    requires req.topN > 0 && req.theme != "" && req.regionCode != "" && req.temperature != 0.0
    ensures req.source == "" ==> Validate(req, regions, themes) == Fail(InvalidArgument, SourceRequired)
    ensures req.source != "" && req.source !in Sources ==>
              Validate(req, regions, themes) == Fail(InvalidArgument, SourceUnknown)
  {
  }

  /** Allow-lists: once the earlier guards pass, an unknown region is
      reported (before the theme) with a message that starts
      "region_code must be one of", then an unknown theme with one that
      starts "theme must be one of". */
  lemma AllowListRules(req: GenerateRequest, regions: set<string>, themes: set<string>)
    requires 1 <= req.topN <= 20 && req.theme != "" && req.regionCode != ""
    requires 0.0 < req.temperature <= 1.0 && req.source in Sources
    ensures req.regionCode !in regions ==>
              && Validate(req, regions, themes) == Fail(InvalidArgument, RegionMessage(regions))
              && "region_code must be one of" <= Validate(req, regions, themes).msg
    ensures req.regionCode in regions && req.theme !in themes ==>
              && Validate(req, regions, themes) == Fail(InvalidArgument, ThemeMessage(themes))
              && "theme must be one of" <= Validate(req, regions, themes).msg
  {
  }

  /** With an empty region allow-list no request passes. */
  lemma EmptyRegionsRejectAll(req: GenerateRequest, themes: set<string>)
    ensures Validate(req, {}, themes).Fail?
  {
  }

  // =====================================================================
  // GenerateStory

  /** What the caller receives: a response, or the status of the abort. */
  datatype Reply = Response(script: string) | Abort(code: StatusCode, details: string)

  /** A call the handler makes to a collaborator, with its arguments. */
  datatype Call =
    | GoogleTrendsCall(regionCode: string, topN: int)
    | YouTubeTrendingCall(regionCode: string, maxResults: int)
    | GenerateCall(theme: string, topics: seq<string>, temperature: real)

  /** The reply for the generator's outcome: its script, or the opaque
      internal error that hides what went wrong. */
  function ReplyFor(generated: Result<string>): Reply {
    match generated
    case Ok(script) => Response(script)
    case Err(_) => Abort(Internal, InternalError)
  }

  /** `StoryServiceServicer.GenerateStory`: a rejected request aborts with
      INVALID_ARGUMENT and calls nothing; an admitted one calls only the
      fetcher its source names, with (region_code, top_n), hands
      (theme, topics, temperature) to the generator and returns its script;
      an exception from either becomes INTERNAL "Internal server error". */
  method GenerateStory(
    req: GenerateRequest, regions: set<string>, themes: set<string>,
    googleTrends: (string, int) -> Result<seq<string>>,
    youtubeTrending: (string, int) -> Result<seq<string>>,
    generate: (string, seq<string>, real) -> Result<string>)
    returns (reply: Reply, calls: seq<Call>)
    ensures Validate(req, regions, themes).Fail? ==>
              reply == Abort(InvalidArgument, Validate(req, regions, themes).msg) && calls == []
    ensures calls != [] ==> Admissible(req, regions, themes)
    ensures reply.Abort? && reply.code == Internal ==> reply.details == InternalError
    ensures Admissible(req, regions, themes) && req.source == "google" ==>
              var fetched := googleTrends(req.regionCode, req.topN);
              if fetched.Err? then
                reply == Abort(Internal, InternalError) && calls == [GoogleTrendsCall(req.regionCode, req.topN)]
              else
                && calls == [GoogleTrendsCall(req.regionCode, req.topN),
                             GenerateCall(req.theme, fetched.value, req.temperature)]
                && reply == ReplyFor(generate(req.theme, fetched.value, req.temperature))
    ensures Admissible(req, regions, themes) && req.source == "youtube" ==>
              var fetched := youtubeTrending(req.regionCode, req.topN);
              if fetched.Err? then
                reply == Abort(Internal, InternalError) && calls == [YouTubeTrendingCall(req.regionCode, req.topN)]
              else
                && calls == [YouTubeTrendingCall(req.regionCode, req.topN),
                             GenerateCall(req.theme, fetched.value, req.temperature)]
                && reply == ReplyFor(generate(req.theme, fetched.value, req.temperature))
  {
    calls := [];
    var verdict := Validate(req, regions, themes);
    if verdict.Fail? {
      return Abort(verdict.code, verdict.msg), calls;
    }
    var topics: seq<string> := [];
    if req.source in {"google"} {
      calls := calls + [GoogleTrendsCall(req.regionCode, req.topN)];
      var gt := googleTrends(req.regionCode, req.topN);
      if gt.Err? {
        return Abort(Internal, InternalError), calls;
      }
      assert topics + gt.value == gt.value;
      topics := topics + gt.value;
    }
    if req.source in {"youtube"} {
      calls := calls + [YouTubeTrendingCall(req.regionCode, req.topN)];
      var yt := youtubeTrending(req.regionCode, req.topN);
      if yt.Err? {
        return Abort(Internal, InternalError), calls;
      }
      assert topics + yt.value == yt.value;
      topics := topics + yt.value;
    }
    calls := calls + [GenerateCall(req.theme, topics, req.temperature)];
    var script := generate(req.theme, topics, req.temperature);
    if script.Err? {
      return Abort(Internal, InternalError), calls;
    }
    reply := Response(script.value);
  }

  /** GenerateStory with the Google Trends client of trendstory/logic.py in
      place of the stub: a request for source "google" hands the generator
      distinct lower-case terms, at most top_n of them, hence at most 20. */
  method GenerateStoryWithGoogleClient(
    req: GenerateRequest, regions: set<string>, themes: set<string>,
    post: (string, string) -> Result<Logic.HttpResponse>, decode: string -> Option<Json>,
    youtubeTrending: (string, int) -> Result<seq<string>>,
    generate: (string, seq<string>, real) -> Result<string>)
    returns (reply: Reply, calls: seq<Call>)
    ensures req.source == "google" ==>
              forall c :: c in calls && c.GenerateCall? ==>
                PyLists.NoDups(c.topics) && |c.topics| <= req.topN <= 20
                && forall t :: t in c.topics ==> Logic.IsLowered(t)
  {
    reply, calls := GenerateStory(req, regions, themes,
      (region, topN) => Logic.GoogleTrends(post, decode, region, topN),
      youtubeTrending, generate);
    Logic.GoogleTrendsSpec(post, decode, req.regionCode, req.topN);
  }
}
