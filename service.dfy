/** `DreaminaService`: the object that holds the cookies and the browser driver,
    checks authentication and runs one image generation. */
module Service {
  import opened Wrappers
  import opened Retrying
  import Seqs
  import Text
  import Cookies
  import Auth
  import Harvest
  import Phases

  const BaseUrl := "https://dreamina.capcut.com"

  /** A running browser session, known only by its identity. */
  datatype Driver = Driver(session: nat)

  /** What `init_driver` returns: the current driver if there is one, else the
      newly launched one; a failed launch is re-raised with a prefix. */
  function Launched(current: Option<Driver>, launch: Result<Driver, Exc>): Result<Driver, Exc> {
    if current.Some? then Ok(current.value)
    else match launch
      case Ok(d) => Ok(d)
      case Err(e) => Err(Other("Failed to initialize Chrome driver: " + e.msg))
  }

  /** How the site behaves during one generation: whether setting cookies and
      opening the generate page raise, and what each attempt of each phase meets. */
  datatype Browser = Browser(
    setup: Option<Exc>,
    promptTries: nat -> Phases.PhaseTry,
    buttonTries: nat -> Phases.PhaseTry,
    polls: nat -> Phases.ImagePoll)

  /** The reasons `generate_image` reports an error. */
  datatype Failure =
    | PromptInputNotFound(cause: Exc)
    | GenerateButtonFailed(cause: Exc)
    | NoImagesFound
    | RetrieveFailed(cause: Exc)
    | GenerationError(cause: Exc)

  /** The dictionary `generate_image` returns, by its `status`. */
  datatype Response =
    | Success(prompt: string, model: string, aspectRatio: string, quality: string,
              images: seq<string>, count: nat)
    | Error(failure: Failure, message: string)

  /** The `message` text of an error response. */
  function Message(f: Failure): string {
    match f
    case PromptInputNotFound(e) =>
      "Failed to find prompt input after 3 attempts: " + e.msg + ". Please check if authentication is valid."
    case GenerateButtonFailed(e) => "Failed to click generate button after 3 attempts: " + e.msg
    case NoImagesFound => "No generated images found. Generation may still be in progress or failed."
    case RetrieveFailed(e) => "Failed to retrieve generated images: " + e.msg
    case GenerationError(e) => "Image generation error: " + e.msg
  }

  /** An error response, its `message` spelled out from the failure. */
  function Fail(f: Failure): Response {
    Error(f, Message(f))
  }

  /** Every message of a failure that has a cause quotes that cause's text. */
  lemma MessageQuotesCause(f: Failure)
    requires !f.NoImagesFound?
    ensures Text.Contains(Message(f), f.cause.msg)
  {
    var lead := match f
      case PromptInputNotFound(_) => "Failed to find prompt input after 3 attempts: "
      case GenerateButtonFailed(_) => "Failed to click generate button after 3 attempts: "
      case RetrieveFailed(_) => "Failed to retrieve generated images: "
      case GenerationError(_) => "Image generation error: ";
    var tail := if f.PromptInputNotFound? then ". Please check if authentication is valid." else "";
    assert Message(f) == lead + f.cause.msg + tail;
    assert (lead + f.cause.msg + tail)[|lead|..|lead| + |f.cause.msg|] == f.cause.msg;
    Text.ContainsAt(Message(f), f.cause.msg, |lead|);
  }

  /** How one generation ends: the image URLs, or the failure it reports. Any
      exception escaping the phases is a generation error; a phase that used up
      its attempts reports its own failure. */
  function Outcome(ready: Result<Driver, Exc>, browser: Browser): Result<seq<string>, Failure> {
    if ready.Err? then Err(GenerationError(ready.error))
    else if browser.setup.Some? then Err(GenerationError(browser.setup.value))
    else match Phases.Phase(browser.promptTries).0
      case Thrown(e) =>
        if Phases.Caught(e) then Err(PromptInputNotFound(e)) else Err(GenerationError(e))
      case Normal(_) =>
        match Phases.Phase(browser.buttonTries).0
        case Thrown(e) =>
          if Phases.Caught(e) then Err(GenerateButtonFailed(e)) else Err(GenerationError(e))
        case Normal(_) =>
          match Phases.ImagePhaseFrom(Phases.Looks(browser.polls), 0).0
          case Images(urls) => Ok(urls)
          case NoImages => Err(NoImagesFound)
          case RetrieveFailed(e) => Err(RetrieveFailed(e))
  }

  /** The dictionary `generate_image` returns: the request echoed with the URLs
      and their count, or the failure with its message. */
  function Generated(ready: Result<Driver, Exc>, browser: Browser, prompt: string,
                     aspectRatio: string, quality: string, model: string): Response
  {
    match Outcome(ready, browser)
    case Ok(urls) => Success(prompt, model, aspectRatio, quality, urls, |urls|)
    case Err(f) => Fail(f)
  }

  class DreaminaService {
    const baseUrl: string
    const cookies: Cookies.Json
    var driver: Option<Driver>

    constructor (cookies: Cookies.Json)
      requires Cookies.Truthy(cookies) && Cookies.Validate(cookies).None?
      ensures baseUrl == BaseUrl && this.cookies == cookies && driver == None
    {
      baseUrl := BaseUrl;
      this.cookies := cookies;
      driver := None;
    }

    /** `DreaminaService()`: load the cookies, fail as the loader fails. */
    static method Open(file: Cookies.AccountFile) returns (r: Result<DreaminaService, Cookies.LoadError>)
      ensures r.Err? <==> Cookies.Load(file).Err?
      ensures r.Err? ==> r.error == Cookies.Load(file).error
      ensures r.Ok? ==> fresh(r.value) && r.value.driver == None && r.value.cookies == Cookies.Load(file).value
    {
      var loaded := Cookies.LoadCookies(file);
      if loaded.Err? {
        return Err(loaded.error);
      }
      var service := new DreaminaService(loaded.value);
      return Ok(service);
    }

    /** `init_driver`: reuse the driver when there is one, else launch and keep a new one. */
    method InitDriver(launch: Result<Driver, Exc>) returns (r: Result<Driver, Exc>)
      modifies this`driver
      ensures r == Launched(old(driver), launch)
      ensures old(driver).Some? ==> driver == old(driver)
      ensures driver == if r.Ok? then Some(r.value) else None
    {
      if driver.Some? {
        return Ok(driver.value);
      }
      match launch {
        case Ok(d) =>
          driver := Some(d);
          return Ok(d);
        case Err(e) =>
          return Err(Other("Failed to initialize Chrome driver: " + e.msg));
      }
    }

    /** `close`: quit the driver, ignoring errors, and forget it. */
    method Close()
      modifies this`driver
      ensures driver == None
    {
      if driver.Some? {
        driver := None;
      }
    }

    /** `check_authentication`: false when anything raises or the page asks to log in. */
    method CheckAuthentication(launch: Result<Driver, Exc>, setup: Option<Exc>, page: string) returns (ok: bool)
      modifies this`driver
      ensures ok <==> Launched(old(driver), launch).Ok? && setup.None? && Auth.Authenticated(page)
      ensures driver == if Launched(old(driver), launch).Ok? then Some(Launched(old(driver), launch).value) else None
    {
      var d := InitDriver(launch);
      if d.Err? || setup.Some? {
        return false;
      }
      if Auth.ShowsLoginPrompt(page) {
        return false;
      }
      return true;
    }

    /** `generate_image`: enter the prompt, click generate, collect the image URLs. */
    method GenerateImage(launch: Result<Driver, Exc>, browser: Browser, prompt: string,
                         aspectRatio: string := "1:1", quality: string := "high", model: string := "image_4.0")
      returns (r: Response)
      modifies this`driver
      ensures r == Generated(Launched(old(driver), launch), browser, prompt, aspectRatio, quality, model)
      ensures driver == if Launched(old(driver), launch).Ok? then Some(Launched(old(driver), launch).value) else None
    {
      var d := InitDriver(launch);
      ghost var outcome := Outcome(d, browser);
      if d.Err? {
        return Fail(GenerationError(d.error));
      }
      if browser.setup.Some? {
        return Fail(GenerationError(browser.setup.value));
      }
      var entered, _ := Phases.LocateAndAct(browser.promptTries);
      if entered.Thrown? {
        assert outcome == Err(if Phases.Caught(entered.exc) then PromptInputNotFound(entered.exc)
                              else GenerationError(entered.exc));
        return if Phases.Caught(entered.exc) then Fail(PromptInputNotFound(entered.exc))
               else Fail(GenerationError(entered.exc));
      }
      var clicked, _ := Phases.LocateAndAct(browser.buttonTries);
      if clicked.Thrown? {
        assert outcome == Err(if Phases.Caught(clicked.exc) then GenerateButtonFailed(clicked.exc)
                              else GenerationError(clicked.exc));
        return if Phases.Caught(clicked.exc) then Fail(GenerateButtonFailed(clicked.exc))
               else Fail(GenerationError(clicked.exc));
      }
      var images, _ := Phases.PollForImages(browser.polls);
      match images {
        case Images(urls) =>
          assert outcome == Ok(urls);
          return Success(prompt, model, aspectRatio, quality, urls, |urls|);
        case NoImages =>
          assert outcome == Err(NoImagesFound);
          return Fail(NoImagesFound);
        case RetrieveFailed(e) =>
          assert outcome == Err(RetrieveFailed(e));
          return Fail(RetrieveFailed(e));
      }
    }
  }

  /** A generation that succeeds yields a non-empty list of distinct image-host
      URLs, the harvest of one look at the page. */
  lemma SucceededWithImages(ready: Result<Driver, Exc>, browser: Browser)
    requires Outcome(ready, browser).Ok?
    ensures var urls := Outcome(ready, browser).value;
            && urls != []
            && Seqs.NoDuplicates(urls)
            && (forall u :: u in urls ==> Harvest.IsGeneratedImage(u))
            && exists k :: 0 <= k < Phases.MaxRetries && browser.polls(k).Found? &&
                 Harvest.Harvested(browser.polls(k).elements) == Ok(urls)
  {
    var res := Phases.ImagePhaseFrom(Phases.Looks(browser.polls), 0);
    var k := res.1 - 1;
    var poll := browser.polls(k);
    assert Phases.Looks(browser.polls)(k) == Phases.PollOutcome(poll);
    assert Phases.PollOutcome(poll) == Ok(res.0.urls);
    assert poll.Found?;
    var dom := poll.elements;
    Harvest.HarvestedAreImages(dom);
    assert forall i :: 0 <= i < |dom| ==> !Harvest.Aborts(dom[i]);
    Harvest.HarvestComplete(dom);
  }

  /** A success response echoes the request and carries those URLs with their
      count. */
  lemma SuccessResponseWellFormed(ready: Result<Driver, Exc>, browser: Browser, prompt: string,
                                  aspectRatio: string, quality: string, model: string)
    requires Generated(ready, browser, prompt, aspectRatio, quality, model).Success?
    ensures var r := Generated(ready, browser, prompt, aspectRatio, quality, model);
            && r.images != [] && r.count == |r.images|
            && r.prompt == prompt && r.model == model && r.aspectRatio == aspectRatio && r.quality == quality
            && Seqs.NoDuplicates(r.images)
            && (forall u :: u in r.images ==> Harvest.IsGeneratedImage(u))
            && exists k :: 0 <= k < Phases.MaxRetries && browser.polls(k).Found? &&
                 Harvest.Harvested(browser.polls(k).elements) == Ok(r.images)
  {
    assert Outcome(ready, browser).Ok?;
    SucceededWithImages(ready, browser);
  }

  /** An error response carries the message of its failure, and that message
      quotes the exception behind it. */
  lemma ErrorResponseExplains(ready: Result<Driver, Exc>, browser: Browser, prompt: string,
                              aspectRatio: string, quality: string, model: string)
    requires Generated(ready, browser, prompt, aspectRatio, quality, model).Error?
    ensures var r := Generated(ready, browser, prompt, aspectRatio, quality, model);
            Outcome(ready, browser) == Err(r.failure) && r.message == Message(r.failure) &&
            (!r.failure.NoImagesFound? ==> Text.Contains(r.message, r.failure.cause.msg))
  {
    var r := Generated(ready, browser, prompt, aspectRatio, quality, model);
    if !r.failure.NoImagesFound? {
      MessageQuotesCause(r.failure);
    }
  }

  /** Error instead of images only after three looks: all fruitless, the last one
      finding nothing (no images) or raising (retrieval failure). */
  lemma ImageErrorsAfterThreeLooks(ready: Result<Driver, Exc>, browser: Browser)
    requires Outcome(ready, browser).Err?
    requires Outcome(ready, browser).error.NoImagesFound? || Outcome(ready, browser).error.RetrieveFailed?
    ensures forall j :: 0 <= j < Phases.MaxRetries ==> Phases.Fruitless(Phases.PollOutcome(browser.polls(j)))
    ensures Outcome(ready, browser).error == NoImagesFound ==>
              Phases.PollOutcome(browser.polls(Phases.MaxRetries - 1)) == Ok([])
  {
    var looks := Phases.Looks(browser.polls);
    var phase := Phases.ImagePhaseFrom(looks, 0).0;
    assert Outcome(ready, browser) == Err(if phase.NoImages? then NoImagesFound else RetrieveFailed(phase.exc));
    Phases.ImagePhaseFailsAfterAllLooks(looks);
    forall j | 0 <= j < Phases.MaxRetries ensures looks(j) == Phases.PollOutcome(browser.polls(j)) {
    }
  }

  /** The prompt phase gives up with an error only after three attempts, each
      ending in a stale reference or a timeout. */
  lemma PromptErrorAfterThreeAttempts(ready: Result<Driver, Exc>, browser: Browser, e: Exc)
    requires Outcome(ready, browser) == Err(PromptInputNotFound(e))
    ensures Phases.Phase(browser.promptTries).1 == Phases.MaxRetries
    ensures forall j :: 0 <= j < Phases.MaxRetries ==>
              Phases.TryAttempt(browser.promptTries(j)).Raised? &&
              Phases.Caught(Phases.TryAttempt(browser.promptTries(j)).exc)
    ensures e == Phases.TryAttempt(browser.promptTries(Phases.MaxRetries - 1)).exc
  {
    Phases.PhaseGivesUpAfterAllAttempts(browser.promptTries);
  }

  /** Likewise for the generate button, which is tried only after the prompt went in. */
  lemma ButtonErrorAfterThreeAttempts(ready: Result<Driver, Exc>, browser: Browser, e: Exc)
    requires Outcome(ready, browser) == Err(GenerateButtonFailed(e))
    ensures Phases.Phase(browser.promptTries).0.Normal?
    ensures Phases.Phase(browser.buttonTries).1 == Phases.MaxRetries
    ensures forall j :: 0 <= j < Phases.MaxRetries ==>
              Phases.TryAttempt(browser.buttonTries(j)).Raised? &&
              Phases.Caught(Phases.TryAttempt(browser.buttonTries(j)).exc)
    ensures e == Phases.TryAttempt(browser.buttonTries(Phases.MaxRetries - 1)).exc
  {
    Phases.PhaseGivesUpAfterAllAttempts(browser.buttonTries);
  }
}
