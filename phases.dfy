/** The three attempt loops of `DreaminaService.generate_image`: filling in the
    prompt, clicking the generate button, and polling the page for images. */
module Phases {
  import opened Wrappers
  import opened Retrying
  import Harvest

  /** `max_retries` of `generate_image`, also the default of `_retry_on_stale`. */
  const MaxRetries := 3

  /** One attempt of a locate-then-act phase: how the wait for the element ends,
      and what each call of the action on it (typing, clicking) does. */
  datatype PhaseTry = PhaseTry(wait: Attempt<()>, action: nat -> Attempt<bool>)

  /** The exceptions a locate-then-act phase catches and retries on. */
  predicate Caught(e: Exc) {
    e.Stale? || e.Timeout?
  }

  /** How one attempt ends: it goes through when the wait succeeds and
      `_retry_on_stale(action)` returns, otherwise it raises. */
  function TryAttempt(t: PhaseTry): Attempt<()> {
    match t.wait
    case Raised(e) => Raised(e)
    case Returned(_) =>
      match Retry(t.action, MaxRetries, IsStale).0
      case Normal(_) => Returned(())
      case Thrown(e) => Raised(e)
  }

  function Attempts(tries: nat -> PhaseTry): nat -> Attempt<()> {
    (k: nat) => TryAttempt(tries(k))
  }

  /** Result and attempt count of a locate-then-act phase: a bounded retry over
      its attempts that catches stale references and timeouts. */
  function Phase(tries: nat -> PhaseTry): (Completion<()>, nat) {
    Retry(Attempts(tries), MaxRetries, Caught)
  }

  /** Attempt `k` either ends the phase with its own outcome or hands over to the
      next attempt. */
  lemma AttemptDecides(tries: nat -> PhaseTry, k: nat)
    requires k < MaxRetries
    ensures var o := TryAttempt(tries(k));
            o.Returned? || !Caught(o.exc) || k == MaxRetries - 1 ==>
              RetryFrom(Attempts(tries), MaxRetries, Caught, k) == (Deliver(o), 1)
    ensures var o := TryAttempt(tries(k));
            !(o.Returned? || !Caught(o.exc) || k == MaxRetries - 1) ==>
              RetryFrom(Attempts(tries), MaxRetries, Caught, k).0 == RetryFrom(Attempts(tries), MaxRetries, Caught, k + 1).0 &&
              RetryFrom(Attempts(tries), MaxRetries, Caught, k).1 == RetryFrom(Attempts(tries), MaxRetries, Caught, k + 1).1 + 1
  {
    var call := Attempts(tries);
    assert call(k) == TryAttempt(tries(k));
    if Retries(call(k), Caught) && k < MaxRetries - 1 {
      RetryStep(call, MaxRetries, Caught, k);
    } else {
      RetryStop(call, MaxRetries, Caught, k);
    }
  }

  /** A locate-then-act phase as the source runs it: wait for the element, act on
      it through `_retry_on_stale`, and retry on a caught exception. */
  method LocateAndAct(tries: nat -> PhaseTry) returns (r: Completion<()>, attempts: nat)
    ensures (r, attempts) == Phase(tries)
  {
    var attempt: nat := 0;
    while attempt < MaxRetries
      invariant attempt < MaxRetries
      invariant Phase(tries).0 == RetryFrom(Attempts(tries), MaxRetries, Caught, attempt).0
      invariant Phase(tries).1 == RetryFrom(Attempts(tries), MaxRetries, Caught, attempt).1 + attempt
    {
      var t := tries(attempt);
      var outcome: Attempt<()>;
      match t.wait {
        case Raised(e) =>
          outcome := Raised(e);
        case Returned(_) =>
          var acted, _ := RetryOnStale(t.action, MaxRetries);
          outcome := if acted.Normal? then Returned(()) else Raised(acted.exc);
      }
      assert outcome == TryAttempt(t);
      AttemptDecides(tries, attempt);
      if outcome.Returned? || !Caught(outcome.exc) || attempt == MaxRetries - 1 {
        return Deliver(outcome), attempt + 1;
      }
      attempt := attempt + 1;
    }
    assert false;
  }

  /** A phase that ends in a caught exception has used all its attempts, each of
      which ended in a caught exception; the last one is reported. */
  lemma PhaseGivesUpAfterAllAttempts(tries: nat -> PhaseTry)
    requires Phase(tries).0.Thrown? && Caught(Phase(tries).0.exc)
    ensures Phase(tries).1 == MaxRetries
    ensures forall j :: 0 <= j < MaxRetries ==>
              TryAttempt(tries(j)).Raised? && Caught(TryAttempt(tries(j)).exc)
    ensures Phase(tries).0.exc == TryAttempt(tries(MaxRetries - 1)).exc
  {
    var res := Phase(tries);
    assert Attempts(tries)(res.1 - 1) == TryAttempt(tries(res.1 - 1));
    forall j | 0 <= j < MaxRetries
      ensures TryAttempt(tries(j)).Raised? && Caught(TryAttempt(tries(j)).exc)
    {
      assert Attempts(tries)(j) == TryAttempt(tries(j));
    }
  }

  /** What one look at the page finds: its `<img>` elements, or an exception. */
  datatype ImagePoll = Found(elements: seq<Harvest.ImgElement>) | FindRaised(exc: Exc)

  /** What one look yields: the harvested URLs, or the exception that ended it. */
  function PollOutcome(p: ImagePoll): Result<seq<string>, Exc> {
    match p
    case FindRaised(e) => Err(e)
    case Found(dom) => Harvest.Harvested(dom)
  }

  function Looks(polls: nat -> ImagePoll): nat -> Result<seq<string>, Exc> {
    (k: nat) => PollOutcome(polls(k))
  }

  /** The look found nothing to return: it raised, or harvested no URL. */
  predicate Fruitless(look: Result<seq<string>, Exc>) {
    look.Err? || look == Ok([])
  }

  datatype ImageOutcome = Images(urls: seq<string>) | NoImages | RetrieveFailed(exc: Exc)

  /** Result and attempt count of the image phase from attempt `k` on, where
      `looks(j)` is what the j-th look yields: the first look that harvests some
      URL wins; when every look is fruitless, the last one decides how the
      phase fails. */
  function ImagePhaseFrom(looks: nat -> Result<seq<string>, Exc>, k: nat): (res: (ImageOutcome, nat))
    requires k < MaxRetries
    ensures 1 <= res.1 <= MaxRetries - k
    ensures forall j :: k <= j < k + res.1 - 1 ==> Fruitless(looks(j))
    ensures res.0.Images? ==> res.0.urls != [] && looks(k + res.1 - 1) == Ok(res.0.urls)
    ensures !res.0.Images? ==> k + res.1 == MaxRetries
    ensures res.0 == NoImages ==> looks(k + res.1 - 1) == Ok([])
    ensures res.0.RetrieveFailed? ==> looks(k + res.1 - 1) == Err(res.0.exc)
    decreases MaxRetries - k
  {
    match looks(k)
    case Ok(urls) =>
      if urls != [] then (Images(urls), 1)
      else if k < MaxRetries - 1 then
        var rest := ImagePhaseFrom(looks, k + 1);
        (rest.0, rest.1 + 1)
      else (NoImages, 1)
    case Err(e) =>
      if k == MaxRetries - 1 then (RetrieveFailed(e), 1)
      else
        var rest := ImagePhaseFrom(looks, k + 1);
        (rest.0, rest.1 + 1)
  }

  /** A fruitless look before the last one hands over to the next look. */
  lemma ImageRetryStep(looks: nat -> Result<seq<string>, Exc>, k: nat)
    requires k < MaxRetries - 1 && Fruitless(looks(k))
    ensures ImagePhaseFrom(looks, k).0 == ImagePhaseFrom(looks, k + 1).0
    ensures ImagePhaseFrom(looks, k).1 == ImagePhaseFrom(looks, k + 1).1 + 1
  {
  }

  /** The image phase fails only after every look was fruitless; it finds no
      images when the last look harvested nothing, and fails to retrieve when
      the last look raised. */
  lemma ImagePhaseFailsAfterAllLooks(looks: nat -> Result<seq<string>, Exc>)
    requires !ImagePhaseFrom(looks, 0).0.Images?
    ensures forall j :: 0 <= j < MaxRetries ==> Fruitless(looks(j))
    ensures ImagePhaseFrom(looks, 0).0 == NoImages <==> looks(MaxRetries - 1) == Ok([])
    ensures ImagePhaseFrom(looks, 0).0.RetrieveFailed? <==> looks(MaxRetries - 1).Err?
    ensures ImagePhaseFrom(looks, 0).0.RetrieveFailed? ==> ImagePhaseFrom(looks, 0).0.exc == looks(MaxRetries - 1).error
  {
  }

  /** A look that harvests some URL, or the last look, ends the phase. */
  lemma ImageStop(looks: nat -> Result<seq<string>, Exc>, k: nat)
    requires k < MaxRetries && (!Fruitless(looks(k)) || k == MaxRetries - 1)
    ensures ImagePhaseFrom(looks, k).1 == 1
    ensures ImagePhaseFrom(looks, k).0 ==
              match looks(k)
              case Ok(urls) => if urls != [] then Images(urls) else NoImages
              case Err(e) => RetrieveFailed(e)
  {
  }

  /** Look `k` either ends the image phase or hands over to the next look. */
  lemma ImageDecides(looks: nat -> Result<seq<string>, Exc>, k: nat)
    requires k < MaxRetries
    ensures !Fruitless(looks(k)) || k == MaxRetries - 1 ==>
              ImagePhaseFrom(looks, k) ==
                (match looks(k)
                 case Ok(urls) => if urls != [] then Images(urls) else NoImages
                 case Err(e) => RetrieveFailed(e), 1)
    ensures Fruitless(looks(k)) && k < MaxRetries - 1 ==>
              ImagePhaseFrom(looks, k).0 == ImagePhaseFrom(looks, k + 1).0 &&
              ImagePhaseFrom(looks, k).1 == ImagePhaseFrom(looks, k + 1).1 + 1
  {
    if Fruitless(looks(k)) && k < MaxRetries - 1 {
      ImageRetryStep(looks, k);
    } else {
      ImageStop(looks, k);
    }
  }

  /** The image phase as the source runs it: find the `<img>` elements, scan them,
      and either return the URLs, look again, or give up. */
  method PollForImages(polls: nat -> ImagePoll) returns (r: ImageOutcome, attempts: nat)
    ensures (r, attempts) == ImagePhaseFrom(Looks(polls), 0)
  {
    ghost var looks := Looks(polls);
    var attempt: nat := 0;
    while attempt < MaxRetries
      invariant attempt < MaxRetries
      invariant ImagePhaseFrom(looks, 0).0 == ImagePhaseFrom(looks, attempt).0
      invariant ImagePhaseFrom(looks, 0).1 == ImagePhaseFrom(looks, attempt).1 + attempt
    {
      var found: Result<seq<string>, Exc>;
      match polls(attempt) {
        case FindRaised(e) =>
          found := Err(e);
        case Found(dom) =>
          found := Harvest.HarvestImageUrls(dom);
      }
      assert found == looks(attempt);
      ImageDecides(looks, attempt);
      match found {
        case Ok(urls) =>
          if urls != [] {
            return Images(urls), attempt + 1;
          } else if attempt == MaxRetries - 1 {
            return NoImages, attempt + 1;
          }
        case Err(e) =>
          if attempt == MaxRetries - 1 {
            return RetrieveFailed(e), attempt + 1;
          }
      }
      attempt := attempt + 1;
    }
    assert false;
  }
}
