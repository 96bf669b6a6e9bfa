/** The image-URL harvest of `DreaminaService.generate_image`: a scan over the
    page's `<img>` elements keeping generated-image sources, each once, in order. */
module Harvest {
  import opened Wrappers
  import Text
  import Seqs
  import opened Retrying

  /** Reading one element's `src`: the attribute (absent or a string), or an exception. */
  datatype ImgElement = Src(src: Option<string>) | ReadRaised(exc: Exc)

  const HostMarkers: seq<string> := ["ibyteimg.com", "bytedance", "capcut"]

  /** A source worth keeping: present, non-empty and naming one of the image hosts. */
  predicate IsGeneratedImage(src: string) {
    src != [] &&
    (Text.Contains(src, "ibyteimg.com") || Text.Contains(src, "bytedance") || Text.Contains(src, "capcut"))
  }

  predicate Qualifies(e: ImgElement) {
    e.Src? && e.src.Some? && IsGeneratedImage(e.src.value)
  }

  /** Reading this element raised something other than a stale reference, which
      the scan does not catch. */
  predicate Aborts(e: ImgElement) {
    e.ReadRaised? && !IsStale(e.exc)
  }

  /** The source an element contributes, if it qualifies. */
  function Source(e: ImgElement): Option<string> {
    if Qualifies(e) then Some(e.src.value) else None
  }

  /** The qualifying sources of `dom`, in document order, repeats included. */
  function Qualifying(dom: seq<ImgElement>): seq<string> {
    Seqs.Picked(dom, Source)
  }

  /** What the scan yields: the first uncaught exception, or the qualifying
      sources with repeats dropped. */
  function Harvested(dom: seq<ImgElement>): Result<seq<string>, Exc> {
    match Seqs.FirstWhere(dom, Aborts)
    case Some(i) => Err(dom[i].exc)
    case None => Ok(Seqs.Firsts(Qualifying(dom)))
  }

  /** The scan as the source runs it: skip stale reads, append each new qualifying
      source after a membership test on the list built so far. */
  method HarvestImageUrls(dom: seq<ImgElement>) returns (r: Result<seq<string>, Exc>)
    ensures r == Harvested(dom)
  {
    var urls: seq<string> := [];
    var i := 0;
    while i < |dom|
      invariant 0 <= i <= |dom|
      invariant forall j :: 0 <= j < i ==> !Aborts(dom[j])
      invariant urls == Seqs.Firsts(Qualifying(dom[..i]))
    {
      ScanStep(dom, i, urls);
      match dom[i] {
        case ReadRaised(e) =>
          if !IsStale(e) {
            AbortAt(dom, i);
            return Err(e);
          }
        case Src(src) =>
          if src.Some? && IsGeneratedImage(src.value) {
            if src.value !in urls {
              urls := urls + [src.value];
            }
          }
      }
      NoAbortYet(dom, i);
      i := i + 1;
    }
    assert dom[..i] == dom;
    NoAbort(dom);
    return Ok(urls);
  }

  /** The first read that raises something other than a stale reference ends the scan. */
  lemma AbortAt(dom: seq<ImgElement>, i: nat)
    requires i < |dom| && Aborts(dom[i])
    requires forall j :: 0 <= j < i ==> !Aborts(dom[j])
    ensures Harvested(dom) == Err(dom[i].exc)
  {
    assert Seqs.FirstWhere(dom, Aborts) == Some(i);
  }

  /** A read that did not abort extends the stretch of reads that did not. */
  lemma NoAbortYet(dom: seq<ImgElement>, i: nat)
    requires i < |dom| && !Aborts(dom[i])
    requires forall j :: 0 <= j < i ==> !Aborts(dom[j])
    ensures forall j :: 0 <= j < i + 1 ==> !Aborts(dom[j])
  {
  }

  /** A scan that no read aborts yields every new qualifying source. */
  lemma NoAbort(dom: seq<ImgElement>)
    requires forall j :: 0 <= j < |dom| ==> !Aborts(dom[j])
    ensures Harvested(dom) == Ok(Seqs.Firsts(Qualifying(dom)))
  {
    assert Seqs.FirstWhere(dom, Aborts).None?;
  }

  /** One step of the scan: the list for the first `i + 1` elements is the list
      for the first `i`, extended by element `i`'s source when it qualifies and
      is not already listed. */
  lemma ScanStep(dom: seq<ImgElement>, i: nat, urls: seq<string>)
    requires i < |dom| && urls == Seqs.Firsts(Qualifying(dom[..i]))
    ensures Qualifies(dom[i]) && dom[i].src.value !in urls ==>
              Seqs.Firsts(Qualifying(dom[..i + 1])) == urls + [dom[i].src.value]
    ensures !(Qualifies(dom[i]) && dom[i].src.value !in urls) ==>
              Seqs.Firsts(Qualifying(dom[..i + 1])) == urls
  {
    Seqs.PickedPrefix(dom, i, Source);
    match Source(dom[i]) {
      case Some(u) =>
        assert Seqs.PickOne(dom[i], Source) == [u];
        Seqs.FirstsSnoc(Qualifying(dom[..i]), u);
      case None =>
        assert Seqs.PickOne(dom[i], Source) == [];
        assert Qualifying(dom[..i + 1]) == Qualifying(dom[..i]) + [];
        assert Qualifying(dom[..i]) + [] == Qualifying(dom[..i]);
    }
  }

  /** A source is among the qualifying ones exactly when some element carries it
      and qualifies. */
  lemma QualifyingMembers(dom: seq<ImgElement>, u: string)
    ensures u in Qualifying(dom) <==>
              exists i :: 0 <= i < |dom| && Qualifies(dom[i]) && dom[i].src.value == u
  {
    Seqs.PickedMembers(dom, Source, u);
    if exists i :: 0 <= i < |dom| && Qualifies(dom[i]) && dom[i].src.value == u {
      var i :| 0 <= i < |dom| && Qualifies(dom[i]) && dom[i].src.value == u;
      assert Source(dom[i]) == Some(u);
    }
  }

  /** When no read aborts the scan, the list holds every qualifying source of the
      page exactly once and nothing else, in order of first appearance. */
  lemma HarvestComplete(dom: seq<ImgElement>)
    requires forall i :: 0 <= i < |dom| ==> !Aborts(dom[i])
    ensures Harvested(dom).Ok?
    ensures Seqs.NoDuplicates(Harvested(dom).value)
    ensures forall u :: u in Harvested(dom).value <==>
              exists i :: 0 <= i < |dom| && Qualifies(dom[i]) && dom[i].src.value == u
    ensures forall u :: u in Qualifying(dom) ==> multiset(Harvested(dom).value)[u] == 1
    ensures forall u :: u in Harvested(dom).value ==> u in Qualifying(dom)
    ensures forall i, j :: 0 <= i < j < |Harvested(dom).value| ==>
              Seqs.FirstIndex(Qualifying(dom), Harvested(dom).value[i]) <
              Seqs.FirstIndex(Qualifying(dom), Harvested(dom).value[j])
  {
    var q := Qualifying(dom);
    Seqs.FirstsMembers(q);
    Seqs.FirstsOnce(q);
    Seqs.FirstsOrdered(q);
    forall u ensures u in q <==> exists i :: 0 <= i < |dom| && Qualifies(dom[i]) && dom[i].src.value == u {
      QualifyingMembers(dom, u);
    }
  }

  /** Every harvested URL names one of the image hosts. */
  lemma HarvestedAreImages(dom: seq<ImgElement>)
    requires Harvested(dom).Ok?
    ensures forall u :: u in Harvested(dom).value ==> IsGeneratedImage(u)
  {
    var q := Qualifying(dom);
    Seqs.FirstsMembers(q);
    forall u | u in Harvested(dom).value ensures IsGeneratedImage(u) {
      QualifyingMembers(dom, u);
    }
  }

  /** Removing an element that does not abort keeps the first abort, if any. */
  lemma StaleKeepsAbort(dom: seq<ImgElement>, k: nat)
    requires k < |dom| && !Aborts(dom[k])
    ensures var rest := dom[..k] + dom[k + 1..];
            match Seqs.FirstWhere(dom, Aborts)
            case None => Seqs.FirstWhere(rest, Aborts).None?
            case Some(i) => Seqs.FirstWhere(rest, Aborts).Some? && rest[Seqs.FirstWhere(rest, Aborts).value] == dom[i]
  {
    var rest := dom[..k] + dom[k + 1..];
    var f, g := Seqs.FirstWhere(dom, Aborts), Seqs.FirstWhere(rest, Aborts);
    if f.Some? {
      var i := f.value;
      var i' := if i < k then i else i - 1;
      assert rest[i'] == dom[i];
      assert g.Some?;
      var gi := g.value;
      var gi' := if gi < k then gi else gi + 1;
      assert dom[gi'] == rest[gi];
      assert gi == i';
    } else {
      forall j | 0 <= j < |rest| ensures !Aborts(rest[j]) {
        var j' := if j < k then j else j + 1;
        assert rest[j] == dom[j'];
      }
    }
  }

  /** A stale read is skipped: removing that element changes nothing. */
  lemma StaleReadSkipped(dom: seq<ImgElement>, k: nat)
    requires k < |dom| && dom[k].ReadRaised? && IsStale(dom[k].exc)
    ensures Harvested(dom) == Harvested(dom[..k] + dom[k + 1..])
  {
    Seqs.PickedSkip(dom, k, Source);
    StaleKeepsAbort(dom, k);
  }
}
