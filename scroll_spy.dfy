/** The scroll-spy rule of `updateActiveLink` and the nav-link scroll target.
    Sections are read in document order; link flags are the 'active'
    classes of the `.nav-link` elements, in document order. */
module ScrollSpy {
  import opened Wrappers

  /** A `section[id]` element: its id and its layout offsets in pixels. */
  datatype Section = Section(id: string, offsetTop: int, offsetHeight: int)

  /** The probe sits this far below `window.scrollY`. */
  const ProbeOffset: int := 100
  /** A section's interval starts this far above its `offsetTop`. */
  const SectionLead: int := 100
  /** A nav-link click scrolls to this far above the target's `offsetTop`. */
  const HeaderHeight: int := 80

  /** The ids of the sections, in document order. The section elements are
      collected once; their offsets are read afresh each time. */
  function Ids(sections: seq<Section>): (ids: seq<string>)
    ensures |ids| == |sections|
    ensures forall i :: 0 <= i < |sections| ==> ids[i] == sections[i].id
  {
    if sections == [] then [] else [sections[0].id] + Ids(sections[1..])
  }

  function Probe(scrollY: int): int
  {
    scrollY + ProbeOffset
  }

  /** The fragment a link must carry to point at a section. */
  function Href(id: string): string
  {
    "#" + id
  }

  /** The section's interval `[offsetTop - 100, offsetTop - 100 + offsetHeight)` holds the probe. */
  predicate Contains(s: Section, probe: int)
  {
    var top := s.offsetTop - SectionLead;
    top <= probe < top + s.offsetHeight
  }

  /** The flags after one pass of the inner loop: every link cleared, then
      exactly the links whose href is `#id` set. */
  function FlagsFor(hrefs: seq<string>, id: string): (flags: seq<bool>)
    ensures |flags| == |hrefs|
    ensures forall i :: 0 <= i < |hrefs| ==> (flags[i] <==> hrefs[i] == Href(id))
  {
    if hrefs == [] then [] else [hrefs[0] == Href(id)] + FlagsFor(hrefs[1..], id)
  }

  /** One section of the outer loop: a matching section rewrites all flags. */
  function Step(flags: seq<bool>, hrefs: seq<string>, s: Section, probe: int): seq<bool>
  {
    if Contains(s, probe) then FlagsFor(hrefs, s.id) else flags
  }

  /** The outer loop as written: sections processed in document order. */
  function Sweep(flags: seq<bool>, hrefs: seq<string>, sections: seq<Section>, probe: int): seq<bool>
    decreases |sections|
  {
    if sections == [] then flags
    else Sweep(Step(flags, hrefs, sections[0], probe), hrefs, sections[1..], probe)
  }

  /** The index of the last section whose interval holds the probe. */
  function LastMatch(sections: seq<Section>, probe: int): (r: Option<nat>)
    ensures r.Some? ==> r.value < |sections| && Contains(sections[r.value], probe)
    ensures r.Some? ==> forall k :: r.value < k < |sections| ==> !Contains(sections[k], probe)
    ensures r.None? <==> forall k :: 0 <= k < |sections| ==> !Contains(sections[k], probe)
  {
    if sections == [] then None
    else match LastMatch(sections[1..], probe)
      case Some(j) => Some(j + 1)
      case None => if Contains(sections[0], probe) then Some(0) else None
  }

  /** What scroll-spy leaves behind: the old flags when no section matches,
      otherwise exactly the links to the last matching section. */
  function SpyResult(flags: seq<bool>, hrefs: seq<string>, sections: seq<Section>, probe: int): seq<bool>
  {
    match LastMatch(sections, probe)
    case None => flags
    case Some(j) => FlagsFor(hrefs, sections[j].id)
  }

  /** The loop as written agrees with the last-match description. */
  lemma {:induction false} SweepIsLastMatch(flags: seq<bool>, hrefs: seq<string>, sections: seq<Section>, probe: int)
    ensures Sweep(flags, hrefs, sections, probe) == SpyResult(flags, hrefs, sections, probe)
    decreases |sections|
  {
    if sections != [] {
      SweepIsLastMatch(Step(flags, hrefs, sections[0], probe), hrefs, sections[1..], probe);
    }
  }

  /** No section holds the probe: the link flags are left as they were. */
  lemma NoMatchKeepsFlags(flags: seq<bool>, hrefs: seq<string>, sections: seq<Section>, scrollY: int)
    requires forall k :: 0 <= k < |sections| ==> !Contains(sections[k], Probe(scrollY))
    ensures Sweep(flags, hrefs, sections, Probe(scrollY)) == flags
  {
  }

  /** Some section holds the probe: exactly the links whose href is `#id` of
      the last such section are active. */
  lemma MatchActivatesLastSection(flags: seq<bool>, hrefs: seq<string>, sections: seq<Section>, scrollY: int, j: nat)
    requires j < |sections| && Contains(sections[j], Probe(scrollY))
    requires forall k :: j < k < |sections| ==> !Contains(sections[k], Probe(scrollY))
    ensures var r := Sweep(flags, hrefs, sections, Probe(scrollY));
      |r| == |hrefs| && forall i :: 0 <= i < |hrefs| ==> (r[i] <==> hrefs[i] == Href(sections[j].id))
  {
    SweepIsLastMatch(flags, hrefs, sections, Probe(scrollY));
    var m := LastMatch(sections, Probe(scrollY));
    assert m.Some?;
    assert m.value == j;
  }

  predicate Distinct(hrefs: seq<string>)
  {
    forall i, j :: 0 <= i < j < |hrefs| ==> hrefs[i] != hrefs[j]
  }

  predicate AtMostOne(flags: seq<bool>)
  {
    forall i, j :: 0 <= i < |flags| && 0 <= j < |flags| && flags[i] && flags[j] ==> i == j
  }

  /** With distinct hrefs and at most one link active before, scroll-spy
      never leaves two links active. */
  lemma ScrollSpyKeepsAtMostOneActive(flags: seq<bool>, hrefs: seq<string>, sections: seq<Section>, probe: int)
    requires Distinct(hrefs) && AtMostOne(flags)
    ensures AtMostOne(Sweep(flags, hrefs, sections, probe))
  {
    SweepIsLastMatch(flags, hrefs, sections, probe);
    match LastMatch(sections, probe)
    case None =>
    case Some(j) =>
  }

  /** `document.querySelector(href)` among the sections: the first section
      whose `#id` is the href. */
  function FindTarget(sections: seq<Section>, href: string): (r: Option<nat>)
    ensures r.Some? ==> r.value < |sections| && Href(sections[r.value].id) == href
    ensures r.Some? ==> forall k :: 0 <= k < r.value ==> Href(sections[k].id) != href
    ensures r.None? <==> forall k :: 0 <= k < |sections| ==> Href(sections[k].id) != href
  {
    if sections == [] then None
    else if Href(sections[0].id) == href then Some(0)
    else match FindTarget(sections[1..], href)
      case Some(j) => Some(j + 1)
      case None => None
  }
}
