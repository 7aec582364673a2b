/** The scroll-driven active-section resolver of the portfolio page, as a
    specification: which of the five fixed sections a scroll event selects,
    given the window metrics and the geometry of the section elements. */
module ScrollSpy {

  datatype Option<T> = None | Some(value: T)

  /** The page's sections in document order; the resolver scans them last to first. */
  const SECTION_IDS: seq<string> := ["hero", "about", "skills", "projects", "contact"]

  /** Index of the last section, "contact", which the near-bottom rule favours. */
  const LAST: nat := |SECTION_IDS| - 1

  /** The look-ahead added to the scroll offset, so a section becomes active
      slightly before its top edge reaches the top of the viewport. */
  const LOOK_AHEAD: int := 100

  /** How close to the document's end the look-ahead window must come for the
      last section to be forced. */
  const BOTTOM_TOLERANCE: int := 50

  /** The layout of one section element: its top offset and its height. */
  datatype Geometry = Geometry(offsetTop: int, offsetHeight: int)

  /** The window metrics read at each scroll event: scroll offset, viewport
      height and full document height. */
  datatype Viewport = Viewport(scrollY: int, innerHeight: int, scrollHeight: int)

  /** The section elements the document holds, by id; an id without an
      element is absent from the map. */
  type Elements = map<string, Geometry>

  function ScrollPos(v: Viewport): (r: int) {
    v.scrollY + LOOK_AHEAD
  }

  predicate IsNearBottom(v: Viewport) {
    ScrollPos(v) + v.innerHeight >= v.scrollHeight - BOTTOM_TOLERANCE
  }

  /** Half-open membership: the top edge is inside, the bottom edge is not. */
  predicate Contains(g: Geometry, pos: int) {
    g.offsetTop <= pos < g.offsetTop + g.offsetHeight
  }

  /** Section i exists and its range holds the look-ahead position. */
  predicate InRange(v: Viewport, els: Elements, i: nat)
    requires i < |SECTION_IDS|
  {
    SECTION_IDS[i] in els && Contains(els[SECTION_IDS[i]], ScrollPos(v))
  }

  /** Section i stops the reverse scan: its element exists, and either it is
      the last section and the page is near its bottom, or its range holds
      the look-ahead position. */
  predicate Selects(v: Viewport, els: Elements, i: nat)
    requires i < |SECTION_IDS|
  {
    (SECTION_IDS[i] in els && i == LAST && IsNearBottom(v)) || InRange(v, els, i)
  }

  /** The reverse scan over sections k-1 down to 0: the first (highest-index)
      section that selects, if any. */
  function Scan(v: Viewport, els: Elements, k: nat): (r: Option<nat>)
    requires k <= |SECTION_IDS|
    ensures r.Some? ==> r.value < k && Selects(v, els, r.value)
    decreases k
  {
    if k == 0 then None
    else if Selects(v, els, k - 1) then Some(k - 1)
    else Scan(v, els, k - 1)
  }

  /** The index of the section one scroll event selects, or None. */
  function Resolve(v: Viewport, els: Elements): (r: Option<nat>)
    ensures r.Some? ==> r.value < |SECTION_IDS| && Selects(v, els, r.value)
  {
    Scan(v, els, |SECTION_IDS|)
  }

  /** The active section after one scroll event: the selected section's id,
      or the previous value when nothing selects. */
  function NextActive(v: Viewport, els: Elements, previous: string): (r: string)
    ensures r == previous || r in SECTION_IDS
    ensures Resolve(v, els).Some? ==> r in SECTION_IDS
  {
    match Resolve(v, els)
    case Some(i) => SECTION_IDS[i]
    case None => previous
  }

  // ---------------------------------------------------------------------------
  // The scan picks the highest-index selecting section

  lemma {:induction false} ScanIsHighestSelecting(v: Viewport, els: Elements, k: nat, i: nat)
    requires k <= |SECTION_IDS|
    ensures Scan(v, els, k) == Some(i) <==>
              i < k && Selects(v, els, i) &&
              forall j: nat :: i < j < k ==> !Selects(v, els, j)
    decreases k
  {
    if k == 0 {
    } else if Selects(v, els, k - 1) {
      if i < k - 1 {
        assert !(forall j: nat :: i < j < k ==> !Selects(v, els, j)) by {
          assert i < k - 1 < k;
        }
      }
    } else {
      ScanIsHighestSelecting(v, els, k - 1, i);
    }
  }

  lemma {:induction false} ScanNoneIffNoneSelects(v: Viewport, els: Elements, k: nat)
    requires k <= |SECTION_IDS|
    ensures Scan(v, els, k) == None <==> forall j: nat :: j < k ==> !Selects(v, els, j)
    decreases k
  {
    if k > 0 && !Selects(v, els, k - 1) {
      ScanNoneIffNoneSelects(v, els, k - 1);
    }
  }

  // ---------------------------------------------------------------------------
  // Properties of one scroll event

  /** Near the bottom, an existing last section wins whatever the others' bounds. */
  lemma NearBottomSelectsLast(v: Viewport, els: Elements, previous: string)
    requires SECTION_IDS[LAST] in els && IsNearBottom(v)
    ensures Resolve(v, els) == Some(LAST)
    ensures NextActive(v, els, previous) == "contact"
  {
    assert Selects(v, els, LAST);
  }

  /** Away from the bottom, the result is the highest-index existing section
      whose half-open range holds the look-ahead position. */
  lemma ResolveAwayFromBottom(v: Viewport, els: Elements, i: nat)
    requires !IsNearBottom(v)
    ensures Resolve(v, els) == Some(i) <==>
              i < |SECTION_IDS| && InRange(v, els, i) &&
              forall j: nat :: i < j < |SECTION_IDS| ==> !InRange(v, els, j)
  {
    ScanIsHighestSelecting(v, els, |SECTION_IDS|, i);
    assert forall j: nat :: j < |SECTION_IDS| ==> (Selects(v, els, j) <==> InRange(v, els, j));
  }

  /** Of two selecting sections the later one wins. */
  lemma LaterSectionWins(v: Viewport, els: Elements, i: nat, j: nat)
    requires i < j < |SECTION_IDS| && Selects(v, els, j)
    ensures Resolve(v, els) != Some(i)
  {
    ScanIsHighestSelecting(v, els, |SECTION_IDS|, i);
  }

  /** A look-ahead position on a section's bottom edge does not select it
      (unless the near-bottom rule picks it as the last section). */
  lemma BottomEdgeExcluded(v: Viewport, els: Elements, i: nat)
    requires i < |SECTION_IDS| && SECTION_IDS[i] in els
    requires ScrollPos(v) == els[SECTION_IDS[i]].offsetTop + els[SECTION_IDS[i]].offsetHeight
    requires !(i == LAST && IsNearBottom(v))
    ensures Resolve(v, els) != Some(i)
  {
  }

  /** A section whose element is missing is never selected. */
  lemma AbsentNeverSelected(v: Viewport, els: Elements, i: nat)
    requires i < |SECTION_IDS| && SECTION_IDS[i] !in els
    ensures Resolve(v, els) != Some(i)
  {
  }

  /** When nothing selects, the scan yields None and the active section stays. */
  lemma NoMatchKeepsPrevious(v: Viewport, els: Elements, previous: string)
    ensures Resolve(v, els) == None <==> forall j: nat :: j < |SECTION_IDS| ==> !Selects(v, els, j)
    ensures (forall j: nat :: j < |SECTION_IDS| ==> !Selects(v, els, j)) ==>
              NextActive(v, els, previous) == previous
  {
    ScanNoneIffNoneSelects(v, els, |SECTION_IDS|);
  }

  lemma {:induction false} ScanAgrees(v: Viewport, w: Viewport, els: Elements, k: nat)
    requires k <= |SECTION_IDS|
    requires forall j: nat :: j < |SECTION_IDS| ==> (Selects(v, els, j) <==> Selects(w, els, j))
    ensures Scan(v, els, k) == Scan(w, els, k)
    decreases k
  {
    if k > 0 {
      ScanAgrees(v, w, els, k - 1);
    }
  }

  /** Without a last-section element the near-bottom rule cannot fire: the
      result depends on the scroll offset alone, not on the viewport or
      document height. */
  lemma WithoutLastHeightsIrrelevant(v: Viewport, w: Viewport, els: Elements)
    requires SECTION_IDS[LAST] !in els && v.scrollY == w.scrollY
    ensures Resolve(v, els) == Resolve(w, els)
    ensures forall i: nat :: i < |SECTION_IDS| ==> (Selects(v, els, i) <==> InRange(v, els, i))
  {
    ScanAgrees(v, w, els, |SECTION_IDS|);
  }

  // ---------------------------------------------------------------------------
  // Sections stacked one after another

  function Bottom(g: Geometry): (r: int) {
    g.offsetTop + g.offsetHeight
  }

  /** Every section exists, has a non-negative height and starts where the
      previous one ends. */
  predicate Stacked(els: Elements) {
    (forall i: nat :: i < |SECTION_IDS| ==> SECTION_IDS[i] in els) &&
    (forall i: nat :: i < |SECTION_IDS| ==> els[SECTION_IDS[i]].offsetHeight >= 0) &&
    (forall i: nat :: i + 1 < |SECTION_IDS| ==>
       els[SECTION_IDS[i + 1]].offsetTop == Bottom(els[SECTION_IDS[i]]))
  }

  lemma {:induction false} StackedTopsFollow(els: Elements, i: nat, j: nat)
    requires Stacked(els) && i < j < |SECTION_IDS|
    ensures els[SECTION_IDS[j]].offsetTop >= Bottom(els[SECTION_IDS[i]])
    decreases j - i
  {
    if i + 1 < j {
      StackedTopsFollow(els, i + 1, j);
    }
  }

  /** With stacked sections and away from the bottom, the section whose range
      holds the look-ahead position is the one selected. */
  lemma StackedSelectsContaining(v: Viewport, els: Elements, k: nat)
    requires Stacked(els) && !IsNearBottom(v) && k < |SECTION_IDS|
    requires Contains(els[SECTION_IDS[k]], ScrollPos(v))
    ensures Resolve(v, els) == Some(k)
  {
    forall j: nat | k < j < |SECTION_IDS| ensures !InRange(v, els, j) {
      StackedTopsFollow(els, k, j);
    }
    ResolveAwayFromBottom(v, els, k);
  }

  // ---------------------------------------------------------------------------
  // Worked examples on a stacked page of five 600- to 800-unit sections

  const DEMO_LAYOUT: Elements := map[
    "hero" := Geometry(0, 800),
    "about" := Geometry(800, 600),
    "skills" := Geometry(1400, 600),
    "projects" := Geometry(2000, 600),
    "contact" := Geometry(2600, 600)]

  lemma DemoLayoutStacked()
    ensures Stacked(DEMO_LAYOUT)
  {
  }

  /** Scroll offset 750 looks ahead to 850, inside "about". */
  lemma ScenarioAbout()
    ensures NextActive(Viewport(750, 800, 3200), DEMO_LAYOUT, "hero") == "about"
  {
    DemoLayoutStacked();
    StackedSelectsContaining(Viewport(750, 800, 3200), DEMO_LAYOUT, 1);
  }

  /** Scroll offset 1700 looks ahead to 1800; 1800 + 800 = 2600 is short of
      3200 - 50, so the near-bottom rule does not fire and "skills" is chosen. */
  lemma ScenarioSkillsBeforeBottom()
    ensures !IsNearBottom(Viewport(1700, 800, 3200))
    ensures NextActive(Viewport(1700, 800, 3200), DEMO_LAYOUT, "hero") == "skills"
  {
    DemoLayoutStacked();
    StackedSelectsContaining(Viewport(1700, 800, 3200), DEMO_LAYOUT, 2);
  }

  /** Scroll offset 2300 looks ahead to 2400, inside "projects", but
      2400 + 800 reaches 3200 - 50, so "contact" is forced. */
  lemma ScenarioContactNearBottom()
    ensures InRange(Viewport(2300, 800, 3200), DEMO_LAYOUT, 3)
    ensures NextActive(Viewport(2300, 800, 3200), DEMO_LAYOUT, "hero") == "contact"
  {
    NearBottomSelectsLast(Viewport(2300, 800, 3200), DEMO_LAYOUT, "hero");
  }
}
