/** The root view's local UI state and the event handlers that change it. */
module App {
  import opened ScrollSpy

  /** The four state hooks of the root view. */
  class Portfolio {
    var activeSection: string
    var isDarkMode: bool
    var isMobileMenuOpen: bool
    var showResumeInfo: bool

    /** The active section is always one of the fixed section ids. */
    ghost predicate Valid()
      reads this
    {
      activeSection in SECTION_IDS
    }

    /** Initial state, then the resolver run once at mount. */
    constructor (v: Viewport, els: Elements)
      ensures Valid()
      ensures activeSection == NextActive(v, els, "hero")
      ensures !isDarkMode && !isMobileMenuOpen && !showResumeInfo
    {
      activeSection := "hero";
      isDarkMode := false;
      isMobileMenuOpen := false;
      showResumeInfo := false;
      new;
      ghost var assignments := HandleScroll(v, els);
    }

    /** The scroll handler: scan the sections last to first and make the first
        one that selects active, at most one assignment per event. */
    method HandleScroll(v: Viewport, els: Elements) returns (ghost assignments: nat)
      requires Valid()
      modifies this
      ensures Valid()
      ensures activeSection == NextActive(v, els, old(activeSection))
      ensures assignments <= 1 && (assignments == 1 <==> Resolve(v, els).Some?)
      ensures isDarkMode == old(isDarkMode) && isMobileMenuOpen == old(isMobileMenuOpen)
      ensures showResumeInfo == old(showResumeInfo)
    {
      assignments := 0;
      var sections := SECTION_IDS;
      var scrollPos := v.scrollY + LOOK_AHEAD;
      var windowHeight := v.innerHeight;
      var documentHeight := v.scrollHeight;
      var isNearBottom := scrollPos + windowHeight >= documentHeight - BOTTOM_TOLERANCE;

      var i := |sections| - 1;
      while i >= 0
        invariant -1 <= i < |sections|
        invariant Scan(v, els, i + 1) == Resolve(v, els)
        invariant activeSection == old(activeSection) && assignments == 0
        decreases i
      {
        var section := sections[i];
        if section in els {
          var element := els[section];
          var isLastSection := i == |sections| - 1;
          if isLastSection && isNearBottom {
            activeSection := section;
            assignments := assignments + 1;
            break;
          } else if scrollPos >= element.offsetTop && scrollPos < element.offsetTop + element.offsetHeight {
            activeSection := section;
            assignments := assignments + 1;
            break;
          }
        }
        i := i - 1;
      }
    }

    method ToggleDarkMode()
      requires Valid()
      modifies this
      ensures Valid()
      ensures isDarkMode == !old(isDarkMode)
      ensures activeSection == old(activeSection) && isMobileMenuOpen == old(isMobileMenuOpen)
      ensures showResumeInfo == old(showResumeInfo)
    {
      isDarkMode := !isDarkMode;
    }

    /** The menu button of the narrow-screen navigation bar. */
    method ToggleMobileMenu()
      requires Valid()
      modifies this
      ensures Valid()
      ensures isMobileMenuOpen == !old(isMobileMenuOpen)
      ensures activeSection == old(activeSection) && isDarkMode == old(isDarkMode)
      ensures showResumeInfo == old(showResumeInfo)
    {
      isMobileMenuOpen := !isMobileMenuOpen;
    }

    /** A click on the menu overlay, or the menu-closing half of choosing a
        navigation item in the narrow-screen menu. */
    method CloseMobileMenu()
      requires Valid()
      modifies this
      ensures Valid()
      ensures !isMobileMenuOpen
      ensures activeSection == old(activeSection) && isDarkMode == old(isDarkMode)
      ensures showResumeInfo == old(showResumeInfo)
    {
      isMobileMenuOpen := false;
    }

    /** The resume button's click handler, which would show the "download
        unavailable" notice; the button is rendered disabled, so the page
        never calls it. */
    method HandleResumeClick()
      requires Valid()
      modifies this
      ensures Valid()
      ensures showResumeInfo
      ensures activeSection == old(activeSection) && isDarkMode == old(isDarkMode)
      ensures isMobileMenuOpen == old(isMobileMenuOpen)
    {
      showResumeInfo := true;
    }

    /** The notice's timer firing, three seconds after the resume handler ran. */
    method HideResumeInfo()
      requires Valid()
      modifies this
      ensures Valid()
      ensures !showResumeInfo
      ensures activeSection == old(activeSection) && isDarkMode == old(isDarkMode)
      ensures isMobileMenuOpen == old(isMobileMenuOpen)
    {
      showResumeInfo := false;
    }
  }

  /** Two theme toggles restore the original state. */
  method DarkModeToggleTwice(app: Portfolio)
    requires app.Valid()
    modifies app
    ensures app.Valid()
    ensures app.isDarkMode == old(app.isDarkMode) && app.activeSection == old(app.activeSection)
    ensures app.isMobileMenuOpen == old(app.isMobileMenuOpen) && app.showResumeInfo == old(app.showResumeInfo)
  {
    app.ToggleDarkMode();
    app.ToggleDarkMode();
  }

  /** Two menu-button presses restore the original state. */
  method MobileMenuToggleTwice(app: Portfolio)
    requires app.Valid()
    modifies app
    ensures app.Valid()
    ensures app.isMobileMenuOpen == old(app.isMobileMenuOpen) && app.activeSection == old(app.activeSection)
    ensures app.isDarkMode == old(app.isDarkMode) && app.showResumeInfo == old(app.showResumeInfo)
  {
    app.ToggleMobileMenu();
    app.ToggleMobileMenu();
  }
}
