/** The layout breakpoints of assets/js/utils/helpers.js, a second copy of the
    ones in assets/js/utils/dom-helpers.js. */
module Helpers {
  import DomHelpers

  /** `width` is `window.innerWidth`. */
  predicate IsMobile(width: int) {
    width <= 991
  }

  predicate IsTablet(width: int) {
    width > 767 && width <= 991
  }

  predicate IsDesktop(width: int) {
    width > 991
  }

  lemma BreakpointsPartition(width: int)
    ensures IsMobile(width) != IsDesktop(width)
    ensures IsTablet(width) ==> IsMobile(width) && !IsDesktop(width)
    ensures width <= 767 ==> IsMobile(width) && !IsTablet(width)
  {
  }

  /** Both copies classify every width the same way. */
  lemma BreakpointsAgree(width: int)
    ensures IsMobile(width) == DomHelpers.IsMobile(width)
    ensures IsTablet(width) == DomHelpers.IsTablet(width)
    ensures IsDesktop(width) == DomHelpers.IsDesktop(width)
  {
  }
}
