/** The parts of the page's document that the modelled scripts read or write.
    Presence of an element (`has...`) is a field no modelled operation changes;
    element contents are fields the operations assign. */
module Dom {
  import opened JsBuiltins

  /** An element, named by the order in which `document.createElement` made it. */
  type ElementId = nat

  /** What `updateThemeIcons` writes on each `.theme-icon`. */
  datatype ThemeIcon = ThemeIcon(text: string, ariaLabel: string, title: string)

  /** An element carrying `data-i18n`: its key, its `data-i18n-params` as already
      parsed (`None` when the attribute is absent) and its text. */
  datatype TaggedElement = TaggedElement(key: string, params: Option<seq<(string, string)>>, text: string)

  /** A `.projects-filter .btn`: its `data-filter` attribute and whether it has class `active`. */
  datatype FilterButton = FilterButton(filter: Option<string>, active: bool)

  /** A `.project-card`: its `data-category` attribute and whether it is displayed
      (the state its style settles in once the transition timers have run). */
  datatype ProjectCard = ProjectCard(categories: string, shown: bool)

  /** A control of `#contactForm`: `required`, `type`, current and default value,
      class `is-invalid`, and the texts of the `.form-error` elements in its parent. */
  datatype FormField = FormField(required: bool, kind: string, value: string, defaultValue: string,
                                 invalid: bool, errors: seq<string>)

  class Document {
    // <html> and <head>
    var dataTheme: Option<string>
    var lang: Option<string>
    var metaThemeColor: Option<string>
    var themeIcons: seq<ThemeIcon>
    var tagged: seq<TaggedElement>

    // #floatingLogos, #logoCount and #logoCanvas
    var hasLogoLayer: bool
    var logoLayer: seq<ElementId>
    var hasLogoCount: bool
    var logoCount: int
    var hasCanvas: bool
    var canvasWidth: int
    var canvasHeight: int

    // project filters and the project modal
    var filterButtons: seq<FilterButton>
    var cards: seq<ProjectCard>
    var hasProjectModal: bool
    var hasModalText: bool
    var modalOpen: bool
    /** `document.body.style.overflow`. */
    var bodyOverflow: string
    var modalTitle: string
    var modalContent: string
    var hasModalButtons: bool
    var prevDisabled: bool
    var nextDisabled: bool
    var visitDisabled: bool
    var visitLabel: string

    // #toastContainer
    var hasToastContainer: bool
    var toastLayer: seq<ElementId>

    // #contactForm and #formMessage
    var fields: seq<FormField>
    var hasFormMessage: bool
    var formMessage: string

    /** The next element `document.createElement` will make. */
    var nextId: ElementId
  }

  // ---------------------------------------------------------------------------
  // Lists of children
  // ---------------------------------------------------------------------------

  predicate Distinct(s: seq<ElementId>) {
    forall i, j :: 0 <= i < j < |s| ==> s[i] != s[j]
  }

  /** The children `layer`, less the elements in `gone`, in their order. */
  function Without(layer: seq<ElementId>, gone: set<ElementId>): seq<ElementId> {
    if layer == [] then []
    else (if layer[0] in gone then [] else [layer[0]]) + Without(layer[1..], gone)
  }

  lemma {:induction false} WithoutIgnoresAbsent(layer: seq<ElementId>, gone: set<ElementId>, x: ElementId)
    requires x !in layer
    ensures Without(layer, gone + {x}) == Without(layer, gone)
  {
    if layer != [] {
      WithoutIgnoresAbsent(layer[1..], gone, x);
    }
  }

  /** Removing one more element from what is already gone. */
  lemma {:induction false} WithoutOneMore(layer: seq<ElementId>, gone: set<ElementId>, x: ElementId)
    ensures Without(layer, gone + {x}) == Without(Without(layer, gone), {x})
  {
    if layer != [] {
      WithoutOneMore(layer[1..], gone, x);
      var w := Without(layer, gone);
      var wRest := Without(layer[1..], gone);
      if layer[0] in gone {
        assert w == wRest;
      } else {
        assert w == [layer[0]] + wRest;
        assert w != [] && w[0] == layer[0] && w[1..] == wRest;
        assert Without(w, {x}) == (if layer[0] == x then [] else [layer[0]]) + Without(wRest, {x});
      }
    }
  }

  lemma WithoutKeepsBound(layer: seq<ElementId>, gone: set<ElementId>, bound: ElementId)
    requires forall k :: 0 <= k < |layer| ==> layer[k] < bound
    ensures forall k :: 0 <= k < |Without(layer, gone)| ==> Without(layer, gone)[k] < bound
  {
    WithoutSubset(layer, gone);
    var w := Without(layer, gone);
    forall k | 0 <= k < |w| ensures w[k] < bound {
      assert w[k] in w;
      var j :| 0 <= j < |layer| && layer[j] == w[k];
    }
  }

  lemma WithoutAbsent(layer: seq<ElementId>, x: ElementId)
    requires x !in layer
    ensures Without(layer, {x}) == layer
  {
    WithoutIgnoresAbsent(layer, {}, x);
    assert {} + {x} == {x};
    WithoutNothing(layer);
  }

  lemma {:induction false} WithoutNothing(layer: seq<ElementId>)
    ensures Without(layer, {}) == layer
  {
    if layer != [] {
      WithoutNothing(layer[1..]);
    }
  }

  lemma {:induction false} WithoutSubset(layer: seq<ElementId>, gone: set<ElementId>)
    ensures forall x :: x in Without(layer, gone) ==> x in layer
  {
    if layer != [] {
      WithoutSubset(layer[1..], gone);
    }
  }

  /** Taking elements out never makes one appear twice. */
  lemma {:induction false} WithoutDistinct(layer: seq<ElementId>, gone: set<ElementId>)
    requires Distinct(layer)
    ensures Distinct(Without(layer, gone))
  {
    if layer != [] {
      var rest := layer[1..];
      assert Distinct(rest) by {
        forall i, j | 0 <= i < j < |rest| ensures rest[i] != rest[j] {
          assert rest[i] == layer[i + 1] && rest[j] == layer[j + 1];
        }
      }
      WithoutDistinct(rest, gone);
      WithoutSubset(rest, gone);
      assert layer[0] !in rest by {
        forall j | 0 <= j < |rest| ensures rest[j] != layer[0] {
          assert rest[j] == layer[j + 1];
        }
      }
      var w := Without(rest, gone);
      if layer[0] !in gone {
        var out := [layer[0]] + w;
        forall i, j | 0 <= i < j < |out| ensures out[i] != out[j] {
          assert out[j] == w[j - 1] && out[j] in w;
          if i > 0 {
            assert out[i] == w[i - 1];
          }
        }
      }
    }
  }

  /** Taking out every child leaves none. */
  lemma {:induction false} WithoutEverything(layer: seq<ElementId>, gone: set<ElementId>)
    requires forall i :: 0 <= i < |layer| ==> layer[i] in gone
    ensures Without(layer, gone) == []
  {
    if layer != [] {
      WithoutEverything(layer[1..], gone);
    }
  }
}
