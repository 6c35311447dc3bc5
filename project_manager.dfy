/** The project section (assets/js/modules/project-manager.js): the category
    filter buttons and cards, and the project modal with its previous / next /
    visit buttons. The catalogue and the cursor into it live in the shared
    state. A handler that reads a property of a missing project, or calls
    `getText` while the current language has no dictionary, ends in a TypeError. */
module ProjectManager {
  import opened JsBuiltins
  import opened Dom
  import opened SharedState
  import LanguageManager

  datatype Direction = Prev | Next

  // ---------------------------------------------------------------------------
  // The cursor
  // ---------------------------------------------------------------------------

  /** The index `navigateProject` moves to: one step, wrapping at both ends. */
  function NextIndex(dir: Direction, index: int, count: nat): (r: int)
    ensures 0 <= index < count ==> 0 <= r < count
  {
    match dir
    case Prev => if index - 1 < 0 then count - 1 else index - 1
    case Next => if index + 1 >= count then 0 else index + 1
  }

  /** Within the catalogue a step is a move by one modulo the catalogue's size. */
  lemma NextIndexIsModular(dir: Direction, index: int, count: nat)
    requires 0 <= index < count
    ensures dir == Next ==> NextIndex(dir, index, count) == (index + 1) % count
    ensures dir == Prev ==> NextIndex(dir, index, count) == (index - 1 + count) % count
  {
    WrapFacts(index, count);
  }

  /** The remainders a one-step move needs. */
  lemma WrapFacts(index: int, count: nat)
    requires 0 <= index < count
    ensures index + 1 < count ==> (index + 1) % count == index + 1
    ensures index + 1 == count ==> (index + 1) % count == 0
    ensures index > 0 ==> (index - 1 + count) % count == index - 1
    ensures index == 0 ==> (index - 1 + count) % count == count - 1
  {
  }

  /** Within the catalogue, a step forward and a step back undo each other. */
  lemma NavigateRoundTrip(index: int, count: nat)
    requires 0 <= index < count
    ensures NextIndex(Prev, NextIndex(Next, index, count), count) == index
    ensures NextIndex(Next, NextIndex(Prev, index, count), count) == index
  {
  }

  /** On an empty catalogue, next from any cursor the handlers can leave lands
      on 0, and prev from 0 lands on -1: either way the handler reads a project
      that does not exist, which `NavigateProject` reports as a TypeError. */
  lemma EmptyCatalogueHasNoTarget(index: int)
    ensures index >= -1 ==> NextIndex(Next, index, 0) == 0
    ensures index <= 0 ==> NextIndex(Prev, index, 0) == -1
    ensures index > 0 ==> NextIndex(Prev, index, 0) == index - 1
  {
  }

  /** `!!project.link`. */
  predicate HasLink(p: Project) {
    p.link.Some? && p.link.value != ""
  }

  /** The text of the visit button: `getText('modalVisit')`. */
  function VisitText(language: string): Option<string> {
    LanguageManager.GetText(LanguageManager.Translations, language, "modalVisit", [])
  }

  /** Neither dictionary has `modalVisit`, so the button shows the key. */
  lemma VisitTextIsKey(language: string)
    requires language == "es" || language == "en"
    ensures VisitText(language) == Some("modalVisit")
  {
    LanguageManager.GetTextFallsBackToKey(LanguageManager.Translations, language, "modalVisit", []);
  }

  // ---------------------------------------------------------------------------
  // The modal
  // ---------------------------------------------------------------------------

  /** What `updateModalNavigation` leaves in the three buttons, given what they
      held before (`prev0`, `next0`, `visit0`, `label0`), and whether it ends in
      a TypeError: with the buttons present, previous and next are disabled for
      at most one project, and a missing current project throws before the
      visit button is touched. */
  ghost predicate Refreshed(st: AppState, doc: Document, c: Completion,
                            prev0: bool, next0: bool, visit0: bool, label0: string)
    reads st, doc
  {
    if !doc.hasModalButtons then
      && c == Normal
      && doc.prevDisabled == prev0 && doc.nextDisabled == next0
      && doc.visitDisabled == visit0 && doc.visitLabel == label0
    else
      && doc.prevDisabled == (|st.projects| <= 1) && doc.nextDisabled == (|st.projects| <= 1)
      && if 0 <= st.currentProjectIndex < |st.projects| then
           && doc.visitDisabled == !HasLink(st.projects[st.currentProjectIndex])
           && (c == TypeError <==> VisitText(st.language).None?)
           && doc.visitLabel == VisitText(st.language).GetOr(label0)
         else
           c == TypeError && doc.visitDisabled == visit0 && doc.visitLabel == label0
  }

  /** `updateModalNavigation`: with all three buttons present, previous and next
      are disabled exactly when there is at most one project, and visit exactly
      when the current project has no link; then the visit text is set. */
  method UpdateModalNavigation(st: AppState, doc: Document) returns (c: Completion)
    modifies doc`prevDisabled, doc`nextDisabled, doc`visitDisabled, doc`visitLabel
    ensures !doc.hasModalButtons ==>
              && c == Normal
              && doc.prevDisabled == old(doc.prevDisabled) && doc.nextDisabled == old(doc.nextDisabled)
              && doc.visitDisabled == old(doc.visitDisabled) && doc.visitLabel == old(doc.visitLabel)
    ensures doc.hasModalButtons ==>
              doc.prevDisabled == (|st.projects| <= 1) && doc.nextDisabled == (|st.projects| <= 1)
    ensures doc.hasModalButtons && !(0 <= st.currentProjectIndex < |st.projects|) ==>
              && c == TypeError
              && doc.visitDisabled == old(doc.visitDisabled) && doc.visitLabel == old(doc.visitLabel)
    ensures doc.hasModalButtons && 0 <= st.currentProjectIndex < |st.projects| ==>
              && doc.visitDisabled == !HasLink(st.projects[st.currentProjectIndex])
              && (c == TypeError <==> VisitText(st.language).None?)
              && doc.visitLabel == VisitText(st.language).GetOr(old(doc.visitLabel))
    ensures Refreshed(st, doc, c, old(doc.prevDisabled), old(doc.nextDisabled), old(doc.visitDisabled), old(doc.visitLabel))
  {
    if !doc.hasModalButtons {
      return Normal;
    }
    doc.prevDisabled := |st.projects| <= 1;
    doc.nextDisabled := |st.projects| <= 1;
    if !(0 <= st.currentProjectIndex < |st.projects|) {
      return TypeError;
    }
    var project := st.projects[st.currentProjectIndex];
    doc.visitDisabled := !HasLink(project);
    var visitText := VisitText(st.language);
    if visitText.None? {
      return TypeError;
    }
    doc.visitLabel := visitText.value;
    c := Normal;
  }

  /** `openProjectModal`: the first project with the id becomes current and is
      shown in the opened modal; an unknown id, or a page without the modal,
      changes nothing. */
  method OpenProjectModal(st: AppState, doc: Document, projectId: int) returns (c: Completion)
    modifies st`currentProjectIndex, doc`modalTitle, doc`modalContent, doc`modalOpen, doc`bodyOverflow,
             doc`prevDisabled, doc`nextDisabled, doc`visitDisabled, doc`visitLabel
    ensures var k := FindIndex(st.projects, (p: Project) => p.id == projectId);
      !(doc.hasProjectModal && doc.hasModalText) || k == -1 ==>
        && c == Normal
        && st.currentProjectIndex == old(st.currentProjectIndex)
        && doc.modalOpen == old(doc.modalOpen) && doc.modalTitle == old(doc.modalTitle)
        && doc.modalContent == old(doc.modalContent) && doc.bodyOverflow == old(doc.bodyOverflow)
        && doc.prevDisabled == old(doc.prevDisabled) && doc.nextDisabled == old(doc.nextDisabled)
        && doc.visitLabel == old(doc.visitLabel) && doc.visitDisabled == old(doc.visitDisabled)
    ensures doc.hasProjectModal && doc.hasModalText && (exists i :: 0 <= i < |st.projects| && st.projects[i].id == projectId) ==>
              && 0 <= st.currentProjectIndex < |st.projects|
              && st.projects[st.currentProjectIndex].id == projectId
              && (forall j :: 0 <= j < st.currentProjectIndex ==> st.projects[j].id != projectId)
              && doc.modalTitle == st.projects[st.currentProjectIndex].title
              && doc.modalContent == st.projects[st.currentProjectIndex].longDescription
              && doc.modalOpen && doc.bodyOverflow == "hidden"
              && (c == TypeError <==> doc.hasModalButtons && VisitText(st.language).None?)
              && Refreshed(st, doc, c, old(doc.prevDisabled), old(doc.nextDisabled), old(doc.visitDisabled), old(doc.visitLabel))
  {
    if !doc.hasProjectModal || !doc.hasModalText {
      return Normal;
    }
    var projectIndex := FindIndex(st.projects, (p: Project) => p.id == projectId);
    if projectIndex == -1 {
      return Normal;
    }
    st.currentProjectIndex := projectIndex;
    var project := st.projects[projectIndex];
    doc.modalTitle := project.title;
    doc.modalContent := project.longDescription;
    doc.modalOpen := true;
    doc.bodyOverflow := "hidden";
    c := UpdateModalNavigation(st, doc);
  }

  /** `closeProjectModal`. */
  method CloseProjectModal(doc: Document)
    modifies doc`modalOpen, doc`bodyOverflow
    ensures doc.hasProjectModal ==> !doc.modalOpen && doc.bodyOverflow == ""
    ensures !doc.hasProjectModal ==> doc.modalOpen == old(doc.modalOpen) && doc.bodyOverflow == old(doc.bodyOverflow)
  {
    if !doc.hasProjectModal {
      return;
    }
    doc.modalOpen := false;
    doc.bodyOverflow := "";
  }

  /** `navigateProject`: move the cursor one step with wrap-around, show that
      project, and refresh the buttons. */
  method NavigateProject(st: AppState, doc: Document, dir: Direction) returns (c: Completion)
    modifies st`currentProjectIndex, doc`modalTitle, doc`modalContent,
             doc`prevDisabled, doc`nextDisabled, doc`visitDisabled, doc`visitLabel
    ensures st.currentProjectIndex == NextIndex(dir, old(st.currentProjectIndex), |st.projects|)
    ensures 0 <= old(st.currentProjectIndex) < |st.projects| ==> 0 <= st.currentProjectIndex < |st.projects|
    ensures 0 <= st.currentProjectIndex < |st.projects| && doc.hasModalText ==>
              && doc.modalTitle == st.projects[st.currentProjectIndex].title
              && doc.modalContent == st.projects[st.currentProjectIndex].longDescription
    ensures 0 <= st.currentProjectIndex < |st.projects| ==>
              (c == TypeError <==> doc.hasModalButtons && VisitText(st.language).None?)
    ensures !(0 <= st.currentProjectIndex < |st.projects|) ==>
              (c == TypeError <==> doc.hasModalText || doc.hasModalButtons)
    ensures !doc.hasModalText ==> doc.modalTitle == old(doc.modalTitle) && doc.modalContent == old(doc.modalContent)
    ensures 0 <= st.currentProjectIndex < |st.projects| || !doc.hasModalText ==>
              Refreshed(st, doc, c, old(doc.prevDisabled), old(doc.nextDisabled), old(doc.visitDisabled), old(doc.visitLabel))
    ensures !(0 <= st.currentProjectIndex < |st.projects|) && doc.hasModalText ==>
              && doc.modalTitle == old(doc.modalTitle) && doc.modalContent == old(doc.modalContent)
              && doc.prevDisabled == old(doc.prevDisabled) && doc.nextDisabled == old(doc.nextDisabled)
              && doc.visitDisabled == old(doc.visitDisabled) && doc.visitLabel == old(doc.visitLabel)
  {
    var newIndex := NextIndex(dir, st.currentProjectIndex, |st.projects|);
    st.currentProjectIndex := newIndex;
    if doc.hasModalText {
      if !(0 <= newIndex < |st.projects|) {
        return TypeError;
      }
      var project := st.projects[newIndex];
      doc.modalTitle := project.title;
      doc.modalContent := project.longDescription;
    }
    c := UpdateModalNavigation(st, doc);
  }

  // ---------------------------------------------------------------------------
  // The category filter
  // ---------------------------------------------------------------------------

  /** A card stays visible for the filter `all`, or for a filter equal to one of
      the fields of its comma-separated categories, taken untrimmed. A button
      without `data-filter` shows nothing. */
  function CardShown(filter: Option<string>, categories: string): bool {
    filter == Some("all") || (filter.Some? && filter.value in Split(categories, ','))
  }

  /** For categories written as a comma-joined list, a card is shown exactly for
      `all` and for the listed categories. */
  lemma CardShownForJoinedCategories(filter: string, cats: seq<string>)
    requires |cats| >= 1 && forall i :: 0 <= i < |cats| ==> ',' !in cats[i]
    ensures CardShown(Some(filter), Join(cats, ',')) <==> filter == "all" || filter in cats
  {
    SplitJoin(cats, ',');
  }

  /** No trimming: after `web, app` the second category is ` app`, so the
      filter `app` hides the card. */
  lemma SpacesAreKept()
    ensures !CardShown(Some("app"), "web, app")
    ensures CardShown(Some(" app"), "web, app")
  {
    var cats := ["web", " app"];
    assert Join(cats, ',') == "web, app" by {
      assert Join(cats[1..], ',') == " app";
    }
    CardShownForJoinedCategories("app", cats);
    CardShownForJoinedCategories(" app", cats);
    assert "app" != "web" && "app" != " app" by {
      assert |"app"| != |" app"|;
      assert "app"[0] != "web"[0];
    }
  }

  /** A click on filter button `b`, once `initProjectFilters` has bound it (it
      binds nothing when the page has no cards): that button alone becomes
      active, and each card is shown or hidden by its categories. */
  method FilterClick(doc: Document, b: nat)
    requires b < |doc.filterButtons|
    modifies doc`filterButtons, doc`cards
    ensures |doc.cards| == 0 ==> doc.filterButtons == old(doc.filterButtons) && doc.cards == old(doc.cards)
    ensures |doc.filterButtons| == |old(doc.filterButtons)| && |doc.cards| == |old(doc.cards)|
    ensures |doc.cards| > 0 ==>
              && (forall i :: 0 <= i < |doc.filterButtons| ==> doc.filterButtons[i] == old(doc.filterButtons)[i].(active := i == b))
              && (forall i :: 0 <= i < |doc.cards| ==>
                    doc.cards[i] == old(doc.cards)[i].(shown := CardShown(old(doc.filterButtons)[b].filter, old(doc.cards)[i].categories)))
  {
    if |doc.cards| == 0 {
      return;
    }
    var i := 0;
    while i < |doc.filterButtons|
      invariant 0 <= i <= |doc.filterButtons| == |old(doc.filterButtons)|
      invariant forall j :: 0 <= j < i ==> doc.filterButtons[j] == old(doc.filterButtons)[j].(active := false)
      invariant forall j :: i <= j < |doc.filterButtons| ==> doc.filterButtons[j] == old(doc.filterButtons)[j]
      invariant doc.cards == old(doc.cards)
    {
      doc.filterButtons := doc.filterButtons[i := doc.filterButtons[i].(active := false)];
      i := i + 1;
    }
    doc.filterButtons := doc.filterButtons[b := doc.filterButtons[b].(active := true)];
    var filter := doc.filterButtons[b].filter;
    var k := 0;
    while k < |doc.cards|
      invariant 0 <= k <= |doc.cards| == |old(doc.cards)|
      invariant forall j :: 0 <= j < k ==>
                  doc.cards[j] == old(doc.cards)[j].(shown := CardShown(filter, old(doc.cards)[j].categories))
      invariant forall j :: k <= j < |doc.cards| ==> doc.cards[j] == old(doc.cards)[j]
      invariant |doc.filterButtons| == |old(doc.filterButtons)|
      invariant forall j :: 0 <= j < |doc.filterButtons| ==> doc.filterButtons[j] == old(doc.filterButtons)[j].(active := j == b)
    {
      var card := doc.cards[k];
      var categories := Split(card.categories, ',');
      if filter == Some("all") || (filter.Some? && filter.value in categories) {
        doc.cards := doc.cards[k := card.(shown := true)];
      } else {
        doc.cards := doc.cards[k := card.(shown := false)];
      }
      k := k + 1;
    }
  }
}
